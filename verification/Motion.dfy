/** What the tracker's motion prediction amounts to: where it expects an object that moved steadily and
    was then missed, and which points a trajectory holds. Nothing here speaks of the prediction or the
    smoothing by name. */
module Motion {
  import opened Boxes
  import opened Options
  import opened RealProducts
  import opened StableSort
  import opened Tracking
  import opened TrackingTheorems

  // ---------------------------------------------------------------- one update

  /** The stored state of a track that detection `d` was assigned to. */
  ghost predicate FollowsDetection(s: State, after: map<string, TrackState>, cfg: Config, id: string, d: Detection,
                                   traj: seq<Point>) {
    && id in after
    && after[id] == (if id in s.tracks then Moved(s.tracks[id], d, cfg.velSmooth) else Born(d))
    && traj == Recent(after[id].traj)
  }

  ghost predicate AllFollow(cfg: Config, s: State, p: Progress, dets: seq<Detection>) {
    |p.out| == |dets| &&
    forall i :: 0 <= i < |dets| ==>
      FollowsDetection(s, p.s.tracks, cfg, p.out[i].trackId, dets[i], p.out[i].trajectory)
  }

  /** Tracks not matched yet are as they were. */
  ghost predicate OthersWait(s: State, p: Progress) {
    forall id :: id in s.tracks && id !in p.used ==> id in p.s.tracks && p.s.tracks[id] == s.tracks[id]
  }

  ghost predicate FromState(preds: seq<Prediction>, s: State) {
    forall q :: q in preds ==> q.id in s.tracks
  }

  /** One association touches only the track it reports. */
  lemma {:induction false} OneFollows(cfg: Config, camera: string, preds: seq<Prediction>, s: State, p: Progress,
                                      d: Detection)
    requires Sound(cfg, s) && Alive(preds, s.tracks) && Alive(preds, p.s.tracks) && FromState(preds, s)
    requires StateFits(cfg, s, p) && IdsFit(s, p) && OthersWait(s, p)
    ensures var r := Associate1(cfg, camera, preds, p, d);
            && |r.out| == |p.out| + 1 && r.out[..|p.out|] == p.out
            && FollowsDetection(s, r.s.tracks, cfg, r.out[|p.out|].trackId, d, r.out[|p.out|].trajectory)
            && OthersWait(s, r) && Elsewhere(p.s.tracks, r.s.tracks, r.out[|p.out|].trackId)
  {
    hide Moved, Born, Scan;
    var best := Scan(preds, d.bbox, p.used);
    ScanIsBest(preds, d.bbox, p.used);
    hide Sound;
    if best.id.Some? && best.iou >= cfg.iouThreshold {
      assert IsPrediction(preds, best.id.value, d.bbox, best.iou);
    } else {
      BornTrajectory(d);
      BirthFits(cfg, camera, s, p, d);
    }
  }

  lemma BornTrajectory(d: Detection)
    ensures Recent(Born(d).traj) == Born(d).traj
  {
  }

  ghost predicate Elsewhere(before: map<string, TrackState>, after: map<string, TrackState>, id: string) {
    forall x :: x in before && x != id ==> x in after && after[x] == before[x]
  }

  lemma {:induction false} AssociateFollows(cfg: Config, camera: string, preds: seq<Prediction>, s: State,
                                            dets: seq<Detection>)
    requires Wf(s) && Sound(cfg, s) && Alive(preds, s.tracks) && FromState(preds, s)
    ensures var p := Associate(cfg, camera, preds, s, dets);
            AllFollow(cfg, s, p, dets) && OthersWait(s, p)
  {
    if dets != [] {
      hide Moved, Born, Scan, Recent, Sound, Wf, Associate1, FollowsDetection, StateFits;
      var n := |dets| - 1;
      var p := Associate(cfg, camera, preds, s, dets[..n]);
      var r := Associate1(cfg, camera, preds, p, dets[n]);
      AssociateFollows(cfg, camera, preds, s, dets[..n]);
      AssociateFits(cfg, camera, preds, s, dets[..n]);
      AssociateFits(cfg, camera, preds, s, dets);
      OneFollows(cfg, camera, preds, s, p, dets[n]);
      AssociateLast(cfg, camera, preds, s, dets);
      assert DistinctIds(r.out);
      forall i | 0 <= i < |dets|
        ensures FollowsDetection(s, r.s.tracks, cfg, r.out[i].trackId, dets[i], r.out[i].trajectory)
      {
        if i < n {
          assert r.out[i] == p.out[i] && dets[..n][i] == dets[i];
          StillFollows(s, p.s.tracks, r.s.tracks, cfg, p.out[i], dets[i], r.out[n].trackId);
        }
      }
    }
  }

  lemma StillFollows(s: State, before: map<string, TrackState>, after: map<string, TrackState>, cfg: Config, t: Track,
                     d: Detection, id: string)
    requires FollowsDetection(s, before, cfg, t.trackId, d, t.trajectory) && Elsewhere(before, after, id)
    requires t.trackId != id
    ensures FollowsDetection(s, after, cfg, t.trackId, d, t.trajectory)
  {
  }

  /** The last `n` points, or all if there are fewer. */
  function LastOnes(ps: seq<Point>, n: nat): seq<Point> {
    if |ps| <= n then ps else ps[|ps| - n..]
  }

  /** `now` is `st` after a sighting at box `b`: its velocity is the displacement with weight `s` and the
      old velocity with weight 1 - s, and the box's midpoint is added to the last 20 points. */
  ghost predicate Sighted(st: TrackState, now: TrackState, b: Box, c: Point, s: real) {
    && now.bbox == b && now.age == 0 && IsMidpoint(c, b)
    && now.vel.x == s * (b.x - st.bbox.x) + (1.0 - s) * st.vel.x
    && now.vel.y == s * (b.y - st.bbox.y) + (1.0 - s) * st.vel.y
    && now.vel.w == s * (b.w - st.bbox.w) + (1.0 - s) * st.vel.w
    && now.vel.h == s * (b.h - st.bbox.h) + (1.0 - s) * st.vel.h
    && now.traj == LastOnes(st.traj + [c], 20)
  }

  lemma MovedIsSighted(st: TrackState, d: Detection, s: real)
    requires 1 <= |st.traj| <= 20
    ensures Sighted(st, Moved(st, d, s), d.bbox, Center(d.bbox), s)
    ensures Recent(Moved(st, d, s).traj) == Moved(st, d, s).traj
  {
    Commute(s, d.bbox.x - st.bbox.x, st.vel.x);
    Commute(s, d.bbox.y - st.bbox.y, st.vel.y);
    Commute(s, d.bbox.w - st.bbox.w, st.vel.w);
    Commute(s, d.bbox.h - st.bbox.h, st.vel.h);
  }

  lemma Commute(s: real, d: real, v: real)
    ensures d * s + v * (1.0 - s) == s * d + (1.0 - s) * v
  {
  }

  lemma {:induction false} UpdateFollows(cfg: Config, s: State, camera: string, detections: seq<Detection>, i: nat)
    requires Ready(cfg, s) && i < |Step(cfg, s, camera, detections).out|
    ensures var o := Step(cfg, s, camera, detections);
            o.out[i].trackId in s.tracks ==>
              && o.out[i].trackId in o.s.tracks
              && exists d: Detection ::
                   d.bbox == o.out[i].bbox && o.s.tracks[o.out[i].trackId]
                       == Moved(s.tracks[o.out[i].trackId], d, cfg.velSmooth)
                   && o.out[i].trajectory == Recent(o.s.tracks[o.out[i].trackId].traj)
  {
    hide Moved, Born, Recent, Sound, Associate, AgeAll, Sort;
    var preds := Predictions(s.order, s.tracks);
    var dets := Sort(detections, ByConfidence);
    var p := Associate(cfg, camera, preds, s, dets);
    AssociateFits(cfg, camera, preds, s, dets);
    PredictionMember(s);
    AssociateFollows(cfg, camera, preds, s, dets);
    var o := Step(cfg, s, camera, detections);
    var id := p.out[i].trackId;
    if id in s.tracks {
      assert FollowsDetection(s, p.s.tracks, cfg, id, dets[i], p.out[i].trajectory);
      AgeingSpares(cfg, p.s, p.used, id);
      assert OldOrNew(s, p, id) && Reports(p.out[i], dets[i]);
    }
  }

  lemma AgeingSpares(cfg: Config, s: State, used: set<string>, id: string)
    requires Wf(s) && id in s.tracks && id in used
    ensures var r := AgeAll(cfg, s, used, s.order); id in r.tracks && r.tracks[id] == s.tracks[id]
  {
    AgeAllAges(cfg, s, used, s.order);
    assert AgedTo(cfg, s, used, AgeAll(cfg, s, used, s.order), id);
  }

  /** An update sights exactly the tracks it reports, each at the box it reports, and reports the new
      trajectory. */
  lemma {:induction false} ReportedIsSighted(cfg: Config, s: State, camera: string, detections: seq<Detection>, i: nat)
    requires Ready(cfg, s) && i < |Step(cfg, s, camera, detections).out|
    ensures var o := Step(cfg, s, camera, detections);
            var t := o.out[i];
            t.trackId in s.tracks ==>
              && t.trackId in o.s.tracks
              && Sighted(s.tracks[t.trackId], o.s.tracks[t.trackId], t.bbox, t.center, cfg.velSmooth)
              && t.trajectory == o.s.tracks[t.trackId].traj
  {
    var o := Step(cfg, s, camera, detections);
    var t := o.out[i];
    StepSound(cfg, s, camera, detections);
    assert Reports(t, Sort(detections, ByConfidence)[i]);
    hide Step, Recent, Moved, Sighted, Sort;
    UpdateFollows(cfg, s, camera, detections, i);
    if t.trackId in s.tracks {
      assert SoundTrack(cfg, s.counters, t.trackId, s.tracks[t.trackId]);
      var d: Detection :| d.bbox == t.bbox && o.s.tracks[t.trackId] == Moved(s.tracks[t.trackId], d, cfg.velSmooth)
                          && t.trajectory == Recent(o.s.tracks[t.trackId].traj);
      MovedIsSighted(s.tracks[t.trackId], d, cfg.velSmooth);
    }
  }

  lemma {:induction false} AgedNewcomer(cfg: Config, s: State, used: set<string>, id: string)
    requires Wf(s) && id in s.tracks
    ensures var r := AgeAll(cfg, s, used, s.order);
            id in r.tracks ==> r.tracks[id] == s.tracks[id].(age := r.tracks[id].age)
  {
    AgeAllAges(cfg, s, used, s.order);
    assert AgedTo(cfg, s, used, AgeAll(cfg, s, used, s.order), id);
  }

  /** A track reported for the first time starts at rest at the box reported, its trajectory that box's
      midpoint. */
  lemma {:induction false} NewcomerIsAtRest(cfg: Config, s: State, camera: string, detections: seq<Detection>, i: nat)
    requires Ready(cfg, s) && i < |Step(cfg, s, camera, detections).out|
    ensures var o := Step(cfg, s, camera, detections);
            var t := o.out[i];
            t.trackId !in s.tracks && t.trackId in o.s.tracks ==>
              var st := o.s.tracks[t.trackId];
              && st.bbox == t.bbox && st.vel == Velocity(0.0, 0.0, 0.0, 0.0)
              && st.traj == [t.center] == t.trajectory && IsMidpoint(t.center, t.bbox)
  {
    hide Moved, Sound, Associate, AgeAll, Sort;
    var preds := Predictions(s.order, s.tracks);
    var dets := Sort(detections, ByConfidence);
    var p := Associate(cfg, camera, preds, s, dets);
    AssociateFits(cfg, camera, preds, s, dets);
    PredictionMember(s);
    AssociateFollows(cfg, camera, preds, s, dets);
    var id := p.out[i].trackId;
    assert FollowsDetection(s, p.s.tracks, cfg, id, dets[i], p.out[i].trajectory) && Reports(p.out[i], dets[i]);
    if id !in s.tracks {
      AgedNewcomer(cfg, p.s, p.used, id);
    }
  }

  // ---------------------------------------------------------------- trajectories over runs

  /** The track reported under an id. */
  function ReportOf(out: seq<Track>, id: string): Option<Track> {
    if out == [] then None
    else if out[0].trackId == id then Some(out[0])
    else ReportOf(out[1..], id)
  }

  lemma {:induction false} ReportOfFinds(out: seq<Track>, id: string)
    ensures ReportOf(out, id).Some? <==> Reported(out, id)
    ensures ReportOf(out, id).Some? ==>
              exists i :: 0 <= i < |out| && out[i] == ReportOf(out, id).value && out[i].trackId == id
  {
    if out != [] && out[0].trackId != id {
      ReportOfFinds(out[1..], id);
      if Reported(out, id) {
        var i :| 0 <= i < |out| && out[i].trackId == id;
        assert out[1..][i - 1].trackId == id;
      }
      if ReportOf(out, id).Some? {
        var i :| 0 <= i < |out[1..]| && out[1..][i] == ReportOf(out, id).value && out[1..][i].trackId == id;
        assert out[i + 1] == out[1..][i];
      }
    }
  }

  /** The reports of one track, in order. */
  function ReportsOf(reports: seq<seq<Track>>, id: string): seq<Track> {
    if reports == [] then []
    else (if ReportOf(reports[0], id).Some? then [ReportOf(reports[0], id).value] else []) + ReportsOf(reports[1..], id)
  }

  function CentersOf(ts: seq<Track>): (r: seq<Point>)
    ensures |r| == |ts| && forall i :: 0 <= i < |ts| ==> r[i] == ts[i].center
  {
    seq(|ts|, i requires 0 <= i < |ts| => ts[i].center)
  }

  /** One update, seen from one track that survives it. */
  lemma {:induction false} OneUpdate(cfg: Config, s: State, f: Frame, id: string)
    requires Ready(cfg, s) && id in s.tracks
    ensures var o := Step(cfg, s, f.camera, f.detections);
            var t := ReportOf(o.out, id);
            && Ready(cfg, o.s)
            && (t.Some? ==>
                  && id in o.s.tracks && t.value.trackId == id && t.value.trajectory == o.s.tracks[id].traj
                  && Sighted(s.tracks[id], o.s.tracks[id], t.value.bbox, t.value.center, cfg.velSmooth))
            && (t.None? && id in o.s.tracks ==> o.s.tracks[id] == s.tracks[id].(age := s.tracks[id].age + 1))
            && (t.None? && id !in o.s.tracks ==> Issued(o.s.counters, id))
  {
    hide Step, Sighted, Sound, Wf;
    var o := Step(cfg, s, f.camera, f.detections);
    StepSound(cfg, s, f.camera, f.detections);
    ReportOfFinds(o.out, id);
    if ReportOf(o.out, id).Some? {
      var i :| 0 <= i < |o.out| && o.out[i] == ReportOf(o.out, id).value && o.out[i].trackId == id;
      ReportedIsSighted(cfg, s, f.camera, f.detections, i);
    } else {
      UnmatchedAges(cfg, s, f.camera, f.detections, id);
      AliveIsIssued(cfg, s, id);
      IssuedGrows(s.counters, o.s.counters, id);
    }
  }

  lemma AliveIsIssued(cfg: Config, s: State, id: string)
    requires Ready(cfg, s) && id in s.tracks
    ensures Issued(s.counters, id)
  {
    assert SoundTrack(cfg, s.counters, id, s.tracks[id]);
  }

  lemma LastOnesTwice(a: seq<Point>, b: seq<Point>, n: nat)
    ensures LastOnes(LastOnes(a, n) + b, n) == LastOnes(a + b, n)
  {
  }

  /** After the reports `ts` a track has the box of the last one, and as trajectory the last 20 of the
      points it held before and the midpoints of the boxes reported; the last report carried it. */
  ghost predicate Holds(before: TrackState, now: TrackState, ts: seq<Track>) {
    && now.traj == LastOnes(before.traj + CentersOf(ts), 20)
    && now.bbox == (if ts == [] then before.bbox else ts[|ts| - 1].bbox)
    && (ts != [] ==> ts[|ts| - 1].trajectory == now.traj)
    && forall i :: 0 <= i < |ts| ==> IsMidpoint(ts[i].center, ts[i].bbox)
  }

  lemma HoldsFirst(before: TrackState, next: TrackState, now: TrackState, t: Track, rest: seq<Track>, s: real)
    requires Sighted(before, next, t.bbox, t.center, s) && t.trajectory == next.traj && Holds(next, now, rest)
    requires |now.traj| <= 20
    ensures Holds(before, now, [t] + rest)
  {
    hide IsMidpoint;
    var ts := [t] + rest;
    assert before.traj + CentersOf(ts) == before.traj + [t.center] + CentersOf(rest);
    LastOnesTwice(before.traj + [t.center], CentersOf(rest), 20);
    if rest == [] {
      assert next.traj + CentersOf(rest) == next.traj;
    }
  }

  lemma HoldsStill(before: TrackState, next: TrackState, now: TrackState, ts: seq<Track>)
    requires next.bbox == before.bbox && next.traj == before.traj && Holds(next, now, ts)
    ensures Holds(before, now, ts)
  {
  }

  lemma ShortTrajectory(cfg: Config, s: State, id: string)
    requires Ready(cfg, s) && id in s.tracks
    ensures 1 <= |s.tracks[id].traj| <= 20
  {
    assert SoundTrack(cfg, s.counters, id, s.tracks[id]);
  }

  lemma ReportsSplit(cfg: Config, s: State, frames: seq<Frame>, id: string)
    requires Ready(cfg, s) && frames != []
    ensures var o := Step(cfg, s, frames[0].camera, frames[0].detections);
            var t := ReportOf(o.out, id);
            && Ready(cfg, o.s) && Run(cfg, s, frames) == Run(cfg, o.s, frames[1..])
            && ReportsOf(RunReports(cfg, s, frames), id)
               == (if t.Some? then [t.value] else []) + ReportsOf(RunReports(cfg, o.s, frames[1..]), id)
  {
    StepSound(cfg, s, frames[0].camera, frames[0].detections);
    hide Step, Sound, Wf;
    var o := Step(cfg, s, frames[0].camera, frames[0].detections);
    var reports := RunReports(cfg, s, frames);
    assert reports[1..] == RunReports(cfg, o.s, frames[1..]);
  }

  lemma {:induction false} TrajectoryHoldsMidpoints(cfg: Config, s: State, frames: seq<Frame>, id: string)
    requires Ready(cfg, s) && id in s.tracks && id in Run(cfg, s, frames).tracks
    ensures Holds(s.tracks[id], Run(cfg, s, frames).tracks[id], ReportsOf(RunReports(cfg, s, frames), id))
    decreases |frames|
  {
    ShortTrajectory(cfg, s, id);
    if frames == [] {
      assert s.tracks[id].traj + CentersOf([]) == s.tracks[id].traj;
    } else {
      hide Step, Ready, Issued, Sighted, Holds, RunReports, ReportsOf;
      var o := Step(cfg, s, frames[0].camera, frames[0].detections);
      OneUpdate(cfg, s, frames[0], id);
      ReportsSplit(cfg, s, frames, id);
      hide Run;
      if id in o.s.tracks {
        TrajectoryHoldsMidpoints(cfg, o.s, frames[1..], id);
        var rest := ReportsOf(RunReports(cfg, o.s, frames[1..]), id);
        var now := Run(cfg, s, frames).tracks[id];
        ShortTrajectory(cfg, Run(cfg, s, frames), id);
        var t := ReportOf(o.out, id);
        if t.Some? {
          HoldsFirst(s.tracks[id], o.s.tracks[id], now, t.value, rest, cfg.velSmooth);
        } else {
          assert [] + rest == rest;
          HoldsStill(s.tracks[id], o.s.tracks[id], now, rest);
        }
      } else {
        IdsNeverRecur(cfg, o.s, frames[1..], id);
      }
    }
  }

  // ---------------------------------------------------------------- steady motion

  function Pow(q: real, n: nat): real {
    if n == 0 then 1.0 else q * Pow(q, n - 1)
  }

  lemma PowNext(q: real, n: nat)
    ensures Pow(q, n + 1) == q * Pow(q, n)
  {
  }

  /** A box moved by `c` times the displacement `d`, its size changed likewise. */
  function Along(b: Box, d: Velocity, c: real): Box {
    Box(b.x + c * d.x, b.y + c * d.y, b.w + c * d.w, b.h + c * d.h)
  }

  /** Each of the updates reports the track, one displacement further than the one before. */
  ghost predicate MovesBy(reports: seq<seq<Track>>, id: string, b: Box, d: Velocity, from: nat) {
    forall k :: 0 <= k < |reports| ==>
      var t := ReportOf(reports[k], id);
      t.Some? && t.value.bbox == Along(b, d, (from + k + 1) as real)
  }

  /** On one axis: `n` displacements on from `b`, the velocity short of one by the part `p`. */
  ghost predicate Axis(at: real, vel: real, b: real, d: real, n: nat, p: real) {
    at == b + n as real * d && vel == (1.0 - p) * d
  }

  /** One component of a sighting, `n + 1` displacements on. */
  ghost predicate AxisSighted(at: real, vel: real, at': real, vel': real, b: real, d: real, n: nat, s: real) {
    at' == b + (n + 1) as real * d && vel' == s * (at' - at) + (1.0 - s) * vel
  }

  lemma SightedAxes(st: TrackState, now: TrackState, b: Box, d: Velocity, n: nat, c: Point, s: real)
    requires Sighted(st, now, Along(b, d, (n + 1) as real), c, s)
    ensures AxisSighted(st.bbox.x, st.vel.x, now.bbox.x, now.vel.x, b.x, d.x, n, s)
    ensures AxisSighted(st.bbox.y, st.vel.y, now.bbox.y, now.vel.y, b.y, d.y, n, s)
    ensures AxisSighted(st.bbox.w, st.vel.w, now.bbox.w, now.vel.w, b.w, d.w, n, s)
    ensures AxisSighted(st.bbox.h, st.vel.h, now.bbox.h, now.vel.h, b.h, d.h, n, s)
  {
    hide LastOnes, IsMidpoint;
  }

  lemma AxisMoves(at: real, vel: real, at': real, vel': real, b: real, d: real, n: nat, p: real, p': real, s: real,
                  q: real)
    requires Axis(at, vel, b, d, n, p) && AxisSighted(at, vel, at', vel', b, d, n, s)
    requires q == 1.0 - s && p' == q * p
    ensures Axis(at', vel', b, d, n + 1, p')
  {
    OneDisplacement(b, d, n);
    Weights(s, d, p);
  }

  lemma OneDisplacement(b: real, d: real, n: nat)
    ensures (b + (n + 1) as real * d) - (b + n as real * d) == d
  {
    assert (n + 1) as real * d == n as real * d + d;
  }

  lemma Weights(s: real, d: real, p: real)
    ensures s * d + (1.0 - s) * ((1.0 - p) * d) == (1.0 - (1.0 - s) * p) * d
  {
    var q := 1.0 - s;
    assert s * d == d - q * d;
    assert (1.0 - p) * d == d - p * d;
    assert q * (d - p * d) == q * d - q * (p * d);
    assert q * (p * d) == (q * p) * d;
    assert (1.0 - q * p) * d == d - (q * p) * d;
  }

  /** The track is `n` displacements on from `b`, and its velocity has come up accordingly. */
  ghost predicate Cruises(st: TrackState, b: Box, d: Velocity, q: real, n: nat) {
    var p := Pow(q, n);
    && Axis(st.bbox.x, st.vel.x, b.x, d.x, n, p) && Axis(st.bbox.y, st.vel.y, b.y, d.y, n, p)
    && Axis(st.bbox.w, st.vel.w, b.w, d.w, n, p) && Axis(st.bbox.h, st.vel.h, b.h, d.h, n, p)
  }

  /** One more displacement. */
  lemma SightedFurther(st: TrackState, now: TrackState, b: Box, d: Velocity, n: nat, c: Point, s: real, q: real)
    requires q == 1.0 - s && Cruises(st, b, d, q, n)
    requires Sighted(st, now, Along(b, d, (n + 1) as real), c, s)
    ensures Cruises(now, b, d, q, n + 1)
  {
    hide Axis, AxisSighted, Pow, Sighted;
    var p, p' := Pow(q, n), Pow(q, n + 1);
    PowNext(q, n);
    SightedAxes(st, now, b, d, n, c, s);
    AxisMoves(st.bbox.x, st.vel.x, now.bbox.x, now.vel.x, b.x, d.x, n, p, p', s, q);
    AxisMoves(st.bbox.y, st.vel.y, now.bbox.y, now.vel.y, b.y, d.y, n, p, p', s, q);
    AxisMoves(st.bbox.w, st.vel.w, now.bbox.w, now.vel.w, b.w, d.w, n, p, p', s, q);
    AxisMoves(st.bbox.h, st.vel.h, now.bbox.h, now.vel.h, b.h, d.h, n, p, p', s, q);
  }

  lemma {:induction false} OneMove(cfg: Config, s: State, frames: seq<Frame>, id: string, b: Box, d: Velocity,
                                   from: nat,
                                   q: real)
    requires Ready(cfg, s) && id in s.tracks && MovesBy(RunReports(cfg, s, frames), id, b, d, from) && frames != []
    requires q == 1.0 - cfg.velSmooth && Cruises(s.tracks[id], b, d, q, from)
    ensures var next := Step(cfg, s, frames[0].camera, frames[0].detections).s;
            && Ready(cfg, next) && id in next.tracks && Cruises(next.tracks[id], b, d, q, from + 1)
            && MovesBy(RunReports(cfg, next, frames[1..]), id, b, d, from + 1)
            && Run(cfg, s, frames) == Run(cfg, next, frames[1..])
  {
    hide Step, Cruises, Along, Sighted, RunReports, MovesBy, Pow;
    OneUpdate(cfg, s, frames[0], id);
    MovesFurther(cfg, s, frames, id, b, d, from);
    RunFirst(cfg, s, frames);
    hide Run;
    var o := Step(cfg, s, frames[0].camera, frames[0].detections);
    SightedFurther(s.tracks[id], o.s.tracks[id], b, d, from, ReportOf(o.out, id).value.center, cfg.velSmooth, q);
  }

  lemma {:induction false} SteadyMotion(cfg: Config, s: State, frames: seq<Frame>, id: string, b: Box, d: Velocity,
                                        from: nat, n: nat, q: real)
    requires Ready(cfg, s) && id in s.tracks && MovesBy(RunReports(cfg, s, frames), id, b, d, from)
    requires q == 1.0 - cfg.velSmooth && Cruises(s.tracks[id], b, d, q, from) && n == from + |frames|
    ensures id in Run(cfg, s, frames).tracks
    ensures Cruises(Run(cfg, s, frames).tracks[id], b, d, q, n)
    decreases |frames|
  {
    if frames == [] {
      assert Run(cfg, s, frames) == s && n == from;
    } else {
      hide Step, Cruises, RunReports, MovesBy, Run;
      OneMove(cfg, s, frames, id, b, d, from, q);
      var next := Step(cfg, s, frames[0].camera, frames[0].detections).s;
      SteadyMotion(cfg, next, frames[1..], id, b, d, from + 1, n, q);
    }
  }

  /** A track reported in the last update has age 0. */
  lemma {:induction false} ReportedIsYoung(cfg: Config, s: State, frames: seq<Frame>, id: string, b: Box, d: Velocity,
                                           from: nat)
    requires Ready(cfg, s) && id in s.tracks && frames != [] && MovesBy(RunReports(cfg, s, frames), id, b, d, from)
    ensures id in Run(cfg, s, frames).tracks && Run(cfg, s, frames).tracks[id].age == 0
    decreases |frames|
  {
    hide Step, Along, RunReports, MovesBy, Sound, Sighted;
    var o := Step(cfg, s, frames[0].camera, frames[0].detections);
    OneUpdate(cfg, s, frames[0], id);
    MovesFurther(cfg, s, frames, id, b, d, from);
    RunFirst(cfg, s, frames);
    if |frames| == 1 {
      var t := ReportOf(o.out, id);
      SightedIsYoung(s.tracks[id], o.s.tracks[id], t.value.bbox, t.value.center, cfg.velSmooth);
    } else {
      hide Run;
      ReportedIsYoung(cfg, o.s, frames[1..], id, b, d, from + 1);
    }
  }

  lemma RunFirst(cfg: Config, s: State, frames: seq<Frame>)
    requires Ready(cfg, s) && frames != []
    ensures var o := Step(cfg, s, frames[0].camera, frames[0].detections);
            Ready(cfg, o.s) && Run(cfg, s, frames) == Run(cfg, o.s, frames[1..])
  {
    StepSound(cfg, s, frames[0].camera, frames[0].detections);
  }

  lemma SightedIsYoung(st: TrackState, now: TrackState, b: Box, c: Point, s: real)
    requires Sighted(st, now, b, c, s)
    ensures now.age == 0
  {
  }

  lemma MovesFurther(cfg: Config, s: State, frames: seq<Frame>, id: string, b: Box, d: Velocity, from: nat)
    requires Ready(cfg, s) && frames != [] && MovesBy(RunReports(cfg, s, frames), id, b, d, from)
    ensures var o := Step(cfg, s, frames[0].camera, frames[0].detections);
            && Ready(cfg, o.s)
            && ReportOf(o.out, id).Some? && ReportOf(o.out, id).value.bbox == Along(b, d, (from + 1) as real)
            && MovesBy(RunReports(cfg, o.s, frames[1..]), id, b, d, from + 1)
  {
    StepSound(cfg, s, frames[0].camera, frames[0].detections);
    hide Step, Sound, Wf, Along;
    var o := Step(cfg, s, frames[0].camera, frames[0].detections);
    var reports := RunReports(cfg, s, frames);
    var rest := RunReports(cfg, o.s, frames[1..]);
    assert reports[0] == o.out && reports[1..] == rest;
    forall k | 0 <= k < |rest|
      ensures ReportOf(rest[k], id).Some? && ReportOf(rest[k], id).value.bbox == Along(b, d, (from + 1 + k + 1) as real)
    {
      assert reports[k + 1] == rest[k];
    }
  }

  // ---------------------------------------------------------------- the forecast decides

  /** Where a track is looked for: a track seen in the last update at its own box, one that was missed
      at its box moved on by its velocity, its sizes cut at zero. */
  ghost predicate IsForecast(st: TrackState, f: Box) {
    if st.age <= 0 then f == st.bbox
    else
      && f.x == st.bbox.x + st.vel.x && f.y == st.bbox.y + st.vel.y
      && (var w := st.bbox.w + st.vel.w; f.w >= 0.0 && f.w >= w && (f.w == 0.0 || f.w == w))
      && (var h := st.bbox.h + st.vel.h; f.h >= 0.0 && f.h >= h && (f.h == 0.0 || f.h == h))
  }

  lemma ForecastIs(s: State, q: Prediction, f: Box)
    requires Wf(s) && q in Predictions(s.order, s.tracks) && IsForecast(s.tracks[q.id], f)
    ensures q.bbox == f
  {
    PredictionMember(s);
  }

  ghost predicate Fits(cfg: Config, b: Box, f: Box) {
    Iou(b, f) > 0.0 && Iou(b, f) >= cfg.iouThreshold
  }

  /** Whatever else is tracked and detected, a detection reported under an old id fits its forecast. */
  lemma {:induction false} ReportedFitsForecast(cfg: Config, s: State, camera: string, detections: seq<Detection>,
                                                i: nat, f: Box)
    requires Ready(cfg, s) && i < |Step(cfg, s, camera, detections).out|
    ensures var t := Step(cfg, s, camera, detections).out[i];
            t.trackId in s.tracks && IsForecast(s.tracks[t.trackId], f) ==> Fits(cfg, t.bbox, f)
  {
    var out := Step(cfg, s, camera, detections).out;
    var preds := Predictions(s.order, s.tracks);
    var sorted := Sort(detections, ByConfidence);
    StepIsStable(cfg, s, camera, detections);
    StepSound(cfg, s, camera, detections);
    hide Step, Sort, NoBlockingPair, IsForecast;
    if out[i].trackId in s.tracks && IsForecast(s.tracks[out[i].trackId], f) {
      assert Reports(out[i], sorted[i]);
      PredictionMember(s);
      var q := Prediction(out[i].trackId, Predict(s.tracks[out[i].trackId]));
      assert q in preds && q.id == Ids(out)[i];
      ForecastIs(s, q, f);
      assert Acceptable(cfg, sorted[i], q);
    }
  }

  /** When only one track is known, a lone detection is reported under its id exactly when it fits the
      forecast. */
  lemma {:induction false} LoneDetection(cfg: Config, s: State, camera: string, d: Detection, id: string, f: Box)
    requires Ready(cfg, s) && s.tracks.Keys == {id} && IsForecast(s.tracks[id], f)
    ensures Reported(Step(cfg, s, camera, [d]).out, id) <==> Fits(cfg, d.bbox, f)
  {
    var out := Step(cfg, s, camera, [d]).out;
    var preds := Predictions(s.order, s.tracks);
    OneSorted(d);
    StepIsStable(cfg, s, camera, [d]);
    StepSound(cfg, s, camera, [d]);
    assert Reports(out[0], [d][0]);
    hide Step, IsForecast;
    PredictionMember(s);
    var q := Prediction(id, Predict(s.tracks[id]));
    assert q in preds;
    ForecastIs(s, q, f);
    if Reported(out, id) {
      assert out[0].trackId == id && Ids(out)[0] == q.id;
      assert Acceptable(cfg, [d][0], q);
    }
    if Fits(cfg, d.bbox, f) {
      assert Unblocked(preds, [d], Ids(out), 0, q);
      if Satisfied(preds, [d], Ids(out), 0, q) {
        var r :| r in preds && r.id == Ids(out)[0];
        assert r.id in s.tracks && r.id == id;
      }
      assert Ids(out)[0] == id;
    }
  }

  lemma OneSorted(d: Detection)
    ensures Sort([d], ByConfidence) == [d]
  {
    assert [d][1..] == [];
    assert Sort([d][1..], ByConfidence) == [];
  }

  /** The forecast for an object last seen at `b` moved `n` times by `d` from rest, and missed since
      then: one more displacement but for the part (1 - s)^n; not missed: where it was seen. */
  ghost predicate SteadyForecast(f: Box, b: Box, d: Velocity, s: real, n: nat, missed: bool) {
    var c := if missed then (n + 1) as real - Pow(1.0 - s, n) else n as real;
    && f.x == b.x + c * d.x && f.y == b.y + c * d.y
    && f.w == (if missed then Max(0.0, b.w + c * d.w) else b.w + c * d.w)
    && f.h == (if missed then Max(0.0, b.h + c * d.h) else b.h + c * d.h)
  }

  lemma AxisAhead(at: real, vel: real, b: real, d: real, n: nat, p: real)
    requires Axis(at, vel, b, d, n, p)
    ensures at + vel == b + ((n + 1) as real - p) * d && at == b + n as real * d
  {
    assert ((n + 1) as real - p) * d == n as real * d + (1.0 - p) * d;
  }

  lemma SteadyForecastIs(st: TrackState, f: Box, b: Box, d: Velocity, s: real, n: nat)
    requires var q := 1.0 - s; Cruises(st, b, d, q, n)
    requires SteadyForecast(f, b, d, s, n, st.age > 0)
    ensures IsForecast(st, f)
  {
    hide Axis;
    var p := Pow(1.0 - s, n);
    AxisAhead(st.bbox.x, st.vel.x, b.x, d.x, n, p);
    AxisAhead(st.bbox.y, st.vel.y, b.y, d.y, n, p);
    AxisAhead(st.bbox.w, st.vel.w, b.w, d.w, n, p);
    AxisAhead(st.bbox.h, st.vel.h, b.h, d.h, n, p);
  }

  /** Motion prediction: a track at rest at `b` is reported `n` times, each time displaced by `d`, and then
      missed in `misses` updates. If it is still alive, and is the only one, a lone detection is reported
      under its id exactly when it fits the forecast one displacement ahead, less the part (1 - s)^n; if it
      was not missed, when it fits the box last seen. */
  lemma {:induction false} SteadyObjectIsFollowed(cfg: Config, s: State, moves: seq<Frame>, misses: seq<Frame>,
                                                  id: string,
                                                  b: Box, d: Velocity, camera: string, x: Detection, f: Box)
    requires Ready(cfg, s) && id in s.tracks
    requires s.tracks[id].bbox == b && s.tracks[id].vel == Velocity(0.0, 0.0, 0.0, 0.0)
    requires moves != [] && MovesBy(RunReports(cfg, s, moves), id, b, d, 0)
    requires var seen := Run(cfg, s, moves);
             && (forall k :: 0 <= k < |misses| ==> !Reported(RunReports(cfg, seen, misses)[k], id))
             && Run(cfg, seen, misses).tracks.Keys == {id}
    requires SteadyForecast(f, b, d, cfg.velSmooth, |moves|, misses != [])
    ensures Reported(Step(cfg, Run(cfg, Run(cfg, s, moves), misses), camera, [x]).out, id) <==> Fits(cfg, x.bbox, f)
  {
    hide Run, RunReports, MovesBy, Cruises, Along, SteadyForecast, IsForecast, Fits, Step, Ready, Reported;
    var seen, q := Run(cfg, s, moves), 1.0 - cfg.velSmooth;
    AtRest(s.tracks[id], d, q);
    SteadyMotion(cfg, s, moves, id, b, d, 0, |moves|, q);
    ReportedIsYoung(cfg, s, moves, id, b, d, 0);
    RunReady(cfg, s, moves);
    StillCruising(cfg, seen, misses, id, b, d, |moves|, q);
    var missed := Run(cfg, seen, misses);
    SteadyForecastIs(missed.tracks[id], f, b, d, cfg.velSmooth, |moves|);
    LoneDetection(cfg, missed, camera, x, id, f);
  }

  lemma RunReady(cfg: Config, s: State, frames: seq<Frame>)
    requires Ready(cfg, s)
    ensures Ready(cfg, Run(cfg, s, frames))
  {
  }

  /** Misses change nothing but the age. */
  lemma {:induction false} StillCruising(cfg: Config, seen: State, misses: seq<Frame>, id: string, b: Box, d: Velocity,
                                         n: nat, q: real)
    requires Ready(cfg, seen) && id in seen.tracks && seen.tracks[id].age == 0 && Cruises(seen.tracks[id], b, d, q, n)
    requires forall k :: 0 <= k < |misses| ==> !Reported(RunReports(cfg, seen, misses)[k], id)
    requires id in Run(cfg, seen, misses).tracks
    ensures var st := Run(cfg, seen, misses).tracks[id];
            Ready(cfg, Run(cfg, seen, misses)) && Cruises(st, b, d, q, n) && (st.age > 0 <==> misses != [])
  {
    MissesUntilDropped(cfg, seen, misses, id);
    hide Axis, Pow;
  }

  lemma AtRest(st: TrackState, d: Velocity, q: real)
    requires st.vel == Velocity(0.0, 0.0, 0.0, 0.0)
    ensures Cruises(st, st.bbox, d, q, 0)
  {
    assert Pow(q, 0) == 1.0;
  }

  /** With a smoothing factor in [0, 1] the forecast lies between the last box and one displacement on. */
  lemma {:induction false} ForecastBetween(s: real, n: nat)
    requires 0.0 <= s <= 1.0
    ensures 0.0 <= 1.0 - Pow(1.0 - s, n) <= 1.0
  {
    if n > 0 {
      ForecastBetween(s, n - 1);
      NonNegativeProduct(1.0 - s, Pow(1.0 - s, n - 1));
      NonNegativeProduct(s, Pow(1.0 - s, n - 1));
      Complement(s, Pow(1.0 - s, n - 1));
    }
  }

  lemma Complement(s: real, p: real)
    ensures (1.0 - s) * p == p - s * p
  {
  }
}
