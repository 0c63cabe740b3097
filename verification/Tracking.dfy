/** The multi-object tracker: constant-velocity prediction, serial greedy association by IoU,
    ageing of unmatched tracks. The state is a value, so that whole runs can be reasoned about;
    class IouTracker holds it in fields and updates it step by step. */
module Tracking {
  import opened Boxes
  import opened Options
  import opened StableSort
  import opened TrackIds

  /** `kind` is the class label given by the detector. */
  datatype Detection = Detection(kind: string, confidence: real, bbox: Box)

  datatype Track = Track(trackId: string, bbox: Box, confidence: real, center: Point,
                         trajectory: seq<Point>, kind: string)

  datatype Velocity = Velocity(x: real, y: real, w: real, h: real)

  datatype TrackState = TrackState(bbox: Box, vel: Velocity, age: int, kind: string, traj: seq<Point>)

  /** `order` is the insertion order of the dictionary `tracks`. */
  datatype State = State(order: seq<string>, tracks: map<string, TrackState>, counters: map<string, nat>)

  datatype Config = Config(iouThreshold: real, maxAge: nat, velSmooth: real)

  datatype Prediction = Prediction(id: string, bbox: Box)

  const MAX_TRAJECTORY := 20

  // ---------------------------------------------------------------- one update, as a function

  function Predict(st: TrackState): Box {
    if st.age > 0 then
      Box(st.bbox.x + st.vel.x, st.bbox.y + st.vel.y,
          Max(0.0, st.bbox.w + st.vel.w), Max(0.0, st.bbox.h + st.vel.h))
    else
      st.bbox
  }

  function Predictions(order: seq<string>, tracks: map<string, TrackState>): (r: seq<Prediction>)
    requires forall i :: 0 <= i < |order| ==> order[i] in tracks
    ensures |r| == |order|
    ensures forall i :: 0 <= i < |r| ==> r[i] == Prediction(order[i], Predict(tracks[order[i]]))
  {
    seq(|order|, i requires 0 <= i < |order| => Prediction(order[i], Predict(tracks[order[i]])))
  }

  datatype Best = Best(id: Option<string>, iou: real)

  /** The scan over the predictions: the first unused one with the largest positive IoU. */
  function Scan(preds: seq<Prediction>, box: Box, used: set<string>): (b: Best)
    ensures b.id.Some? ==> exists i :: 0 <= i < |preds| && preds[i].id == b.id.value
  {
    if preds == [] then Best(None, 0.0)
    else
      var n := |preds| - 1;
      var b := Scan(preds[..n], box, used);
      if preds[n].id !in used && Iou(box, preds[n].bbox) > b.iou
      then Best(Some(preds[n].id), Iou(box, preds[n].bbox))
      else b
  }

  function ByConfidence(d: Detection): real {
    -d.confidence
  }

  function Smooth(now: real, before: real, vel: real, s: real): real {
    (now - before) * s + vel * (1.0 - s)
  }

  function SmoothVelocity(b: Box, old_: Box, v: Velocity, s: real): Velocity {
    Velocity(Smooth(b.x, old_.x, v.x, s), Smooth(b.y, old_.y, v.y, s),
             Smooth(b.w, old_.w, v.w, s), Smooth(b.h, old_.h, v.h, s))
  }

  /** Appending to a trajectory drops its oldest point once it is full. */
  function Extend(traj: seq<Point>, p: Point): seq<Point> {
    var t := traj + [p];
    if |t| > MAX_TRAJECTORY then t[1..] else t
  }

  function Recent(traj: seq<Point>): seq<Point> {
    if |traj| > MAX_TRAJECTORY then traj[|traj| - MAX_TRAJECTORY..] else traj
  }

  function Moved(st: TrackState, det: Detection, s: real): TrackState {
    TrackState(det.bbox, SmoothVelocity(det.bbox, st.bbox, st.vel, s), 0, det.kind,
               Extend(st.traj, Center(det.bbox)))
  }

  function Born(det: Detection): TrackState {
    TrackState(det.bbox, Velocity(0.0, 0.0, 0.0, 0.0), 0, det.kind, [Center(det.bbox)])
  }

  function ReportTrack(id: string, det: Detection, traj: seq<Point>): Track {
    Track(id, det.bbox, det.confidence, Center(det.bbox), traj, det.kind)
  }

  function Issue(counters: map<string, nat>, camera: string): nat {
    (if camera in counters then counters[camera] else 0) + 1
  }

  /** Association in progress: the state so far, the tracks already matched, the output so far. */
  datatype Progress = Progress(s: State, used: set<string>, out: seq<Track>)

  ghost predicate Alive(preds: seq<Prediction>, tracks: map<string, TrackState>) {
    forall i :: 0 <= i < |preds| ==> preds[i].id in tracks
  }

  function Associate1(cfg: Config, camera: string, preds: seq<Prediction>, p: Progress, det: Detection): (r: Progress)
    requires Alive(preds, p.s.tracks)
    ensures Alive(preds, r.s.tracks)
  {
    var best := Scan(preds, det.bbox, p.used);
    if best.id.Some? && best.iou >= cfg.iouThreshold then
      var id := best.id.value;
      var st := Moved(p.s.tracks[id], det, cfg.velSmooth);
      Progress(p.s.(tracks := p.s.tracks[id := st]), p.used + {id},
               p.out + [ReportTrack(id, det, Recent(st.traj))])
    else
      var n := Issue(p.s.counters, camera);
      var id := TrackId(camera, n);
      var order := if id in p.s.tracks then p.s.order else p.s.order + [id];
      Progress(State(order, p.s.tracks[id := Born(det)], p.s.counters[camera := n]), p.used,
               p.out + [ReportTrack(id, det, Born(det).traj)])
  }

  function Associate(cfg: Config, camera: string, preds: seq<Prediction>, s: State, dets: seq<Detection>): (r: Progress)
    requires Alive(preds, s.tracks)
    ensures Alive(preds, r.s.tracks)
  {
    if dets == [] then Progress(s, {}, [])
    else
      var n := |dets| - 1;
      Associate1(cfg, camera, preds, Associate(cfg, camera, preds, s, dets[..n]), dets[n])
  }

  function Without(order: seq<string>, id: string): seq<string> {
    if order == [] then []
    else if order[0] == id then Without(order[1..], id)
    else [order[0]] + Without(order[1..], id)
  }

  function Age1(cfg: Config, s: State, used: set<string>, id: string): State {
    if id in used || id !in s.tracks then s
    else
      var st := s.tracks[id].(age := s.tracks[id].age + 1);
      if st.age > cfg.maxAge then s.(order := Without(s.order, id), tracks := s.tracks - {id})
      else s.(tracks := s.tracks[id := st])
  }

  function AgeAll(cfg: Config, s: State, used: set<string>, ids: seq<string>): State {
    if ids == [] then s
    else Age1(cfg, AgeAll(cfg, s, used, ids[..|ids| - 1]), used, ids[|ids| - 1])
  }

  /** The dictionary and its insertion order agree. */
  ghost predicate Wf(s: State) {
    && (forall i, j :: 0 <= i < j < |s.order| ==> s.order[i] != s.order[j])
    && (forall id :: id in s.order <==> id in s.tracks)
  }

  datatype Outcome = Outcome(s: State, out: seq<Track>)

  function Step(cfg: Config, s: State, camera: string, detections: seq<Detection>): Outcome
    requires Wf(s)
  {
    var preds := Predictions(s.order, s.tracks);
    var p := Associate(cfg, camera, preds, s, Sort(detections, ByConfidence));
    Outcome(AgeAll(cfg, p.s, p.used, p.s.order), p.out)
  }

  const EMPTY := State([], map[], map[])

  // ---------------------------------------------------------------- the tracker object

  class IouTracker {
    const cfg: Config
    var order: seq<string>
    var tracks: map<string, TrackState>
    var counters: map<string, nat>

    ghost function Snapshot(): State
      reads this
    {
      State(order, tracks, counters)
    }

    ghost predicate Valid()
      reads this
    {
      Wf(Snapshot()) && Sound(cfg, Snapshot())
    }

    constructor (cfg: Config)
      ensures this.cfg == cfg
      ensures Valid() && Snapshot() == EMPTY
    {
      this.cfg := cfg;
      order, tracks, counters := [], map[], map[];
    }

    method NextId(camera: string) returns (id: string)
      modifies this`counters
      ensures id == TrackId(camera, Issue(old(counters), camera))
      ensures counters == old(counters)[camera := Issue(old(counters), camera)]
    {
      var n := (if camera in counters then counters[camera] else 0) + 1;
      counters := counters[camera := n];
      id := TrackId(camera, n);
    }

    method BestPrediction(preds: seq<Prediction>, box: Box, used: set<string>) returns (id: Option<string>, iou: real)
      ensures Best(id, iou) == Scan(preds, box, used)
    {
      id, iou := None, 0.0;
      for i := 0 to |preds|
        invariant Best(id, iou) == Scan(preds[..i], box, used)
      {
        assert preds[..i + 1][..i] == preds[..i];
        if preds[i].id in used {
          continue;
        }
        var score := Iou(box, preds[i].bbox);
        if score > iou {
          id, iou := Some(preds[i].id), score;
        }
      }
      assert preds[..|preds|] == preds;
    }

    /** The serial greedy association of the sorted detections. */
    method AssociateAll(camera: string, preds: seq<Prediction>, sorted: seq<Detection>)
      returns (used: set<string>, out: seq<Track>)
      requires Alive(preds, tracks)
      modifies this
      ensures Progress(Snapshot(), used, out) == Associate(cfg, camera, preds, old(Snapshot()), sorted)
    {
      used, out := {}, [];
      for i := 0 to |sorted|
        invariant Progress(Snapshot(), used, out) == Associate(cfg, camera, preds, old(Snapshot()), sorted[..i])
      {
        assert sorted[..i + 1][..i] == sorted[..i];
        var det := sorted[i];
        var bestId, bestIou := BestPrediction(preds, det.bbox, used);
        if bestId.Some? && bestIou >= cfg.iouThreshold {
          var id := bestId.value;
          var st := Moved(tracks[id], det, cfg.velSmooth);
          tracks := tracks[id := st];
          used := used + {id};
          out := out + [ReportTrack(id, det, Recent(st.traj))];
        } else {
          var id := NextId(camera);
          if id !in tracks {
            order := order + [id];
          }
          tracks := tracks[id := Born(det)];
          out := out + [ReportTrack(id, det, tracks[id].traj)];
        }
      }
      assert sorted[..|sorted|] == sorted;
    }

    /** Unmatched tracks grow older and are dropped when too old. */
    method AgeUnmatched(used: set<string>)
      modifies this`order, this`tracks
      ensures Snapshot() == AgeAll(cfg, old(Snapshot()), used, old(order))
    {
      var ids := order;
      for i := 0 to |ids|
        invariant Snapshot() == AgeAll(cfg, old(Snapshot()), used, ids[..i])
      {
        assert ids[..i + 1][..i] == ids[..i];
        var id := ids[i];
        if id !in used && id in tracks {
          tracks := tracks[id := tracks[id].(age := tracks[id].age + 1)];
          if tracks[id].age > cfg.maxAge {
            assert tracks - {id} == AgeAll(cfg, old(Snapshot()), used, ids[..i]).tracks - {id};
            tracks := tracks - {id};
            order := Without(order, id);
          }
        }
      }
      assert ids[..|ids|] == ids;
    }

    /** One frame: `Step` of the old state, and the invariant holds again. */
    method Update(camera: string, detections: seq<Detection>) returns (out: seq<Track>)
      requires Valid()
      modifies this
      ensures Valid()
      ensures Outcome(Snapshot(), out) == Step(cfg, old(Snapshot()), camera, detections)
    {
      ghost var before := Snapshot();
      var preds := Predictions(order, tracks);
      var used: set<string>;
      used, out := AssociateAll(camera, preds, Sort(detections, ByConfidence));
      AgeUnmatched(used);
      StepSound(cfg, before, camera, detections);
    }
  }

  // ---------------------------------------------------------------- the scan

  /** A scan result is an unused prediction, and no unused prediction overlaps the box more. */
  ghost predicate BestFree(preds: seq<Prediction>, box: Box, used: set<string>, b: Best) {
    && b.iou >= 0.0
    && (b.id.None? ==> b.iou == 0.0)
    && (b.id.Some? ==> b.iou > 0.0 && b.id.value !in used && IsPrediction(preds, b.id.value, box, b.iou))
    && forall q :: q in preds && q.id !in used ==> Iou(box, q.bbox) <= b.iou
  }

  ghost predicate IsPrediction(preds: seq<Prediction>, id: string, box: Box, iou: real) {
    exists q :: q in preds && q.id == id && Iou(box, q.bbox) == iou
  }

  lemma {:induction false} ScanIsBest(preds: seq<Prediction>, box: Box, used: set<string>)
    ensures BestFree(preds, box, used, Scan(preds, box, used))
  {
    if preds != [] {
      var n := |preds| - 1;
      ScanIsBest(preds[..n], box, used);
      assert preds[n] in preds;
      assert forall q :: q in preds <==> q in preds[..n] || q == preds[n];
    }
  }

  // ---------------------------------------------------------------- the run invariant

  /** The id was handed out by one of the counters. */
  ghost predicate Issued(counters: map<string, nat>, id: string) {
    exists c, n: nat :: c in counters && 1 <= n <= counters[c] && id == TrackId(c, n)
  }

  ghost predicate SoundTrack(cfg: Config, counters: map<string, nat>, id: string, st: TrackState) {
    0 <= st.age <= cfg.maxAge && 1 <= |st.traj| <= MAX_TRAJECTORY && Issued(counters, id)
  }

  ghost predicate Sound(cfg: Config, s: State) {
    forall id :: id in s.tracks ==> SoundTrack(cfg, s.counters, id, s.tracks[id])
  }

  ghost predicate Grew(before: map<string, nat>, after: map<string, nat>) {
    forall c :: c in before ==> c in after && before[c] <= after[c]
  }

  lemma IssuedGrows(before: map<string, nat>, after: map<string, nat>, id: string)
    requires Grew(before, after) && Issued(before, id)
    ensures Issued(after, id)
  {
    var c, n: nat :| c in before && 1 <= n <= before[c] && id == TrackId(c, n);
    assert c in after && n <= after[c];
  }

  /** A freshly numbered id differs from every id issued before. */
  lemma NextIdIsNew(counters: map<string, nat>, camera: string)
    ensures !Issued(counters, TrackId(camera, Issue(counters, camera)))
    ensures var counters' := counters[camera := Issue(counters, camera)];
            Grew(counters, counters') && Issued(counters', TrackId(camera, Issue(counters, camera)))
  {
    var k := Issue(counters, camera);
    if Issued(counters, TrackId(camera, k)) {
      var c, n: nat :| c in counters && 1 <= n <= counters[c] && TrackId(camera, k) == TrackId(c, n);
      TrackIdInjective(camera, k, c, n);
    }
    assert Issued(counters[camera := k], TrackId(camera, k));
  }

  /** The state stays sound, only gains tracks and never lowers a counter. */
  ghost predicate StateFits(cfg: Config, s: State, p: Progress) {
    && Wf(p.s) && Sound(cfg, p.s) && Grew(s.counters, p.s.counters)
    && s.tracks.Keys <= p.s.tracks.Keys
    && (forall id :: id in p.s.tracks && id !in s.tracks ==> !Issued(s.counters, id))
  }

  ghost predicate Reports(t: Track, d: Detection) {
    t.bbox == d.bbox && t.confidence == d.confidence && t.kind == d.kind && t.center == Center(d.bbox)
  }

  ghost predicate ReportsAll(out: seq<Track>, dets: seq<Detection>) {
    |out| == |dets| && forall i :: 0 <= i < |dets| ==> Reports(out[i], dets[i])
  }

  ghost predicate DistinctIds(out: seq<Track>) {
    forall i, j :: 0 <= i < j < |out| ==> out[i].trackId != out[j].trackId
  }

  ghost predicate Reported(out: seq<Track>, id: string) {
    exists i :: 0 <= i < |out| && out[i].trackId == id
  }

  /** An output id is a matched old track, or was never issued before this update. */
  ghost predicate OldOrNew(s: State, p: Progress, id: string) {
    && id in p.s.tracks
    && (id in s.tracks ==> id in p.used)
    && (id !in s.tracks ==> !Issued(s.counters, id))
  }

  ghost predicate IdsFit(s: State, p: Progress) {
    && DistinctIds(p.out)
    && (forall i :: 0 <= i < |p.out| ==> OldOrNew(s, p, p.out[i].trackId))
    && (forall id :: id in p.used ==> id in s.tracks && Reported(p.out, id))
  }

  lemma {:induction false} AssociateFits(cfg: Config, camera: string, preds: seq<Prediction>, s: State,
                                         dets: seq<Detection>)
    requires Alive(preds, s.tracks) && Wf(s) && Sound(cfg, s)
    ensures var p := Associate(cfg, camera, preds, s, dets);
            StateFits(cfg, s, p) && IdsFit(s, p) && ReportsAll(p.out, dets)
  {
    if dets != [] {
      var n := |dets| - 1;
      AssociateFits(cfg, camera, preds, s, dets[..n]);
      Associate1Fits(cfg, camera, preds, s, Associate(cfg, camera, preds, s, dets[..n]), dets[n]);
    }
  }

  lemma {:induction false} Associate1Fits(cfg: Config, camera: string, preds: seq<Prediction>, s: State, p: Progress,
                                          det: Detection)
    requires Alive(preds, s.tracks) && Alive(preds, p.s.tracks) && Sound(cfg, s)
    requires StateFits(cfg, s, p) && IdsFit(s, p)
    ensures var r := Associate1(cfg, camera, preds, p, det);
            && StateFits(cfg, s, r) && IdsFit(s, r)
            && |r.out| == |p.out| + 1 && p.out == r.out[..|p.out|] && Reports(r.out[|p.out|], det)
  {
    var best := Scan(preds, det.bbox, p.used);
    ScanIsBest(preds, det.bbox, p.used);
    if best.id.Some? && best.iou >= cfg.iouThreshold {
      var st := Moved(p.s.tracks[best.id.value], det, cfg.velSmooth);
      MatchFits(cfg, s, p, best.id.value, det, ReportTrack(best.id.value, det, Recent(st.traj)));
    } else {
      BirthFits(cfg, camera, s, p, det);
    }
  }

  lemma {:induction false} MatchFits(cfg: Config, s: State, p: Progress, id: string, det: Detection, t: Track)
    requires Sound(cfg, s) && StateFits(cfg, s, p) && IdsFit(s, p)
    requires id in s.tracks && id in p.s.tracks && id !in p.used && t.trackId == id
    ensures var tracks := p.s.tracks[id := Moved(p.s.tracks[id], det, cfg.velSmooth)];
            var r := Progress(p.s.(tracks := tracks), p.used + {id}, p.out + [t]);
            StateFits(cfg, s, r) && IdsFit(s, r)
  {
    var st := Moved(p.s.tracks[id], det, cfg.velSmooth);
    var r := Progress(p.s.(tracks := p.s.tracks[id := st]), p.used + {id}, p.out + [t]);
    assert SoundTrack(cfg, p.s.counters, id, p.s.tracks[id]);
    assert SoundTrack(cfg, r.s.counters, id, st);
    forall x | x in r.s.tracks ensures SoundTrack(cfg, r.s.counters, x, r.s.tracks[x]) {
      assert x != id ==> SoundTrack(cfg, p.s.counters, x, p.s.tracks[x]);
    }
    OneMoreId(s, p, r, t);
  }

  lemma {:induction false} BirthFits(cfg: Config, camera: string, s: State, p: Progress, det: Detection)
    requires Sound(cfg, s) && StateFits(cfg, s, p) && IdsFit(s, p)
    ensures var n := Issue(p.s.counters, camera);
            var id := TrackId(camera, n);
            var s' := State(p.s.order + [id], p.s.tracks[id := Born(det)], p.s.counters[camera := n]);
            id !in p.s.tracks && StateFits(cfg, s, Progress(s', p.used, p.out + [ReportTrack(id, det, Born(det).traj)]))
            && IdsFit(s, Progress(s', p.used, p.out + [ReportTrack(id, det, Born(det).traj)]))
  {
    var n := Issue(p.s.counters, camera);
    var id := TrackId(camera, n);
    var t := ReportTrack(id, det, Born(det).traj);
    var s' := State(p.s.order + [id], p.s.tracks[id := Born(det)], p.s.counters[camera := n]);
    var r := Progress(s', p.used, p.out + [t]);
    NextIdIsNew(p.s.counters, camera);
    assert id !in p.s.tracks by {
      assert id in p.s.tracks ==> SoundTrack(cfg, p.s.counters, id, p.s.tracks[id]);
    }
    if Issued(s.counters, id) {
      IssuedGrows(s.counters, p.s.counters, id);
    }
    forall x | x in r.s.tracks ensures SoundTrack(cfg, r.s.counters, x, r.s.tracks[x]) {
      if x != id {
        assert SoundTrack(cfg, p.s.counters, x, p.s.tracks[x]);
        IssuedGrows(p.s.counters, r.s.counters, x);
      }
    }
    assert Wf(r.s) by {
      assert r.s.order[|p.s.order|] == id;
    }
    OneMoreId(s, p, r, t);
  }

  lemma {:induction false} OneMoreId(s: State, p: Progress, r: Progress, t: Track)
    requires IdsFit(s, p) && r.out == p.out + [t] && p.s.tracks.Keys <= r.s.tracks.Keys
    requires OldOrNew(s, r, t.trackId)
    requires (t.trackId in s.tracks && t.trackId !in p.used && r.used == p.used + {t.trackId})
          || (t.trackId !in p.s.tracks && r.used == p.used)
    ensures IdsFit(s, r)
  {
    assert r.out[|p.out|] == t;
    forall i | 0 <= i < |p.out| ensures r.out[i] == p.out[i] && p.out[i].trackId != t.trackId {
      assert OldOrNew(s, p, p.out[i].trackId);
    }
    forall i | 0 <= i < |r.out| ensures OldOrNew(s, r, r.out[i].trackId) {
      assert i < |p.out| ==> OldOrNew(s, p, p.out[i].trackId);
    }
    forall id | id in r.used ensures id in s.tracks && Reported(r.out, id) {
      if id in p.used {
        var i :| 0 <= i < |p.out| && p.out[i].trackId == id;
        assert r.out[i].trackId == id;
      }
    }
  }

  // ---------------------------------------------------------------- ageing

  lemma {:induction false} WithoutMembers(order: seq<string>, id: string)
    requires forall i, j :: 0 <= i < j < |order| ==> order[i] != order[j]
    ensures var r := Without(order, id);
            (forall i, j :: 0 <= i < j < |r| ==> r[i] != r[j]) && (forall x :: x in r <==> x in order && x != id)
  {
    if order != [] {
      WithoutMembers(order[1..], id);
      assert forall x :: x in order <==> x in order[1..] || x == order[0];
      var r := Without(order[1..], id);
      assert forall i :: 0 <= i < |r| ==> r[i] in order[1..];
    }
  }

  /** What ageing does to one track: matched tracks stay, others grow older or are dropped. */
  ghost predicate AgedTo(cfg: Config, s: State, used: set<string>, s': State, id: string) {
    if id !in s.tracks || id in used then
      (id in s'.tracks <==> id in s.tracks) && (id in s.tracks ==> s'.tracks[id] == s.tracks[id])
    else
      && (id in s'.tracks <==> s.tracks[id].age + 1 <= cfg.maxAge)
      && (id in s'.tracks ==> s'.tracks[id] == s.tracks[id].(age := s.tracks[id].age + 1))
  }

  ghost predicate Untouched(s: State, s': State, id: string) {
    (id in s'.tracks <==> id in s.tracks) && (id in s.tracks ==> s'.tracks[id] == s.tracks[id])
  }

  lemma {:induction false} AgeAllAges(cfg: Config, s: State, used: set<string>, ids: seq<string>)
    requires Wf(s)
    requires forall i, j :: 0 <= i < j < |ids| ==> ids[i] != ids[j]
    ensures var s' := AgeAll(cfg, s, used, ids);
            && Wf(s') && s'.counters == s.counters
            && (forall id :: id in ids ==> AgedTo(cfg, s, used, s', id))
            && (forall id :: id !in ids ==> Untouched(s, s', id))
  {
    if ids != [] {
      var n := |ids| - 1;
      AgeAllAges(cfg, s, used, ids[..n]);
      var s1 := AgeAll(cfg, s, used, ids[..n]);
      var s' := AgeAll(cfg, s, used, ids);
      assert ids[n] !in ids[..n];
      assert Untouched(s, s1, ids[n]);
      WithoutMembers(s1.order, ids[n]);
      assert forall id :: id in ids <==> id in ids[..n] || id == ids[n];
      forall id | id in ids ensures AgedTo(cfg, s, used, s', id) {
        assert id != ids[n] ==> AgedTo(cfg, s, used, s1, id);
      }
    }
  }

  // ---------------------------------------------------------------- the invariant of every update

  /** Every update keeps the state sound and returns one track per detection, in confidence order,
      with pairwise different ids; an id that was not alive before is one never issued before. */
  lemma StepSound(cfg: Config, s: State, camera: string, detections: seq<Detection>)
    requires Wf(s) && Sound(cfg, s)
    ensures var r := Step(cfg, s, camera, detections);
            && Wf(r.s) && Sound(cfg, r.s) && Grew(s.counters, r.s.counters)
            && ReportsAll(r.out, Sort(detections, ByConfidence))
            && DistinctIds(r.out)
            && (forall i :: 0 <= i < |r.out| && r.out[i].trackId !in s.tracks ==> !Issued(s.counters, r.out[i].trackId))
            && (forall id :: id in r.s.tracks && id !in s.tracks ==> !Issued(s.counters, id))
  {
    hide Associate, AgeAll, Sort, Issued;
    var preds := Predictions(s.order, s.tracks);
    var p := Associate(cfg, camera, preds, s, Sort(detections, ByConfidence));
    AssociateFits(cfg, camera, preds, s, Sort(detections, ByConfidence));
    AgeAllAges(cfg, p.s, p.used, p.s.order);
    var r := Step(cfg, s, camera, detections);
    forall id | id in r.s.tracks ensures id in p.s.tracks && SoundTrack(cfg, r.s.counters, id, r.s.tracks[id]) {
      assert id !in p.s.order ==> Untouched(p.s, r.s, id);
      assert AgedTo(cfg, p.s, p.used, r.s, id);
      assert SoundTrack(cfg, p.s.counters, id, p.s.tracks[id]);
    }
    forall i | 0 <= i < |r.out| && r.out[i].trackId !in s.tracks ensures !Issued(s.counters, r.out[i].trackId) {
      assert OldOrNew(s, p, p.out[i].trackId);
    }
  }
}
