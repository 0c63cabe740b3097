/** Whole runs of a camera pipeline: nothing masked is ever stored, presence windows follow each
    track's sightings, and the sampled detection rows stay close to the truth. */
module PipelineTheorems {
  import opened Boxes
  import opened Options
  import opened Overlaps
  import opened Pipeline
  import opened RealProducts
  import Rules
  import RuleTheorems
  import StableSort
  import Tracking
  import TrackingTheorems
  import P = Presence
  import Intervals

  // ---------------------------------------------------------------- runs

  ghost predicate Ready(cfg: Config, s: State) {
    Tracking.Wf(s.tracker) && Tracking.Sound(cfg.tracker, s.tracker)
  }

  const START := State(Tracking.EMPTY, Rules.State(map[], map[]), map[], map[], map[], map[])

  lemma StepReady(cfg: Config, s: State, f: Frame)
    requires Ready(cfg, s)
    ensures Ready(cfg, Step(cfg, s, f).s)
    ensures Tracking.DistinctIds(Step(cfg, s, f).out.tracks)
  {
    if !Skipped(cfg, f) {
      Tracking.StepSound(cfg.tracker, s.tracker, cfg.camera, Accepted(cfg, f.raw));
    }
  }

  /** The pipeline's state after some frames. */
  ghost function Run(cfg: Config, frames: seq<Frame>): (s: State)
    ensures Ready(cfg, s)
    decreases |frames|
  {
    if frames == [] then START
    else
      var n := |frames| - 1;
      StepReady(cfg, Run(cfg, frames[..n]), frames[n]);
      Step(cfg, Run(cfg, frames[..n]), frames[n]).s
  }

  /** The frame's rules are evaluated without an exception, so it is processed to its end. */
  ghost predicate Completes(cfg: Config, s: State, f: Frame)
    requires Ready(cfg, s)
  {
    !Step(cfg, s, f).raised
  }

  /** With crowd thresholds of at least 1 every frame is. */
  lemma CompletesWhen(cfg: Config, s: State, f: Frame)
    requires Ready(cfg, s)
    requires cfg.rules.Some? ==>
               forall i :: 0 <= i < |cfg.rules.value| && cfg.rules.value[i].CrowdCount? ==>
                   cfg.rules.value[i].threshold >= 1
    ensures Completes(cfg, s, f)
  {
    var tracks := TrackFrame(cfg, s.tracker, f).out;
    if cfg.rules.Some? && tracks != [] {
      Rules.CrowdsNeverRaise(cfg.rules.value, cfg.camera, s.rules.crowdFired, Objects(tracks), f.ts);
    }
  }

  /** What frame `k` of a run writes. */
  ghost function OutputAt(cfg: Config, frames: seq<Frame>, k: nat): Output
    requires k < |frames|
  {
    Step(cfg, Run(cfg, frames[..k]), frames[k]).out
  }

  // ---------------------------------------------------------------- privacy masks

  /** The box's midpoint is a point of the rectangle. */
  ghost predicate MidpointUnder(r: Box, b: Box) {
    exists c: Point :: IsMidpoint(c, b) && r.x <= c.x <= r.x + r.w && r.y <= c.y <= r.y + r.h
  }

  /** At least half of the box's area lies in the rectangle, as measured by the intervals that the two
      have in common on the axes. */
  ghost predicate HalfUnder(r: Box, b: Box) {
    b.w * b.h > 0.0 && exists x0, x1, y0, y1 :: SharesHalf(r, b, x0, x1, y0, y1)
  }

  ghost predicate SharesHalf(r: Box, b: Box, x0: real, x1: real, y0: real, y1: real) {
    && CommonInterval(x0, x1, b.x, b.w, r.x, r.w) && CommonInterval(y0, y1, b.y, b.h, r.y, r.h)
    && 2.0 * ((x1 - x0) * (y1 - y0)) >= b.w * b.h
  }

  /** A stored mask hides a box when it is a rectangle of numbers, none of them negative, with the box's
      midpoint in it or half of the box's area. */
  ghost predicate Hides(m: MaskSpec, b: Box) {
    && m.Rect? && m.rect.x >= 0.0 && m.rect.y >= 0.0 && m.rect.w >= 0.0 && m.rect.h >= 0.0
    && (MidpointUnder(m.rect, b) || HalfUnder(m.rect, b))
  }

  lemma HalfIsFraction(shared: real, area: real)
    requires area > 0.0
    ensures shared / area >= MASK_MIN_OVERLAP <==> 2.0 * shared >= area
  {
    var q := shared / area;
    assert q * area == shared;
    if q >= 0.5 {
      NonNegativeProduct(q - 0.5, area);
    } else {
      PositiveProduct(0.5 - q, area, (0.5 - q) * area);
    }
  }

  lemma HalfUnderMeans(r: Box, b: Box)
    requires b.w * b.h > 0.0
    ensures HalfUnder(r, b) <==> 2.0 * Intersection(b, r) >= b.w * b.h
  {
    hide Intersection, CommonInterval, NothingCommon;
    var x0, x1 := Max(b.x, r.x), Min(b.x + b.w, r.x + r.w);
    var y0, y1 := Max(b.y, r.y), Min(b.y + b.h, r.y + r.h);
    CommonOrNothing(b.x, b.w, r.x, r.w);
    CommonOrNothing(b.y, b.h, r.y, r.h);
    forall u0, u1, v0, v1 | SharesHalf(r, b, u0, u1, v0, v1) ensures 2.0 * Intersection(b, r) >= b.w * b.h {
      SharedArea(b, r, u0, u1, v0, v1);
    }
    if CommonInterval(x0, x1, b.x, b.w, r.x, r.w) && CommonInterval(y0, y1, b.y, b.h, r.y, r.h) {
      SharedArea(b, r, x0, x1, y0, y1);
      assert 2.0 * Intersection(b, r) >= b.w * b.h ==> SharesHalf(r, b, x0, x1, y0, y1);
    } else {
      NothingShared(b, r);
    }
  }

  lemma HalfUnderIsOverlap(r: Box, b: Box)
    ensures HalfUnder(r, b) <==> OverlapFraction(b, r) >= MASK_MIN_OVERLAP
  {
    hide Intersection, SharesHalf;
    if b.w * b.h > 0.0 {
      HalfUnderMeans(r, b);
      HalfIsFraction(Intersection(b, r), b.w * b.h);
      hide HalfUnder;
    }
  }

  lemma HidesIsMaskedBy(m: MaskSpec, b: Box)
    ensures Hides(m, b) <==> ParseMask(m).Some? && MaskedBy(b, ParseMask(m).value)
  {
    if m.Rect? {
      HalfUnderIsOverlap(m.rect, b);
      forall c: Point ensures IsMidpoint(c, b) <==> c == Center(b) {
        CenterIsMidpoint(b, c);
      }
      hide HalfUnder, OverlapFraction, IsMidpoint, Center;
      assert IsMidpoint(Center(b), b);
    }
  }

  /** A detection is suppressed exactly when one of the stored masks hides it. */
  lemma {:induction false} MasksInForce(ms: seq<MaskSpec>, b: Box)
    ensures IsMasked(ParseMasks(ms), b) <==> exists i :: 0 <= i < |ms| && Hides(ms[i], b)
  {
    hide MaskedBy, Hides;
    if ms != [] {
      var n := |ms| - 1;
      var before, all := ParseMasks(ms[..n]), ParseMasks(ms);
      MasksInForce(ms[..n], b);
      HidesIsMaskedBy(ms[n], b);
      if IsMasked(before, b) {
        var i :| 0 <= i < |before| && MaskedBy(b, before[i]);
        assert all[i] == before[i];
        var k :| 0 <= k < n && Hides(ms[..n][k], b);
        assert Hides(ms[k], b);
      }
      if Hides(ms[n], b) {
        assert all[|before|] == ParseMask(ms[n]).value;
      }
      if IsMasked(all, b) {
        var i :| 0 <= i < |all| && MaskedBy(b, all[i]);
        assert i < |before| ==> before[i] == all[i];
      }
      if k :| 0 <= k < |ms| && Hides(ms[k], b) {
        assert k < n ==> Hides(ms[..n][k], b);
      }
    }
  }

  ghost predicate Unhidden(ms: seq<MaskSpec>, b: Box) {
    forall k :: 0 <= k < |ms| ==> !Hides(ms[k], b)
  }

  /** The box of a detection of this frame that met the confidence threshold and that no stored mask
      hides; with the motion gate on, in a frame with motion. */
  ghost predicate Shown(cfg: Config, f: Frame, b: Box) {
    && (cfg.motionGate ==> f.motion)
    && Unhidden(cfg.masks, b)
    && exists i :: 0 <= i < |f.raw| && f.raw[i].bbox == b && f.raw[i].confidence >= cfg.confidence
  }

  lemma AcceptableMeans(cfg: Config, d: Detection)
    ensures Acceptable(cfg, d) <==> d.confidence >= cfg.confidence && Unhidden(cfg.masks, d.bbox)
  {
    MasksInForce(cfg.masks, d.bbox);
  }

  lemma {:induction false} AcceptedAll(cfg: Config, raw: seq<Detection>, i: nat)
    requires i < |raw| && Acceptable(cfg, raw[i])
    ensures raw[i] in Accepted(cfg, raw)
  {
    hide Acceptable;
    var n := |raw| - 1;
    if i < n {
      assert raw[..n][i] == raw[i];
      AcceptedAll(cfg, raw[..n], i);
    }
  }

  ghost predicate ShownBefore(cfg: Config, frames: seq<Frame>, b: Box) {
    exists k :: 0 <= k < |frames| && Shown(cfg, frames[k], b)
  }

  lemma {:induction false} TracksAreShown(cfg: Config, t: Tracking.State, f: Frame)
    requires Tracking.Wf(t) && Tracking.Sound(cfg.tracker, t)
    ensures var tracks := TrackFrame(cfg, t, f).out;
            forall i :: 0 <= i < |tracks| ==> Shown(cfg, f, tracks[i].bbox)
  {
    if !Skipped(cfg, f) {
      var dets := Accepted(cfg, f.raw);
      var sorted := StableSort.Sort(dets, Tracking.ByConfidence);
      Tracking.StepSound(cfg.tracker, t, cfg.camera, dets);
      StableSort.SortMembers(dets, Tracking.ByConfidence);
      var tracks := TrackFrame(cfg, t, f).out;
      forall i | 0 <= i < |tracks| ensures Shown(cfg, f, tracks[i].bbox) {
        assert Tracking.Reports(tracks[i], sorted[i]);
        assert sorted[i] in sorted && sorted[i] in dets;
        var j :| 0 <= j < |dets| && dets[j] == sorted[i];
        assert dets[j] in f.raw;
        AcceptableMeans(cfg, dets[j]);
      }
    }
  }

  /** The boxes of a frame's tracks are exactly those shown: nothing visible is left out. */
  lemma {:induction false} TrackedIsShown(cfg: Config, t: Tracking.State, f: Frame, b: Box)
    requires Tracking.Wf(t) && Tracking.Sound(cfg.tracker, t)
    ensures BoxOfTrack(TrackFrame(cfg, t, f).out, b) <==> Shown(cfg, f, b)
  {
    var tracks := TrackFrame(cfg, t, f).out;
    TracksAreShown(cfg, t, f);
    if Shown(cfg, f, b) {
      var i :| 0 <= i < |f.raw| && f.raw[i].bbox == b && f.raw[i].confidence >= cfg.confidence;
      var dets := Accepted(cfg, f.raw);
      var sorted := StableSort.Sort(dets, Tracking.ByConfidence);
      AcceptableMeans(cfg, f.raw[i]);
      AcceptedAll(cfg, f.raw, i);
      StableSort.SortMembers(dets, Tracking.ByConfidence);
      Tracking.StepSound(cfg.tracker, t, cfg.camera, dets);
      hide Shown, Tracking.Step, StableSort.Sort, Accepted;
      var k :| 0 <= k < |sorted| && sorted[k] == f.raw[i];
      assert Tracking.Reports(tracks[k], sorted[k]);
    }
  }

  /** So a box that a stored mask hides, for instance one whose midpoint lies in it, is never shown. */
  lemma HiddenIsNeverShown(cfg: Config, frames: seq<Frame>, b: Box, k: nat)
    requires k < |cfg.masks| && Hides(cfg.masks[k], b)
    ensures !ShownBefore(cfg, frames, b)
  {
    hide Hides;
  }

  // Boxes in rule events are boxes of the evaluated objects.

  ghost predicate BoxOf(objects: seq<Rules.Object>, b: Box) {
    exists i :: 0 <= i < |objects| && objects[i].bbox == b
  }

  ghost predicate BoxesOf(objects: seq<Rules.Object>, events: seq<Rules.Event>) {
    forall i :: 0 <= i < |events| ==> BoxOf(objects, events[i].bbox)
  }

  lemma BoxesConcat(objects: seq<Rules.Object>, a: seq<Rules.Event>, b: seq<Rules.Event>)
    requires BoxesOf(objects, a) && BoxesOf(objects, b)
    ensures BoxesOf(objects, a + b)
  {
  }

  lemma {:induction false} RuleBoxes(rules: seq<Rules.Rule>, m: Rules.TrackMem, o: Rules.Object, w: Rules.Moment,
                                     objects: seq<Rules.Object>)
    requires BoxOf(objects, o.bbox)
    ensures BoxesOf(objects, Rules.EvalRules(rules, m, o, w).events)
  {
    if rules != [] {
      var n := |rules| - 1;
      var e := Rules.EvalRules(rules[..n], m, o, w);
      RuleBoxes(rules[..n], m, o, w, objects);
      OneRuleBoxes(rules[n], e.m, o, w, objects);
      BoxesConcat(objects, e.events, Rules.EvalRule(rules[n], e.m, o, w).events);
    }
  }

  lemma {:induction false} OneRuleBoxes(r: Rules.Rule, m: Rules.TrackMem, o: Rules.Object, w: Rules.Moment,
                                        objects: seq<Rules.Object>)
    requires BoxOf(objects, o.bbox)
    ensures BoxesOf(objects, Rules.EvalRule(r, m, o, w).events)
  {
    RuleTheorems.EvalRuleEvents(r, m, o, w);
  }

  lemma {:induction false} ObjectBoxes(rules: seq<Rules.Rule>, camera: string, mem: map<string, Rules.TrackMem>,
                                       objects: seq<Rules.Object>, ts: real, n: nat)
    requires n <= |objects|
    ensures BoxesOf(objects, Rules.EvalObjects(rules, camera, mem, objects[..n], ts).events)
  {
    if n > 0 {
      ObjectBoxes(rules, camera, mem, objects, ts, n - 1);
      assert objects[..n][..n - 1] == objects[..n - 1];
      var s := Rules.EvalObjects(rules, camera, mem, objects[..n - 1], ts);
      var o := objects[n - 1];
      var m := Rules.Recall(s.mem, o.id);
      assert BoxOf(objects, o.bbox);
      RuleBoxes(rules, m.(bbox := o.bbox, kind := o.kind, lastCenter := Some(Center(o.bbox))), o,
                Rules.Moment(camera, ts, m.lastCenter), objects);
    }
  }

  lemma {:induction false} CrowdBoxes(rules: seq<Rules.Rule>, camera: string, fired: map<string, bool>,
                                      objects: seq<Rules.Object>, ts: real)
    requires objects != []
    ensures BoxesOf(objects, Rules.EvalCrowds(rules, camera, fired, objects, ts).events)
  {
    if rules != [] {
      var n := |rules| - 1;
      CrowdBoxes(rules[..n], camera, fired, objects, ts);
      RuleTheorems.EvalCrowdAppends(rules[n], camera, Rules.EvalCrowds(rules[..n], camera, fired, objects, ts),
                                    objects, ts);
    }
  }

  lemma EvaluateBoxes(rules: seq<Rules.Rule>, camera: string, s: Rules.State, objects: seq<Rules.Object>, ts: real)
    requires objects != []
    ensures BoxesOf(objects, Rules.Evaluate(rules, camera, s, objects, ts).events)
  {
    ObjectBoxes(rules, camera, s.mem, objects, ts, |objects|);
    assert objects[..|objects|] == objects;
    CrowdBoxes(rules, camera, s.crowdFired, objects, ts);
  }

  // Boxes in the other rows.

  ghost predicate BoxOfTrack(tracks: seq<Track>, b: Box) {
    exists i :: 0 <= i < |tracks| && tracks[i].bbox == b
  }

  lemma PlateRow(p: Plates, tr: Track, f: Frame)
    ensures var r := ReadPlate(p, tr, f).rows;
            r == p.rows || (|r| == |p.rows| + 1 && r[..|p.rows|] == p.rows && r[|p.rows|].bbox == tr.bbox)
  {
  }

  lemma {:induction false} PlateBoxes(cfg: Config, last: map<string, PlateSeen>, tracks: seq<Track>, f: Frame, n: nat)
    requires n <= |tracks|
    ensures RowsOfTracks(tracks, ReadPlates(cfg, last, tracks[..n], f).rows)
  {
    if n > 0 && cfg.anpr {
      PlateBoxes(cfg, last, tracks, f, n - 1);
      assert tracks[..n][..n - 1] == tracks[..n - 1];
      var before := ReadPlates(cfg, last, tracks[..n - 1], f);
      PlateRow(before, tracks[n - 1], f);
      assert BoxOfTrack(tracks, tracks[n - 1].bbox);
      var rows := ReadPlates(cfg, last, tracks[..n], f).rows;
      assert forall i :: 0 <= i < |before.rows| ==> rows[i] == before.rows[i];
    }
  }

  ghost predicate RowsOfTracks(tracks: seq<Track>, rows: seq<EventRow>) {
    forall i :: 0 <= i < |rows| ==> BoxOfTrack(tracks, rows[i].bbox)
  }

  ghost predicate SamplesOfTracks(tracks: seq<Track>, rows: seq<DetectionRow>) {
    forall i :: 0 <= i < |rows| ==> BoxOfTrack(tracks, rows[i].bbox)
  }

  lemma {:induction false} SampledBoxes(g: Gate, tracks: seq<Track>, ts: real, n: nat)
    requires n <= |tracks| && g.rows == []
    ensures SamplesOfTracks(tracks, SampleAll(g, tracks[..n], ts).rows)
  {
    if n > 0 {
      SampledBoxes(g, tracks, ts, n - 1);
      assert tracks[..n][..n - 1] == tracks[..n - 1];
      assert BoxOfTrack(tracks, tracks[n - 1].bbox);
    } else {
      assert tracks[..n] == [];
    }
  }

  /** The box is that of a track of this frame, or the one the track had before. */
  ghost predicate Refreshed(tracks: seq<Track>, before: map<string, ActiveTrack>, after: map<string, ActiveTrack>,
                            id: string)
    requires id in after
  {
    BoxOfTrack(tracks, after[id].bbox) || (id in before && after[id].bbox == before[id].bbox)
  }

  ghost predicate AllRefreshed(tracks: seq<Track>, before: map<string, ActiveTrack>, after: map<string, ActiveTrack>) {
    forall id :: id in after ==> Refreshed(tracks, before, after, id)
  }

  lemma {:induction false} MarkedBoxes(cfg: Config, active: map<string, ActiveTrack>, tracks: seq<Track>, f: Frame,
                                       n: nat)
    requires n <= |tracks|
    ensures AllRefreshed(tracks, active, MarkAll(cfg, active, tracks[..n], f))
  {
    if n > 0 {
      MarkedBoxes(cfg, active, tracks, f, n - 1);
      assert tracks[..n][..n - 1] == tracks[..n - 1];
      assert BoxOfTrack(tracks, tracks[n - 1].bbox);
      var one := MarkAll(cfg, active, tracks[..n - 1], f);
      var two := MarkAll(cfg, active, tracks[..n], f);
      forall id | id in two ensures Refreshed(tracks, active, two, id) {
        assert id != tracks[n - 1].trackId ==> two[id] == one[id] && Refreshed(tracks, active, one, id);
      }
    } else {
      assert tracks[..n] == [];
    }
  }

  // One frame.

  lemma {:induction false} TrackBoxShown(cfg: Config, s: State, f: Frame, b: Box)
    requires Ready(cfg, s) && BoxOfTrack(TrackFrame(cfg, s.tracker, f).out, b)
    ensures Shown(cfg, f, b)
  {
    TracksAreShown(cfg, s.tracker, f);
  }

  lemma {:induction false} AnalyticShown(cfg: Config, s: State, f: Frame)
    requires Ready(cfg, s)
    ensures var rows := Step(cfg, s, f).out.analytic;
            forall i :: 0 <= i < |rows| ==> Shown(cfg, f, rows[i].bbox)
  {
    hide TrackFrame, MarkAll, SampleAll, DropAbsent, EvaluateRules, ReadPlates, ClosedRows, TrackRows, Shown;
    var tracks := TrackFrame(cfg, s.tracker, f).out;
    var events := EvaluateRules(cfg, s.rules, tracks, f.ts).events;
    var plates := ReadPlates(cfg, s.anprLast, tracks, f).rows;
    EventBoxesShown(cfg, s, f);
    assert tracks[..|tracks|] == tracks;
    PlateBoxes(cfg, s.anprLast, tracks, f, |tracks|);
    forall i | 0 <= i < |plates| ensures Shown(cfg, f, plates[i].bbox) {
      assert BoxOfTrack(tracks, plates[i].bbox);
      TrackBoxShown(cfg, s, f, plates[i].bbox);
    }
    assert Step(cfg, s, f).out.analytic == if Completes(cfg, s, f) then AnalyticRows(events) + plates else [];
  }

  lemma {:induction false} EventBoxesShown(cfg: Config, s: State, f: Frame)
    requires Ready(cfg, s)
    ensures var events := EvaluateRules(cfg, s.rules, TrackFrame(cfg, s.tracker, f).out, f.ts).events;
            forall i :: 0 <= i < |events| ==> Shown(cfg, f, events[i].bbox)
  {
    var tracks := TrackFrame(cfg, s.tracker, f).out;
    if cfg.rules.Some? && tracks != [] {
      EvaluateBoxes(cfg.rules.value, cfg.camera, s.rules, Objects(tracks), f.ts);
      var events := EvaluateRules(cfg, s.rules, tracks, f.ts).events;
      forall i | 0 <= i < |events| ensures Shown(cfg, f, events[i].bbox) {
        assert BoxOf(Objects(tracks), events[i].bbox);
        var j :| 0 <= j < |tracks| && Objects(tracks)[j].bbox == events[i].bbox;
        assert tracks[j].bbox == events[i].bbox;
        TrackBoxShown(cfg, s, f, events[i].bbox);
      }
    }
  }

  lemma {:induction false} DetectionsShown(cfg: Config, s: State, f: Frame)
    requires Ready(cfg, s)
    ensures var rows := Step(cfg, s, f).out.detections;
            forall i :: 0 <= i < |rows| ==> Shown(cfg, f, rows[i].bbox)
  {
    var tracks := TrackFrame(cfg, s.tracker, f).out;
    var rows := SampleAll(Gate(s.lastTs, s.lastBox, []), tracks, f.ts).rows;
    assert tracks[..|tracks|] == tracks;
    SampledBoxes(Gate(s.lastTs, s.lastBox, []), tracks, f.ts, |tracks|);
    forall i | 0 <= i < |rows| ensures Shown(cfg, f, rows[i].bbox) {
      assert BoxOfTrack(tracks, rows[i].bbox);
      TrackBoxShown(cfg, s, f, rows[i].bbox);
    }
    assert Step(cfg, s, f).out.detections == if Completes(cfg, s, f) then rows else [];
  }

  /** The tracks after marking this frame's sightings, before stale ones are closed. */
  ghost function Marked(cfg: Config, s: State, f: Frame): map<string, ActiveTrack>
    requires Ready(cfg, s)
  {
    MarkAll(cfg, Unmarked(s.active), TrackFrame(cfg, s.tracker, f).out, f)
  }

  lemma {:induction false} MarkedShown(cfg: Config, s: State, f: Frame, id: string)
    requires Ready(cfg, s) && id in Marked(cfg, s, f)
    ensures Shown(cfg, f, Marked(cfg, s, f)[id].bbox)
        || (id in s.active && Marked(cfg, s, f)[id].bbox == s.active[id].bbox)
  {
    var tracks := TrackFrame(cfg, s.tracker, f).out;
    assert tracks[..|tracks|] == tracks;
    MarkedBoxes(cfg, Unmarked(s.active), tracks, f, |tracks|);
    assert Refreshed(tracks, Unmarked(s.active), Marked(cfg, s, f), id);
    if BoxOfTrack(tracks, Marked(cfg, s, f)[id].bbox) {
      TrackBoxShown(cfg, s, f, Marked(cfg, s, f)[id].bbox);
    }
  }

  // Whole runs.

  /** Every box an output carries has been shown. */
  ghost predicate OutputShown(cfg: Config, frames: seq<Frame>, out: Output) {
    && (forall i :: 0 <= i < |out.analytic| ==> ShownBefore(cfg, frames, out.analytic[i].bbox))
    && (forall i :: 0 <= i < |out.detections| ==> ShownBefore(cfg, frames, out.detections[i].bbox))
    && (forall e :: e in out.closed ==> ShownBefore(cfg, frames, e.bbox))
    && (forall id :: id in out.tracksWritten ==> ShownBefore(cfg, frames, out.tracksWritten[id].bbox))
  }

  ghost predicate ActiveShown(cfg: Config, frames: seq<Frame>, active: map<string, ActiveTrack>) {
    forall id :: id in active ==> ShownBefore(cfg, frames, active[id].bbox)
  }

  lemma {:induction false} ShownLonger(cfg: Config, frames: seq<Frame>, n: nat, b: Box)
    requires n <= |frames| && ShownBefore(cfg, frames[..n], b)
    ensures ShownBefore(cfg, frames, b)
  {
    var k :| 0 <= k < n && Shown(cfg, frames[..n][k], b);
    assert Shown(cfg, frames[k], b);
  }

  lemma {:induction false} MarkedShownBefore(cfg: Config, frames: seq<Frame>, s: State)
    requires frames != [] && Ready(cfg, s) && ActiveShown(cfg, frames[..|frames| - 1], s.active)
    ensures ActiveShown(cfg, frames, Marked(cfg, s, frames[|frames| - 1]))
    ensures ActiveShown(cfg, frames, Unmarked(s.active))
  {
    var n := |frames| - 1;
    var marked := Marked(cfg, s, frames[n]);
    forall id | id in marked ensures ShownBefore(cfg, frames, marked[id].bbox) {
      MarkedShown(cfg, s, frames[n], id);
      if id in s.active && marked[id].bbox == s.active[id].bbox {
        ShownLonger(cfg, frames, n, s.active[id].bbox);
      }
    }
    forall id | id in s.active ensures ShownBefore(cfg, frames, s.active[id].bbox) {
      ShownLonger(cfg, frames, n, s.active[id].bbox);
    }
  }

  lemma {:induction false} ShownNow(cfg: Config, frames: seq<Frame>, b: Box)
    requires frames != [] && Shown(cfg, frames[|frames| - 1], b)
    ensures ShownBefore(cfg, frames, b)
  {
  }

  lemma {:induction false} OutputIsShown(cfg: Config, frames: seq<Frame>, s: State)
    requires frames != [] && Ready(cfg, s) && ActiveShown(cfg, frames, Marked(cfg, s, frames[|frames| - 1]))
    requires ActiveShown(cfg, frames, Unmarked(s.active))
    ensures OutputShown(cfg, frames, Step(cfg, s, frames[|frames| - 1]).out)
    ensures ActiveShown(cfg, frames, Step(cfg, s, frames[|frames| - 1]).s.active)
  {
    var f := frames[|frames| - 1];
    var out := Step(cfg, s, f).out;
    AnalyticShown(cfg, s, f);
    DetectionsShown(cfg, s, f);
    forall i | 0 <= i < |out.analytic| ensures ShownBefore(cfg, frames, out.analytic[i].bbox) {
      ShownNow(cfg, frames, out.analytic[i].bbox);
    }
    forall i | 0 <= i < |out.detections| ensures ShownBefore(cfg, frames, out.detections[i].bbox) {
      ShownNow(cfg, frames, out.detections[i].bbox);
    }
    hide ShownBefore, MarkAll, SampleAll, ReadPlates, EvaluateRules, TrackFrame;
  }

  // Boxes held by the tracker, the rule engine and the gate.

  ghost predicate TrackerShown(cfg: Config, frames: seq<Frame>, t: Tracking.State) {
    forall id :: id in t.tracks ==> ShownBefore(cfg, frames, t.tracks[id].bbox)
  }

  ghost predicate MemoryShown(cfg: Config, frames: seq<Frame>, mem: map<string, Rules.TrackMem>) {
    forall id :: id in mem ==> ShownBefore(cfg, frames, mem[id].bbox)
  }

  ghost predicate GateShown(cfg: Config, frames: seq<Frame>, box: map<string, Box>) {
    forall id :: id in box ==> ShownBefore(cfg, frames, box[id])
  }

  lemma {:induction false} TrackerStaysShown(cfg: Config, frames: seq<Frame>, t: Tracking.State)
    requires frames != [] && Tracking.Wf(t) && Tracking.Sound(cfg.tracker, t)
    requires TrackerShown(cfg, frames[..|frames| - 1], t)
    ensures TrackerShown(cfg, frames, TrackFrame(cfg, t, frames[|frames| - 1]).s)
  {
    var n := |frames| - 1;
    var f := frames[n];
    var r := TrackFrame(cfg, t, f).s;
    if !Skipped(cfg, f) {
      TrackingTheorems.StepBoxes(cfg.tracker, t, cfg.camera, Accepted(cfg, f.raw));
    }
    forall id | id in r.tracks ensures ShownBefore(cfg, frames, r.tracks[id].bbox) {
      var b := r.tracks[id].bbox;
      if id in t.tracks && t.tracks[id].bbox == b {
        ShownLonger(cfg, frames, n, b);
      } else {
        assert TrackingTheorems.BoxFrom(Accepted(cfg, f.raw), t, id, b);
        AcceptedIsShown(cfg, f, b);
      }
    }
  }

  lemma AcceptedIsShown(cfg: Config, f: Frame, b: Box)
    requires !Skipped(cfg, f) && exists i :: 0 <= i < |Accepted(cfg, f.raw)| && Accepted(cfg, f.raw)[i].bbox == b
    ensures Shown(cfg, f, b)
  {
    var dets := Accepted(cfg, f.raw);
    var i :| 0 <= i < |dets| && dets[i].bbox == b;
    assert dets[i] in f.raw;
    AcceptableMeans(cfg, dets[i]);
  }

  lemma {:induction false} RulesKeepBox(rules: seq<Rules.Rule>, m: Rules.TrackMem, o: Rules.Object, w: Rules.Moment)
    ensures Rules.EvalRules(rules, m, o, w).m.bbox == m.bbox
  {
    if rules != [] {
      RulesKeepBox(rules[..|rules| - 1], m, o, w);
    }
  }

  /** A remembered box is that of an object of this frame or the one remembered before. */
  ghost predicate Remembered(objects: seq<Rules.Object>, mem: map<string, Rules.TrackMem>, id: string, b: Box) {
    BoxOf(objects, b) || (id in mem && mem[id].bbox == b)
  }

  ghost predicate AllRemembered(objects: seq<Rules.Object>, mem: map<string, Rules.TrackMem>,
                                r: map<string, Rules.TrackMem>) {
    forall id :: id in r ==> Remembered(objects, mem, id, r[id].bbox)
  }

  lemma {:induction false} SweepBoxes(rules: seq<Rules.Rule>, camera: string, mem: map<string, Rules.TrackMem>,
                                      objects: seq<Rules.Object>, ts: real, n: nat)
    requires n <= |objects|
    ensures AllRemembered(objects, mem, Rules.EvalObjects(rules, camera, mem, objects[..n], ts).mem)
  {
    if n == 0 {
      assert objects[..n] == [];
    } else {
      SweepBoxes(rules, camera, mem, objects, ts, n - 1);
      assert objects[..n][..n - 1] == objects[..n - 1];
      var o := objects[n - 1];
      var before := Rules.EvalObjects(rules, camera, mem, objects[..n - 1], ts).mem;
      var r := Rules.EvalObjects(rules, camera, mem, objects[..n], ts).mem;
      ObjectBox(rules, camera, before, o, ts);
      hide Rules.EvalObject;
      assert r == before[o.id := Rules.EvalObject(rules, camera, before, o, ts).m];
      assert BoxOf(objects, o.bbox);
      forall id | id in r ensures Remembered(objects, mem, id, r[id].bbox) {
        if id != o.id {
          assert r[id] == before[id] && Remembered(objects, mem, id, before[id].bbox);
        } else {
          assert r[id].bbox == o.bbox;
        }
      }
    }
  }

  lemma ObjectBox(rules: seq<Rules.Rule>, camera: string, mem: map<string, Rules.TrackMem>, o: Rules.Object, ts: real)
    ensures Rules.EvalObject(rules, camera, mem, o, ts).m.bbox == o.bbox
  {
    var m := Rules.Recall(mem, o.id);
    RulesKeepBox(rules, m.(bbox := o.bbox, kind := o.kind, lastCenter := Some(Center(o.bbox))), o,
                 Rules.Moment(camera, ts, m.lastCenter));
  }

  lemma {:induction false} EvaluatedMemory(cfg: Config, s: Rules.State, tracks: seq<Track>, ts: real, id: string)
    ensures var mem := EvaluateRules(cfg, s, tracks, ts).s.mem;
            id in mem ==> Remembered(Objects(tracks), s.mem, id, mem[id].bbox)
  {
    if cfg.rules.Some? && tracks != [] {
      assert Objects(tracks)[..|tracks|] == Objects(tracks);
      SweepBoxes(cfg.rules.value, cfg.camera, s.mem, Objects(tracks), ts, |tracks|);
      hide Rules.EvalObjects, Rules.EvalCrowds;
      var swept := Rules.EvalObjects(cfg.rules.value, cfg.camera, s.mem, Objects(tracks), ts).mem;
      var mem := EvaluateRules(cfg, s, tracks, ts).s.mem;
      assert AllRemembered(Objects(tracks), s.mem, swept);
      assert id in mem ==> id in swept && mem[id] == swept[id];
    }
  }

  lemma {:induction false} MemoryStaysShown(cfg: Config, frames: seq<Frame>, s: State)
    requires frames != [] && Ready(cfg, s) && MemoryShown(cfg, frames[..|frames| - 1], s.rules.mem)
    ensures MemoryShown(cfg, frames, Step(cfg, s, frames[|frames| - 1]).s.rules.mem)
  {
    var n := |frames| - 1;
    var f := frames[n];
    var tracks := TrackFrame(cfg, s.tracker, f).out;
    var mem := Step(cfg, s, f).s.rules.mem;
    assert mem == EvaluateRules(cfg, s.rules, tracks, f.ts).s.mem;
    hide Step, EvaluateRules, TrackFrame, ShownBefore, Shown;
    forall id | id in mem ensures ShownBefore(cfg, frames, mem[id].bbox) {
      var b := mem[id].bbox;
      EvaluatedMemory(cfg, s.rules, tracks, f.ts, id);
      if id in s.rules.mem && s.rules.mem[id].bbox == b {
        ShownLonger(cfg, frames, n, b);
      } else {
        var i :| 0 <= i < |tracks| && Objects(tracks)[i].bbox == b;
        assert tracks[i].bbox == b;
        TrackBoxShown(cfg, s, f, b);
        ShownNow(cfg, frames, b);
      }
    }
  }

  lemma {:induction false} SampleBoxes(g: Gate, tracks: seq<Track>, ts: real, n: nat, id: string)
    requires n <= |tracks|
    ensures var r := SampleAll(g, tracks[..n], ts).box;
            id in r ==> BoxOfTrack(tracks, r[id]) || (id in g.box && g.box[id] == r[id])
  {
    if n == 0 {
      assert tracks[..n] == [];
    } else {
      SampleBoxes(g, tracks, ts, n - 1, id);
      assert tracks[..n][..n - 1] == tracks[..n - 1];
      assert BoxOfTrack(tracks, tracks[n - 1].bbox);
    }
  }

  lemma {:induction false} GateStaysShown(cfg: Config, frames: seq<Frame>, s: State)
    requires frames != [] && Ready(cfg, s) && GateShown(cfg, frames[..|frames| - 1], s.lastBox)
    ensures GateShown(cfg, frames, Step(cfg, s, frames[|frames| - 1]).s.lastBox)
  {
    var n := |frames| - 1;
    var f := frames[n];
    var tracks := TrackFrame(cfg, s.tracker, f).out;
    var box := Step(cfg, s, f).s.lastBox;
    forall id | id in box ensures ShownBefore(cfg, frames, box[id]) {
      SampleBoxes(Gate(s.lastTs, s.lastBox, []), tracks, f.ts, |tracks|, id);
      assert tracks[..|tracks|] == tracks;
      if id in s.lastBox && s.lastBox[id] == box[id] {
        ShownLonger(cfg, frames, n, box[id]);
      } else {
        TrackBoxShown(cfg, s, f, box[id]);
      }
    }
  }

  /** Every box a state holds has been shown: those of active tracks, of the tracker's tracks, of the
      rule engine's memory and of the gate. */
  ghost predicate StateShown(cfg: Config, frames: seq<Frame>, s: State) {
    && ActiveShown(cfg, frames, s.active)
    && TrackerShown(cfg, frames, s.tracker)
    && MemoryShown(cfg, frames, s.rules.mem)
    && GateShown(cfg, frames, s.lastBox)
  }

  /** In every reachable state every box held anywhere is that of an earlier detection that met the
      threshold and that no readable stored mask hides, and so is every box of every row the last frame
      wrote: rule and plate events, detection rows, closed presence events and track rows. */
  lemma {:induction false} MasksAreRespected(cfg: Config, frames: seq<Frame>)
    ensures StateShown(cfg, frames, Run(cfg, frames))
    ensures frames != [] ==> OutputShown(cfg, frames, OutputAt(cfg, frames, |frames| - 1))
    decreases |frames|
  {
    if frames != [] {
      var n := |frames| - 1;
      var s := Run(cfg, frames[..n]);
      MasksAreRespected(cfg, frames[..n]);
      MarkedShownBefore(cfg, frames, s);
      OutputIsShown(cfg, frames, s);
      TrackerStaysShown(cfg, frames, s.tracker);
      MemoryStaysShown(cfg, frames, s);
      GateStaysShown(cfg, frames, s);
      StepTracks(cfg, s, frames[n]);
      hide Step, ActiveShown, TrackerShown, MemoryShown, GateShown, OutputShown;
    }
  }

  lemma StepTracks(cfg: Config, s: State, f: Frame)
    requires Ready(cfg, s)
    ensures Step(cfg, s, f).s.tracker == TrackFrame(cfg, s.tracker, f).s
    ensures Step(cfg, s, f).out.tracks == TrackFrame(cfg, s.tracker, f).out
  {
  }

  // ---------------------------------------------------------------- sampled detection rows

  function LastRow(rows: seq<DetectionRow>, id: string): Option<DetectionRow> {
    if rows == [] then None
    else if rows[|rows| - 1].trackId == id then Some(rows[|rows| - 1])
    else LastRow(rows[..|rows| - 1], id)
  }

  /** All detection rows written so far. */
  ghost function Log(cfg: Config, frames: seq<Frame>): seq<DetectionRow>
    decreases |frames|
  {
    if frames == [] then []
    else Log(cfg, frames[..|frames| - 1]) + OutputAt(cfg, frames, |frames| - 1).detections
  }

  /** The gating maps hold the time and box of each gated track's last stored row. */
  ghost predicate Mirrors(ts: map<string, real>, box: map<string, Box>, log: seq<DetectionRow>) {
    && ts.Keys == box.Keys
    && forall id :: id in ts ==> MirrorsOne(ts, box, log, id)
  }

  ghost predicate MirrorsOne(ts: map<string, real>, box: map<string, Box>, log: seq<DetectionRow>, id: string)
    requires id in ts && id in box
  {
    var row := LastRow(log, id);
    row.Some? && row.value.ts == ts[id] && row.value.bbox == box[id]
  }

  lemma LastRowAppended(log: seq<DetectionRow>, row: DetectionRow, id: string)
    ensures LastRow(log + [row], id) == if row.trackId == id then Some(row) else LastRow(log, id)
  {
    assert (log + [row])[..|log|] == log;
  }

  lemma {:induction false} SampleMirrors(g: Gate, log: seq<DetectionRow>, tr: Track, ts: real)
    requires Mirrors(g.ts, g.box, log + g.rows)
    ensures var r := Sample(g, tr, ts); Mirrors(r.ts, r.box, log + r.rows)
  {
    var r := Sample(g, tr, ts);
    if r != g {
      var row := r.rows[|g.rows|];
      assert log + r.rows == log + g.rows + [row];
      forall id | id in r.ts ensures MirrorsOne(r.ts, r.box, log + r.rows, id) {
        LastRowAppended(log + g.rows, row, id);
        assert id != tr.trackId ==> MirrorsOne(g.ts, g.box, log + g.rows, id);
      }
    }
  }

  lemma {:induction false} SampleAllMirrors(g: Gate, log: seq<DetectionRow>, tracks: seq<Track>, ts: real)
    requires Mirrors(g.ts, g.box, log + g.rows)
    ensures var r := SampleAll(g, tracks, ts); Mirrors(r.ts, r.box, log + r.rows)
  {
    if tracks != [] {
      var n := |tracks| - 1;
      SampleAllMirrors(g, log, tracks[..n], ts);
      SampleMirrors(SampleAll(g, tracks[..n], ts), log, tracks[n], ts);
    }
  }

  lemma {:induction false} DropMirrors(g: Gate, log: seq<DetectionRow>, ids: set<string>)
    requires Mirrors(g.ts, g.box, log)
    ensures var r := DropAbsent(g, ids); Mirrors(r.ts, r.box, log)
  {
    var r := DropAbsent(g, ids);
    forall id | id in r.ts ensures id in r.box && MirrorsOne(r.ts, r.box, log, id) {
      assert MirrorsOne(g.ts, g.box, log, id);
    }
  }

  lemma {:induction false} StepMirrors(cfg: Config, s: State, f: Frame, log: seq<DetectionRow>)
    requires Ready(cfg, s) && Mirrors(s.lastTs, s.lastBox, log)
    ensures var r := Step(cfg, s, f); Mirrors(r.s.lastTs, r.s.lastBox, log + r.out.detections)
  {
    var tracks := TrackFrame(cfg, s.tracker, f).out;
    assert log + [] == log;
    if Completes(cfg, s, f) {
      SampleAllMirrors(Gate(s.lastTs, s.lastBox, []), log, tracks, f.ts);
      var g := SampleAll(Gate(s.lastTs, s.lastBox, []), tracks, f.ts);
      DropMirrors(g, log + g.rows, IdsOf(tracks));
      hide Mirrors, SampleAll, EvaluateRules, TrackFrame, MarkAll, ReadPlates;
    }
  }

  lemma {:induction false} RunMirrors(cfg: Config, frames: seq<Frame>)
    ensures Mirrors(Run(cfg, frames).lastTs, Run(cfg, frames).lastBox, Log(cfg, frames))
    decreases |frames|
  {
    if frames != [] {
      hide Step, Mirrors;
      var n := |frames| - 1;
      RunMirrors(cfg, frames[..n]);
      StepMirrors(cfg, Run(cfg, frames[..n]), frames[n], Log(cfg, frames[..n]));
    }
  }

  /** The gate's entry for a track is fresh and close to its present box. */
  ghost predicate CloseTo(g: Gate, tr: Track, ts: real) {
    && tr.trackId in g.ts && tr.trackId in g.box
    && !Differs(tr.bbox, g.box[tr.trackId]) && ts - g.ts[tr.trackId] < DETECTION_MAX_INTERVAL_SEC
  }

  lemma {:induction false} SampledKeys(g: Gate, tracks: seq<Track>, ts: real)
    requires Tracking.DistinctIds(tracks) && g.ts.Keys == g.box.Keys
    ensures var r := SampleAll(g, tracks, ts); r.ts.Keys == r.box.Keys == g.ts.Keys + IdsOf(tracks)
  {
    if tracks != [] {
      SampledKeys(g, tracks[..|tracks| - 1], ts);
      IdsSplit(tracks);
    }
  }

  lemma {:induction false} SampleClose(g: Gate, tr: Track, ts: real, other: Track)
    requires g.ts.Keys == g.box.Keys
    ensures CloseTo(Sample(g, tr, ts), tr, ts)
    ensures other.trackId != tr.trackId && CloseTo(g, other, ts) ==> CloseTo(Sample(g, tr, ts), other, ts)
  {
  }

  lemma {:induction false} SampledClose(g: Gate, tracks: seq<Track>, ts: real, i: nat)
    requires Tracking.DistinctIds(tracks) && g.ts.Keys == g.box.Keys && i < |tracks|
    ensures CloseTo(SampleAll(g, tracks, ts), tracks[i], ts)
  {
    var n := |tracks| - 1;
    SampledKeys(g, tracks[..n], ts);
    SampleClose(SampleAll(g, tracks[..n], ts), tracks[n], ts, tracks[i]);
    if i < n {
      assert tracks[..n][i] == tracks[i];
      SampledClose(g, tracks[..n], ts, i);
    }
  }

  lemma IdsSplit(tracks: seq<Track>)
    requires tracks != []
    ensures IdsOf(tracks) == IdsOf(tracks[..|tracks| - 1]) + {tracks[|tracks| - 1].trackId}
  {
    var n := |tracks| - 1;
    forall id | id in IdsOf(tracks) ensures id in IdsOf(tracks[..n]) + {tracks[n].trackId} {
      var i :| 0 <= i < |tracks| && tracks[i].trackId == id;
      assert i < n ==> tracks[..n][i].trackId == id;
    }
    forall id | id in IdsOf(tracks[..n]) ensures id in IdsOf(tracks) {
      var i :| 0 <= i < n && tracks[..n][i].trackId == id;
      assert tracks[i].trackId == id;
    }
  }

  /** The last of these frames was processed to its end. */
  ghost predicate LastCompletes(cfg: Config, frames: seq<Frame>) {
    frames != [] && Completes(cfg, Run(cfg, frames[..|frames| - 1]), frames[|frames| - 1])
  }

  /** The boxes differ by at most 0.01 in every component. */
  predicate Near(a: Box, b: Box) {
    && -0.01 <= a.x - b.x <= 0.01 && -0.01 <= a.y - b.y <= 0.01
    && -0.01 <= a.w - b.w <= 0.01 && -0.01 <= a.h - b.h <= 0.01
  }

  lemma NearIsUnmoved(a: Box, b: Box)
    ensures Near(a, b) <==> !Differs(a, b)
  {
  }

  /** The gating maps hold exactly the last frame's tracks, and its `i`-th track's last stored row lies
      within 0.01 of its box in every component and is less than 2 seconds old. */
  ghost predicate GateIsClose(cfg: Config, frames: seq<Frame>, i: nat)
    requires frames != []
  {
    var s := Run(cfg, frames);
    var tracks := OutputAt(cfg, frames, |frames| - 1).tracks;
    && s.lastTs.Keys == s.lastBox.Keys == IdsOf(tracks)
    && (i < |tracks| ==>
          var row := LastRow(Log(cfg, frames), tracks[i].trackId);
          row.Some? && Near(tracks[i].bbox, row.value.bbox) && frames[|frames| - 1].ts - row.value.ts < 2.0)
  }

  /** So it is after every completed frame, for every track. */
  lemma {:induction false} SamplesStayClose(cfg: Config, frames: seq<Frame>, i: nat)
    ensures LastCompletes(cfg, frames) ==> GateIsClose(cfg, frames, i)
  {
    if LastCompletes(cfg, frames) {
      LastSamplesAreClose(cfg, frames, i);
    }
  }

  lemma {:induction false} SampledTrack(g: Gate, tracks: seq<Track>, ts: real, i: nat)
    requires Tracking.DistinctIds(tracks) && g.ts.Keys == g.box.Keys
    ensures var r := DropAbsent(SampleAll(g, tracks, ts), IdsOf(tracks));
            && r.ts.Keys == r.box.Keys == IdsOf(tracks)
            && (i < |tracks| ==> CloseTo(r, tracks[i], ts))
  {
    SampledKeys(g, tracks, ts);
    if i < |tracks| {
      SampledClose(g, tracks, ts, i);
      assert tracks[i].trackId in IdsOf(tracks);
    }
  }

  lemma StepGate(cfg: Config, s: State, f: Frame)
    requires Ready(cfg, s) && Completes(cfg, s, f)
    ensures var r := Step(cfg, s, f);
            var g := DropAbsent(SampleAll(Gate(s.lastTs, s.lastBox, []), r.out.tracks, f.ts), IdsOf(r.out.tracks));
            r.s.lastTs == g.ts && r.s.lastBox == g.box
  {
    hide TrackFrame, MarkAll, SampleAll, DropAbsent, EvaluateRules, ReadPlates, ClosedRows, TrackRows, Unmarked, IdsOf;
  }

  lemma CloseRow(g: Gate, log: seq<DetectionRow>, tr: Track, ts: real)
    requires Mirrors(g.ts, g.box, log) && CloseTo(g, tr, ts)
    ensures var row := LastRow(log, tr.trackId);
            row.Some? && Near(tr.bbox, row.value.bbox) && ts - row.value.ts < 2.0
  {
    assert MirrorsOne(g.ts, g.box, log, tr.trackId);
    NearIsUnmoved(tr.bbox, g.box[tr.trackId]);
  }

  lemma {:induction false} LastSamplesAreClose(cfg: Config, frames: seq<Frame>, i: nat)
    requires LastCompletes(cfg, frames)
    ensures GateIsClose(cfg, frames, i)
  {
    var n := |frames| - 1;
    var s, f := Run(cfg, frames[..n]), frames[n];
    RunMirrors(cfg, frames[..n]);
    RunMirrors(cfg, frames);
    StepReady(cfg, s, f);
    StepGate(cfg, s, f);
    assert s.lastTs.Keys == s.lastBox.Keys && Run(cfg, frames) == Step(cfg, s, f).s;
    hide Run, Step, Mirrors, CloseTo, Log, Near, SampleAll, DropAbsent, IdsOf, LastRow, Ready, Completes;
    var tracks := OutputAt(cfg, frames, n).tracks;
    SampledTrack(Gate(s.lastTs, s.lastBox, []), tracks, f.ts, i);
    var g := DropAbsent(SampleAll(Gate(s.lastTs, s.lastBox, []), tracks, f.ts), IdsOf(tracks));
    if i < |tracks| {
      CloseRow(g, Log(cfg, frames), tracks[i], f.ts);
    }
  }

  ghost predicate Stored(rows: seq<DetectionRow>, id: string) {
    exists i :: 0 <= i < |rows| && rows[i].trackId == id
  }

  lemma {:induction false} SampledWhen(g: Gate, tracks: seq<Track>, ts: real, k: nat)
    requires Tracking.DistinctIds(tracks) && g.rows == []
    ensures k < |tracks| ==>
              (Stored(SampleAll(g, tracks, ts).rows, tracks[k].trackId)
               <==> HasMoved(g, tracks[k]) || IsStale(g, tracks[k], ts))
  {
    if k < |tracks| {
      SampledAt(g, tracks, ts, |tracks|, tracks[k].trackId, k);
      assert tracks[..|tracks|] == tracks;
    }
  }

  lemma {:induction false} SampledAt(g: Gate, tracks: seq<Track>, ts: real, n: nat, id: string, k: nat)
    requires Tracking.DistinctIds(tracks) && g.rows == [] && n <= |tracks| && k < |tracks| && tracks[k].trackId == id
    ensures var r := SampleAll(g, tracks[..n], ts);
            if n <= k then
              !Stored(r.rows, id) && (id in r.ts <==> id in g.ts) && (id in g.ts ==> r.ts[id] == g.ts[id])
              && (id in r.box <==> id in g.box) && (id in g.box ==> r.box[id] == g.box[id])
            else Stored(r.rows, id) <==> HasMoved(g, tracks[k]) || IsStale(g, tracks[k], ts)
    decreases n
  {
    if n == 0 {
      assert tracks[..n] == [];
    } else {
      SampledAt(g, tracks, ts, n - 1, id, k);
      assert tracks[..n][..n - 1] == tracks[..n - 1];
      var b := SampleAll(g, tracks[..n - 1], ts);
      var r := SampleAll(g, tracks[..n], ts);
      assert r == Sample(b, tracks[n - 1], ts);
      assert n - 1 != k ==> tracks[n - 1].trackId != id;
      StoredAppended(b, tracks[n - 1], ts, id);
    }
  }

  lemma StoredAppended(g: Gate, tr: Track, ts: real, id: string)
    ensures Stored(Sample(g, tr, ts).rows, id)
        <==> Stored(g.rows, id) || (tr.trackId == id && (HasMoved(g, tr) || IsStale(g, tr, ts)))
  {
    var r := Sample(g, tr, ts);
    if r.rows != g.rows {
      assert r.rows[|g.rows|].trackId == tr.trackId;
      assert forall i :: 0 <= i < |g.rows| ==> r.rows[i] == g.rows[i];
    }
  }

  /** The track is in the last completed frame. */
  ghost predicate VisibleIn(cfg: Config, frames: seq<Frame>, id: string)
    decreases |frames|
  {
    frames != [] &&
    if LastCompletes(cfg, frames) then id in IdsOf(OutputAt(cfg, frames, |frames| - 1).tracks)
    else VisibleIn(cfg, frames[..|frames| - 1], id)
  }

  /** Since its last stored row the track has moved by more than 0.01, or 2 seconds have passed. */
  ghost predicate Due(row: DetectionRow, tr: Track, ts: real) {
    !Near(tr.bbox, row.bbox) || ts - row.ts >= 2.0
  }

  lemma {:induction false} GatedWhenVisible(cfg: Config, frames: seq<Frame>, id: string)
    ensures VisibleIn(cfg, frames, id) <==> id in Run(cfg, frames).lastTs
    ensures var s := Run(cfg, frames);
            id in s.lastTs ==> id in s.lastBox && MirrorsOne(s.lastTs, s.lastBox, Log(cfg, frames), id)
    decreases |frames|
  {
    RunMirrors(cfg, frames);
    if LastCompletes(cfg, frames) {
      SamplesStayClose(cfg, frames, 0);
    } else if frames != [] {
      GatedWhenVisible(cfg, frames[..|frames| - 1], id);
    }
  }

  lemma StepSamples(cfg: Config, s: State, f: Frame)
    requires Ready(cfg, s) && Completes(cfg, s, f)
    ensures var tracks := TrackFrame(cfg, s.tracker, f).out;
            && Step(cfg, s, f).out.tracks == tracks
            && Step(cfg, s, f).out.detections == SampleAll(Gate(s.lastTs, s.lastBox, []), tracks, f.ts).rows
  {
    hide TrackFrame, SampleAll;
  }

  /** The row says what was seen of one of the frame's tracks. */
  ghost predicate RowTells(row: DetectionRow, tracks: seq<Track>, ts: real) {
    exists i :: 0 <= i < |tracks| && row.trackId == tracks[i].trackId && row.ts == ts && row.kind == tracks[i].kind
                && row.confidence == tracks[i].confidence && row.bbox == tracks[i].bbox
  }

  lemma {:induction false} SampledRowsTell(g: Gate, tracks: seq<Track>, ts: real, n: nat, row: DetectionRow)
    requires n <= |tracks| && row in SampleAll(g, tracks[..n], ts).rows
    ensures row in g.rows || RowTells(row, tracks, ts)
    decreases n
  {
    if n > 0 {
      assert tracks[..n][..n - 1] == tracks[..n - 1];
      if row in SampleAll(g, tracks[..n - 1], ts).rows {
        SampledRowsTell(g, tracks, ts, n - 1, row);
      } else {
        assert row.trackId == tracks[n - 1].trackId;
      }
    }
  }

  lemma {:induction false} DetectionRowsTell(cfg: Config, s: State, f: Frame, row: DetectionRow)
    requires Ready(cfg, s) && row in Step(cfg, s, f).out.detections
    ensures RowTells(row, Step(cfg, s, f).out.tracks, f.ts)
  {
    StepTracks(cfg, s, f);
    RaisedStoresNothing(cfg, s, f);
    hide TrackFrame, SampleAll, DropAbsent, EvaluateRules, ReadPlates, MarkAll, ClosedRows, TrackRows, RowTells;
    var tracks := TrackFrame(cfg, s.tracker, f).out;
    assert tracks[..|tracks|] == tracks;
    if Completes(cfg, s, f) {
      StepSamples(cfg, s, f);
      SampledRowsTell(Gate(s.lastTs, s.lastBox, []), tracks, f.ts, |tracks|, row);
    }
  }

  lemma RaisedStoresNothing(cfg: Config, s: State, f: Frame)
    requires Ready(cfg, s)
    ensures !Completes(cfg, s, f) ==> Step(cfg, s, f).out.detections == []
  {
    hide TrackFrame, SampleAll, DropAbsent, EvaluateRules, ReadPlates, MarkAll, ClosedRows, TrackRows;
  }

  /** In a completed frame a row is stored for a track exactly when the track was not in the completed
      frame before, or is due since its last stored row. So within one unbroken appearance rows that no
      movement caused are at least 2 seconds apart. */
  lemma {:induction false} RowsWrittenWhen(cfg: Config, frames: seq<Frame>, f: Frame, i: nat)
    ensures var out := Step(cfg, Run(cfg, frames), f).out;
            Completes(cfg, Run(cfg, frames), f) && i < |out.tracks| ==>
              var tr := out.tracks[i];
              var last := LastRow(Log(cfg, frames), tr.trackId);
              && (VisibleIn(cfg, frames, tr.trackId) ==> last.Some?)
              && (Stored(out.detections, tr.trackId)
                  <==> !VisibleIn(cfg, frames, tr.trackId) || Due(last.value, tr, f.ts))
  {
    var s := Run(cfg, frames);
    var tracks := Step(cfg, s, f).out.tracks;
    StepReady(cfg, s, f);
    RunMirrors(cfg, frames);
    if Completes(cfg, s, f) && i < |tracks| {
      var id := tracks[i].trackId;
      GatedWhenVisible(cfg, frames, id);
      SampledWhen(Gate(s.lastTs, s.lastBox, []), tracks, f.ts, i);
      StepSamples(cfg, s, f);
      hide Step, SampleAll, TrackFrame, VisibleIn, Stored, Mirrors, Differs, Near, LastRow;
      if id in s.lastTs {
        NearIsUnmoved(tracks[i].bbox, s.lastBox[id]);
      }
    }
  }

  // ---------------------------------------------------------------- presence windows

  function OpenOf(active: map<string, ActiveTrack>, id: string): Option<Intervals.Window> {
    if id in active then Some(Intervals.Window(active[id].firstSeen, active[id].lastSeen)) else None
  }

  lemma {:induction false} MarkedAs(cfg: Config, active: map<string, ActiveTrack>, tracks: seq<Track>, f: Frame,
                                    id: string)
    ensures var marked := MarkAll(cfg, active, tracks, f);
            if id in IdsOf(tracks) then
              id in marked && marked[id].seen && marked[id].lastSeen == f.ts
              && marked[id].firstSeen == if id in active then active[id].firstSeen else f.ts
            else (id in marked <==> id in active) && (id in active ==> marked[id] == active[id])
  {
    if tracks != [] {
      MarkedAs(cfg, active, tracks[..|tracks| - 1], f, id);
      IdsSplit(tracks);
    }
  }

  /** The window of the presence event that a frame closes for a track, if any. */
  ghost function ClosedWindow(closed: set<EventRow>, id: string): seq<Intervals.Window> {
    if exists e :: e in closed && e.trackId == id then
      var e :| e in closed && e.trackId == id;
      [Intervals.Window(e.start, e.end)]
    else []
  }

  lemma {:induction false} ClosedWindowOf(cfg: Config, marked: map<string, ActiveTrack>, ts: real, id: string)
    ensures ClosedWindow(ClosedRows(cfg, marked, ts), id)
         == if id in StaleIds(cfg, marked, ts) then [Intervals.Window(marked[id].firstSeen, marked[id].lastSeen)]
             else []
  {
    var closed := ClosedRows(cfg, marked, ts);
    forall e | e in closed && e.trackId == id
      ensures id in StaleIds(cfg, marked, ts) && e == PresenceRow(id, marked[id])
    {
    }
    if id in StaleIds(cfg, marked, ts) {
      assert PresenceRow(id, marked[id]) in closed;
    }
  }

  lemma NothingClosed(id: string)
    ensures ClosedWindow({}, id) == []
  {
  }

  /** A frame as one track sees it. */
  ghost function LookOf(cfg: Config, s: State, f: Frame, id: string): (l: P.Look)
    requires Ready(cfg, s)
    ensures l.ts == f.ts
  {
    P.Look(f.ts, id in IdsOf(TrackFrame(cfg, s.tracker, f).out))
  }

  /** One completed frame does to each track's presence what the single-track bookkeeping does; one
      that raises does nothing. */
  lemma {:induction false} PresenceStep(cfg: Config, s: State, f: Frame, id: string, closed: seq<Intervals.Window>)
    requires Ready(cfg, s)
    ensures var r := Step(cfg, s, f);
            P.Online(closed + ClosedWindow(r.out.closed, id), OpenOf(r.s.active, id))
            == if Completes(cfg, s, f) then
                 P.LookStep(P.Online(closed, OpenOf(s.active, id)), LookOf(cfg, s, f, id), cfg.mergeGap)
               else P.Online(closed, OpenOf(s.active, id))
  {
    hide TrackFrame, MarkAll, SampleAll, DropAbsent, EvaluateRules, ReadPlates, ClosedRows, ClosedWindow, TrackRows;
    var tracks := TrackFrame(cfg, s.tracker, f).out;
    var marked := MarkAll(cfg, Unmarked(s.active), tracks, f);
    MarkedAs(cfg, Unmarked(s.active), tracks, f, id);
    ClosedWindowOf(cfg, marked, f.ts, id);
    NothingClosed(id);
    assert closed + [] == closed;
  }

  /** The completed frames as one track sees them. */
  ghost function Looks(cfg: Config, frames: seq<Frame>, id: string): seq<P.Look>
    decreases |frames|
  {
    if frames == [] then []
    else
      var n := |frames| - 1;
      Looks(cfg, frames[..n], id)
      + if LastCompletes(cfg, frames) then [LookOf(cfg, Run(cfg, frames[..n]), frames[n], id)] else []
  }

  /** The windows of all presence events closed so far for one track, in order. */
  ghost function Reported(cfg: Config, frames: seq<Frame>, id: string): seq<Intervals.Window>
    decreases |frames|
  {
    if frames == [] then []
    else Reported(cfg, frames[..|frames| - 1], id) + ClosedWindow(OutputAt(cfg, frames, |frames| - 1).closed, id)
  }

  lemma FollowAppended(looks: seq<P.Look>, l: P.Look, gap: real)
    ensures P.Follow(looks + [l], gap) == P.LookStep(P.Follow(looks, gap), l, gap)
  {
    assert (looks + [l])[..|looks|] == looks;
  }

  lemma {:induction false} PresenceFollows(cfg: Config, frames: seq<Frame>, id: string)
    ensures P.Online(Reported(cfg, frames, id), OpenOf(Run(cfg, frames).active, id))
         == P.Follow(Looks(cfg, frames, id), cfg.mergeGap)
    decreases |frames|
  {
    if frames != [] {
      hide Step, LookOf, ClosedWindow, OpenOf, P.LookStep, Ready;
      var n := |frames| - 1;
      var s := Run(cfg, frames[..n]);
      PresenceFollows(cfg, frames[..n], id);
      PresenceStep(cfg, s, frames[n], id, Reported(cfg, frames[..n], id));
      FollowAppended(Looks(cfg, frames[..n], id), LookOf(cfg, s, frames[n], id), cfg.mergeGap);
      hide P.Follow;
      assert Run(cfg, frames) == Step(cfg, s, frames[n]).s;
      assert Looks(cfg, frames[..n], id) + [] == Looks(cfg, frames[..n], id);
    }
  }

  ghost predicate IncreasingTimes(frames: seq<Frame>) {
    forall i, j :: 0 <= i < j < |frames| ==> frames[i].ts < frames[j].ts
  }

  lemma {:induction false} LookTimes(cfg: Config, frames: seq<Frame>, id: string)
    requires IncreasingTimes(frames)
    ensures var looks := Looks(cfg, frames, id);
            && P.Increasing(looks)
            && forall k :: 0 <= k < |looks| ==> frames != [] && looks[k].ts <= frames[|frames| - 1].ts
    decreases |frames|
  {
    hide Run, LookOf, LastCompletes;
    if frames != [] {
      LookTimes(cfg, frames[..|frames| - 1], id);
    }
  }

  /** Over a run with increasing frame times, the presence windows reported for a track that was seen,
      together with its open one, are unions of consecutive windows of `aggregate_track` applied to
      its sightings, and equal to them exactly when no gap longer than `merge_gap` went unnoticed. */
  lemma {:induction false} PresenceRefinesAggregation(cfg: Config, frames: seq<Frame>, id: string, first: real,
                                                      last: real)
    requires IncreasingTimes(frames)
    ensures var open := OpenOf(Run(cfg, frames).active, id);
            var on := Reported(cfg, frames, id) + if open.Some? then [open.value] else [];
            var seen := P.Sightings(Looks(cfg, frames, id));
            var off := P.Aggregated(first, last, seen, cfg.mergeGap);
            seen != [] ==>
              P.Coarsens(on, off) && (on == off <==> P.NoMissedGap(Looks(cfg, frames, id), cfg.mergeGap))
  {
    PresenceFollows(cfg, frames, id);
    LookTimes(cfg, frames, id);
    if P.Sightings(Looks(cfg, frames, id)) != [] {
      P.OnlineRefinesOffline(Looks(cfg, frames, id), cfg.mergeGap, first, last);
    }
  }
}
