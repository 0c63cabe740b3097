/** Stays in a zone, crossings of a line, and crowds, over whole runs of the rule engine. */
module Stays {
  import opened Boxes
  import opened Options
  import opened Geometry
  import opened Rules
  import opened RuleTheorems

  // ---------------------------------------------------------------- stays

  /** What one frame says about one track and a zone rule: not there, there with a label the rule
      ignores, outside the zone, or within it. */
  datatype Sighting = Absent | Ignored | Outside | Within

  predicate ZoneRule(r: Rule) {
    r.ZoneIntrusion? || r.Loitering?
  }

  function Sight(r: Rule, f: Frame, id: string): Sighting
    requires !r.LineCrossing?
  {
    match Find(f.objects, id)
    case None => Absent
    case Some(o) =>
      if r.kinds != [] && o.kind !in r.kinds then Ignored
      else if Inside(Center(o.bbox), r.zone) then Within else Outside
  }

  /** The configured dwell is reached after `d` seconds in the zone. */
  predicate Reached(r: Rule, d: real)
    requires ZoneRule(r)
  {
    if r.ZoneIntrusion? then r.minDwell == 0.0 || d >= r.minDwell else d >= r.dwell
  }

  predicate Leaves(s: Sighting) {
    s.Absent? || s.Outside?
  }

  ghost predicate LeftBetween(r: Rule, frames: seq<Frame>, id: string, i: nat, j: nat)
    requires !r.LineCrossing? && j <= |frames|
  {
    exists m :: i < m < j && Leaves(Sight(r, frames[m], id))
  }

  /** Frame `s` opened a stay that no frame before `k` has ended. */
  ghost predicate Open(r: Rule, frames: seq<Frame>, id: string, k: nat, s: nat)
    requires !r.LineCrossing? && k <= |frames|
  {
    && s < k && Sight(r, frames[s], id).Within?
    && (forall m :: s <= m < k ==> !Leaves(Sight(r, frames[m], id)))
    && (forall i: nat :: i < s && Sight(r, frames[i], id).Within? ==> LeftBetween(r, frames, id, i, s))
  }

  /** In frame `m` the track is in the zone and has been for the configured dwell, counted from
      frame `s`. */
  ghost predicate DwellReached(r: Rule, frames: seq<Frame>, id: string, s: nat, m: nat)
    requires ZoneRule(r) && s < |frames| && m < |frames|
  {
    Sight(r, frames[m], id).Within? && Reached(r, frames[m].ts - frames[s].ts)
  }

  ghost predicate ReachedBefore(r: Rule, frames: seq<Frame>, id: string, s: nat, k: nat)
    requires ZoneRule(r) && s < |frames| && k <= |frames|
  {
    exists m: nat :: s <= m < k && DwellReached(r, frames, id, s, m)
  }

  // What the engine remembers of a stay.
  function SinceOf(r: Rule, m: TrackMem): Option<real>
    requires ZoneRule(r)
  {
    var since := if r.ZoneIntrusion? then m.insideSince else m.loiterSince;
    if r.id in since then Some(since[r.id]) else None
  }

  predicate FiredOf(r: Rule, m: TrackMem)
    requires ZoneRule(r)
  {
    r.id in if r.ZoneIntrusion? then m.insideFired else m.loiterFired
  }

  function StayEvent(r: Rule, camera: string, o: Object, ts: real, since: real): Event
    requires ZoneRule(r)
  {
    Event(r.id, if r.ZoneIntrusion? then Intrusion else Loiter, camera, o.id, o.kind, o.bbox, ts, 1.0,
          Dwell(ts - since))
  }

  lemma StayRule(r: Rule, camera: string, m: TrackMem, o: Object, ts: real)
    requires ZoneRule(r)
    ensures var e := Alone(r, camera, m, o, ts);
            var since := if SinceOf(r, m).Some? then SinceOf(r, m).value else ts;
            var fires := Reached(r, ts - since) && !FiredOf(r, m);
            if !Matches(r.kinds, o.kind) then
              e.events == [] && SinceOf(r, e.m) == SinceOf(r, m) && FiredOf(r, e.m) == FiredOf(r, m)
            else if Inside(Center(o.bbox), r.zone) then
              && e.events == (if fires then [StayEvent(r, camera, o, ts, since)] else [])
              && SinceOf(r, e.m) == Some(since) && FiredOf(r, e.m) == (FiredOf(r, m) || fires)
            else
              e.events == [] && SinceOf(r, e.m) == None && !FiredOf(r, e.m)
  {
  }

  /** The memory of a track describes the stay that is open before frame `k`. */
  ghost predicate Describes(r: Rule, frames: seq<Frame>, id: string, k: nat, m: TrackMem)
    requires ZoneRule(r) && k <= |frames|
  {
    match SinceOf(r, m)
    case None =>
      !FiredOf(r, m) && forall i: nat :: i < k && Sight(r, frames[i], id).Within? ==> LeftBetween(r, frames, id, i, k)
    case Some(t) =>
      exists s: nat :: Open(r, frames, id, k, s) && t == frames[s].ts
          && (FiredOf(r, m) <==> ReachedBefore(r, frames, id, s, k))
  }

  lemma {:induction false} StayOpens(r: Rule, frames: seq<Frame>, id: string, k: nat, m: TrackMem, n: TrackMem)
    requires ZoneRule(r) && k < |frames| && Describes(r, frames, id, k, m)
    requires Sight(r, frames[k], id).Within? && SinceOf(r, m).None?
    requires SinceOf(r, n) == Some(frames[k].ts) && FiredOf(r, n) == Reached(r, 0.0)
    ensures Describes(r, frames, id, k + 1, n)
  {
    assert Open(r, frames, id, k + 1, k);
    assert frames[k].ts - frames[k].ts == 0.0;
    assert DwellReached(r, frames, id, k, k) <==> Reached(r, 0.0);
    assert ReachedBefore(r, frames, id, k, k + 1) <==> DwellReached(r, frames, id, k, k);
  }

  lemma {:induction false} StayContinues(r: Rule, frames: seq<Frame>, id: string, k: nat, m: TrackMem, n: TrackMem,
                                         s: nat)
    requires ZoneRule(r) && k < |frames| && Open(r, frames, id, k, s)
    requires FiredOf(r, m) <==> ReachedBefore(r, frames, id, s, k)
    requires !Leaves(Sight(r, frames[k], id))
    requires SinceOf(r, n) == Some(frames[s].ts)
    requires FiredOf(r, n) == (FiredOf(r, m) || DwellReached(r, frames, id, s, k))
    ensures Describes(r, frames, id, k + 1, n)
  {
    assert Open(r, frames, id, k + 1, s);
    ReachedOneMore(r, frames, id, s, k);
  }

  lemma ReachedOneMore(r: Rule, frames: seq<Frame>, id: string, s: nat, k: nat)
    requires ZoneRule(r) && s <= k < |frames|
    ensures ReachedBefore(r, frames, id, s, k + 1)
        <==> ReachedBefore(r, frames, id, s, k) || DwellReached(r, frames, id, s, k)
  {
    if ReachedBefore(r, frames, id, s, k) {
      var m: nat :| s <= m < k && DwellReached(r, frames, id, s, m);
      assert s <= m < k + 1;
    }
  }

  lemma {:induction false} StayEnds(r: Rule, frames: seq<Frame>, id: string, k: nat, n: TrackMem)
    requires ZoneRule(r) && k < |frames| && Leaves(Sight(r, frames[k], id))
    requires SinceOf(r, n).None? && !FiredOf(r, n)
    ensures Describes(r, frames, id, k + 1, n)
  {
    forall i: nat | i < k + 1 && Sight(r, frames[i], id).Within? ensures LeftBetween(r, frames, id, i, k + 1) {
      assert i < k < k + 1;
    }
  }

  lemma {:induction false} StayWaits(r: Rule, frames: seq<Frame>, id: string, k: nat, m: TrackMem, n: TrackMem)
    requires ZoneRule(r) && k < |frames| && Describes(r, frames, id, k, m)
    requires SinceOf(r, m).None? && Sight(r, frames[k], id).Ignored?
    requires SinceOf(r, n).None? && !FiredOf(r, n)
    ensures Describes(r, frames, id, k + 1, n)
  {
    forall i: nat | i < k + 1 && Sight(r, frames[i], id).Within? ensures LeftBetween(r, frames, id, i, k + 1) {
      assert LeftBetween(r, frames, id, i, k);
      var j :| i < j < k && Leaves(Sight(r, frames[j], id));
      assert i < j < k + 1;
    }
  }

  /** One frame for one track keeps the memory descriptive. */
  lemma {:induction false} SightingStep(r: Rule, camera: string, frames: seq<Frame>, id: string, k: nat, m: TrackMem,
                                        n: TrackMem)
    requires ZoneRule(r) && k < |frames| && Describes(r, frames, id, k, m)
    requires match Find(frames[k].objects, id)
             case None => SinceOf(r, n).None? && !FiredOf(r, n)
             case Some(o) => SameFor(r.id, n, Alone(r, camera, m, o, frames[k].ts).m)
    ensures Describes(r, frames, id, k + 1, n)
  {
    match Find(frames[k].objects, id)
    case None => StayEnds(r, frames, id, k, n);
    case Some(o) =>
      StayRule(r, camera, m, o, frames[k].ts);
      if Leaves(Sight(r, frames[k], id)) {
        StayEnds(r, frames, id, k, n);
      } else if SinceOf(r, m).Some? {
        var s: nat :| Open(r, frames, id, k, s) && SinceOf(r, m).value == frames[s].ts
                      && (FiredOf(r, m) <==> ReachedBefore(r, frames, id, s, k));
        StayContinues(r, frames, id, k, m, n, s);
      } else if Sight(r, frames[k], id).Within? {
        StayOpens(r, frames, id, k, m, n);
      } else {
        StayWaits(r, frames, id, k, m, n);
      }
  }

  /** One frame of a run, as the memory of one rule and track sees it. */
  lemma {:induction false} RunStep(rules: seq<Rule>, camera: string, frames: seq<Frame>, j: nat, id: string, k: nat)
    requires SafeRules(rules) && ProperFrames(frames) && j < |rules| && !rules[j].CrowdCount? && k < |frames|
    ensures var m := Recall(Run(rules, camera, frames[..k]).mem, id);
            var n := Recall(Run(rules, camera, frames[..k + 1]).mem, id);
            match Find(frames[k].objects, id)
            case None => n == BLANK
            case Some(o) =>
              && SameFor(rules[j].id, n, Alone(rules[j], camera, m, o, frames[k].ts).m)
              && n.lastCenter == Some(Center(o.bbox))
  {
    hide Evaluate, Alone, SameFor;
    assert frames[..k + 1][..k] == frames[..k];
    EvaluateProjects(rules, camera, Run(rules, camera, frames[..k]), frames[k], j, id);
  }

  lemma {:induction false} MemoryDescribesStay(rules: seq<Rule>, camera: string, frames: seq<Frame>, j: nat,
                                               id: string, k: nat)
    requires SafeRules(rules) && ProperFrames(frames) && j < |rules| && ZoneRule(rules[j]) && k <= |frames|
    ensures Describes(rules[j], frames, id, k, Recall(Run(rules, camera, frames[..k]).mem, id))
    decreases k
  {
    if k > 0 {
      hide Describes, Run, SafeRules, SameFor, Alone;
      var s := Run(rules, camera, frames[..k - 1]);
      MemoryDescribesStay(rules, camera, frames, j, id, k - 1);
      RunStep(rules, camera, frames, j, id, k - 1);
      SightingStep(rules[j], camera, frames, id, k - 1, Recall(s.mem, id),
                   Recall(Run(rules, camera, frames[..k]).mem, id));
    }
  }

  lemma OpenUnique(r: Rule, frames: seq<Frame>, id: string, k: nat, s: nat, s': nat)
    requires ZoneRule(r) && k <= |frames| && Open(r, frames, id, k, s) && Open(r, frames, id, k, s')
    ensures s == s'
  {
    assert s < s' ==> LeftBetween(r, frames, id, s, s');
    assert s' < s ==> LeftBetween(r, frames, id, s', s);
  }

  /** The event of frame `k`: the track is in the zone, the dwell since frame `s` that opened its
      stay has reached the configured one, and no earlier frame of the stay had reached it. */
  ghost predicate FirstReached(r: Rule, frames: seq<Frame>, id: string, s: nat, k: nat)
    requires ZoneRule(r) && s < |frames| && k < |frames|
  {
    DwellReached(r, frames, id, s, k) && !ReachedBefore(r, frames, id, s, k)
  }

  /** A rule stays silent about a track that is not in its zone. For a track in the zone, in a stay
      opened by frame `s`, it reports exactly when the true dwell since `s` first reaches the
      configured one. */
  lemma OneEventPerStay(rules: seq<Rule>, camera: string, frames: seq<Frame>, j: nat, id: string, k: nat, s: nat)
    requires SafeRules(rules) && ProperFrames(frames) && j < |rules| && ZoneRule(rules[j]) && k < |frames|
    ensures !Sight(rules[j], frames[k], id).Within? ==> Only(EventsAt(rules, camera, frames, k), rules[j].id, id) == []
    ensures Sight(rules[j], frames[k], id).Within? && Open(rules[j], frames, id, k + 1, s) ==>
              Only(EventsAt(rules, camera, frames, k), rules[j].id, id)
              == if FirstReached(rules[j], frames, id, s, k)
                 then [StayEvent(rules[j], camera, Find(frames[k].objects, id).value, frames[k].ts, frames[s].ts)]
                 else []
  {
    var r := rules[j];
    var state := Run(rules, camera, frames[..k]);
    var m := Recall(state.mem, id);
    EvaluateProjects(rules, camera, state, frames[k], j, id);
    MemoryDescribesStay(rules, camera, frames, j, id, k);
    if Find(frames[k].objects, id).Some? {
      StayRule(r, camera, m, Find(frames[k].objects, id).value, frames[k].ts);
      if Sight(r, frames[k], id).Within? && Open(r, frames, id, k + 1, s) {
        StayMemory(r, frames, id, k, s, m);
      }
    }
  }

  lemma {:induction false} StayMemory(r: Rule, frames: seq<Frame>, id: string, k: nat, s: nat, m: TrackMem)
    requires ZoneRule(r) && k < |frames| && Describes(r, frames, id, k, m)
    requires Sight(r, frames[k], id).Within? && Open(r, frames, id, k + 1, s)
    ensures frames[s].ts == if SinceOf(r, m).Some? then SinceOf(r, m).value else frames[k].ts
    ensures FiredOf(r, m) <==> ReachedBefore(r, frames, id, s, k)
  {
    match SinceOf(r, m)
    case Some(t) =>
      var s': nat :| Open(r, frames, id, k, s') && t == frames[s'].ts
          && (FiredOf(r, m) <==> ReachedBefore(r, frames, id, s', k));
      assert Open(r, frames, id, k + 1, s');
      OpenUnique(r, frames, id, k + 1, s, s');
    case None =>
  }

  /** Every frame in the zone belongs to a stay. */
  lemma {:induction false} StayHasOpening(r: Rule, frames: seq<Frame>, id: string, k: nat) returns (s: nat)
    requires ZoneRule(r) && k < |frames| && Sight(r, frames[k], id).Within?
    ensures Open(r, frames, id, k + 1, s)
  {
    s := k;
    if i: nat :| i < k && Sight(r, frames[i], id).Within? && !LeftBetween(r, frames, id, i, k) {
      s := StayHasOpening(r, frames, id, i);
      forall m | s <= m < k + 1 ensures !Leaves(Sight(r, frames[m], id)) {
        assert i < m < k ==> !Leaves(Sight(r, frames[m], id));
      }
    }
  }

  /** A stay that reaches the configured dwell within its first frames up to `n` is reported in
      exactly one of them; a stay that does not is not reported. */
  lemma {:induction false} StayReportedOnce(rules: seq<Rule>, camera: string, frames: seq<Frame>, j: nat, id: string,
                                            n: nat, s: nat)
    returns (k: nat)
    requires SafeRules(rules) && ProperFrames(frames) && j < |rules| && ZoneRule(rules[j]) && n <= |frames|
    requires Open(rules[j], frames, id, n, s)
    ensures ReachedBefore(rules[j], frames, id, s, n) ==>
              s <= k < n && |Only(EventsAt(rules, camera, frames, k), rules[j].id, id)| == 1
    ensures forall i: nat :: s <= i < n && (i != k || !ReachedBefore(rules[j], frames, id, s, n)) ==>
              Only(EventsAt(rules, camera, frames, i), rules[j].id, id) == []
  {
    var r := rules[j];
    k := s;
    if ReachedBefore(r, frames, id, s, n) {
      k := FirstReaching(r, frames, id, s, n);
    }
    forall i: nat | s <= i < n
      ensures Only(EventsAt(rules, camera, frames, i), r.id, id) != [] <==> FirstReached(r, frames, id, s, i)
      ensures |Only(EventsAt(rules, camera, frames, i), r.id, id)| <= 1
    {
      OneEventPerStay(rules, camera, frames, j, id, i, s);
      assert Sight(r, frames[i], id).Within? ==> Open(r, frames, id, i + 1, s);
    }
  }

  lemma {:induction false} FirstReaching(r: Rule, frames: seq<Frame>, id: string, s: nat, n: nat) returns (k: nat)
    requires ZoneRule(r) && s < n <= |frames| && ReachedBefore(r, frames, id, s, n)
    ensures s <= k < n && FirstReached(r, frames, id, s, k)
  {
    k :| s <= k < n && DwellReached(r, frames, id, s, k);
    if ReachedBefore(r, frames, id, s, k) {
      k := FirstReaching(r, frames, id, s, k);
    }
  }

  // ---------------------------------------------------------------- line crossings

  ghost predicate Present(f: Frame, id: string) {
    Find(f.objects, id).Some?
  }

  /** The movement meets the line, an end point counting on one side only. */
  ghost predicate Meets(p: Point, q: Point, a: Point, b: Point) {
    exists t, s :: MeetAt(p, q, a, b, t, s)
  }

  /** The rule wants no direction, or the one in which the movement ends: 1 strictly left of the line,
      -1 elsewhere. */
  predicate DirectionFits(r: Rule, cur: Point)
    requires r.LineCrossing?
  {
    r.direction.Some? ==> r.direction.value == if Orient(r.a, r.b, cur) > 0.0 then 1 else -1
  }

  lemma LineHitMeans(r: Rule, prev: Option<Point>, cur: Point)
    requires r.LineCrossing?
    ensures LineHit(r, prev, cur) <==> prev.Some? && Meets(prev.value, cur, r.a, r.b) && DirectionFits(r, cur)
  {
    if prev.Some? {
      CrossingIsExact(prev.value, cur, r.a, r.b);
      if SegmentsIntersect(prev.value, cur, r.a, r.b) {
        DirectionIsSide(prev.value, cur, r.a, r.b);
      }
      hide SegmentsIntersect, MeetAt, Orient, CrossingDirection;
    }
  }

  /** Between frames `m - 1` and `m` the track, of a label the rule wants, moved across the line in a
      direction it wants. */
  ghost predicate Hit(r: Rule, frames: seq<Frame>, id: string, m: nat)
    requires r.LineCrossing? && m < |frames|
  {
    && LastCenter(frames, id, m).Some? && Present(frames[m], id)
    && var o := Find(frames[m].objects, id).value;
    && (r.kinds == [] || o.kind in r.kinds)
    && Meets(LastCenter(frames, id, m).value, Center(o.bbox), r.a, r.b)
    && DirectionFits(r, Center(o.bbox))
  }

  /** An earlier hit in the same unbroken appearance. */
  ghost predicate HitBefore(r: Rule, frames: seq<Frame>, id: string, k: nat)
    requires r.LineCrossing? && k <= |frames|
  {
    exists m: nat :: m < k && Hit(r, frames, id, m) && forall i :: m <= i < k ==> Present(frames[i], id)
  }

  ghost function LastCenter(frames: seq<Frame>, id: string, k: nat): Option<Point>
    requires k <= |frames|
  {
    if k > 0 && Present(frames[k - 1], id) then Some(Center(Find(frames[k - 1].objects, id).value.bbox)) else None
  }

  lemma HitOneMore(r: Rule, frames: seq<Frame>, id: string, k: nat)
    requires r.LineCrossing? && k < |frames| && Present(frames[k], id)
    ensures HitBefore(r, frames, id, k + 1) <==> HitBefore(r, frames, id, k) || Hit(r, frames, id, k)
  {
    if HitBefore(r, frames, id, k) {
      var m: nat :| m < k && Hit(r, frames, id, m) && forall i :: m <= i < k ==> Present(frames[i], id);
      assert forall i :: m <= i < k + 1 ==> Present(frames[i], id);
    }
  }

  lemma LineRule(r: Rule, camera: string, m: TrackMem, o: Object, ts: real)
    requires r.LineCrossing?
    ensures var hit := (r.kinds == [] || o.kind in r.kinds)
                       && m.lastCenter.Some? && Meets(m.lastCenter.value, Center(o.bbox), r.a, r.b)
                       && DirectionFits(r, Center(o.bbox));
            (r.id in Alone(r, camera, m, o, ts).m.crossedLines <==> r.id in m.crossedLines || hit)
            && Alone(r, camera, m, o, ts).events
               == if hit && r.id !in m.crossedLines then [LineEvent(r, camera, o, ts)] else []
  {
    LineHitMeans(r, m.lastCenter, Center(o.bbox));
    if LineHit(r, m.lastCenter, Center(o.bbox)) {
      DirectionIsSide(m.lastCenter.value, Center(o.bbox), r.a, r.b);
    }
    hide LineHit, CrossingDirection, Orient, Meets, DirectionFits;
  }

  /** The report of a crossing, with the side on which it ended. */
  function LineEvent(r: Rule, camera: string, o: Object, ts: real): Event
    requires r.LineCrossing?
  {
    Event(r.id, LineCross, camera, o.id, o.kind, o.bbox, ts, 1.0,
          Direction(if Orient(r.a, r.b, Center(o.bbox)) > 0.0 then 1 else -1))
  }

  /** The memory of a track gives its last position and whether the line was hit in this appearance. */
  ghost predicate DescribesLine(r: Rule, frames: seq<Frame>, id: string, k: nat, m: TrackMem)
    requires r.LineCrossing? && k <= |frames|
  {
    m.lastCenter == LastCenter(frames, id, k) && (r.id in m.crossedLines <==> HitBefore(r, frames, id, k))
  }

  lemma {:induction false} LineStep(r: Rule, camera: string, frames: seq<Frame>, id: string, k: nat, m: TrackMem,
                                    n: TrackMem)
    requires r.LineCrossing? && k < |frames| && DescribesLine(r, frames, id, k, m)
    requires match Find(frames[k].objects, id)
             case None => n == BLANK
             case Some(o) =>
               SameFor(r.id, n, Alone(r, camera, m, o, frames[k].ts).m) && n.lastCenter == Some(Center(o.bbox))
    ensures DescribesLine(r, frames, id, k + 1, n)
  {
    match Find(frames[k].objects, id)
    case None =>
    case Some(o) =>
      LineRule(r, camera, m, o, frames[k].ts);
      HitOneMore(r, frames, id, k);
      hide Alone, Meets, DirectionFits, HitBefore;
  }

  lemma {:induction false} MemoryDescribesLine(rules: seq<Rule>, camera: string, frames: seq<Frame>, j: nat,
                                               id: string, k: nat)
    requires SafeRules(rules) && ProperFrames(frames) && j < |rules| && rules[j].LineCrossing? && k <= |frames|
    ensures DescribesLine(rules[j], frames, id, k, Recall(Run(rules, camera, frames[..k]).mem, id))
    decreases k
  {
    if k > 0 {
      hide DescribesLine, Run, SafeRules, SameFor, Alone;
      var s := Run(rules, camera, frames[..k - 1]);
      MemoryDescribesLine(rules, camera, frames, j, id, k - 1);
      RunStep(rules, camera, frames, j, id, k - 1);
      LineStep(rules[j], camera, frames, id, k - 1, Recall(s.mem, id), Recall(Run(rules, camera, frames[..k]).mem, id));
    }
  }

  /** A line rule reports a track exactly at the first hit of an unbroken appearance, with the side on
      which the movement ended. So every report of a rule that wants a direction carries that direction. */
  lemma {:induction false} OneCrossingPerAppearance(rules: seq<Rule>, camera: string, frames: seq<Frame>, j: nat,
                                                    id: string, k: nat)
    requires SafeRules(rules) && ProperFrames(frames) && j < |rules| && rules[j].LineCrossing? && k < |frames|
    ensures Only(EventsAt(rules, camera, frames, k), rules[j].id, id)
         == if Hit(rules[j], frames, id, k) && !HitBefore(rules[j], frames, id, k)
            then [LineEvent(rules[j], camera, Find(frames[k].objects, id).value, frames[k].ts)]
            else []
    ensures rules[j].direction.Some? ==>
              forall e :: e in Only(EventsAt(rules, camera, frames, k), rules[j].id, id) ==>
                e.detail == Direction(rules[j].direction.value)
  {
    var r := rules[j];
    var state := Run(rules, camera, frames[..k]);
    EvaluateProjects(rules, camera, state, frames[k], j, id);
    MemoryDescribesLine(rules, camera, frames, j, id, k);
    var o := Find(frames[k].objects, id);
    if o.Some? {
      LineRule(r, camera, Recall(state.mem, id), o.value, frames[k].ts);
    }
    hide Alone, Meets, HitBefore, Evaluate, Run;
  }

  // ---------------------------------------------------------------- crowds

  /** The objects of the labels a rule wants whose midpoint lies in its zone. */
  ghost function Members(r: Rule, objects: seq<Object>): set<nat>
    requires r.CrowdCount?
  {
    set i: nat | i < |objects| && IsMember(r, objects[i])
  }

  /** An object of a label the rule wants, with its midpoint in the zone. */
  ghost predicate IsMember(r: Rule, o: Object)
    requires r.CrowdCount?
  {
    (r.kinds == [] || o.kind in r.kinds) && Inside(Center(o.bbox), r.zone)
  }

  lemma {:induction false} CrowdSizeCounts(r: Rule, objects: seq<Object>)
    requires r.CrowdCount?
    ensures CrowdSize(r, objects) == |Members(r, objects)|
  {
    if objects == [] {
      assert Members(r, objects) == {};
    } else {
      hide Inside, Members;
      CrowdSizeCounts(r, objects[..|objects| - 1]);
      MembersSplit(r, objects);
    }
  }

  lemma MembersSplit(r: Rule, objects: seq<Object>)
    requires r.CrowdCount? && objects != []
    ensures |Members(r, objects)|
         == |Members(r, objects[..|objects| - 1])| + if IsMember(r, objects[|objects| - 1]) then 1 else 0
  {
    hide IsMember;
    var n := |objects| - 1;
    var before := Members(r, objects[..n]);
    assert n !in before;
    if IsMember(r, objects[n]) {
      assert Members(r, objects) == before + {n};
    } else {
      assert Members(r, objects) == before;
    }
  }

  ghost predicate Crowded(r: Rule, f: Frame)
    requires r.CrowdCount?
  {
    |Members(r, f.objects)| >= r.threshold
  }

  predicate CrowdFlag(fired: map<string, bool>, id: string) {
    id in fired && fired[id]
  }

  /** The report of a crowd: the number of its members and the box of a representative. */
  ghost function CrowdReport(r: Rule, camera: string, f: Frame): seq<Event>
    requires r.CrowdCount?
  {
    var rep := Representative(r.kinds, f.objects);
    var size := |Members(r, f.objects)|;
    if rep.None? then [] else [Event(r.id, Crowd, camera, "", "person", rep.value, f.ts, size as real, Count(size))]
  }

  ghost predicate Wanted(kinds: seq<string>, o: Object) {
    kinds == [] || o.kind in kinds
  }

  /** Object `i` is the first of the largest area (width times height) among those of the given kinds. */
  ghost predicate Largest(kinds: seq<string>, objects: seq<Object>, i: nat) {
    && i < |objects| && Wanted(kinds, objects[i])
    && forall m :: 0 <= m < |objects| && Wanted(kinds, objects[m]) ==>
        NotLarger(objects[m].bbox, objects[i].bbox, m < i)
  }

  predicate NotLarger(a: Box, b: Box, strictly: bool) {
    a.w * a.h <= b.w * b.h && (strictly ==> a.w * a.h < b.w * b.h)
  }

  /** The same by `Area`. */
  ghost predicate LargestArea(kinds: seq<string>, objects: seq<Object>, i: nat) {
    && i < |objects| && Wanted(kinds, objects[i])
    && forall m :: 0 <= m < |objects| && Wanted(kinds, objects[m]) ==>
         && Area(objects[m].bbox) <= Area(objects[i].bbox)
         && (m < i ==> Area(objects[m].bbox) < Area(objects[i].bbox))
  }

  lemma {:induction false} RepresentativeByArea(kinds: seq<string>, objects: seq<Object>) returns (i: nat)
    ensures var rep := Representative(kinds, objects);
            if rep.None? then forall m :: 0 <= m < |objects| ==> !Wanted(kinds, objects[m])
            else LargestArea(kinds, objects, i) && rep.value == objects[i].bbox
  {
    hide Area;
    i := 0;
    if objects != [] {
      var n := |objects| - 1;
      var before := Representative(kinds, objects[..n]);
      i := RepresentativeByArea(kinds, objects[..n]);
      if before.Some? {
        LargestGrows(kinds, objects, i);
      } else {
        assert forall m :: 0 <= m < n ==> objects[..n][m] == objects[m];
      }
      if Matches(kinds, objects[n].kind) && (before.None? || Area(objects[n].bbox) > Area(before.value)) {
        i := n;
      }
    }
  }

  lemma LargestGrows(kinds: seq<string>, objects: seq<Object>, i: nat)
    requires objects != [] && LargestArea(kinds, objects[..|objects| - 1], i)
    ensures var n := |objects| - 1;
            LargestArea(kinds, objects,
                        if Wanted(kinds, objects[n]) && Area(objects[n].bbox) > Area(objects[i].bbox) then n else i)
  {
    hide Area, Wanted;
    var n := |objects| - 1;
    assert forall m :: 0 <= m < n ==> objects[..n][m] == objects[m];
  }

  lemma LargestAreaMeans(kinds: seq<string>, objects: seq<Object>, i: nat)
    requires LargestArea(kinds, objects, i)
    ensures Largest(kinds, objects, i)
  {
    hide Wanted, Area, NotLarger;
    forall m | 0 <= m < |objects| && Wanted(kinds, objects[m])
      ensures NotLarger(objects[m].bbox, objects[i].bbox, m < i)
    {
      SmallerArea(objects[m].bbox, objects[i].bbox, m < i);
    }
  }

  lemma SmallerArea(a: Box, b: Box, strictly: bool)
    requires Area(a) <= Area(b) && (strictly ==> Area(a) < Area(b))
    ensures NotLarger(a, b, strictly)
  {
  }

  /** The representative is the largest object of the rule's kinds, in the zone or not. */
  lemma {:induction false} RepresentativeIsLargest(kinds: seq<string>, objects: seq<Object>) returns (i: nat)
    ensures var rep := Representative(kinds, objects);
            if rep.None? then forall m :: 0 <= m < |objects| ==> !Wanted(kinds, objects[m])
            else Largest(kinds, objects, i) && rep.value == objects[i].bbox
  {
    i := RepresentativeByArea(kinds, objects);
    hide Wanted, Area, NotLarger;
    if Representative(kinds, objects).Some? {
      LargestAreaMeans(kinds, objects, i);
    }
  }

  lemma {:induction false} CrowdOwn(r: Rule, camera: string, c: Crowds, f: Frame)
    requires r.CrowdCount? && r.threshold >= 1 && !c.raised
    ensures var d := EvalCrowd(r, camera, c, f.objects, f.ts);
            && CrowdFlag(d.fired, r.id) == Crowded(r, f)
            && Only(d.events, r.id, "")
               == Only(c.events, r.id, "")
                  + if Crowded(r, f) && !CrowdFlag(c.fired, r.id) then CrowdReport(r, camera, f) else []
  {
    CrowdSizeCounts(r, f.objects);
    if Crowded(r, f) {
      CrowdHasMember(r, f.objects);
      var d := EvalCrowd(r, camera, c, f.objects, f.ts);
      if !CrowdFlag(c.fired, r.id) {
        assert d.events[..|d.events| - 1] == c.events;
      }
    }
  }

  lemma {:induction false} CrowdOther(r: Rule, camera: string, c: Crowds, f: Frame, id: string)
    requires r.id != id
    ensures var d := EvalCrowd(r, camera, c, f.objects, f.ts);
            CrowdFlag(d.fired, id) == CrowdFlag(c.fired, id) && Only(d.events, id, "") == Only(c.events, id, "")
  {
    var d := EvalCrowd(r, camera, c, f.objects, f.ts);
    EvalCrowdAppends(r, camera, c, f.objects, f.ts);
    if d.events != c.events {
      assert d.events[..|d.events| - 1] == c.events;
    }
  }

  lemma {:induction false} CrowdsProject(rules: seq<Rule>, camera: string, fired: map<string, bool>, f: Frame,
                                         id: string, j: nat)
    requires SafeRules(rules)
    requires if j < |rules| then rules[j].CrowdCount? && rules[j].id == id
             else forall i :: 0 <= i < |rules| ==> rules[i].id != id
    ensures var c := EvalCrowds(rules, camera, fired, f.objects, f.ts);
            if j < |rules| then
              && CrowdFlag(c.fired, id) == Crowded(rules[j], f)
              && Only(c.events, id, "")
                 == if Crowded(rules[j], f) && !CrowdFlag(fired, id) then CrowdReport(rules[j], camera, f) else []
            else CrowdFlag(c.fired, id) == CrowdFlag(fired, id) && Only(c.events, id, "") == []
    decreases |rules|
  {
    if rules != [] {
      hide EvalCrowd, Crowded, CrowdReport, CrowdFlag, Only;
      var n := |rules| - 1;
      var c := EvalCrowds(rules[..n], camera, fired, f.objects, f.ts);
      CrowdsNeverRaise(rules[..n], camera, fired, f.objects, f.ts);
      assert SafeRules(rules[..n]);
      CrowdsProject(rules[..n], camera, fired, f, id, j);
      if j == n {
        CrowdOwn(rules[n], camera, c, f);
      } else {
        CrowdOther(rules[n], camera, c, f, id);
      }
    }
  }

  lemma {:induction false} ObjectsCrowdSilent(rules: seq<Rule>, camera: string, mem: map<string, TrackMem>,
                                              objects: seq<Object>, ts: real, j: nat)
    requires DistinctRules(rules) && j < |rules| && rules[j].CrowdCount?
    ensures Only(EvalObjects(rules, camera, mem, objects, ts).events, rules[j].id, "") == []
  {
    if objects != [] {
      var n := |objects| - 1;
      var o := objects[n];
      var s := EvalObjects(rules, camera, mem, objects[..n], ts);
      ObjectsCrowdSilent(rules, camera, mem, objects[..n], ts, j);
      ObjectCrowdSilent(rules, camera, s.mem, o, ts, j);
      hide EvalObject;
      OnlyConcat(s.events, EvalObject(rules, camera, s.mem, o, ts).events, rules[j].id, "");
    }
  }

  lemma {:induction false} ObjectCrowdSilent(rules: seq<Rule>, camera: string, mem: map<string, TrackMem>, o: Object,
                                             ts: real, j: nat)
    requires DistinctRules(rules) && j < |rules| && rules[j].CrowdCount?
    ensures Only(EvalObject(rules, camera, mem, o, ts).events, rules[j].id, "") == []
  {
    hide EvalRules, SameFor;
    var m := Recall(mem, o.id);
    var start := m.(bbox := o.bbox, kind := o.kind, lastCenter := Some(Center(o.bbox)));
    if o.id == "" {
      EvalRulesProjects(rules, start, o, Moment(camera, ts, m.lastCenter), j);
    } else {
      EvalRulesElsewhere(rules, start, o, Moment(camera, ts, m.lastCenter), rules[j].id, "");
    }
  }

  /** One evaluated frame, seen from a crowd rule. */
  lemma {:induction false} EvaluateCrowdRule(rules: seq<Rule>, camera: string, s: State, f: Frame, j: nat)
    requires SafeRules(rules) && j < |rules| && rules[j].CrowdCount?
    ensures var r := Evaluate(rules, camera, s, f.objects, f.ts);
            && CrowdFlag(r.s.crowdFired, rules[j].id) == Crowded(rules[j], f)
            && Only(r.events, rules[j].id, "")
               == if Crowded(rules[j], f) && !CrowdFlag(s.crowdFired, rules[j].id)
                   then CrowdReport(rules[j], camera, f) else []
  {
    CrowdsProject(rules, camera, s.crowdFired, f, rules[j].id, j);
    CrowdsNeverRaise(rules, camera, s.crowdFired, f.objects, f.ts);
    ObjectsCrowdSilent(rules, camera, s.mem, f.objects, f.ts, j);
    OnlyConcat(EvalObjects(rules, camera, s.mem, f.objects, f.ts).events,
               EvalCrowds(rules, camera, s.crowdFired, f.objects, f.ts).events, rules[j].id, "");
  }

  lemma CrowdReportIsOne(r: Rule, camera: string, f: Frame)
    requires r.CrowdCount? && r.threshold >= 1
    ensures Crowded(r, f) ==> |CrowdReport(r, camera, f)| == 1
  {
    CrowdSizeCounts(r, f.objects);
    if Crowded(r, f) {
      CrowdHasMember(r, f.objects);
    }
  }

  /** A crowd is reported once when it forms: in frame `k` iff it has the configured size there and
      had not in the frame before, with its size and the box of its representative. */
  lemma {:induction false} CrowdReportedOnFormation(rules: seq<Rule>, camera: string, frames: seq<Frame>, j: nat,
                                                    k: nat)
    requires SafeRules(rules) && j < |rules| && rules[j].CrowdCount? && k < |frames|
    ensures Only(EventsAt(rules, camera, frames, k), rules[j].id, "")
         == if Crowded(rules[j], frames[k]) && !(k > 0 && Crowded(rules[j], frames[k - 1]))
            then CrowdReport(rules[j], camera, frames[k]) else []
    ensures Crowded(rules[j], frames[k]) ==> |CrowdReport(rules[j], camera, frames[k])| == 1
  {
    CrowdReportIsOne(rules[j], camera, frames[k]);
    assert k == 0 ==> !CrowdFlag(Run(rules, camera, frames[..k]).crowdFired, rules[j].id);
    hide Evaluate, Crowded, CrowdReport, Only, CrowdFlag;
    EvaluateCrowdRule(rules, camera, Run(rules, camera, frames[..k]), frames[k], j);
    if k > 0 {
      assert frames[..k][..k - 1] == frames[..k - 1];
      EvaluateCrowdRule(rules, camera, Run(rules, camera, frames[..k - 1]), frames[k - 1], j);
    }
  }
}
