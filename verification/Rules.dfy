/** The behaviour-rule engine of one camera: line crossing, zone intrusion, loitering, object left or
    removed, crowd. Rule ids are assumed not to collide through the text prefixes the program uses
    for its "already fired" keys; these keys are kept in sets of their own here. */
module Rules {
  import opened Boxes
  import opened Options
  import opened Geometry

  datatype Rule =
    | LineCrossing(id: string, camera: string, a: Point, b: Point, direction: Option<int>, kinds: seq<string>)
    | ZoneIntrusion(id: string, camera: string, zone: seq<Point>, minDwell: real, kinds: seq<string>)
    | Loitering(id: string, camera: string, zone: seq<Point>, dwell: real, kinds: seq<string>)
    | ObjectLeft(id: string, camera: string, zone: seq<Point>, stationary: real, kinds: seq<string>)
    | CrowdCount(id: string, camera: string, zone: seq<Point>, threshold: int, kinds: seq<string>)

  datatype EventType = LineCross | Intrusion | Loiter | Left | Removed | Crowd

  datatype Detail = NoDetail | Direction(sign: int) | Dwell(seconds: real) | Count(n: int)

  datatype Event = Event(ruleId: string, eventType: EventType, camera: string, trackId: string,
                         kind: string, bbox: Box, ts: real, score: real, detail: Detail)

  /** A tracked object as the engine sees it. */
  datatype Object = Object(id: string, kind: string, bbox: Box)

  /** What the engine remembers about a track: per rule id the time it entered the zone, and which
      rules have fired already. */
  datatype TrackMem = TrackMem(
    lastCenter: Option<Point>,
    insideSince: map<string, real>, insideFired: set<string>,
    loiterSince: map<string, real>, loiterFired: set<string>, leftFired: set<string>,
    crossedLines: set<string>, bbox: Box, kind: string)

  const BLANK := TrackMem(None, map[], {}, map[], {}, {}, {}, Box(0.0, 0.0, 0.0, 0.0), "person")

  datatype State = State(mem: map<string, TrackMem>, crowdFired: map<string, bool>)

  predicate Matches(kinds: seq<string>, kind: string) {
    kinds == [] || kind in kinds
  }

  function Since(since: map<string, real>, id: string, ts: real): real {
    if id in since then since[id] else ts
  }

  /** Memory and events after evaluating one rule for one object. */
  datatype Evaluated = Evaluated(m: TrackMem, events: seq<Event>)

  /** The frame in which an object is evaluated: camera, time, and its previous position. */
  datatype Moment = Moment(camera: string, ts: real, prev: Option<Point>)

  function Fired(r: Rule, t: EventType, o: Object, w: Moment, d: Detail): Event {
    Event(r.id, t, w.camera, o.id, o.kind, o.bbox, w.ts, 1.0, d)
  }

  predicate LineHit(r: Rule, prev: Option<Point>, cur: Point)
    requires r.LineCrossing?
  {
    && prev.Some?
    && SegmentsIntersect(prev.value, cur, r.a, r.b)
    && (r.direction.Some? ==> CrossingDirection(prev.value, cur, r.a, r.b) == r.direction.value)
  }

  function EvalLine(r: Rule, m: TrackMem, o: Object, w: Moment): Evaluated
    requires r.LineCrossing?
  {
    if !LineHit(r, w.prev, Center(o.bbox)) || r.id in m.crossedLines then Evaluated(m, [])
    else
      var d := CrossingDirection(w.prev.value, Center(o.bbox), r.a, r.b);
      Evaluated(m.(crossedLines := m.crossedLines + {r.id}), [Fired(r, LineCross, o, w, Direction(d))])
  }

  function EvalZone(r: Rule, m: TrackMem, o: Object, w: Moment): Evaluated
    requires r.ZoneIntrusion?
  {
    if Inside(Center(o.bbox), r.zone) then
      var since := Since(m.insideSince, r.id, w.ts);
      var m1 := m.(insideSince := m.insideSince[r.id := since]);
      var dwell := w.ts - since;
      if r.minDwell != 0.0 && dwell < r.minDwell then Evaluated(m1, [])
      else if r.id in m1.insideFired then Evaluated(m1, [])
      else Evaluated(m1.(insideFired := m1.insideFired + {r.id}), [Fired(r, Intrusion, o, w, Dwell(dwell))])
    else
      Evaluated(m.(insideSince := m.insideSince - {r.id}, insideFired := m.insideFired - {r.id}), [])
  }

  function EvalLoiter(r: Rule, m: TrackMem, o: Object, w: Moment): Evaluated
    requires r.Loitering?
  {
    if Inside(Center(o.bbox), r.zone) then
      var since := Since(m.loiterSince, r.id, w.ts);
      var m1 := m.(loiterSince := m.loiterSince[r.id := since]);
      var dwell := w.ts - since;
      if dwell >= r.dwell && r.id !in m1.loiterFired
      then Evaluated(m1.(loiterFired := m1.loiterFired + {r.id}), [Fired(r, Loiter, o, w, Dwell(dwell))])
      else Evaluated(m1, [])
    else
      Evaluated(m.(loiterSince := m.loiterSince - {r.id}, loiterFired := m.loiterFired - {r.id}), [])
  }

  function EvalObjectLeft(r: Rule, m: TrackMem, o: Object, w: Moment): Evaluated
    requires r.ObjectLeft?
  {
    if Inside(Center(o.bbox), r.zone) then
      var since := Since(m.loiterSince, r.id, w.ts);
      var m1 := m.(loiterSince := m.loiterSince[r.id := since]);
      var dwell := w.ts - since;
      if dwell >= r.stationary && r.id !in m1.leftFired
      then Evaluated(m1.(leftFired := m1.leftFired + {r.id}), [Fired(r, Left, o, w, Dwell(dwell))])
      else Evaluated(m1, [])
    else if r.id in m.leftFired && o.kind != "person" then
      Evaluated(m.(leftFired := m.leftFired - {r.id}), [Fired(r, Removed, o, w, NoDetail)])
    else
      Evaluated(m.(loiterSince := m.loiterSince - {r.id}, leftFired := m.leftFired - {r.id}), [])
  }

  function EvalRule(r: Rule, m: TrackMem, o: Object, w: Moment): Evaluated {
    if !Matches(r.kinds, o.kind) then Evaluated(m, [])
    else match r
      case LineCrossing(_, _, _, _, _, _) => EvalLine(r, m, o, w)
      case ZoneIntrusion(_, _, _, _, _) => EvalZone(r, m, o, w)
      case Loitering(_, _, _, _, _) => EvalLoiter(r, m, o, w)
      case ObjectLeft(_, _, _, _, _) => EvalObjectLeft(r, m, o, w)
      case CrowdCount(_, _, _, _, _) => Evaluated(m, [])
  }

  function EvalRules(rules: seq<Rule>, m: TrackMem, o: Object, w: Moment): Evaluated {
    if rules == [] then Evaluated(m, [])
    else
      var n := |rules| - 1;
      var e := EvalRules(rules[..n], m, o, w);
      var f := EvalRule(rules[n], e.m, o, w);
      Evaluated(f.m, e.events + f.events)
  }

  function Recall(mem: map<string, TrackMem>, id: string): TrackMem {
    if id in mem then mem[id] else BLANK
  }

  function EvalObject(rules: seq<Rule>, camera: string, mem: map<string, TrackMem>, o: Object, ts: real): Evaluated {
    var m := Recall(mem, o.id);
    EvalRules(rules, m.(bbox := o.bbox, kind := o.kind, lastCenter := Some(Center(o.bbox))), o,
              Moment(camera, ts, m.lastCenter))
  }

  datatype Swept = Swept(mem: map<string, TrackMem>, events: seq<Event>)

  function EvalObjects(rules: seq<Rule>, camera: string, mem: map<string, TrackMem>, objects: seq<Object>,
                       ts: real): Swept {
    if objects == [] then Swept(mem, [])
    else
      var n := |objects| - 1;
      var s := EvalObjects(rules, camera, mem, objects[..n], ts);
      var e := EvalObject(rules, camera, s.mem, objects[n], ts);
      Swept(s.mem[objects[n].id := e.m], s.events + e.events)
  }

  // ---------------------------------------------------------------- crowds

  function CrowdSize(r: Rule, objects: seq<Object>): nat
    requires r.CrowdCount?
  {
    if objects == [] then 0
    else
      var n := |objects| - 1;
      CrowdSize(r, objects[..n])
      + if Matches(r.kinds, objects[n].kind) && Inside(Center(objects[n].bbox), r.zone) then 1 else 0
  }

  function Area(b: Box): real {
    b.w * b.h
  }

  /** The first box of largest area among the objects of the given kinds. */
  function Representative(kinds: seq<string>, objects: seq<Object>): (r: Option<Box>)
    ensures r.Some? <==> exists i :: 0 <= i < |objects| && Matches(kinds, objects[i].kind)
    ensures r.Some? ==> exists i :: 0 <= i < |objects| && objects[i].bbox == r.value
  {
    if objects == [] then None
    else
      var n := |objects| - 1;
      var r := Representative(kinds, objects[..n]);
      if Matches(kinds, objects[n].kind) && (r.None? || Area(objects[n].bbox) > Area(r.value))
      then Some(objects[n].bbox) else r
  }

  /** Crowd flags and events; `raised` once the program has tried to take the largest of no boxes,
      which stops the evaluation. */
  datatype Crowds = Crowds(fired: map<string, bool>, events: seq<Event>, raised: bool)

  function EvalCrowd(r: Rule, camera: string, c: Crowds, objects: seq<Object>, ts: real): Crowds {
    if !r.CrowdCount? || c.raised then c
    else
      var count := CrowdSize(r, objects);
      var fired := r.id in c.fired && c.fired[r.id];
      if count >= r.threshold && !fired then
        var c1 := c.(fired := c.fired[r.id := true]);
        var rep := if objects == [] then Some(Box(0.0, 0.0, 0.0, 0.0)) else Representative(r.kinds, objects);
        if rep.None? then c1.(raised := true)
        else c1.(events := c1.events
                 + [Event(r.id, Crowd, camera, "", "person", rep.value, ts, count as real, Count(count))])
      else if count < r.threshold then c.(fired := c.fired[r.id := false])
      else c
  }

  function EvalCrowds(rules: seq<Rule>, camera: string, fired: map<string, bool>, objects: seq<Object>,
                      ts: real): Crowds {
    if rules == [] then Crowds(fired, [], false)
    else
      var n := |rules| - 1;
      EvalCrowd(rules[n], camera, EvalCrowds(rules[..n], camera, fired, objects, ts), objects, ts)
  }

  // ---------------------------------------------------------------- one frame

  function ObjectIds(objects: seq<Object>): set<string> {
    set i | 0 <= i < |objects| :: objects[i].id
  }

  function Forget(mem: map<string, TrackMem>, seen: set<string>): map<string, TrackMem> {
    map id | id in mem && id in seen :: mem[id]
  }

  datatype Outcome = Outcome(s: State, events: seq<Event>, raised: bool)

  /** One evaluated frame. When the crowd pass raises, absent tracks are not forgotten. */
  function Evaluate(rules: seq<Rule>, camera: string, s: State, objects: seq<Object>, ts: real): Outcome {
    var swept := EvalObjects(rules, camera, s.mem, objects, ts);
    var crowds := EvalCrowds(rules, camera, s.crowdFired, objects, ts);
    if crowds.raised then Outcome(State(swept.mem, crowds.fired), [], true)
    else Outcome(State(Forget(swept.mem, ObjectIds(objects)), crowds.fired), swept.events + crowds.events, false)
  }

  // ---------------------------------------------------------------- the engine object

  class RuleEngine {
    const camera: string
    var rules: seq<Rule>
    var mem: map<string, TrackMem>
    var crowdFired: map<string, bool>

    ghost function Snapshot(): State
      reads this
    {
      State(mem, crowdFired)
    }

    constructor (camera: string)
      ensures this.camera == camera && rules == [] && Snapshot() == State(map[], map[])
    {
      this.camera := camera;
      rules, mem, crowdFired := [], map[], map[];
    }

    /** A rule without a camera of its own is given the engine's. */
    method Add(rule: Rule)
      modifies this`rules
      ensures |rules| == |old(rules)| + 1 && rules[..|old(rules)|] == old(rules)
      ensures var added := rules[|old(rules)|];
              added.(camera := rule.camera) == rule && added.camera == if rule.camera == "" then camera else rule.camera
    {
      rules := rules + [if rule.camera == "" then rule.(camera := camera) else rule];
    }

    method EvaluateObject(o: Object, ts: real) returns (out: seq<Event>)
      modifies this`mem
      ensures var e := EvalObject(rules, camera, old(mem), o, ts);
              out == e.events && mem == old(mem)[o.id := e.m]
    {
      out := [];
      var m := Recall(mem, o.id);
      var w := Moment(camera, ts, m.lastCenter);
      m := m.(bbox := o.bbox, kind := o.kind, lastCenter := Some(Center(o.bbox)));
      ghost var start := m;
      for i := 0 to |rules|
        invariant Evaluated(m, out) == EvalRules(rules[..i], start, o, w)
      {
        assert rules[..i + 1][..i] == rules[..i];
        var e := EvalRule(rules[i], m, o, w);
        m := e.m;
        out := out + e.events;
      }
      assert rules[..|rules|] == rules;
      mem := mem[o.id := m];
    }

    method CountCrowd(r: Rule, objects: seq<Object>) returns (count: nat)
      requires r.CrowdCount?
      ensures count == CrowdSize(r, objects)
    {
      count := 0;
      for i := 0 to |objects|
        invariant count == CrowdSize(r, objects[..i])
      {
        assert objects[..i + 1][..i] == objects[..i];
        if !Matches(r.kinds, objects[i].kind) {
          continue;
        }
        var inside := PointInPolygon(Center(objects[i].bbox), r.zone);
        if inside {
          count := count + 1;
        }
      }
      assert objects[..|objects|] == objects;
    }

    method EvaluateCrowds(objects: seq<Object>, ts: real) returns (out: seq<Event>, raised: bool)
      modifies this`crowdFired
      ensures var c := EvalCrowds(rules, camera, old(crowdFired), objects, ts);
              crowdFired == c.fired && raised == c.raised && out == c.events
    {
      hide CrowdSize, Representative;
      out, raised := [], false;
      for i := 0 to |rules|
        invariant !raised && Crowds(crowdFired, out, raised)
            == EvalCrowds(rules[..i], camera, old(crowdFired), objects, ts)
      {
        assert rules[..i + 1][..i] == rules[..i];
        var r := rules[i];
        if !r.CrowdCount? {
          continue;
        }
        var count := CountCrowd(r, objects);
        var fired := r.id in crowdFired && crowdFired[r.id];
        if count >= r.threshold && !fired {
          crowdFired := crowdFired[r.id := true];
          var rep := if objects == [] then Some(Box(0.0, 0.0, 0.0, 0.0)) else Representative(r.kinds, objects);
          if rep.None? {
            raised := true;
            RaisedStays(rules, i + 1, camera, old(crowdFired), objects, ts);
            assert rules[..|rules|] == rules;
            return;
          }
          out := out + [Event(r.id, Crowd, camera, "", "person", rep.value, ts, count as real, Count(count))];
        } else if count < r.threshold {
          crowdFired := crowdFired[r.id := false];
        }
      }
      assert rules[..|rules|] == rules;
    }

    /** One frame of tracked objects; `raised` stands for the exception the program throws. */
    method EvaluateFrame(objects: seq<Object>, ts: real) returns (out: seq<Event>, raised: bool)
      modifies this`mem, this`crowdFired
      ensures Outcome(Snapshot(), out, raised) == Evaluate(rules, camera, old(Snapshot()), objects, ts)
    {
      out := [];
      for i := 0 to |objects|
        invariant crowdFired == old(crowdFired)
        invariant Swept(mem, out) == EvalObjects(rules, camera, old(mem), objects[..i], ts)
      {
        assert objects[..i + 1][..i] == objects[..i];
        var events := EvaluateObject(objects[i], ts);
        out := out + events;
      }
      assert objects[..|objects|] == objects;
      var crowds: seq<Event>;
      crowds, raised := EvaluateCrowds(objects, ts);
      if raised {
        out := [];
      } else {
        out := out + crowds;
        mem := Forget(mem, ObjectIds(objects));
      }
    }
  }

  lemma {:induction false} RaisedStays(rules: seq<Rule>, i: nat, camera: string, fired: map<string, bool>,
                                       objects: seq<Object>, ts: real)
    requires i <= |rules|
    requires EvalCrowds(rules[..i], camera, fired, objects, ts).raised
    ensures EvalCrowds(rules, camera, fired, objects, ts) == EvalCrowds(rules[..i], camera, fired, objects, ts)
    decreases |rules|
  {
    if i == |rules| {
      assert rules[..i] == rules;
    } else {
      var n := |rules| - 1;
      assert rules[..n][..i] == rules[..i];
      RaisedStays(rules[..n], i, camera, fired, objects, ts);
    }
  }

  /** With crowd thresholds of at least 1 the crowd pass never raises. */
  lemma {:induction false} CrowdsNeverRaise(rules: seq<Rule>, camera: string, fired: map<string, bool>,
                                            objects: seq<Object>, ts: real)
    requires forall i :: 0 <= i < |rules| && rules[i].CrowdCount? ==> rules[i].threshold >= 1
    ensures !EvalCrowds(rules, camera, fired, objects, ts).raised
  {
    if rules != [] {
      var n := |rules| - 1;
      CrowdsNeverRaise(rules[..n], camera, fired, objects, ts);
      if rules[n].CrowdCount? && CrowdSize(rules[n], objects) >= 1 {
        CrowdHasMember(rules[n], objects);
      }
    }
  }

  lemma {:induction false} CrowdHasMember(r: Rule, objects: seq<Object>)
    requires r.CrowdCount? && CrowdSize(r, objects) >= 1
    ensures exists i :: 0 <= i < |objects| && Matches(r.kinds, objects[i].kind)
  {
    var n := |objects| - 1;
    if !Matches(r.kinds, objects[n].kind) {
      CrowdHasMember(r, objects[..n]);
      var i :| 0 <= i < n && Matches(r.kinds, objects[..n][i].kind);
      assert objects[i] == objects[..n][i];
    }
  }
}
