/** Rules and tracks do not disturb each other: in a frame, and so over a whole run, each rule treats
    each track as if both were alone. Runs of the engine are defined here. */
module RuleTheorems {
  import opened Boxes
  import opened Options
  import opened Geometry
  import opened Rules

  // ---------------------------------------------------------------- rules do not disturb each other

  ghost predicate DistinctRules(rules: seq<Rule>) {
    forall i, j :: 0 <= i < j < |rules| ==> rules[i].id != rules[j].id
  }

  ghost predicate DistinctObjects(objects: seq<Object>) {
    forall i, j :: 0 <= i < j < |objects| ==> objects[i].id != objects[j].id
  }

  predicate SameEntry(a: map<string, real>, b: map<string, real>, id: string) {
    (id in a <==> id in b) && (id in a ==> a[id] == b[id])
  }

  /** Two memories agree on everything kept under one rule id. */
  predicate SameFor(id: string, m: TrackMem, n: TrackMem) {
    && SameEntry(m.insideSince, n.insideSince, id) && (id in m.insideFired <==> id in n.insideFired)
    && SameEntry(m.loiterSince, n.loiterSince, id) && (id in m.loiterFired <==> id in n.loiterFired)
    && (id in m.leftFired <==> id in n.leftFired) && (id in m.crossedLines <==> id in n.crossedLines)
  }

  /** The events of one rule for one track. */
  function Only(events: seq<Event>, rule: string, track: string): (r: seq<Event>) {
    if events == [] then []
    else
      var n := |events| - 1;
      Only(events[..n], rule, track)
      + if events[n].ruleId == rule && events[n].trackId == track then [events[n]] else []
  }

  lemma {:induction false} OnlyConcat(a: seq<Event>, b: seq<Event>, rule: string, track: string)
    ensures Only(a + b, rule, track) == Only(a, rule, track) + Only(b, rule, track)
    decreases |b|
  {
    if b == [] {
      assert a + b == a;
    } else {
      var n := |b| - 1;
      assert (a + b)[..|a + b| - 1] == a + b[..n];
      OnlyConcat(a, b[..n], rule, track);
    }
  }

  lemma {:induction false} OnlyNone(events: seq<Event>, rule: string, track: string)
    requires forall i :: 0 <= i < |events| ==> events[i].ruleId != rule || events[i].trackId != track
    ensures Only(events, rule, track) == []
  {
    if events != [] {
      OnlyNone(events[..|events| - 1], rule, track);
    }
  }

  lemma EvalRuleEvents(r: Rule, m: TrackMem, o: Object, w: Moment)
    ensures var e := EvalRule(r, m, o, w);
            && |e.events| <= 1
            && (forall i :: 0 <= i < |e.events| ==>
                  e.events[i].ruleId == r.id && e.events[i].trackId == o.id && e.events[i].bbox == o.bbox)
            && Only(e.events, r.id, o.id) == e.events
  {
    var e := EvalRule(r, m, o, w);
    if |e.events| == 1 {
      assert e.events[..0] == [];
    }
  }

  lemma EvalRuleElsewhere(r: Rule, m: TrackMem, o: Object, w: Moment, id: string)
    requires r.id != id
    ensures SameFor(id, m, EvalRule(r, m, o, w).m)
  {
  }

  /** Two results that agree for one rule id. */
  predicate SameResult(id: string, a: Evaluated, b: Evaluated) {
    a.events == b.events && SameFor(id, a.m, b.m)
  }

  lemma LineLocal(r: Rule, m: TrackMem, n: TrackMem, o: Object, w: Moment)
    requires r.LineCrossing? && SameFor(r.id, m, n)
    ensures SameResult(r.id, EvalLine(r, m, o, w), EvalLine(r, n, o, w))
  {
  }

  lemma ZoneLocal(r: Rule, m: TrackMem, n: TrackMem, o: Object, w: Moment)
    requires r.ZoneIntrusion? && SameFor(r.id, m, n)
    ensures SameResult(r.id, EvalZone(r, m, o, w), EvalZone(r, n, o, w))
  {
    assert Since(m.insideSince, r.id, w.ts) == Since(n.insideSince, r.id, w.ts);
  }

  lemma LoiterLocal(r: Rule, m: TrackMem, n: TrackMem, o: Object, w: Moment)
    requires r.Loitering? && SameFor(r.id, m, n)
    ensures SameResult(r.id, EvalLoiter(r, m, o, w), EvalLoiter(r, n, o, w))
  {
    assert Since(m.loiterSince, r.id, w.ts) == Since(n.loiterSince, r.id, w.ts);
  }

  lemma LeftLocal(r: Rule, m: TrackMem, n: TrackMem, o: Object, w: Moment)
    requires r.ObjectLeft? && SameFor(r.id, m, n)
    ensures SameResult(r.id, EvalObjectLeft(r, m, o, w), EvalObjectLeft(r, n, o, w))
  {
    assert Since(m.loiterSince, r.id, w.ts) == Since(n.loiterSince, r.id, w.ts);
  }

  /** A rule's result depends only on what is remembered under its own id. */
  lemma EvalRuleLocal(r: Rule, m: TrackMem, n: TrackMem, o: Object, w: Moment)
    requires SameFor(r.id, m, n)
    ensures SameResult(r.id, EvalRule(r, m, o, w), EvalRule(r, n, o, w))
  {
    match r
    case LineCrossing(_, _, _, _, _, _) => LineLocal(r, m, n, o, w);
    case ZoneIntrusion(_, _, _, _, _) => ZoneLocal(r, m, n, o, w);
    case Loitering(_, _, _, _, _) => LoiterLocal(r, m, n, o, w);
    case ObjectLeft(_, _, _, _, _) => LeftLocal(r, m, n, o, w);
    case CrowdCount(_, _, _, _, _) =>
  }

  lemma {:induction false} EvalRulesElsewhere(rules: seq<Rule>, m: TrackMem, o: Object, w: Moment, id: string,
                                              track: string)
    requires (forall i :: 0 <= i < |rules| ==> rules[i].id != id) || track != o.id
    ensures Only(EvalRules(rules, m, o, w).events, id, track) == []
  {
    if rules != [] {
      var n := |rules| - 1;
      EvalRulesElsewhere(rules[..n], m, o, w, id, track);
      var e := EvalRules(rules[..n], m, o, w);
      var f := EvalRule(rules[n], e.m, o, w);
      EvalRuleEvents(rules[n], e.m, o, w);
      OnlyConcat(e.events, f.events, id, track);
      OnlyNone(f.events, id, track);
    }
  }

  lemma {:induction false} EvalRulesKeep(rules: seq<Rule>, m: TrackMem, o: Object, w: Moment, id: string)
    requires forall i :: 0 <= i < |rules| ==> rules[i].id != id
    ensures SameFor(id, m, EvalRules(rules, m, o, w).m)
  {
    if rules != [] {
      var n := |rules| - 1;
      EvalRulesKeep(rules[..n], m, o, w, id);
      EvalRuleElsewhere(rules[n], EvalRules(rules[..n], m, o, w).m, o, w, id);
    }
  }

  lemma {:induction false} EvalRulesLast(rules: seq<Rule>, m: TrackMem, o: Object, w: Moment)
    requires rules != [] && forall i :: 0 <= i < |rules| - 1 ==> rules[i].id != rules[|rules| - 1].id
    ensures var r := rules[|rules| - 1];
            var e := EvalRules(rules, m, o, w);
            SameResult(r.id, Evaluated(e.m, Only(e.events, r.id, o.id)), EvalRule(r, m, o, w))
  {
    var n := |rules| - 1;
    var r := rules[n];
    var e := EvalRules(rules[..n], m, o, w);
    var f := EvalRule(r, e.m, o, w);
    EvalRuleEvents(r, e.m, o, w);
    OnlyConcat(e.events, f.events, r.id, o.id);
    EvalRulesElsewhere(rules[..n], m, o, w, r.id, o.id);
    EvalRulesKeep(rules[..n], m, o, w, r.id);
    EvalRuleLocal(r, m, e.m, o, w);
  }

  lemma {:induction false} EvalRulesOneMore(rules: seq<Rule>, m: TrackMem, o: Object, w: Moment, id: string)
    requires rules != [] && rules[|rules| - 1].id != id
    ensures var e := EvalRules(rules[..|rules| - 1], m, o, w);
            var e' := EvalRules(rules, m, o, w);
            SameResult(id, Evaluated(e.m, Only(e.events, id, o.id)), Evaluated(e'.m, Only(e'.events, id, o.id)))
  {
    var n := |rules| - 1;
    var e := EvalRules(rules[..n], m, o, w);
    var f := EvalRule(rules[n], e.m, o, w);
    EvalRuleEvents(rules[n], e.m, o, w);
    OnlyConcat(e.events, f.events, id, o.id);
    OnlyNone(f.events, id, o.id);
    EvalRuleElsewhere(rules[n], e.m, o, w, id);
  }

  /** Among all rules, rule `k` behaves as if it were alone. */
  lemma {:induction false} EvalRulesProjects(rules: seq<Rule>, m: TrackMem, o: Object, w: Moment, k: nat)
    requires DistinctRules(rules) && k < |rules|
    ensures var e := EvalRules(rules, m, o, w);
            SameResult(rules[k].id, Evaluated(e.m, Only(e.events, rules[k].id, o.id)), EvalRule(rules[k], m, o, w))
  {
    var n := |rules| - 1;
    if k == n {
      EvalRulesLast(rules, m, o, w);
    } else {
      assert rules[..n][k] == rules[k] && DistinctRules(rules[..n]);
      EvalRulesProjects(rules[..n], m, o, w, k);
      EvalRulesOneMore(rules, m, o, w, rules[k].id);
    }
  }

  lemma {:induction false} EvalRulesKeepsCenter(rules: seq<Rule>, m: TrackMem, o: Object, w: Moment)
    ensures EvalRules(rules, m, o, w).m.lastCenter == m.lastCenter
  {
    if rules != [] {
      EvalRulesKeepsCenter(rules[..|rules| - 1], m, o, w);
    }
  }

  // ---------------------------------------------------------------- tracks do not disturb each other

  function Find(objects: seq<Object>, id: string): (r: Option<Object>)
    ensures r.Some? ==> r.value in objects && r.value.id == id
    ensures r.None? ==> forall i :: 0 <= i < |objects| ==> objects[i].id != id
  {
    if objects == [] then None
    else
      var n := |objects| - 1;
      if objects[n].id == id then Some(objects[n]) else Find(objects[..n], id)
  }

  /** Rule `r` alone, for one sighting of one track. */
  function Alone(r: Rule, camera: string, m: TrackMem, o: Object, ts: real): Evaluated {
    EvalRule(r, m, o, Moment(camera, ts, m.lastCenter))
  }

  lemma EvalObjectProjects(rules: seq<Rule>, camera: string, mem: map<string, TrackMem>, o: Object, ts: real, k: nat)
    requires DistinctRules(rules) && k < |rules|
    ensures var e := EvalObject(rules, camera, mem, o, ts);
            var alone := Alone(rules[k], camera, Recall(mem, o.id), o, ts);
            && Only(e.events, rules[k].id, o.id) == alone.events
            && SameFor(rules[k].id, e.m, alone.m) && e.m.lastCenter == Some(Center(o.bbox))
  {
    var m := Recall(mem, o.id);
    var start := m.(bbox := o.bbox, kind := o.kind, lastCenter := Some(Center(o.bbox)));
    var w := Moment(camera, ts, m.lastCenter);
    EvalRulesProjects(rules, start, o, w, k);
    EvalRuleLocal(rules[k], start, m, o, w);
    EvalRulesKeepsCenter(rules, start, o, w);
  }

  /** What rule `k` reports and remembers about track `id` after a sweep that started from `mem`. */
  ghost predicate Projected(r: Rule, camera: string, mem: map<string, TrackMem>, o: Option<Object>, ts: real,
                            id: string,
                            mem': map<string, TrackMem>, only: seq<Event>) {
    match o
    case None => only == [] && (id in mem' <==> id in mem) && (id in mem ==> mem'[id] == mem[id])
    case Some(o) =>
      var alone := Alone(r, camera, Recall(mem, id), o, ts);
      && only == alone.events && id in mem'
      && SameFor(r.id, mem'[id], alone.m) && mem'[id].lastCenter == Some(Center(o.bbox))
  }

  lemma {:induction false} EvalObjectsProjects(rules: seq<Rule>, camera: string, mem: map<string, TrackMem>,
                                               objects: seq<Object>, ts: real, k: nat, id: string)
    requires DistinctRules(rules) && k < |rules| && DistinctObjects(objects)
    ensures var s := EvalObjects(rules, camera, mem, objects, ts);
            Projected(rules[k], camera, mem, Find(objects, id), ts, id, s.mem, Only(s.events, rules[k].id, id))
  {
    if objects != [] {
      hide Projected, EvalObject, Only;
      var n := |objects| - 1;
      var s := EvalObjects(rules, camera, mem, objects[..n], ts);
      EvalObjectsProjects(rules, camera, mem, objects[..n], ts, k, id);
      if objects[n].id == id {
        assert Find(objects[..n], id).None? by {
          assert forall i :: 0 <= i < n ==> objects[..n][i].id != id;
        }
        SweepHere(rules, camera, mem, s, objects[n], ts, k);
      } else {
        SweepElsewhere(rules, camera, mem, s, Find(objects[..n], id), objects[n], ts, k, id);
      }
    }
  }

  lemma {:induction false} SweepHere(rules: seq<Rule>, camera: string, mem: map<string, TrackMem>, s: Swept, o: Object,
                                     ts: real, k: nat)
    requires DistinctRules(rules) && k < |rules|
    requires Projected(rules[k], camera, mem, None, ts, o.id, s.mem, Only(s.events, rules[k].id, o.id))
    ensures var e := EvalObject(rules, camera, s.mem, o, ts);
            Projected(rules[k], camera, mem, Some(o), ts, o.id, s.mem[o.id := e.m],
                      Only(s.events + e.events, rules[k].id, o.id))
  {
    OnlyConcat(s.events, EvalObject(rules, camera, s.mem, o, ts).events, rules[k].id, o.id);
    EvalObjectProjects(rules, camera, s.mem, o, ts, k);
    assert Recall(s.mem, o.id) == Recall(mem, o.id);
  }

  lemma {:induction false} SweepElsewhere(rules: seq<Rule>, camera: string, mem: map<string, TrackMem>, s: Swept,
                                          found: Option<Object>, o: Object, ts: real, k: nat, id: string)
    requires k < |rules| && o.id != id
    requires Projected(rules[k], camera, mem, found, ts, id, s.mem, Only(s.events, rules[k].id, id))
    ensures var e := EvalObject(rules, camera, s.mem, o, ts);
            Projected(rules[k], camera, mem, found, ts, id, s.mem[o.id := e.m],
                      Only(s.events + e.events, rules[k].id, id))
  {
    OnlyConcat(s.events, EvalObject(rules, camera, s.mem, o, ts).events, rules[k].id, id);
    EvalObjectElsewhere(rules, camera, s.mem, o, ts, rules[k].id, id);
  }

  lemma {:induction false} EvalObjectElsewhere(rules: seq<Rule>, camera: string, mem: map<string, TrackMem>, o: Object,
                                               ts: real, rule: string, id: string)
    requires o.id != id
    ensures Only(EvalObject(rules, camera, mem, o, ts).events, rule, id) == []
  {
    var m := Recall(mem, o.id);
    EvalRulesElsewhere(rules, m.(bbox := o.bbox, kind := o.kind, lastCenter := Some(Center(o.bbox))), o,
                       Moment(camera, ts, m.lastCenter), rule, id);
  }

  ghost predicate FromCrowdRule(rules: seq<Rule>, e: Event) {
    exists j :: 0 <= j < |rules| && rules[j].CrowdCount? && rules[j].id == e.ruleId
  }

  ghost predicate AllFromCrowdRules(rules: seq<Rule>, events: seq<Event>) {
    forall i :: 0 <= i < |events| ==> FromCrowdRule(rules, events[i])
  }

  /** One crowd rule adds at most one event, its own. */
  lemma EvalCrowdAppends(r: Rule, camera: string, c: Crowds, objects: seq<Object>, ts: real)
    ensures var events := EvalCrowd(r, camera, c, objects, ts).events;
            || events == c.events
            || (r.CrowdCount? && |events| == |c.events| + 1 && c.events == events[..|c.events|]
                && events[|c.events|].ruleId == r.id
                && (objects != [] ==> exists i :: 0 <= i < |objects| && objects[i].bbox == events[|c.events|].bbox))
  {
  }

  lemma {:induction false} CrowdEventRules(rules: seq<Rule>, camera: string, fired: map<string, bool>,
                                           objects: seq<Object>, ts: real)
    ensures AllFromCrowdRules(rules, EvalCrowds(rules, camera, fired, objects, ts).events)
  {
    if rules != [] {
      var n := |rules| - 1;
      CrowdEventRules(rules[..n], camera, fired, objects, ts);
      var b := EvalCrowds(rules[..n], camera, fired, objects, ts);
      var c := EvalCrowds(rules, camera, fired, objects, ts);
      EvalCrowdAppends(rules[n], camera, b, objects, ts);
      forall i | 0 <= i < |c.events| ensures FromCrowdRule(rules, c.events[i]) {
        if i < |b.events| {
          assert c.events[i] == b.events[i];
          FromMoreRules(rules, n, c.events[i]);
        }
      }
    }
  }

  lemma FromMoreRules(rules: seq<Rule>, n: nat, e: Event)
    requires n <= |rules| && FromCrowdRule(rules[..n], e)
    ensures FromCrowdRule(rules, e)
  {
    var j :| 0 <= j < n && rules[..n][j].CrowdCount? && rules[..n][j].id == e.ruleId;
    assert rules[j] == rules[..n][j];
  }

  lemma OtherThanCrowd(rules: seq<Rule>, k: nat, e: Event)
    requires k < |rules| && DistinctRules(rules) && !rules[k].CrowdCount? && FromCrowdRule(rules, e)
    ensures e.ruleId != rules[k].id
  {
    var j :| 0 <= j < |rules| && rules[j].CrowdCount? && rules[j].id == e.ruleId;
    assert j < k || k < j;
  }

  lemma {:induction false} CrowdEvents(rules: seq<Rule>, camera: string, fired: map<string, bool>,
                                       objects: seq<Object>, ts: real, k: nat, id: string)
    requires k < |rules| && DistinctRules(rules) && !rules[k].CrowdCount?
    ensures Only(EvalCrowds(rules, camera, fired, objects, ts).events, rules[k].id, id) == []
  {
    CrowdEventRules(rules, camera, fired, objects, ts);
    var events := EvalCrowds(rules, camera, fired, objects, ts).events;
    forall i | 0 <= i < |events| ensures events[i].ruleId != rules[k].id {
      OtherThanCrowd(rules, k, events[i]);
    }
    OnlyNone(events, rules[k].id, id);
  }

  // ---------------------------------------------------------------- runs

  datatype Frame = Frame(objects: seq<Object>, ts: real)

  ghost predicate SafeRules(rules: seq<Rule>) {
    DistinctRules(rules) && forall i :: 0 <= i < |rules| && rules[i].CrowdCount? ==> rules[i].threshold >= 1
  }

  ghost predicate ProperFrames(frames: seq<Frame>) {
    forall k :: 0 <= k < |frames| ==> DistinctObjects(frames[k].objects)
  }

  const START := State(map[], map[])

  /** The engine's state after all frames. */
  function Run(rules: seq<Rule>, camera: string, frames: seq<Frame>): State {
    if frames == [] then START
    else
      var n := |frames| - 1;
      Evaluate(rules, camera, Run(rules, camera, frames[..n]), frames[n].objects, frames[n].ts).s
  }

  /** The events of frame `k` of a run. */
  function EventsAt(rules: seq<Rule>, camera: string, frames: seq<Frame>, k: nat): seq<Event>
    requires k < |frames|
  {
    Evaluate(rules, camera, Run(rules, camera, frames[..k]), frames[k].objects, frames[k].ts).events
  }

  /** One frame, seen from one rule and one track. */
  lemma EvaluateProjects(rules: seq<Rule>, camera: string, s: State, f: Frame, k: nat, id: string)
    requires SafeRules(rules) && k < |rules| && !rules[k].CrowdCount? && DistinctObjects(f.objects)
    ensures var r := Evaluate(rules, camera, s, f.objects, f.ts);
            var only := Only(r.events, rules[k].id, id);
            match Find(f.objects, id)
            case None => only == [] && id !in r.s.mem
            case Some(o) =>
              var alone := Alone(rules[k], camera, Recall(s.mem, id), o, f.ts);
              && only == alone.events && id in r.s.mem
              && SameFor(rules[k].id, r.s.mem[id], alone.m) && r.s.mem[id].lastCenter == Some(Center(o.bbox))
  {
    var swept := EvalObjects(rules, camera, s.mem, f.objects, f.ts);
    var crowds := EvalCrowds(rules, camera, s.crowdFired, f.objects, f.ts);
    CrowdsNeverRaise(rules, camera, s.crowdFired, f.objects, f.ts);
    EvalObjectsProjects(rules, camera, s.mem, f.objects, f.ts, k, id);
    CrowdEvents(rules, camera, s.crowdFired, f.objects, f.ts, k, id);
    OnlyConcat(swept.events, crowds.events, rules[k].id, id);
    if Find(f.objects, id).Some? {
      var i :| 0 <= i < |f.objects| && f.objects[i] == Find(f.objects, id).value;
      assert id in ObjectIds(f.objects);
    }
  }
}
