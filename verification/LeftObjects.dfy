/** Objects left behind and removed, over whole runs of the rule engine: which reports answer which. */
module LeftObjects {
  import opened Boxes
  import opened Options
  import opened Geometry
  import opened Rules
  import opened RuleTheorems
  import opened Stays

  ghost predicate Reported(rules: seq<Rule>, camera: string, frames: seq<Frame>, j: nat, id: string, k: nat,
                           t: EventType)
    requires j < |rules| && k < |frames|
  {
    exists e :: e in Only(EventsAt(rules, camera, frames, k), rules[j].id, id) && e.eventType == t
  }

  ghost predicate Remains(r: Rule, frames: seq<Frame>, id: string, i: nat, k: nat)
    requires r.ObjectLeft? && k <= |frames|
  {
    forall m :: i < m < k ==> !Leaves(Sight(r, frames[m], id))
  }

  /** The object was reported left before frame `k` and has not been out of the zone or out of sight
      since. */
  ghost predicate Pending(rules: seq<Rule>, camera: string, frames: seq<Frame>, j: nat, id: string, k: nat)
    requires j < |rules| && rules[j].ObjectLeft? && k <= |frames|
  {
    exists i: nat :: i < k && Reported(rules, camera, frames, j, id, i, Left) && Remains(rules[j], frames, id, i, k)
  }

  lemma {:induction false} PendingOneMore(rules: seq<Rule>, camera: string, frames: seq<Frame>, j: nat, id: string,
                                          k: nat)
    requires j < |rules| && rules[j].ObjectLeft? && k < |frames|
    ensures Pending(rules, camera, frames, j, id, k + 1)
        <==> Reported(rules, camera, frames, j, id, k, Left)
             || (Pending(rules, camera, frames, j, id, k) && !Leaves(Sight(rules[j], frames[k], id)))
  {
    hide Reported, Sight;
    if Reported(rules, camera, frames, j, id, k, Left) {
      assert Remains(rules[j], frames, id, k, k + 1);
    } else if Pending(rules, camera, frames, j, id, k) && !Leaves(Sight(rules[j], frames[k], id)) {
      var i: nat :| i < k && Reported(rules, camera, frames, j, id, i, Left) && Remains(rules[j], frames, id, i, k);
      assert Remains(rules[j], frames, id, i, k + 1);
    }
    if Pending(rules, camera, frames, j, id, k + 1) {
      var i: nat :| i < k + 1 && Reported(rules, camera, frames, j, id, i, Left)
          && Remains(rules[j], frames, id, i, k + 1);
      assert i < k ==> Remains(rules[j], frames, id, i, k);
    }
  }

  function Since(r: Rule, m: TrackMem): Option<real> {
    if r.id in m.loiterSince then Some(m.loiterSince[r.id]) else None
  }

  function LeftEvent(r: Rule, camera: string, o: Object, ts: real, since: real): Event {
    Event(r.id, Left, camera, o.id, o.kind, o.bbox, ts, 1.0, Dwell(ts - since))
  }

  function RemovedEvent(r: Rule, camera: string, o: Object, ts: real): Event {
    Event(r.id, Removed, camera, o.id, o.kind, o.bbox, ts, 1.0, NoDetail)
  }

  /** One sighting: what is reported, whether a report is pending afterwards, and which entry time is
      remembered. */
  lemma LeftRule(r: Rule, camera: string, m: TrackMem, o: Object, ts: real)
    requires r.ObjectLeft?
    ensures var e := Alone(r, camera, m, o, ts);
            var pending := r.id in m.leftFired;
            var since := if Since(r, m).Some? then Since(r, m).value else ts;
            if !Matches(r.kinds, o.kind) then
              e.events == [] && (r.id in e.m.leftFired <==> pending) && Since(r, e.m) == Since(r, m)
            else if Inside(Center(o.bbox), r.zone) then
              && e.events == (if ts - since >= r.stationary && !pending then [LeftEvent(r, camera, o, ts, since)]
                              else [])
              && (r.id in e.m.leftFired <==> pending || e.events != [])
              && Since(r, e.m) == Some(since)
            else
              && r.id !in e.m.leftFired
              && (if pending && o.kind != "person" then
                    e.events == [RemovedEvent(r, camera, o, ts)] && Since(r, e.m) == Since(r, m)
                  else e.events == [] && Since(r, e.m) == None)
  {
  }

  lemma NothingPending(rules: seq<Rule>, camera: string, frames: seq<Frame>, j: nat, id: string)
    requires j < |rules| && rules[j].ObjectLeft?
    ensures !Pending(rules, camera, frames, j, id, 0)
  {
  }

  lemma {:induction false} MemoryIsPending(rules: seq<Rule>, camera: string, frames: seq<Frame>, j: nat, id: string,
                                           k: nat)
    requires SafeRules(rules) && ProperFrames(frames) && j < |rules| && rules[j].ObjectLeft? && k <= |frames|
    ensures rules[j].id in Recall(Run(rules, camera, frames[..k]).mem, id).leftFired
        <==> Pending(rules, camera, frames, j, id, k)
    decreases k
  {
    hide Evaluate, Alone, Pending, Inside;
    if k == 0 {
      NothingPending(rules, camera, frames, j, id);
    } else {
      var n := k - 1;
      MemoryIsPending(rules, camera, frames, j, id, n);
      PendingOneMore(rules, camera, frames, j, id, n);
      assert frames[..k][..n] == frames[..n];
      EvaluateProjects(rules, camera, Run(rules, camera, frames[..n]), frames[n], j, id);
      var o := Find(frames[n].objects, id);
      if o.Some? {
        LeftRule(rules[j], camera, Recall(Run(rules, camera, frames[..n]).mem, id), o.value, frames[n].ts);
      }
    }
  }

  /** A removal is reported exactly when an object that is not a person is out of the zone in a frame
      that still sees it, while a report that it was left is pending; and no such report is made while
      one is pending. So over a run the two kinds of report alternate. */
  lemma {:induction false} RemovedAnswersLeft(rules: seq<Rule>, camera: string, frames: seq<Frame>, j: nat, id: string,
                                              k: nat)
    requires SafeRules(rules) && ProperFrames(frames) && j < |rules| && rules[j].ObjectLeft? && k < |frames|
    ensures Reported(rules, camera, frames, j, id, k, Removed)
        <==> Sight(rules[j], frames[k], id).Outside? && Find(frames[k].objects, id).value.kind != "person"
             && Pending(rules, camera, frames, j, id, k)
    ensures Reported(rules, camera, frames, j, id, k, Left) ==>
              Sight(rules[j], frames[k], id).Within? && !Pending(rules, camera, frames, j, id, k)
  {
    hide Evaluate, Alone, Pending, Inside, Run;
    MemoryIsPending(rules, camera, frames, j, id, k);
    EvaluateProjects(rules, camera, Run(rules, camera, frames[..k]), frames[k], j, id);
    var o := Find(frames[k].objects, id);
    if o.Some? {
      var m := Recall(Run(rules, camera, frames[..k]).mem, id);
      LeftRule(rules[j], camera, m, o.value, frames[k].ts);
      var events := Alone(rules[j], camera, m, o.value, frames[k].ts).events;
      if events != [] {
        assert events[0] in Only(EventsAt(rules, camera, frames, k), rules[j].id, id);
      }
    }
  }

  /** The report names the object and its box and time. */
  lemma {:induction false} RemovedReport(rules: seq<Rule>, camera: string, frames: seq<Frame>, j: nat, id: string,
                                         k: nat)
    requires SafeRules(rules) && ProperFrames(frames) && j < |rules| && rules[j].ObjectLeft? && k < |frames|
    requires Reported(rules, camera, frames, j, id, k, Removed)
    ensures Find(frames[k].objects, id).Some?
    ensures Only(EventsAt(rules, camera, frames, k), rules[j].id, id)
         == [RemovedEvent(rules[j], camera, Find(frames[k].objects, id).value, frames[k].ts)]
  {
    hide Evaluate, Alone, Pending, Inside, Run;
    EvaluateProjects(rules, camera, Run(rules, camera, frames[..k]), frames[k], j, id);
    var o := Find(frames[k].objects, id);
    if o.Some? {
      LeftRule(rules[j], camera, Recall(Run(rules, camera, frames[..k]).mem, id), o.value, frames[k].ts);
    }
  }

  // ---------------------------------------------------------------- when an object is reported left

  /** In frame `m` the entry time is forgotten: the object is out of sight, or out of the zone without
      a removal being reported. */
  ghost predicate Clearing(rules: seq<Rule>, camera: string, frames: seq<Frame>, j: nat, id: string, m: nat)
    requires j < |rules| && rules[j].ObjectLeft? && m < |frames|
  {
    var sight := Sight(rules[j], frames[m], id);
    sight.Absent? || (sight.Outside? && !Answered(rules, camera, frames, j, id, m))
  }

  /** In frame `m` a removal would be reported for a track out of the zone. */
  ghost predicate Answered(rules: seq<Rule>, camera: string, frames: seq<Frame>, j: nat, id: string, m: nat)
    requires j < |rules| && rules[j].ObjectLeft? && m < |frames|
  {
    Pending(rules, camera, frames, j, id, m) && Find(frames[m].objects, id).Some?
    && Find(frames[m].objects, id).value.kind != "person"
  }

  ghost predicate ClearedBetween(rules: seq<Rule>, camera: string, frames: seq<Frame>, j: nat, id: string, i: nat,
                                 k: nat)
    requires j < |rules| && rules[j].ObjectLeft? && k <= |frames|
  {
    exists m :: i < m < k && Clearing(rules, camera, frames, j, id, m)
  }

  /** Before frame `k` the remembered entry time is that of frame `s`: the first in the zone since the
      last clearing frame. */
  ghost predicate Entry(rules: seq<Rule>, camera: string, frames: seq<Frame>, j: nat, id: string, k: nat, s: nat)
    requires j < |rules| && rules[j].ObjectLeft? && k <= |frames|
  {
    && s < k && Sight(rules[j], frames[s], id).Within?
    && (forall m :: s <= m < k ==> !Clearing(rules, camera, frames, j, id, m))
    && (forall i: nat :: i < s && Sight(rules[j], frames[i], id).Within? ==>
          ClearedBetween(rules, camera, frames, j, id, i, s))
  }

  /** The remembered entry time is that of the entry frame; there is none when everything since the
      last clearing frame was spent outside. */
  ghost predicate Remembers(rules: seq<Rule>, camera: string, frames: seq<Frame>, j: nat, id: string, k: nat,
                            since: Option<real>)
    requires j < |rules| && rules[j].ObjectLeft? && k <= |frames|
  {
    match since
    case None =>
      forall i: nat :: i < k && Sight(rules[j], frames[i], id).Within? ==>
        ClearedBetween(rules, camera, frames, j, id, i, k)
    case Some(t) => exists s: nat :: Entry(rules, camera, frames, j, id, k, s) && t == frames[s].ts
  }

  lemma {:induction false} StillCleared(rules: seq<Rule>, camera: string, frames: seq<Frame>, j: nat, id: string,
                                        i: nat, k: nat)
    requires j < |rules| && rules[j].ObjectLeft? && k < |frames| && i < k
    ensures ClearedBetween(rules, camera, frames, j, id, i, k + 1)
        <==> ClearedBetween(rules, camera, frames, j, id, i, k) || Clearing(rules, camera, frames, j, id, k)
  {
    hide Clearing;
    if ClearedBetween(rules, camera, frames, j, id, i, k) {
      var m :| i < m < k && Clearing(rules, camera, frames, j, id, m);
      assert i < m < k + 1;
    }
    if ClearedBetween(rules, camera, frames, j, id, i, k + 1) {
      var m :| i < m < k + 1 && Clearing(rules, camera, frames, j, id, m);
      assert m < k || m == k;
    }
  }

  /** How the entry changes in one frame. */
  lemma {:induction false} EntryOneMore(rules: seq<Rule>, camera: string, frames: seq<Frame>, j: nat, id: string,
                                        k: nat, since: Option<real>)
    requires j < |rules| && rules[j].ObjectLeft? && k < |frames| && Remembers(rules, camera, frames, j, id, k, since)
    ensures var sight := Sight(rules[j], frames[k], id);
            Remembers(rules, camera, frames, j, id, k + 1,
                      if Clearing(rules, camera, frames, j, id, k) then None
                      else if sight.Within? && since.None? then Some(frames[k].ts)
                      else since)
  {
    hide Answered, Sight;
    forall i: nat | i < k
      ensures ClearedBetween(rules, camera, frames, j, id, i, k + 1)
          <==> ClearedBetween(rules, camera, frames, j, id, i, k) || Clearing(rules, camera, frames, j, id, k)
    {
      StillCleared(rules, camera, frames, j, id, i, k);
    }
    if Clearing(rules, camera, frames, j, id, k) {
    } else if since.Some? {
      var s: nat :| Entry(rules, camera, frames, j, id, k, s) && since.value == frames[s].ts;
      assert Entry(rules, camera, frames, j, id, k + 1, s);
    } else if Sight(rules[j], frames[k], id).Within? {
      assert Entry(rules, camera, frames, j, id, k + 1, k);
    }
  }

  lemma {:induction false} MemoryIsEntry(rules: seq<Rule>, camera: string, frames: seq<Frame>, j: nat, id: string,
                                         k: nat)
    requires SafeRules(rules) && ProperFrames(frames) && j < |rules| && rules[j].ObjectLeft? && k <= |frames|
    ensures Remembers(rules, camera, frames, j, id, k,
                      Since(rules[j], Recall(Run(rules, camera, frames[..k]).mem, id)))
    decreases k
  {
    hide Evaluate, Alone, Pending, Inside, Remembers;
    if k == 0 {
      NothingRemembered(rules, camera, frames, j, id);
    } else {
      var n := k - 1;
      var before := Run(rules, camera, frames[..n]);
      MemoryIsEntry(rules, camera, frames, j, id, n);
      MemoryIsPending(rules, camera, frames, j, id, n);
      EntryOneMore(rules, camera, frames, j, id, n, Since(rules[j], Recall(before.mem, id)));
      assert frames[..k][..n] == frames[..n];
      EvaluateProjects(rules, camera, before, frames[n], j, id);
      var o := Find(frames[n].objects, id);
      if o.Some? {
        LeftRule(rules[j], camera, Recall(before.mem, id), o.value, frames[n].ts);
      }
    }
  }

  lemma NothingRemembered(rules: seq<Rule>, camera: string, frames: seq<Frame>, j: nat, id: string)
    requires j < |rules| && rules[j].ObjectLeft?
    ensures Remembers(rules, camera, frames, j, id, 0, None)
  {
  }

  lemma {:induction false} EntryUnique(rules: seq<Rule>, camera: string, frames: seq<Frame>, j: nat, id: string, k: nat,
                                       s: nat, s': nat)
    requires j < |rules| && rules[j].ObjectLeft? && k <= |frames|
    requires Entry(rules, camera, frames, j, id, k, s) && Entry(rules, camera, frames, j, id, k, s')
    ensures s == s'
  {
    NotClearedSince(rules, camera, frames, j, id, k, s);
    NotClearedSince(rules, camera, frames, j, id, k, s');
    hide Clearing, ClearedBetween;
  }

  lemma {:induction false} NotClearedSince(rules: seq<Rule>, camera: string, frames: seq<Frame>, j: nat, id: string,
                                           k: nat, s: nat)
    requires j < |rules| && rules[j].ObjectLeft? && k <= |frames| && Entry(rules, camera, frames, j, id, k, s)
    ensures forall t: nat :: t <= k ==> !ClearedBetween(rules, camera, frames, j, id, s, t)
  {
    hide Clearing;
  }

  lemma {:induction false} NotClearedInStay(rules: seq<Rule>, camera: string, frames: seq<Frame>, j: nat, id: string,
                                            k: nat, o: nat)
    requires j < |rules| && rules[j].ObjectLeft? && k <= |frames| && Open(rules[j], frames, id, k, o)
    ensures forall t: nat :: t <= k ==> !ClearedBetween(rules, camera, frames, j, id, o, t)
  {
    hide Answered;
  }

  /** Every frame in the zone has an entry frame. */
  lemma {:induction false} HasEntry(rules: seq<Rule>, camera: string, frames: seq<Frame>, j: nat, id: string, k: nat)
    returns (s: nat)
    requires SafeRules(rules) && ProperFrames(frames) && j < |rules| && rules[j].ObjectLeft? && k < |frames|
    requires Sight(rules[j], frames[k], id).Within?
    ensures Entry(rules, camera, frames, j, id, k + 1, s)
  {
    MemoryIsEntry(rules, camera, frames, j, id, k);
    var since := Since(rules[j], Recall(Run(rules, camera, frames[..k]).mem, id));
    EntryOneMore(rules, camera, frames, j, id, k, since);
    hide Run, Entry;
    s :| Entry(rules, camera, frames, j, id, k + 1, s);
  }

  /** What is remembered before frame `k` of the entry seen after it. */
  lemma {:induction false} EntryBefore(rules: seq<Rule>, camera: string, frames: seq<Frame>, j: nat, id: string,
                                       k: nat, s: nat, since: Option<real>)
    requires j < |rules| && rules[j].ObjectLeft? && k < |frames| && Remembers(rules, camera, frames, j, id, k, since)
    requires Sight(rules[j], frames[k], id).Within? && Entry(rules, camera, frames, j, id, k + 1, s)
    ensures frames[s].ts == if since.Some? then since.value else frames[k].ts
  {
    EntryOneMore(rules, camera, frames, j, id, k, since);
    hide Entry;
    var s': nat :| Entry(rules, camera, frames, j, id, k + 1, s')
                   && frames[s'].ts == if since.Some? then since.value else frames[k].ts;
    EntryUnique(rules, camera, frames, j, id, k + 1, s, s');
  }

  /** A track in the zone whose entry is frame `s` is reported left exactly when the time since the
      entry reaches the configured one and no report is pending; the report carries that time. */
  lemma {:induction false} LeftExactlyWhen(rules: seq<Rule>, camera: string, frames: seq<Frame>, j: nat, id: string,
                                           k: nat, s: nat)
    requires SafeRules(rules) && ProperFrames(frames) && j < |rules| && rules[j].ObjectLeft? && k < |frames|
    requires Sight(rules[j], frames[k], id).Within? && Entry(rules, camera, frames, j, id, k + 1, s)
    ensures Only(EventsAt(rules, camera, frames, k), rules[j].id, id)
         == if frames[k].ts - frames[s].ts >= rules[j].stationary && !Pending(rules, camera, frames, j, id, k)
            then [LeftEvent(rules[j], camera, Find(frames[k].objects, id).value, frames[k].ts, frames[s].ts)]
            else []
  {
    hide Evaluate, Alone, Pending, Inside, Remembers, Entry, Run;
    var before := Run(rules, camera, frames[..k]);
    MemoryIsPending(rules, camera, frames, j, id, k);
    MemoryIsEntry(rules, camera, frames, j, id, k);
    EntryBefore(rules, camera, frames, j, id, k, s, Since(rules[j], Recall(before.mem, id)));
    EvaluateProjects(rules, camera, before, frames[k], j, id);
    LeftRule(rules[j], camera, Recall(before.mem, id), Find(frames[k].objects, id).value, frames[k].ts);
  }

  // ---------------------------------------------------------------- when the reported dwell is true

  ghost predicate SeenOutside(r: Rule, frames: seq<Frame>, id: string, s: nat, k: nat)
    requires !r.LineCrossing? && k < |frames|
  {
    exists m :: s < m < k && Sight(r, frames[m], id).Outside?
  }

  /** The stay in the zone that is open in frame `k` began at its entry exactly when the track was not
      seen outside in between; otherwise it began later. */
  lemma {:induction false} EntryBeginsStay(rules: seq<Rule>, camera: string, frames: seq<Frame>, j: nat, id: string,
                                           k: nat, s: nat, o: nat)
    requires j < |rules| && rules[j].ObjectLeft? && k < |frames|
    requires Entry(rules, camera, frames, j, id, k + 1, s) && Open(rules[j], frames, id, k + 1, o)
    ensures s <= o
    ensures s == o <==> !SeenOutside(rules[j], frames, id, s, k)
  {
    hide Answered;
    var r := rules[j];
    NotClearedInStay(rules, camera, frames, j, id, k + 1, o);
    if SeenOutside(r, frames, id, s, k) {
      var m :| s < m < k && Sight(r, frames[m], id).Outside?;
      assert Leaves(Sight(r, frames[m], id));
    }
    if s < o {
      assert LeftBetween(r, frames, id, s, o);
      var m :| s < m < o && Leaves(Sight(r, frames[m], id));
      assert !Clearing(rules, camera, frames, j, id, m);
      assert Sight(r, frames[m], id).Outside?;
    }
  }

  /** With increasing frame times, the dwell of a report is the time since the stay in the zone opened
      exactly when no frame since the entry saw the track outside. */
  lemma {:induction false} DwellIsTrueWhen(rules: seq<Rule>, camera: string, frames: seq<Frame>, j: nat, id: string,
                                           k: nat, s: nat, o: nat)
    requires j < |rules| && rules[j].ObjectLeft? && k < |frames|
    requires forall i, m :: 0 <= i < m < |frames| ==> frames[i].ts < frames[m].ts
    requires Entry(rules, camera, frames, j, id, k + 1, s) && Open(rules[j], frames, id, k + 1, o)
    ensures frames[k].ts - frames[s].ts == frames[k].ts - frames[o].ts <==> !SeenOutside(rules[j], frames, id, s, k)
  {
    EntryBeginsStay(rules, camera, frames, j, id, k, s, o);
  }

  // ---------------------------------------------------------------- a stale dwell

  const SQUARE := [Point(0.0, 0.0), Point(1.0, 0.0), Point(1.0, 1.0), Point(0.0, 1.0)]
  const BAG_RULE := ObjectLeft("r", "c", SQUARE, 30.0, ["bag"])

  function Bag(x: real): Object {
    Object("t", "bag", Box(x, 0.25, 0.5, 0.5))
  }

  /** A bag in the zone from 0 to 30 seconds, outside at 31 and back at 32. */
  const VISIT := [Frame([Bag(0.25)], 0.0), Frame([Bag(0.25)], 30.0), Frame([Bag(5.0)], 31.0), Frame([Bag(0.25)], 32.0)]

  lemma BagSights(k: nat)
    requires k < |VISIT|
    ensures Find(VISIT[k].objects, "t") == Some(VISIT[k].objects[0])
    ensures Sight(BAG_RULE, VISIT[k], "t") == if k == 2 then Outside else Within
  {
    var o := VISIT[k].objects[0];
    assert VISIT[k].objects[..0] == [];
    InsideRectangle(Center(o.bbox), 0.0, 0.0, 1.0, 1.0);
  }

  lemma VisitSights()
    ensures Sight(BAG_RULE, VISIT[0], "t").Within? && Sight(BAG_RULE, VISIT[1], "t").Within?
    ensures Sight(BAG_RULE, VISIT[2], "t").Outside? && Sight(BAG_RULE, VISIT[3], "t").Within?
    ensures Find(VISIT[1].objects, "t") == Find(VISIT[3].objects, "t") == Some(Bag(0.25))
    ensures Find(VISIT[2].objects, "t") == Some(Bag(5.0))
    ensures SafeRules([BAG_RULE]) && ProperFrames(VISIT)
  {
    BagSights(0);
    BagSights(1);
    BagSights(2);
    BagSights(3);
  }

  /** Through the whole visit the entry stays the first frame. */
  lemma VisitEntry(k: nat)
    requires 1 <= k <= 4 && (k >= 3 ==> Answered([BAG_RULE], "c", VISIT, 0, "t", 2))
    ensures Entry([BAG_RULE], "c", VISIT, 0, "t", k, 0)
  {
    VisitSights();
    hide Sight, Find, Answered;
    forall m | 0 <= m < k ensures !Clearing([BAG_RULE], "c", VISIT, 0, "t", m) {
      assert m == 0 || m == 1 || m == 2 || m == 3;
    }
  }

  lemma VisitLeft()
    ensures Only(EventsAt([BAG_RULE], "c", VISIT, 1), "r", "t") == [LeftEvent(BAG_RULE, "c", Bag(0.25), 30.0, 0.0)]
    ensures Answered([BAG_RULE], "c", VISIT, 0, "t", 2)
  {
    VisitSights();
    hide Sight, Find, EventsAt, Pending;
    NothingPending([BAG_RULE], "c", VISIT, 0, "t");
    VisitEntry(1);
    VisitEntry(2);
    LeftExactlyWhen([BAG_RULE], "c", VISIT, 0, "t", 0, 0);
    PendingOneMore([BAG_RULE], "c", VISIT, 0, "t", 0);
    LeftExactlyWhen([BAG_RULE], "c", VISIT, 0, "t", 1, 0);
    assert LeftEvent(BAG_RULE, "c", Bag(0.25), 30.0, 0.0) in Only(EventsAt([BAG_RULE], "c", VISIT, 1), "r", "t");
    PendingOneMore([BAG_RULE], "c", VISIT, 0, "t", 1);
  }

  lemma VisitRemoved()
    ensures Reported([BAG_RULE], "c", VISIT, 0, "t", 2, Removed)
    ensures !Pending([BAG_RULE], "c", VISIT, 0, "t", 3)
  {
    VisitSights();
    VisitLeft();
    hide Sight, Find, EventsAt, Pending;
    RemovedAnswersLeft([BAG_RULE], "c", VISIT, 0, "t", 2);
    PendingOneMore([BAG_RULE], "c", VISIT, 0, "t", 2);
  }

  lemma VisitStay()
    ensures Open(BAG_RULE, VISIT, "t", 4, 3)
  {
    VisitSights();
    hide Sight, Find;
    assert Leaves(Sight(BAG_RULE, VISIT[2], "t"));
    assert LeftBetween(BAG_RULE, VISIT, "t", 0, 3) && LeftBetween(BAG_RULE, VISIT, "t", 1, 3);
  }

  /** Reported left at 30 seconds, removed at 31, and left again at 32 with a dwell of 32 seconds,
      although the bag's stay had only just begun. */
  lemma ReturnKeepsOldDwell()
    ensures Only(EventsAt([BAG_RULE], "c", VISIT, 1), "r", "t") == [LeftEvent(BAG_RULE, "c", Bag(0.25), 30.0, 0.0)]
    ensures Reported([BAG_RULE], "c", VISIT, 0, "t", 2, Removed)
    ensures Only(EventsAt([BAG_RULE], "c", VISIT, 3), "r", "t") == [LeftEvent(BAG_RULE, "c", Bag(0.25), 32.0, 0.0)]
    ensures Open(BAG_RULE, VISIT, "t", 4, 3)
  {
    VisitSights();
    VisitLeft();
    VisitRemoved();
    VisitEntry(4);
    VisitStay();
    hide Sight, Find, EventsAt, Pending, Open, Reported;
    LeftExactlyWhen([BAG_RULE], "c", VISIT, 0, "t", 3, 0);
  }
}
