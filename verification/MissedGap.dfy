/** A run in which the pipeline's presence windows differ from the offline ones: a track seen at 0 and
    at 100 seconds, with no frame in between to notice the gap. */
module MissedGap {
  import opened Boxes
  import opened Options
  import opened Pipeline
  import opened PipelineTheorems
  import Intervals
  import Matching
  import P = Presence
  import StableSort
  import Tracking
  import TrackIds

  const CONFIG := Config("c", 0.5, 10.0, 2.0, false, [], false, false, None, Tracking.Config(0.5, 30, 0.5))
  const SQUARE := Box(0.0, 0.0, 0.5, 0.5)
  const PERSON := Tracking.Detection("person", 0.9, SQUARE)

  function FrameAt(ts: real): Frame {
    Frame(ts, true, [PERSON], (_: Track) => None, (_: Track) => Matching.Recognition(None, None, "unknown"))
  }

  const ID := TrackIds.TrackId("c", 1)
  const BORN := Tracking.Born(PERSON)

  /** The tracker after the first sighting; the new track has already aged. */
  const AFTER := Tracking.State([ID], map[ID := BORN.(age := 1)], map["c" := 1])

  lemma OneSorted()
    ensures StableSort.Sort([PERSON], Tracking.ByConfidence) == [PERSON]
  {
    assert [PERSON][1..] == [];
    assert StableSort.Sort([PERSON][1..], Tracking.ByConfidence) == [];
  }

  lemma OneAccepted(ts: real)
    ensures Accepted(CONFIG, FrameAt(ts).raw) == [PERSON]
  {
    assert [PERSON][..0] == [];
    assert Acceptable(CONFIG, PERSON);
  }

  lemma FirstSighting()
    ensures var r := Tracking.Step(CONFIG.tracker, Tracking.EMPTY, "c", [PERSON]);
            r.s == AFTER && |r.out| == 1 && r.out[0].trackId == ID
  {
    OneSorted();
    assert [PERSON][..0] == [];
    var p := Tracking.Associate(CONFIG.tracker, "c", [], Tracking.EMPTY, [PERSON]);
    assert Tracking.Associate(CONFIG.tracker, "c", [], Tracking.EMPTY, [PERSON][..0])
        == Tracking.Progress(Tracking.EMPTY, {}, []);
    assert p == Tracking.Associate1(CONFIG.tracker, "c", [], Tracking.Progress(Tracking.EMPTY, {}, []), PERSON);
    var born := Tracking.State([ID], map[ID := BORN], map["c" := 1]);
    assert p == Tracking.Progress(born, {}, [Tracking.ReportTrack(ID, PERSON, BORN.traj)]);
    assert [ID][..0] == [];
    assert Tracking.AgeAll(CONFIG.tracker, born, {}, [ID]) == Tracking.Age1(CONFIG.tracker, born, {}, ID) == AFTER;
  }

  lemma SecondSighting()
    ensures var r := Tracking.Step(CONFIG.tracker, AFTER, "c", [PERSON]);
            |r.out| == 1 && r.out[0].trackId == ID
  {
    OneSorted();
    assert [PERSON][..0] == [];
    var preds := Tracking.Predictions(AFTER.order, AFTER.tracks);
    assert preds == [Tracking.Prediction(ID, SQUARE)];
    assert preds[..0] == [];
    assert Iou(SQUARE, SQUARE) == 1.0;
    assert Tracking.Scan(preds, SQUARE, {}) == Tracking.Best(Some(ID), 1.0);
    var p := Tracking.Associate(CONFIG.tracker, "c", preds, AFTER, [PERSON]);
    assert Tracking.Associate(CONFIG.tracker, "c", preds, AFTER, [PERSON][..0]) == Tracking.Progress(AFTER, {}, []);
    assert p == Tracking.Associate1(CONFIG.tracker, "c", preds, Tracking.Progress(AFTER, {}, []), PERSON);
  }

  const RUN := [FrameAt(0.0), FrameAt(100.0)]

  lemma RunLooks()
    ensures Looks(CONFIG, RUN, ID) == [P.Look(0.0, true), P.Look(100.0, true)]
  {
    OneAccepted(0.0);
    OneAccepted(100.0);
    FirstSighting();
    SecondSighting();
    hide Tracking.Step, Accepted, MarkAll, SampleAll, DropAbsent, TrackIds.Decimal;
    var one := RUN[..1];
    assert one == [FrameAt(0.0)] && one[..0] == [];
    var first := TrackFrame(CONFIG, Tracking.EMPTY, RUN[0]);
    assert first.out[0].trackId == ID && ID in IdsOf(first.out);
    assert LookOf(CONFIG, START, RUN[0], ID) == P.Look(0.0, true);
    assert Run(CONFIG, one).tracker == AFTER;
    var second := TrackFrame(CONFIG, AFTER, RUN[1]);
    assert second.out[0].trackId == ID && ID in IdsOf(second.out);
    assert Looks(CONFIG, one, ID) == [P.Look(0.0, true)];
  }

  /** The gap of 100 seconds exceeds `merge_gap`, yet one window covers it; offline there are two. */
  lemma MissedGapJoinsWindows()
    ensures IncreasingTimes(RUN)
    ensures Reported(CONFIG, RUN, ID) == [] && OpenOf(Run(CONFIG, RUN).active, ID) == Some(Intervals.Window(0.0, 100.0))
    ensures P.Aggregated(0.0, 100.0, P.Sightings(Looks(CONFIG, RUN, ID)), CONFIG.mergeGap)
         == [Intervals.Window(0.0, 0.0), Intervals.Window(100.0, 100.0)]
    ensures !P.NoMissedGap(Looks(CONFIG, RUN, ID), CONFIG.mergeGap)
  {
    RunIsInOrder();
    hide Looks, Reported, Run, OpenOf, IncreasingTimes, P.Follow, P.Sightings, P.Aggregated, P.NoMissedGap;
    RunLooks();
    PresenceFollows(CONFIG, RUN, ID);
    TwoLooks();
  }

  lemma RunIsInOrder()
    ensures IncreasingTimes(RUN)
  {
  }

  lemma TwoLooks()
    ensures var looks := [P.Look(0.0, true), P.Look(100.0, true)];
            && P.Follow(looks, 10.0) == P.Online([], Some(Intervals.Window(0.0, 100.0)))
            && P.Sightings(looks) == [0.0, 100.0]
            && P.Aggregated(0.0, 100.0, [0.0, 100.0], 10.0)
                == [Intervals.Window(0.0, 0.0), Intervals.Window(100.0, 100.0)]
            && !P.NoMissedGap(looks, 10.0)
  {
    var looks := [P.Look(0.0, true), P.Look(100.0, true)];
    assert looks[..1] == [P.Look(0.0, true)] && looks[..1][..0] == [];
    assert P.Follow(looks[..1], 10.0) == P.Online([], Some(Intervals.Window(0.0, 0.0)));
    assert P.Sightings(looks[..1]) == [0.0];
    assert P.Sightings(looks) == [0.0, 100.0];
    assert P.Increasing(looks);
    P.OfflineIsAggregated(looks, 10.0, 0.0, 100.0);
    P.OfflineStep(looks, 10.0);
    P.OfflineStep(looks[..1], 10.0);
    assert P.Offline([], 10.0) == [];
    assert P.Consecutive(looks, 0, 1) && !P.Tended(looks, 0, 1, 10.0);
  }
}
