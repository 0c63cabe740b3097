/** The rule engine inside a pipeline: over any run it has evaluated exactly the frames with tracks,
    so whatever holds of the engine's runs holds of the events a pipeline stores. */
module PipelineRules {
  import opened Boxes
  import opened Options
  import opened Pipeline
  import opened PipelineTheorems
  import Rules
  import RuleTheorems
  import Stays
  import Tracking

  /** The rules in force; a pipeline without an engine has none. */
  function RulesOf(cfg: Config): seq<Rules.Rule> {
    if cfg.rules.Some? then cfg.rules.value else []
  }

  /** A frame with its tracks, as the engine is given it. */
  ghost function RuleFrame(cfg: Config, s: State, f: Frame): (r: RuleTheorems.Frame)
    requires Ready(cfg, s)
    ensures r.ts == f.ts
  {
    RuleTheorems.Frame(Objects(TrackFrame(cfg, s.tracker, f).out), f.ts)
  }

  /** The frames of a run that have tracks. */
  ghost function RuleFrames(cfg: Config, frames: seq<Frame>): seq<RuleTheorems.Frame>
    decreases |frames|
  {
    if frames == [] then []
    else
      var n := |frames| - 1;
      var s := Run(cfg, frames[..n]);
      RuleFrames(cfg, frames[..n])
      + if TrackFrame(cfg, s.tracker, frames[n]).out != [] then [RuleFrame(cfg, s, frames[n])] else []
  }

  lemma {:induction false} RunAppended(rules: seq<Rules.Rule>, camera: string, frames: seq<RuleTheorems.Frame>,
                                       f: RuleTheorems.Frame)
    ensures RuleTheorems.Run(rules, camera, frames + [f])
         == Rules.Evaluate(rules, camera, RuleTheorems.Run(rules, camera, frames), f.objects, f.ts).s
  {
    assert (frames + [f])[..|frames|] == frames;
  }

  /** The engine's answer to one frame of a pipeline. */
  lemma EngineAnswers(cfg: Config, s: State, f: Frame)
    requires Ready(cfg, s) && cfg.rules.Some?
    ensures var tracks := TrackFrame(cfg, s.tracker, f).out;
            var e := Rules.Evaluate(RulesOf(cfg), cfg.camera, s.rules, RuleFrame(cfg, s, f).objects, f.ts);
            EvaluateRules(cfg, s.rules, tracks, f.ts) == if tracks == [] then Rules.Outcome(s.rules, [], false) else e
  {
    hide TrackFrame, Rules.Evaluate;
  }

  /** The last frame of a run. */
  lemma LastFrame(cfg: Config, frames: seq<Frame>)
    requires frames != []
    ensures var n := |frames| - 1;
            var s := Run(cfg, frames[..n]);
            && Run(cfg, frames) == Step(cfg, s, frames[n]).s
            && RuleFrames(cfg, frames)
               == if TrackFrame(cfg, s.tracker, frames[n]).out != []
                  then RuleFrames(cfg, frames[..n]) + [RuleFrame(cfg, s, frames[n])]
                  else RuleFrames(cfg, frames[..n])
  {
    hide TrackFrame, Step, RuleFrame;
    assert RuleFrames(cfg, frames[..|frames| - 1]) + [] == RuleFrames(cfg, frames[..|frames| - 1]);
  }

  /** The rule state of a pipeline is the engine's after exactly the frames with tracks. */
  lemma {:induction false} RulesFollow(cfg: Config, frames: seq<Frame>)
    requires cfg.rules.Some?
    ensures Run(cfg, frames).rules == RuleTheorems.Run(RulesOf(cfg), cfg.camera, RuleFrames(cfg, frames))
    decreases |frames|
  {
    if frames == [] {
      assert RuleTheorems.Run(RulesOf(cfg), cfg.camera, []) == RuleTheorems.START;
    } else {
      hide RuleTheorems.Run, RuleFrames, RuleFrame, Run, TrackFrame, Step, Ready, Rules.Evaluate, EvaluateRules;
      var n := |frames| - 1;
      var s := Run(cfg, frames[..n]);
      RulesFollow(cfg, frames[..n]);
      LastFrame(cfg, frames);
      StepRules(cfg, s, frames[n]);
      EngineAnswers(cfg, s, frames[n]);
      RunAppended(RulesOf(cfg), cfg.camera, RuleFrames(cfg, frames[..n]), RuleFrame(cfg, s, frames[n]));
    }
  }

  lemma ProperAppended(frames: seq<RuleTheorems.Frame>, f: RuleTheorems.Frame)
    requires RuleTheorems.ProperFrames(frames) && RuleTheorems.DistinctObjects(f.objects)
    ensures RuleTheorems.ProperFrames(frames + [f])
  {
    hide RuleTheorems.DistinctObjects;
  }

  /** In each of them the tracks are pairwise different. */
  lemma {:induction false} RuleFramesAreProper(cfg: Config, frames: seq<Frame>)
    ensures RuleTheorems.ProperFrames(RuleFrames(cfg, frames))
    decreases |frames|
  {
    if frames != [] {
      hide RuleTheorems.ProperFrames, RuleTheorems.DistinctObjects, RuleFrames, RuleFrame, Run, TrackFrame, Step, Ready;
      var n := |frames| - 1;
      var s := Run(cfg, frames[..n]);
      RuleFramesAreProper(cfg, frames[..n]);
      LastFrame(cfg, frames);
      DistinctTracks(cfg, s, frames[n]);
      ProperAppended(RuleFrames(cfg, frames[..n]), RuleFrame(cfg, s, frames[n]));
    }
  }

  lemma StepRules(cfg: Config, s: State, f: Frame)
    requires Ready(cfg, s)
    ensures Step(cfg, s, f).s.rules == EvaluateRules(cfg, s.rules, TrackFrame(cfg, s.tracker, f).out, f.ts).s
  {
  }

  lemma DistinctTracks(cfg: Config, s: State, f: Frame)
    requires Ready(cfg, s)
    ensures RuleTheorems.DistinctObjects(RuleFrame(cfg, s, f).objects)
  {
    StepReady(cfg, s, f);
    StepTracks(cfg, s, f);
    var tracks := TrackFrame(cfg, s.tracker, f).out;
    hide Step, TrackFrame;
    assert forall i :: 0 <= i < |tracks| ==> Objects(tracks)[i].id == tracks[i].trackId;
  }

  /** A completed frame stores as rule events exactly what the engine reports for it, as the last of
      the frames with tracks; without tracks it stores none. */
  lemma {:induction false} StoredRuleEvents(cfg: Config, frames: seq<Frame>, f: Frame)
    requires cfg.rules.Some? && Completes(cfg, Run(cfg, frames), f)
    ensures var s := Run(cfg, frames);
            var tracks := TrackFrame(cfg, s.tracker, f).out;
            var seen := RuleFrames(cfg, frames + [f]);
            var plates := ReadPlates(cfg, s.anprLast, tracks, f).rows;
            Step(cfg, s, f).out.analytic
            == (if tracks == [] then []
                else AnalyticRows(RuleTheorems.EventsAt(RulesOf(cfg), cfg.camera, seen, |seen| - 1))) + plates
  {
    var s := Run(cfg, frames);
    RulesFollow(cfg, frames);
    EngineAnswers(cfg, s, f);
    StepStores(cfg, s, f);
    LastFrame(cfg, frames + [f]);
    assert (frames + [f])[..|frames|] == frames;
    hide TrackFrame, ReadPlates, EvaluateRules, Step, Run, RuleFrames, RuleFrame, RuleTheorems.Run, Rules.Evaluate;
    var seen := RuleFrames(cfg, frames + [f]);
    if TrackFrame(cfg, s.tracker, f).out != [] {
      assert seen[..|seen| - 1] == RuleFrames(cfg, frames);
    } else {
      assert AnalyticRows([]) == [];
    }
  }

  /** The events of the rules for a frame, as reported over the run. */
  ghost function EventsNow(cfg: Config, frames: seq<Frame>, f: Frame): seq<Rules.Event> {
    var seen := RuleFrames(cfg, frames + [f]);
    if TrackFrame(cfg, Run(cfg, frames).tracker, f).out == [] then []
    else if seen == [] then []
    else RuleTheorems.EventsAt(RulesOf(cfg), cfg.camera, seen, |seen| - 1)
  }

  /** A stored rule event carries the event's track, score, box and detail, starts and ends at its time
      and names nobody. */
  ghost predicate RowTellsEvent(row: EventRow, e: Rules.Event) {
    && row.trackId == e.trackId && row.identity == None && row.status == "unknown"
    && row.rowType == Analytic(e.eventType, e.detail)
    && row.start == e.ts == row.end && row.confidence == e.score && row.bbox == e.bbox
  }

  lemma {:induction false} StoredRowsTellEvents(cfg: Config, frames: seq<Frame>, f: Frame)
    requires cfg.rules.Some? && Completes(cfg, Run(cfg, frames), f)
    ensures var rows := Step(cfg, Run(cfg, frames), f).out.analytic;
            var events := EventsNow(cfg, frames, f);
            |events| <= |rows| && forall i :: 0 <= i < |events| ==> RowTellsEvent(rows[i], events[i])
  {
    StoredRuleEvents(cfg, frames, f);
    EventsNowAre(cfg, frames, f);
    RowsTellEvents(EventsNow(cfg, frames, f),
                   ReadPlates(cfg, Run(cfg, frames).anprLast, TrackFrame(cfg, Run(cfg, frames).tracker, f).out,
                              f).rows);
    hide Step, Run, Completes, TrackFrame, ReadPlates, RuleFrames, RuleTheorems.EventsAt, Ready, EventsNow,
      RowTellsEvent, AnalyticRows;
  }

  lemma RowsTellEvents(events: seq<Rules.Event>, plates: seq<EventRow>)
    ensures var rows := AnalyticRows(events) + plates;
            forall i :: 0 <= i < |events| ==> RowTellsEvent(rows[i], events[i])
  {
  }

  lemma EventsNowAre(cfg: Config, frames: seq<Frame>, f: Frame)
    ensures var seen := RuleFrames(cfg, frames + [f]);
            AnalyticRows(EventsNow(cfg, frames, f))
            == if TrackFrame(cfg, Run(cfg, frames).tracker, f).out == [] then []
               else AnalyticRows(RuleTheorems.EventsAt(RulesOf(cfg), cfg.camera, seen, |seen| - 1))
  {
    if TrackFrame(cfg, Run(cfg, frames).tracker, f).out != [] {
      FrameIsSeen(cfg, frames, f);
    }
    hide Run, TrackFrame, RuleFrames, RuleTheorems.EventsAt, AnalyticRow;
    assert AnalyticRows([]) == [];
  }

  lemma FrameIsSeen(cfg: Config, frames: seq<Frame>, f: Frame)
    requires TrackFrame(cfg, Run(cfg, frames).tracker, f).out != []
    ensures RuleFrames(cfg, frames + [f]) != []
  {
    hide Run, TrackFrame, RuleFrame, Step, RuleFrames;
    assert (frames + [f])[..|frames|] == frames;
    LastFrame(cfg, frames + [f]);
  }

  lemma StepStores(cfg: Config, s: State, f: Frame)
    requires Ready(cfg, s) && Completes(cfg, s, f)
    ensures var tracks := TrackFrame(cfg, s.tracker, f).out;
            Step(cfg, s, f).out.analytic
            == AnalyticRows(EvaluateRules(cfg, s.rules, tracks, f.ts).events)
                + ReadPlates(cfg, s.anprLast, tracks, f).rows
  {
    hide TrackFrame, ReadPlates, EvaluateRules;
  }

  /** For instance: in a pipeline's run, a track in the zone of an intrusion or loitering rule is reported
      exactly in the frame where its dwell since its stay began first reaches the configured one. */
  lemma PipelineReportsStays(cfg: Config, frames: seq<Frame>, j: nat, id: string, k: nat, o: nat)
    requires cfg.rules.Some? && RuleTheorems.SafeRules(RulesOf(cfg)) && j < |RulesOf(cfg)|
        && Stays.ZoneRule(RulesOf(cfg)[j])
    requires k < |RuleFrames(cfg, frames)|
    ensures var seen := RuleFrames(cfg, frames);
            var r := RulesOf(cfg)[j];
            Stays.Sight(r, seen[k], id).Within? && Stays.Open(r, seen, id, k + 1, o) ==>
              RuleTheorems.Only(RuleTheorems.EventsAt(RulesOf(cfg), cfg.camera, seen, k), r.id, id)
              == if Stays.FirstReached(r, seen, id, o, k)
                 then [Stays.StayEvent(r, cfg.camera, RuleTheorems.Find(seen[k].objects, id).value, seen[k].ts,
                                       seen[o].ts)]
                 else []
  {
    RuleFramesAreProper(cfg, frames);
    Stays.OneEventPerStay(RulesOf(cfg), cfg.camera, RuleFrames(cfg, frames), j, id, k, o);
  }
}
