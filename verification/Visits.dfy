/** What a run records about one track: the fields of an active track, of its presence event and of
    its row follow from the sightings since the track last appeared, and a face is looked at again
    only after the configured interval. */
module Visits {
  import opened Boxes
  import opened Options
  import opened Pipeline
  import opened PipelineTheorems
  import Matching
  import Tracking

  /** One frame's view of the track: the time, what the tracker reports, and the answer a recognition
      in this frame would give. */
  datatype Sighting = Sighting(ts: real, tr: Track, answer: Recognition)

  /** The track with an id among a frame's tracks. */
  function SeenAs(tracks: seq<Track>, id: string): (r: Option<Track>)
    ensures match r
            case None => forall i :: 0 <= i < |tracks| ==> tracks[i].trackId != id
            case Some(tr) => tr.trackId == id && exists i :: 0 <= i < |tracks| && tracks[i] == tr
  {
    if tracks == [] then None
    else
      var last := tracks[|tracks| - 1];
      if last.trackId == id then Some(last) else SeenAs(tracks[..|tracks| - 1], id)
  }

  /** The sightings of a track since it last appeared: a frame without the track, `merge_gap` or more
      after its last sighting, ends the visit. */
  ghost function Visit(cfg: Config, frames: seq<Frame>, id: string): seq<Sighting>
    decreases |frames|
  {
    if frames == [] then []
    else
      var n := |frames| - 1;
      var before := Visit(cfg, frames[..n], id);
      if !LastCompletes(cfg, frames) then before
      else Look(cfg, before, frames[n], SeenAs(OutputAt(cfg, frames, n).tracks, id))
  }

  function Look(cfg: Config, visit: seq<Sighting>, f: Frame, seen: Option<Track>): seq<Sighting> {
    if seen.Some? then visit + [Sighting(f.ts, seen.value, f.recognize(seen.value))]
    else if Ends(cfg, visit, f.ts) then []
    else visit
  }

  predicate Ends(cfg: Config, visit: seq<Sighting>, ts: real) {
    visit != [] && ts - visit[|visit| - 1].ts >= cfg.mergeGap
  }

  // ---------------------------------------------------------------- which faces are looked at

  /** `k` is the last sighting before `j` whose face was looked at. */
  ghost predicate Latest(asked: set<int>, k: int, j: int) {
    k in asked && k < j && forall l :: l in asked && l < j ==> l <= k
  }

  /** A face is looked at exactly when there is no earlier look in the visit or the last one is at least
      `interval` ago. */
  ghost predicate Asked(visit: seq<Sighting>, interval: real, asked: set<int>) {
    && (forall k :: k in asked ==> 0 <= k < |visit|)
    && (forall j :: 0 <= j < |visit| ==> (j in asked <==> LongAgo(visit, interval, asked, j)))
  }

  /** The last look before `j`, if any, is at least `interval` ago. */
  ghost predicate LongAgo(visit: seq<Sighting>, interval: real, asked: set<int>, j: int)
    requires 0 <= j < |visit|
  {
    forall k :: 0 <= k < j && Latest(asked, k, j) ==> visit[j].ts - visit[k].ts >= interval
  }

  /** The greatest confidence of the sightings. */
  ghost predicate Greatest(visit: seq<Sighting>, confidence: real) {
    && (forall i :: 0 <= i < |visit| ==> visit[i].tr.confidence <= confidence)
    && exists i :: 0 <= i < |visit| && visit[i].tr.confidence == confidence
  }

  /** `k` is the sighting of the visit at which the face was last looked at. */
  ghost predicate LastLook(cfg: Config, visit: seq<Sighting>, k: int) {
    exists asked :: Asked(visit, cfg.recognizeInterval, asked) && Latest(asked, k, |visit|)
  }

  // ---------------------------------------------------------------- an active track

  ghost predicate Holds(cfg: Config, visit: seq<Sighting>, st: ActiveTrack) {
    && visit != []
    && st.firstSeen == visit[0].ts && st.trajectory == visit[0].tr.trajectory
    && st.lastSeen == visit[|visit| - 1].ts && st.bbox == visit[|visit| - 1].tr.bbox
    && Greatest(visit, st.confidence)
    && RecognitionHolds(cfg, visit, st)
  }

  ghost predicate RecognitionHolds(cfg: Config, visit: seq<Sighting>, st: ActiveTrack) {
    if cfg.recognitionEnabled then
      exists k :: 0 <= k < |visit| && LastLook(cfg, visit, k)
                  && st.lastRecognized == Some(visit[k].ts) && st.recognition == Some(visit[k].answer)
    else st.lastRecognized.None? && st.recognition.None?
  }

  /** The track's record after a sighting. */
  function Marking(cfg: Config, before: Option<ActiveTrack>, tr: Track, f: Frame): ActiveTrack {
    Mark(cfg, if before.Some? then map[tr.trackId := before.value] else map[], tr, f)[tr.trackId]
  }

  lemma GreatestGrows(visit: seq<Sighting>, x: Sighting, confidence: real)
    requires visit == [] || Greatest(visit, confidence)
    ensures Greatest(visit + [x], if visit == [] then x.tr.confidence else Max(confidence, x.tr.confidence))
  {
    var grown := visit + [x];
    assert grown[|visit|] == x;
    if visit != [] {
      var i :| 0 <= i < |visit| && visit[i].tr.confidence == confidence;
      assert grown[i].tr.confidence == confidence;
    }
  }

  lemma FirstLook(cfg: Config, x: Sighting)
    ensures LastLook(cfg, [x], 0)
  {
    assert Asked([x], cfg.recognizeInterval, {0}) && Latest({0}, 0, 1);
  }

  lemma {:induction false} NextLook(visit: seq<Sighting>, x: Sighting, interval: real, asked: set<int>, k: int)
    requires 0 <= k < |visit| && Asked(visit, interval, asked) && Latest(asked, k, |visit|)
    ensures var due := x.ts - visit[k].ts >= interval;
            var asked' := if due then asked + {|visit|} else asked;
            && Asked(visit + [x], interval, asked')
            && Latest(asked', if due then |visit| else k, |visit| + 1)
  {
    var due, n, grown := x.ts - visit[k].ts >= interval, |visit|, visit + [x];
    var asked' := if due then asked + {n} else asked;
    forall j | 0 <= j <= n ensures LongAgo(grown, interval, asked', j) <==> LongAgo(grown, interval, asked, j) {
      LaterLooks(grown, interval, asked, asked', j);
    }
    forall j | 0 <= j < n ensures LongAgo(grown, interval, asked, j) <==> LongAgo(visit, interval, asked, j) {
      EarlierSightings(visit, x, interval, asked, j);
    }
    OnlyLatest(grown, interval, asked, k, n);
    hide LongAgo;
  }

  /** Looks from `j` on do not matter to `j`. */
  lemma LaterLooks(visit: seq<Sighting>, interval: real, asked: set<int>, asked': set<int>, j: int)
    requires 0 <= j < |visit| && forall l :: l < j ==> (l in asked <==> l in asked')
    ensures LongAgo(visit, interval, asked, j) <==> LongAgo(visit, interval, asked', j)
  {
    assert forall l :: Latest(asked, l, j) <==> Latest(asked', l, j);
    hide Latest;
  }

  lemma EarlierSightings(visit: seq<Sighting>, x: Sighting, interval: real, asked: set<int>, j: int)
    requires 0 <= j < |visit|
    ensures LongAgo(visit + [x], interval, asked, j) <==> LongAgo(visit, interval, asked, j)
  {
    hide Latest;
    assert forall l :: 0 <= l <= j ==> (visit + [x])[l] == visit[l];
  }

  lemma OnlyLatest(visit: seq<Sighting>, interval: real, asked: set<int>, k: int, j: int)
    requires 0 <= k < j < |visit| && Latest(asked, k, j)
    ensures LongAgo(visit, interval, asked, j) <==> visit[j].ts - visit[k].ts >= interval
  {
    assert forall l :: Latest(asked, l, j) ==> l == k;
    hide Latest;
  }

  lemma LookAgain(cfg: Config, visit: seq<Sighting>, x: Sighting, k: int)
    requires 0 <= k < |visit| && LastLook(cfg, visit, k)
    ensures LastLook(cfg, visit + [x], if x.ts - visit[k].ts >= cfg.recognizeInterval then |visit| else k)
  {
    hide Asked, Latest;
    var asked :| Asked(visit, cfg.recognizeInterval, asked) && Latest(asked, k, |visit|);
    NextLook(visit, x, cfg.recognizeInterval, asked, k);
  }

  lemma {:induction false} RecognitionKept(cfg: Config, visit: seq<Sighting>, before: Option<ActiveTrack>, tr: Track,
                                           f: Frame)
    requires if before.Some? then RecognitionHolds(cfg, visit, before.value) else visit == []
    ensures RecognitionHolds(cfg, visit + [Sighting(f.ts, tr, f.recognize(tr))], Marking(cfg, before, tr, f))
  {
    hide LastLook;
    var x := Sighting(f.ts, tr, f.recognize(tr));
    var grown := visit + [x];
    if cfg.recognitionEnabled {
      if before.None? {
        assert grown == [x];
        FirstLook(cfg, x);
      } else {
        var k :| 0 <= k < |visit| && LastLook(cfg, visit, k) && before.value.lastRecognized == Some(visit[k].ts)
                 && before.value.recognition == Some(visit[k].answer);
        LookAgain(cfg, visit, x, k);
        assert grown[k] == visit[k] && grown[|visit|] == x;
      }
    }
  }

  lemma {:induction false} MarkingHolds(cfg: Config, visit: seq<Sighting>, before: Option<ActiveTrack>, tr: Track,
                                        f: Frame)
    requires if before.Some? then Holds(cfg, visit, before.value) else visit == []
    ensures Holds(cfg, visit + [Sighting(f.ts, tr, f.recognize(tr))], Marking(cfg, before, tr, f))
  {
    hide RecognitionHolds, Greatest;
    var x := Sighting(f.ts, tr, f.recognize(tr));
    RecognitionKept(cfg, visit, before, tr, f);
    GreatestGrows(visit, x, if before.Some? then before.value.confidence else 0.0);
    assert visit == [] ==> visit + [x] == [x];
  }

  // ---------------------------------------------------------------- one frame

  function ActiveOf(active: map<string, ActiveTrack>, id: string): Option<ActiveTrack> {
    if id in active then Some(active[id]) else None
  }

  /** Marking a frame's tracks changes each track's record by its own sighting alone. */
  lemma {:induction false} MarkedEach(cfg: Config, active: map<string, ActiveTrack>, tracks: seq<Track>, f: Frame,
                                      id: string)
    requires Tracking.DistinctIds(tracks)
    ensures ActiveOf(MarkAll(cfg, active, tracks, f), id)
         == match SeenAs(tracks, id)
            case None => ActiveOf(active, id)
            case Some(tr) => Some(Marking(cfg, ActiveOf(active, id), tr, f))
  {
    if tracks != [] {
      var n := |tracks| - 1;
      MarkedEach(cfg, active, tracks[..n], f, id);
      if tracks[n].trackId == id {
        assert SeenAs(tracks[..n], id).None?;
      }
    }
  }

  /** The record agrees with the visit: there is one exactly when there are sightings, and it holds
      what they say. */
  ghost predicate Agrees(cfg: Config, visit: seq<Sighting>, st: Option<ActiveTrack>) {
    if st.Some? then Holds(cfg, visit, st.value) else visit == []
  }

  lemma UnmarkedAgrees(cfg: Config, visit: seq<Sighting>, active: map<string, ActiveTrack>, id: string)
    requires Agrees(cfg, visit, ActiveOf(active, id))
    ensures Agrees(cfg, visit, ActiveOf(Unmarked(active), id))
    ensures id in active ==> !Unmarked(active)[id].seen
  {
    hide Greatest, LastLook;
  }

  lemma {:induction false} MarkedAgrees(cfg: Config, visit: seq<Sighting>, active: map<string, ActiveTrack>,
                                        tracks: seq<Track>, f: Frame, id: string)
    requires Tracking.DistinctIds(tracks) && Agrees(cfg, visit, ActiveOf(active, id))
    requires id in active ==> !active[id].seen
    ensures var marked := MarkAll(cfg, active, tracks, f);
            var seen := SeenAs(tracks, id);
            && Agrees(cfg, if seen.Some? then visit + [Sighting(f.ts, seen.value, f.recognize(seen.value))] else visit,
                      ActiveOf(marked, id))
            && (id in StaleIds(cfg, marked, f.ts) <==> seen.None? && Ends(cfg, visit, f.ts))
  {
    var seen := SeenAs(tracks, id);
    MarkedEach(cfg, active, tracks, f, id);
    hide Greatest, RecognitionHolds;
    if seen.Some? {
      MarkingHolds(cfg, visit, ActiveOf(active, id), seen.value, f);
    }
  }

  /** A completed frame extends the visit by the track's sighting, ends it or leaves it. */
  lemma {:induction false} StepAgrees(cfg: Config, visit: seq<Sighting>, s: State, f: Frame, id: string)
    requires Ready(cfg, s) && Agrees(cfg, visit, ActiveOf(s.active, id))
    ensures var r := Step(cfg, s, f);
            Agrees(cfg, if Completes(cfg, s, f) then Look(cfg, visit, f, SeenAs(r.out.tracks, id)) else visit,
                   ActiveOf(r.s.active, id))
  {
    StepReady(cfg, s, f);
    var tracks := TrackFrame(cfg, s.tracker, f).out;
    hide TrackFrame, MarkAll, SampleAll, DropAbsent, EvaluateRules, ReadPlates, ClosedRows, TrackRows, Holds, Unmarked,
      Stale;
    UnmarkedAgrees(cfg, visit, s.active, id);
    assert Step(cfg, s, f).out.tracks == tracks;
    UnmarkedKeys(s.active, id);
    MarkedAgrees(cfg, visit, Unmarked(s.active), tracks, f, id);
  }

  lemma UnmarkedKeys(active: map<string, ActiveTrack>, id: string)
    ensures id in Unmarked(active) <==> id in active
  {
  }

  // ---------------------------------------------------------------- whole runs

  /** After any run a track is active exactly when its visit has sightings, and its record holds the
      time and trajectory of the first, the time and box of the last, the greatest confidence and the
      answer of the last look at the face. */
  lemma {:induction false} RecordsFollowVisits(cfg: Config, frames: seq<Frame>, id: string)
    ensures Agrees(cfg, Visit(cfg, frames, id), ActiveOf(Run(cfg, frames).active, id))
    decreases |frames|
  {
    if frames != [] {
      hide Agrees, Step, Run, Ready, Completes;
      var n := |frames| - 1;
      RecordsFollowVisits(cfg, frames[..n], id);
      LastStep(cfg, frames);
      StepAgrees(cfg, Visit(cfg, frames[..n], id), Run(cfg, frames[..n]), frames[n], id);
    }
  }

  lemma LastStep(cfg: Config, frames: seq<Frame>)
    requires frames != []
    ensures var n := |frames| - 1;
            var s := Run(cfg, frames[..n]);
            && Run(cfg, frames) == Step(cfg, s, frames[n]).s && OutputAt(cfg, frames, n) == Step(cfg, s, frames[n]).out
            && (LastCompletes(cfg, frames) <==> Completes(cfg, s, frames[n]))
  {
    hide Step;
  }

  /** The face's last answer, as rows give it: the person only when the answer was `known`. */
  ghost predicate Names(cfg: Config, visit: seq<Sighting>, identity: Option<string>, status: string) {
    if cfg.recognitionEnabled then
      exists k :: 0 <= k < |visit| && LastLook(cfg, visit, k) && status == visit[k].answer.status
                  && identity == if visit[k].answer.status == "known" then visit[k].answer.personId else None
    else identity == None && status == "unknown"
  }

  /** A presence event tells of the whole visit. */
  ghost predicate EventTells(cfg: Config, visit: seq<Sighting>, e: EventRow) {
    && visit != [] && e.rowType == Presence
    && e.start == visit[0].ts && e.end == visit[|visit| - 1].ts && e.bbox == visit[|visit| - 1].tr.bbox
    && Greatest(visit, e.confidence)
    && Names(cfg, visit, e.identity, e.status)
  }

  /** And so does the row of a track still active. */
  ghost predicate RowTells(cfg: Config, visit: seq<Sighting>, r: TrackRow) {
    && visit != [] && r.trajectory == visit[0].tr.trajectory
    && r.firstSeen == visit[0].ts && r.lastSeen == visit[|visit| - 1].ts && r.bbox == visit[|visit| - 1].tr.bbox
    && Greatest(visit, r.confidence)
    && Names(cfg, visit, r.identity, r.status)
  }

  lemma RowsOfRecord(cfg: Config, visit: seq<Sighting>, id: string, st: ActiveTrack)
    requires Holds(cfg, visit, st)
    ensures EventTells(cfg, visit, PresenceRow(id, st)) && PresenceRow(id, st).trackId == id
    ensures RowTells(cfg, visit, TrackRowOf(st))
  {
    hide Greatest, LastLook;
  }

  lemma RowOf(active: map<string, ActiveTrack>, id: string)
    ensures id in TrackRows(active) <==> id in active
    ensures id in active ==> TrackRows(active)[id] == TrackRowOf(active[id])
  {
  }

  lemma StepRows(cfg: Config, s: State, f: Frame)
    requires Ready(cfg, s)
    ensures var r := Step(cfg, s, f);
            var marked := MarkAll(cfg, Unmarked(s.active), r.out.tracks, f);
            && r.out.tracksWritten == (if Completes(cfg, s, f) then TrackRows(r.s.active) else map[])
            && r.out.closed == if Completes(cfg, s, f) then ClosedRows(cfg, marked, f.ts) else {}
  {
    hide TrackFrame, MarkAll, SampleAll, DropAbsent, EvaluateRules, ReadPlates, ClosedRows, TrackRows, Unmarked;
  }

  /** The track rows written by a frame are those of the tracks with a visit under way. */
  lemma {:induction false} TrackRowsTell(cfg: Config, frames: seq<Frame>, id: string)
    requires frames != []
    ensures var rows := OutputAt(cfg, frames, |frames| - 1).tracksWritten;
            && (id in rows <==> LastCompletes(cfg, frames) && Visit(cfg, frames, id) != [])
            && (id in rows ==> RowTells(cfg, Visit(cfg, frames, id), rows[id]))
  {
    var n := |frames| - 1;
    RecordsFollowVisits(cfg, frames, id);
    LastStep(cfg, frames);
    StepRows(cfg, Run(cfg, frames[..n]), frames[n]);
    hide Step, Run, Ready, Completes, TrackRows, TrackRowOf, RowTells, Visit, LastCompletes, Greatest, RecognitionHolds;
    var active := Run(cfg, frames).active;
    RowOf(active, id);
    if id in active {
      RowsOfRecord(cfg, Visit(cfg, frames, id), id, active[id]);
    }
  }

  /** A presence event for a track is written exactly in the frame that ends its visit, and tells of it. */
  lemma {:induction false} PresenceEventsTell(cfg: Config, frames: seq<Frame>, id: string)
    requires frames != []
    ensures var n := |frames| - 1;
            var out := OutputAt(cfg, frames, n);
            var visit := Visit(cfg, frames[..n], id);
            && ((exists e :: e in out.closed && e.trackId == id)
                <==> LastCompletes(cfg, frames) && SeenAs(out.tracks, id).None? && Ends(cfg, visit, frames[n].ts))
            && forall e :: e in out.closed && e.trackId == id ==> EventTells(cfg, visit, e)
  {
    var n := |frames| - 1;
    var s, f, visit := Run(cfg, frames[..n]), frames[n], Visit(cfg, frames[..n], id);
    RecordsFollowVisits(cfg, frames[..n], id);
    LastStep(cfg, frames);
    StepRows(cfg, s, f);
    StepReady(cfg, s, f);
    var tracks := Step(cfg, s, f).out.tracks;
    UnmarkedAgrees(cfg, visit, s.active, id);
    UnmarkedKeys(s.active, id);
    hide Step, Run, Ready, Completes, Visit, LastCompletes, Holds, EventTells, Unmarked, Stale, MarkAll, ClosedRows,
        Ends;
    var marked := MarkAll(cfg, Unmarked(s.active), tracks, f);
    MarkedAgrees(cfg, visit, Unmarked(s.active), tracks, f, id);
    ClosedOf(cfg, marked, f.ts, id);
    if id in StaleIds(cfg, marked, f.ts) {
      RowsOfRecord(cfg, visit, id, marked[id]);
    }
  }

  lemma {:induction false} ClosedOf(cfg: Config, marked: map<string, ActiveTrack>, ts: real, id: string)
    ensures var closed := ClosedRows(cfg, marked, ts);
            && ((exists e :: e in closed && e.trackId == id) <==> id in StaleIds(cfg, marked, ts))
            && forall e :: e in closed && e.trackId == id ==> id in marked && e == PresenceRow(id, marked[id])
  {
    if id in StaleIds(cfg, marked, ts) {
      assert PresenceRow(id, marked[id]) in ClosedRows(cfg, marked, ts);
    }
  }
}
