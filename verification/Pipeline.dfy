/** The per-camera pipeline: privacy masks and confidence filter, tracker, rule engine, licence
    plates, presence bookkeeping, sampled detection rows. `Step` is one frame as a function of the
    state; class CameraPipeline performs it on its fields and on the database session. */
module Pipeline {
  import opened Boxes
  import opened Options
  import Matching
  import Rules
  import Tracking

  type Detection = Tracking.Detection
  type Track = Tracking.Track

  const ANPR_INTERVAL_SEC := 5.0
  const DETECTION_MIN_MOVE := 0.01
  const DETECTION_MAX_INTERVAL_SEC := 2.0
  const MASK_MIN_OVERLAP := 0.5

  // ---------------------------------------------------------------- privacy masks

  /** A stored mask: a rectangle of numbers, or something that cannot be read as one. */
  datatype MaskSpec = Malformed | Rect(rect: Box)

  function ParseMask(m: MaskSpec): Option<Box> {
    if m.Rect? && m.rect.x >= 0.0 && m.rect.y >= 0.0 && m.rect.w >= 0.0 && m.rect.h >= 0.0
    then Some(m.rect) else None
  }

  /** The masks in force; a malformed one is dropped without notice. */
  function ParseMasks(ms: seq<MaskSpec>): seq<Box> {
    if ms == [] then []
    else ParseMasks(ms[..|ms| - 1])
         + match ParseMask(ms[|ms| - 1]) case Some(b) => [b] case None => []
  }

  function OverlapFraction(b: Box, mask: Box): real {
    var area := b.w * b.h;
    if area > 0.0 then Intersection(b, mask) / area else 0.0
  }

  predicate MaskedBy(b: Box, m: Box) {
    var c := Center(b);
    (m.x <= c.x <= m.x + m.w && m.y <= c.y <= m.y + m.h) || OverlapFraction(b, m) >= MASK_MIN_OVERLAP
  }

  predicate IsMasked(masks: seq<Box>, b: Box) {
    exists i :: 0 <= i < |masks| && MaskedBy(b, masks[i])
  }

  // ---------------------------------------------------------------- rows and inputs

  type Recognition = Matching.Recognition

  datatype Reading = Reading(plate: string, confidence: real)

  datatype RowType = Analytic(event: Rules.EventType, detail: Rules.Detail) | Anpr(plate: string) | Presence

  datatype EventRow = EventRow(trackId: string, identity: Option<string>, status: string, rowType: RowType,
                               start: real, end: real, confidence: real, bbox: Box)

  datatype DetectionRow = DetectionRow(trackId: string, ts: real, kind: string, confidence: real, bbox: Box)

  datatype TrackRow = TrackRow(identity: Option<string>, status: string, firstSeen: real, lastSeen: real,
                               confidence: real, bbox: Box, trajectory: seq<Point>)

  datatype ActiveTrack = ActiveTrack(firstSeen: real, lastSeen: real, confidence: real, bbox: Box,
                                     trajectory: seq<Point>, seen: bool, lastRecognized: Option<real>,
                                     recognition: Option<Recognition>)

  datatype PlateSeen = PlateSeen(plate: string, ts: real)

  datatype Config = Config(camera: string, confidence: real, mergeGap: real, recognizeInterval: real,
                           recognitionEnabled: bool, masks: seq<MaskSpec>, motionGate: bool, anpr: bool,
                           rules: Option<seq<Rules.Rule>>, tracker: Tracking.Config)

  /** One frame: its time, whether the motion gate sees a change, the raw detector output, and what
      plate reading and face recognition would answer for a track in this frame. */
  datatype Frame = Frame(ts: real, motion: bool, raw: seq<Detection>,
                         read: Track -> Option<Reading>, recognize: Track -> Recognition)

  datatype State = State(tracker: Tracking.State, rules: Rules.State, active: map<string, ActiveTrack>,
                         lastTs: map<string, real>, lastBox: map<string, Box>, anprLast: map<string, PlateSeen>)

  // ---------------------------------------------------------------- detection and tracking

  predicate Acceptable(cfg: Config, d: Detection) {
    d.confidence >= cfg.confidence && !IsMasked(ParseMasks(cfg.masks), d.bbox)
  }

  function Accepted(cfg: Config, raw: seq<Detection>): (r: seq<Detection>)
    ensures forall i :: 0 <= i < |r| ==> r[i] in raw && Acceptable(cfg, r[i])
  {
    if raw == [] then []
    else Accepted(cfg, raw[..|raw| - 1]) + if Acceptable(cfg, raw[|raw| - 1]) then [raw[|raw| - 1]] else []
  }

  /** The gate skips a frame without motion: no detection, no tracking. */
  predicate Skipped(cfg: Config, f: Frame) {
    cfg.motionGate && !f.motion
  }

  function TrackFrame(cfg: Config, t: Tracking.State, f: Frame): Tracking.Outcome
    requires Tracking.Wf(t)
  {
    if Skipped(cfg, f) then Tracking.Outcome(t, [])
    else Tracking.Step(cfg.tracker, t, cfg.camera, Accepted(cfg, f.raw))
  }

  // ---------------------------------------------------------------- rules and plates

  function Objects(tracks: seq<Track>): (r: seq<Rules.Object>)
    ensures |r| == |tracks|
    ensures forall i :: 0 <= i < |r| ==> r[i] == Rules.Object(tracks[i].trackId, tracks[i].kind, tracks[i].bbox)
  {
    seq(|tracks|, i requires 0 <= i < |tracks| => Rules.Object(tracks[i].trackId, tracks[i].kind, tracks[i].bbox))
  }

  function AnalyticRow(e: Rules.Event): EventRow {
    EventRow(e.trackId, None, "unknown", Analytic(e.eventType, e.detail), e.ts, e.ts, e.score, e.bbox)
  }

  function AnalyticRows(events: seq<Rules.Event>): (r: seq<EventRow>)
    ensures |r| == |events|
    ensures forall i :: 0 <= i < |r| ==> r[i] == AnalyticRow(events[i])
  {
    seq(|events|, i requires 0 <= i < |events| => AnalyticRow(events[i]))
  }

  /** The rule engine runs only on frames with tracks. */
  function EvaluateRules(cfg: Config, s: Rules.State, tracks: seq<Track>, ts: real): Rules.Outcome {
    if cfg.rules.None? || tracks == [] then Rules.Outcome(s, [], false)
    else Rules.Evaluate(cfg.rules.value, cfg.camera, s, Objects(tracks), ts)
  }

  datatype Plates = Plates(last: map<string, PlateSeen>, rows: seq<EventRow>)

  function AnprRow(tr: Track, reading: Reading, ts: real): EventRow {
    EventRow(tr.trackId, None, "unknown", Anpr(reading.plate), ts, ts, reading.confidence, tr.bbox)
  }

  /** At most one reading per vehicle and interval; a row only for a plate that differs from the last. */
  function ReadPlate(p: Plates, tr: Track, f: Frame): Plates {
    if tr.kind != "vehicle" then p
    else if tr.trackId in p.last && f.ts - p.last[tr.trackId].ts < ANPR_INTERVAL_SEC then p
    else match f.read(tr)
      case None => p
      case Some(reading) =>
        var last := p.last[tr.trackId := PlateSeen(reading.plate, f.ts)];
        if tr.trackId in p.last && p.last[tr.trackId].plate == reading.plate then Plates(last, p.rows)
        else Plates(last, p.rows + [AnprRow(tr, reading, f.ts)])
  }

  function ReadPlates(cfg: Config, last: map<string, PlateSeen>, tracks: seq<Track>, f: Frame): Plates {
    if !cfg.anpr || tracks == [] then Plates(last, [])
    else ReadPlate(ReadPlates(cfg, last, tracks[..|tracks| - 1], f), tracks[|tracks| - 1], f)
  }

  // ---------------------------------------------------------------- presence

  function Unmarked(active: map<string, ActiveTrack>): map<string, ActiveTrack> {
    map id | id in active :: active[id].(seen := false)
  }

  predicate ShouldRecognize(cfg: Config, st: ActiveTrack, ts: real) {
    st.lastRecognized.None? || ts - st.lastRecognized.value >= cfg.recognizeInterval
  }

  function Mark(cfg: Config, active: map<string, ActiveTrack>, tr: Track, f: Frame): map<string, ActiveTrack> {
    var st := if tr.trackId in active then active[tr.trackId]
              else ActiveTrack(f.ts, f.ts, tr.confidence, tr.bbox, tr.trajectory, true, None, None);
    var st1 := st.(seen := true, lastSeen := f.ts, bbox := tr.bbox, confidence := Max(st.confidence, tr.confidence));
    var st2 := if cfg.recognitionEnabled && ShouldRecognize(cfg, st1, f.ts)
               then st1.(lastRecognized := Some(f.ts), recognition := Some(f.recognize(tr))) else st1;
    active[tr.trackId := st2]
  }

  function MarkAll(cfg: Config, active: map<string, ActiveTrack>, tracks: seq<Track>, f: Frame)
    : map<string, ActiveTrack>
  {
    if tracks == [] then active
    else Mark(cfg, MarkAll(cfg, active, tracks[..|tracks| - 1], f), tracks[|tracks| - 1], f)
  }

  predicate Stale(cfg: Config, st: ActiveTrack, ts: real) {
    !st.seen && ts - st.lastSeen >= cfg.mergeGap
  }

  function Status(st: ActiveTrack): string {
    if st.recognition.Some? then st.recognition.value.status else "unknown"
  }

  function Identity(st: ActiveTrack): Option<string> {
    if st.recognition.Some? && st.recognition.value.status == "known" then st.recognition.value.personId else None
  }

  function PresenceRow(id: string, st: ActiveTrack): EventRow {
    EventRow(id, Identity(st), Status(st), Presence, st.firstSeen, st.lastSeen, st.confidence, st.bbox)
  }

  function StaleIds(cfg: Config, active: map<string, ActiveTrack>, ts: real): set<string> {
    set id | id in active && Stale(cfg, active[id], ts)
  }

  function PresenceRows(active: map<string, ActiveTrack>, ids: set<string>): set<EventRow> {
    set id | id in ids && id in active :: PresenceRow(id, active[id])
  }

  function ClosedRows(cfg: Config, active: map<string, ActiveTrack>, ts: real): set<EventRow> {
    PresenceRows(active, StaleIds(cfg, active, ts))
  }

  function TrackRowOf(st: ActiveTrack): TrackRow {
    TrackRow(Identity(st), Status(st), st.firstSeen, st.lastSeen, st.confidence, st.bbox, st.trajectory)
  }

  function TrackRows(active: map<string, ActiveTrack>): map<string, TrackRow> {
    map id | id in active :: TrackRowOf(active[id])
  }

  // ---------------------------------------------------------------- sampled detection rows

  datatype Gate = Gate(ts: map<string, real>, box: map<string, Box>, rows: seq<DetectionRow>)

  predicate Differs(a: Box, b: Box) {
    || Abs(a.x - b.x) > DETECTION_MIN_MOVE || Abs(a.y - b.y) > DETECTION_MIN_MOVE
    || Abs(a.w - b.w) > DETECTION_MIN_MOVE || Abs(a.h - b.h) > DETECTION_MIN_MOVE
  }

  predicate HasMoved(g: Gate, tr: Track) {
    tr.trackId !in g.box || Differs(tr.bbox, g.box[tr.trackId])
  }

  predicate IsStale(g: Gate, tr: Track, ts: real) {
    tr.trackId !in g.ts || ts - g.ts[tr.trackId] >= DETECTION_MAX_INTERVAL_SEC
  }

  function Sample(g: Gate, tr: Track, ts: real): Gate {
    if !(HasMoved(g, tr) || IsStale(g, tr, ts)) then g
    else Gate(g.ts[tr.trackId := ts], g.box[tr.trackId := tr.bbox],
              g.rows + [DetectionRow(tr.trackId, ts, tr.kind, tr.confidence, tr.bbox)])
  }

  function SampleAll(g: Gate, tracks: seq<Track>, ts: real): Gate {
    if tracks == [] then g else Sample(SampleAll(g, tracks[..|tracks| - 1], ts), tracks[|tracks| - 1], ts)
  }

  function IdsOf(tracks: seq<Track>): set<string> {
    set i | 0 <= i < |tracks| :: tracks[i].trackId
  }

  /** Gating entries of tracks that are not in this frame are dropped. */
  function DropAbsent(g: Gate, ids: set<string>): Gate {
    Gate(map id | id in g.ts && id in ids :: g.ts[id],
         map id | id in g.box && !(id in g.ts && id !in ids) :: g.box[id],
         g.rows)
  }

  // ---------------------------------------------------------------- one frame

  datatype Output = Output(tracks: seq<Track>, analytic: seq<EventRow>, detections: seq<DetectionRow>,
                           closed: set<EventRow>, tracksWritten: map<string, TrackRow>)

  /** `raised` stands for the exception that a crowd rule can throw. */
  datatype Outcome = Outcome(s: State, out: Output, raised: bool)

  function Step(cfg: Config, s: State, f: Frame): Outcome
    requires Tracking.Wf(s.tracker)
  {
    var tracked := TrackFrame(cfg, s.tracker, f);
    var ruled := EvaluateRules(cfg, s.rules, tracked.out, f.ts);
    if ruled.raised then
      Outcome(State(tracked.s, ruled.s, Unmarked(s.active), s.lastTs, s.lastBox, s.anprLast),
              Output(tracked.out, [], [], {}, map[]), true)
    else
      Completed(cfg, s, f, tracked, ruled)
  }

  /** The rest of a frame whose rules were evaluated without an exception. */
  function Completed(cfg: Config, s: State, f: Frame, tracked: Tracking.Outcome, ruled: Rules.Outcome): Outcome {
    var tracks := tracked.out;
    var plates := ReadPlates(cfg, s.anprLast, tracks, f);
    var marked := MarkAll(cfg, Unmarked(s.active), tracks, f);
    var gate := DropAbsent(SampleAll(Gate(s.lastTs, s.lastBox, []), tracks, f.ts), IdsOf(tracks));
    var active := marked - StaleIds(cfg, marked, f.ts);
    Outcome(State(tracked.s, ruled.s, active, gate.ts, gate.box, plates.last),
            Output(tracks, AnalyticRows(ruled.events) + plates.rows, gate.rows,
                   ClosedRows(cfg, marked, f.ts), TrackRows(active)), false)
  }

  // ---------------------------------------------------------------- the pipeline object

  /** The database rows written so far. */
  class Session {
    var events: seq<EventRow>
    var detections: seq<DetectionRow>
    var tracks: map<string, TrackRow>

    constructor ()
      ensures events == [] && detections == [] && tracks == map[]
    {
      events, detections, tracks := [], [], map[];
    }
  }

  /** `rows` lists the elements of `all`, each once. */
  ghost predicate Lists(rows: seq<EventRow>, all: set<EventRow>) {
    (forall e :: e in rows <==> e in all) && |rows| == |all|
  }

  class CameraPipeline {
    const cfg: Config
    const tracker: Tracking.IouTracker
    const engine: Rules.RuleEngine?
    const masks: seq<Box>
    var active: map<string, ActiveTrack>
    var lastTs: map<string, real>
    var lastBox: map<string, Box>
    var anprLast: map<string, PlateSeen>
    var lastAnalytic: seq<EventRow>

    ghost function Parts(): set<object>
    {
      {this, tracker} + if engine == null then {} else {engine}
    }

    ghost function RuleState(): Rules.State
      reads Parts()
    {
      if engine == null then Rules.State(map[], map[]) else engine.Snapshot()
    }

    ghost function Snapshot(): State
      reads Parts()
    {
      State(tracker.Snapshot(), RuleState(), active, lastTs, lastBox, anprLast)
    }

    ghost predicate Valid()
      reads Parts()
    {
      && tracker.Valid() && tracker.cfg == cfg.tracker && masks == ParseMasks(cfg.masks)
      && (engine == null <==> cfg.rules.None?)
      && (engine != null ==> engine.camera == cfg.camera && engine.rules == cfg.rules.value)
    }

    constructor (cfg: Config, tracker: Tracking.IouTracker, engine: Rules.RuleEngine?)
      requires tracker.Valid() && tracker.cfg == cfg.tracker
      requires engine == null <==> cfg.rules.None?
      requires engine != null ==> engine.camera == cfg.camera && engine.rules == cfg.rules.value
      ensures Valid() && this.cfg == cfg && this.tracker == tracker && this.engine == engine
      ensures active == map[] && lastTs == map[] && lastBox == map[] && anprLast == map[]
    {
      this.cfg, this.tracker, this.engine := cfg, tracker, engine;
      masks := ParseMasks(cfg.masks);
      active, lastTs, lastBox, anprLast, lastAnalytic := map[], map[], map[], map[], [];
    }

    method Unmark()
      requires Valid()
      modifies this`active
      ensures Valid() && RuleState() == old(RuleState()) && tracker.Snapshot() == old(tracker.Snapshot())
      ensures active == Unmarked(old(active))
    {
      active := Unmarked(active);
    }

    method Detect(f: Frame) returns (tracks: seq<Track>)
      requires Valid()
      modifies tracker
      ensures Valid()
      ensures Tracking.Outcome(tracker.Snapshot(), tracks) == TrackFrame(cfg, old(tracker.Snapshot()), f)
      ensures RuleState() == old(RuleState())
    {
      tracks := [];
      if !(cfg.motionGate && !f.motion) {
        var detections: seq<Detection> := [];
        for i := 0 to |f.raw|
          invariant detections == Accepted(cfg, f.raw[..i])
        {
          assert f.raw[..i + 1][..i] == f.raw[..i];
          var d := f.raw[i];
          if d.confidence >= cfg.confidence && !IsMasked(masks, d.bbox) {
            detections := detections + [d];
          }
        }
        assert f.raw[..|f.raw|] == f.raw;
        tracks := tracker.Update(cfg.camera, detections);
      }
    }

    method AnalyzeRules(session: Session, tracks: seq<Track>, ts: real) returns (raised: bool)
      requires Valid()
      modifies this`lastAnalytic, session`events, if engine == null then {} else {engine}
      ensures Valid()
      ensures var r := EvaluateRules(cfg, old(RuleState()), tracks, ts);
              RuleState() == r.s && raised == r.raised && lastAnalytic == if raised then [] else AnalyticRows(r.events)
      ensures session.events == old(session.events) + lastAnalytic
    {
      lastAnalytic, raised := [], false;
      if engine != null && tracks != [] {
        var events: seq<Rules.Event>;
        events, raised := engine.EvaluateFrame(Objects(tracks), ts);
        if !raised {
          lastAnalytic := AnalyticRows(events);
          session.events := session.events + lastAnalytic;
        }
      }
    }

    method AnalyzePlates(session: Session, tracks: seq<Track>, f: Frame)
      modifies this`anprLast, this`lastAnalytic, session`events
      ensures var p := ReadPlates(cfg, old(anprLast), tracks, f);
              && anprLast == p.last && lastAnalytic == old(lastAnalytic) + p.rows
              && session.events == old(session.events) + p.rows
    {
      if !cfg.anpr {
        return;
      }
      ghost var rows: seq<EventRow> := [];
      for i := 0 to |tracks|
        invariant Plates(anprLast, rows) == ReadPlates(cfg, old(anprLast), tracks[..i], f)
        invariant lastAnalytic == old(lastAnalytic) + rows && session.events == old(session.events) + rows
      {
        assert tracks[..i + 1][..i] == tracks[..i];
        var tr := tracks[i];
        if tr.kind != "vehicle" {
          continue;
        }
        var before := if tr.trackId in anprLast then Some(anprLast[tr.trackId]) else None;
        if before.Some? && f.ts - before.value.ts < ANPR_INTERVAL_SEC {
          continue;
        }
        var reading := f.read(tr);
        if reading.None? {
          continue;
        }
        anprLast := anprLast[tr.trackId := PlateSeen(reading.value.plate, f.ts)];
        if before.Some? && before.value.plate == reading.value.plate {
          continue;
        }
        var row := AnprRow(tr, reading.value, f.ts);
        session.events := session.events + [row];
        lastAnalytic := lastAnalytic + [row];
        rows := rows + [row];
      }
      assert tracks[..|tracks|] == tracks;
    }

    method MarkSeen(tracks: seq<Track>, f: Frame)
      modifies this`active
      ensures active == MarkAll(cfg, old(active), tracks, f)
    {
      for i := 0 to |tracks|
        invariant active == MarkAll(cfg, old(active), tracks[..i], f)
      {
        assert tracks[..i + 1][..i] == tracks[..i];
        var tr := tracks[i];
        var st := if tr.trackId in active then active[tr.trackId]
                  else ActiveTrack(f.ts, f.ts, tr.confidence, tr.bbox, tr.trajectory, true, None, None);
        st := st.(seen := true, lastSeen := f.ts, bbox := tr.bbox, confidence := Max(st.confidence, tr.confidence));
        if cfg.recognitionEnabled && ShouldRecognize(cfg, st, f.ts) {
          st := st.(lastRecognized := Some(f.ts), recognition := Some(f.recognize(tr)));
        }
        active := active[tr.trackId := st];
      }
      assert tracks[..|tracks|] == tracks;
    }

    method PersistDetections(session: Session, tracks: seq<Track>, ts: real)
      modifies this`lastTs, this`lastBox, session`detections
      ensures var g := DropAbsent(SampleAll(Gate(old(lastTs), old(lastBox), []), tracks, ts), IdsOf(tracks));
              && lastTs == g.ts && lastBox == g.box && session.detections == old(session.detections) + g.rows
    {
      ghost var start := Gate(lastTs, lastBox, []);
      ghost var rows: seq<DetectionRow> := [];
      for i := 0 to |tracks|
        invariant Gate(lastTs, lastBox, rows) == SampleAll(start, tracks[..i], ts)
        invariant session.detections == old(session.detections) + rows
      {
        assert tracks[..i + 1][..i] == tracks[..i];
        var tr := tracks[i];
        var moved := tr.trackId !in lastBox || Differs(tr.bbox, lastBox[tr.trackId]);
        var stale := tr.trackId !in lastTs || ts - lastTs[tr.trackId] >= DETECTION_MAX_INTERVAL_SEC;
        if !(moved || stale) {
          continue;
        }
        var row := DetectionRow(tr.trackId, ts, tr.kind, tr.confidence, tr.bbox);
        lastTs := lastTs[tr.trackId := ts];
        lastBox := lastBox[tr.trackId := tr.bbox];
        session.detections := session.detections + [row];
        rows := rows + [row];
      }
      assert tracks[..|tracks|] == tracks;
      var ids := IdsOf(tracks);
      lastTs, lastBox := map id | id in lastTs && id in ids :: lastTs[id],
                         map id | id in lastBox && !(id in lastTs && id !in ids) :: lastBox[id];
    }

    method CloseStale(session: Session, ts: real) returns (closed: seq<EventRow>)
      modifies this`active, session`events
      ensures Lists(closed, ClosedRows(cfg, old(active), ts))
      ensures active == old(active) - StaleIds(cfg, old(active), ts)
      ensures session.events == old(session.events) + closed
    {
      closed := [];
      var todo := active.Keys;
      ghost var was := active;
      assert Closing(cfg, was, ts, todo, active, closed);
      while todo != {}
        invariant Closing(cfg, was, ts, todo, active, closed)
        invariant session.events == old(session.events) + closed
        decreases |todo|
      {
        var id :| id in todo;
        ClosingStep(cfg, was, ts, todo, active, closed, id);
        todo := todo - {id};
        var st := active[id];
        if Stale(cfg, st, ts) {
          closed := closed + [PresenceRow(id, st)];
          session.events := session.events + [PresenceRow(id, st)];
          active := active - {id};
        }
      }
      assert StaleIds(cfg, was, ts) - {} == StaleIds(cfg, was, ts);
    }

    method Analyze(session: Session, tracks: seq<Track>, f: Frame) returns (raised: bool)
      requires Valid()
      modifies this`lastAnalytic, this`anprLast, session`events, if engine == null then {} else {engine}
      ensures Valid() && tracker.Snapshot() == old(tracker.Snapshot())
      ensures var ruled := EvaluateRules(cfg, old(RuleState()), tracks, f.ts);
              var plates := ReadPlates(cfg, old(anprLast), tracks, f);
              && RuleState() == ruled.s && raised == ruled.raised
              && anprLast == (if raised then old(anprLast) else plates.last)
              && lastAnalytic == (if raised then [] else AnalyticRows(ruled.events) + plates.rows)
              && session.events == old(session.events) + lastAnalytic
    {
      hide EvaluateRules, ReadPlates;
      raised := AnalyzeRules(session, tracks, f.ts);
      if !raised {
        AnalyzePlates(session, tracks, f);
      }
    }

    method Record(session: Session, tracks: seq<Track>, f: Frame) returns (closed: seq<EventRow>)
      requires Valid()
      modifies this`active, this`lastTs, this`lastBox, session
      ensures Valid() && RuleState() == old(RuleState()) && tracker.Snapshot() == old(tracker.Snapshot())
      ensures var marked := MarkAll(cfg, old(active), tracks, f);
              var g := DropAbsent(SampleAll(Gate(old(lastTs), old(lastBox), []), tracks, f.ts), IdsOf(tracks));
              && active == marked - StaleIds(cfg, marked, f.ts) && lastTs == g.ts && lastBox == g.box
              && Lists(closed, ClosedRows(cfg, marked, f.ts))
              && session.events == old(session.events) + closed
              && session.detections == old(session.detections) + g.rows
              && session.tracks == old(session.tracks) + TrackRows(active)
    {
      MarkSeen(tracks, f);
      PersistDetections(session, tracks, f.ts);
      closed := CloseStale(session, f.ts);
      session.tracks := session.tracks + TrackRows(active);
    }

    /** One frame: the state becomes `Step` of the old one and the session gains exactly the rows
        `Step` names; the closed presence events come in some order. */
    method ProcessFrame(session: Session, f: Frame) returns (closed: seq<EventRow>, raised: bool)
      requires Valid()
      modifies this, tracker, if engine == null then {} else {engine}, session
      ensures Valid()
      ensures Snapshot() == Step(cfg, old(Snapshot()), f).s && raised == Step(cfg, old(Snapshot()), f).raised
      ensures var out := Step(cfg, old(Snapshot()), f).out;
              && lastAnalytic == out.analytic
              && Lists(closed, out.closed)
              && session.events == old(session.events) + out.analytic + closed
              && session.detections == old(session.detections) + out.detections
              && session.tracks == old(session.tracks) + out.tracksWritten
    {
      hide TrackFrame, EvaluateRules, ReadPlates, MarkAll, SampleAll, DropAbsent;
      Unmark();
      var tracks := Detect(f);
      raised := Analyze(session, tracks, f);
      if raised {
        return [], true;
      }
      closed := Record(session, tracks, f);
    }
  }

  lemma {:induction false} ListsOneMore(rows: seq<EventRow>, ids: set<string>, active: map<string, ActiveTrack>,
                                        id: string)
    requires ids <= active.Keys && id in active && id !in ids
    requires Lists(rows, PresenceRows(active, ids))
    ensures Lists(rows + [PresenceRow(id, active[id])], PresenceRows(active, ids + {id}))
  {
    var all := PresenceRows(active, ids);
    var row := PresenceRow(id, active[id]);
    assert row !in all;
    assert PresenceRows(active, ids + {id}) == all + {row};
    assert forall e :: e in rows + [row] <==> e in rows || e == row;
  }

  /** Closing in progress: the stale tracks outside `todo` are gone and have their presence rows. */
  ghost predicate Closing(cfg: Config, was: map<string, ActiveTrack>, ts: real, todo: set<string>,
                          active: map<string, ActiveTrack>, closed: seq<EventRow>) {
    && todo <= was.Keys
    && active == was - (StaleIds(cfg, was, ts) - todo)
    && Lists(closed, PresenceRows(was, StaleIds(cfg, was, ts) - todo))
  }

  lemma {:induction false} ClosingStep(cfg: Config, was: map<string, ActiveTrack>, ts: real, todo: set<string>,
                                       active: map<string, ActiveTrack>, closed: seq<EventRow>, id: string)
    requires Closing(cfg, was, ts, todo, active, closed) && id in todo
    ensures id in active && active[id] == was[id]
    ensures if Stale(cfg, was[id], ts)
            then Closing(cfg, was, ts, todo - {id}, active - {id}, closed + [PresenceRow(id, was[id])])
            else Closing(cfg, was, ts, todo - {id}, active, closed)
  {
    var gone := StaleIds(cfg, was, ts) - todo;
    if Stale(cfg, was[id], ts) {
      assert StaleIds(cfg, was, ts) - (todo - {id}) == gone + {id};
      ListsOneMore(closed, gone, was, id);
    } else {
      assert StaleIds(cfg, was, ts) - (todo - {id}) == gone;
    }
  }
}
