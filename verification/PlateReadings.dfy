/** Licence plates over whole runs: which readings are taken of a vehicle, and which of them are
    stored. */
module PlateReadings {
  import opened Boxes
  import opened Options
  import opened Pipeline
  import opened PipelineTheorems
  import opened Visits
  import Tracking

  /** A vehicle's plate is read when none was read before or the last reading is 5 seconds old. */
  ghost predicate ReadingDue(readings: seq<PlateSeen>, ts: real) {
    readings == [] || ts - readings[|readings| - 1].ts >= 5.0
  }

  /** What reading the plate of the track yields in frame `f`, if it is a vehicle and its turn. */
  ghost function Taken(cfg: Config, readings: seq<PlateSeen>, f: Frame, seen: Option<Track>): Option<Reading> {
    if cfg.anpr && seen.Some? && seen.value.kind == "vehicle" && ReadingDue(readings, f.ts) then f.read(seen.value)
    else None
  }

  function Extended(readings: seq<PlateSeen>, ts: real, taken: Option<Reading>): seq<PlateSeen> {
    if taken.Some? then readings + [PlateSeen(taken.value.plate, ts)] else readings
  }

  /** All readings of a track's plate in a run. */
  ghost function Readings(cfg: Config, frames: seq<Frame>, id: string): seq<PlateSeen>
    decreases |frames|
  {
    if frames == [] then []
    else
      var n := |frames| - 1;
      var before := Readings(cfg, frames[..n], id);
      if !LastCompletes(cfg, frames) then before
      else Extended(before, frames[n].ts, Taken(cfg, before, frames[n], SeenAs(OutputAt(cfg, frames, n).tracks, id)))
  }

  function LastReading(last: map<string, PlateSeen>, id: string): Option<PlateSeen> {
    if id in last then Some(last[id]) else None
  }

  /** The entry is the last reading. */
  ghost predicate IsLast(readings: seq<PlateSeen>, last: Option<PlateSeen>) {
    last == if readings == [] then None else Some(readings[|readings| - 1])
  }

  /** The stored plate events of one track. */
  function PlateRows(rows: seq<EventRow>, id: string): seq<EventRow> {
    if rows == [] then []
    else
      var e := rows[|rows| - 1];
      PlateRows(rows[..|rows| - 1], id) + if e.rowType.Anpr? && e.trackId == id then [e] else []
  }

  // ---------------------------------------------------------------- one frame

  lemma {:induction false} PlateRowsJoined(a: seq<EventRow>, b: seq<EventRow>, id: string)
    ensures PlateRows(a + b, id) == PlateRows(a, id) + PlateRows(b, id)
  {
    if b == [] {
      assert a + b == a;
    } else {
      assert (a + b)[..|a + b| - 1] == a + b[..|b| - 1];
      PlateRowsJoined(a, b[..|b| - 1], id);
    }
  }

  lemma {:induction false} NoPlateRows(rows: seq<EventRow>, id: string)
    requires forall i :: 0 <= i < |rows| ==> !rows[i].rowType.Anpr?
    ensures PlateRows(rows, id) == []
  {
    if rows != [] {
      NoPlateRows(rows[..|rows| - 1], id);
    }
  }

  /** What one call does to its own track. */
  lemma ReadOwn(p: Plates, tr: Track, f: Frame)
    ensures var r := ReadPlate(p, tr, f);
            var only := ReadPlate(Plates(p.last, []), tr, f);
            && r.last == only.last && r.rows == p.rows + only.rows && |only.rows| <= 1
            && forall i :: 0 <= i < |only.rows| ==> only.rows[i].rowType.Anpr? && only.rows[i].trackId == tr.trackId
  {
    assert p.rows + [] == p.rows;
  }

  /** And to any other. */
  lemma ReadOther(p: Plates, tr: Track, f: Frame, id: string)
    requires tr.trackId != id
    ensures var r := ReadPlate(p, tr, f);
            LastReading(r.last, id) == LastReading(p.last, id) && PlateRows(r.rows, id) == PlateRows(p.rows, id)
  {
    var r := ReadPlate(p, tr, f);
    if r.rows != p.rows {
      assert r.rows[..|r.rows| - 1] == p.rows;
    }
  }

  lemma OneRow(rows: seq<EventRow>, id: string)
    requires |rows| <= 1 && forall i :: 0 <= i < |rows| ==> rows[i].rowType.Anpr? && rows[i].trackId == id
    ensures PlateRows(rows, id) == rows
  {
  }

  /** A frame's readings change each track's entry and rows by its own reading alone. */
  lemma {:induction false} ReadEach(cfg: Config, last: map<string, PlateSeen>, tracks: seq<Track>, f: Frame,
                                    id: string)
    requires Tracking.DistinctIds(tracks) && cfg.anpr
    ensures var r := ReadPlates(cfg, last, tracks, f);
            match SeenAs(tracks, id)
            case None => LastReading(r.last, id) == LastReading(last, id) && PlateRows(r.rows, id) == []
            case Some(tr) => var only := ReadPlate(Plates(last, []), tr, f);
                             && LastReading(r.last, id) == LastReading(only.last, id)
                             && PlateRows(r.rows, id) == only.rows
  {
    if tracks != [] {
      var n := |tracks| - 1;
      var p := ReadPlates(cfg, last, tracks[..n], f);
      ReadEach(cfg, last, tracks[..n], f, id);
      if tracks[n].trackId != id {
        ReadOther(p, tracks[n], f, id);
      } else {
        ReadOwn(p, tracks[n], f);
        assert SeenAs(tracks[..n], id).None?;
        SameEntry(p, last, tracks[n], f);
        var only := ReadPlate(Plates(p.last, []), tracks[n], f);
        PlateRowsJoined(p.rows, only.rows, id);
        OneRow(only.rows, id);
      }
    }
  }

  lemma SameEntry(p: Plates, last: map<string, PlateSeen>, tr: Track, f: Frame)
    requires LastReading(p.last, tr.trackId) == LastReading(last, tr.trackId)
    ensures var a, b := ReadPlate(Plates(p.last, []), tr, f), ReadPlate(Plates(last, []), tr, f);
            a.rows == b.rows && LastReading(a.last, tr.trackId) == LastReading(b.last, tr.trackId)
  {
  }

  /** The row for a reading: none when nothing was read or the plate is the one read last. */
  ghost function NewRows(id: string, readings: seq<PlateSeen>, f: Frame, seen: Option<Track>,
                         taken: Option<Reading>): seq<EventRow>
  {
    if taken.None? || seen.None? || (readings != [] && readings[|readings| - 1].plate == taken.value.plate) then []
    else [EventRow(id, None, "unknown", Anpr(taken.value.plate), f.ts, f.ts, taken.value.confidence, seen.value.bbox)]
  }

  lemma ReadingTaken(cfg: Config, readings: seq<PlateSeen>, last: map<string, PlateSeen>, tr: Track, f: Frame)
    requires IsLast(readings, LastReading(last, tr.trackId)) && cfg.anpr
    ensures var r := ReadPlate(Plates(last, []), tr, f);
            var taken := Taken(cfg, readings, f, Some(tr));
            && IsLast(Extended(readings, f.ts, taken), LastReading(r.last, tr.trackId))
            && r.rows == NewRows(tr.trackId, readings, f, Some(tr), taken)
  {
  }

  lemma {:induction false} PlatesStep(cfg: Config, readings: seq<PlateSeen>, s: State, f: Frame, id: string)
    requires Ready(cfg, s) && Completes(cfg, s, f) && IsLast(readings, LastReading(s.anprLast, id))
    ensures var r := Step(cfg, s, f);
            var seen := SeenAs(r.out.tracks, id);
            var taken := Taken(cfg, readings, f, seen);
            && IsLast(Extended(readings, f.ts, taken), LastReading(r.s.anprLast, id))
            && PlateRows(r.out.analytic, id) == NewRows(id, readings, f, seen, taken)
  {
    StepReady(cfg, s, f);
    StepPlates(cfg, s, f);
    var tracks := Step(cfg, s, f).out.tracks;
    var events := EvaluateRules(cfg, s.rules, tracks, f.ts).events;
    var plates := ReadPlates(cfg, s.anprLast, tracks, f);
    NoPlateRows(AnalyticRows(events), id);
    PlateRowsJoined(AnalyticRows(events), plates.rows, id);
    hide Step, Completes, EvaluateRules, ReadPlate, AnalyticRows;
    if cfg.anpr {
      ReadEach(cfg, s.anprLast, tracks, f, id);
      var seen := SeenAs(tracks, id);
      if seen.Some? {
        hide ReadPlates;
        ReadingTaken(cfg, readings, s.anprLast, seen.value, f);
      }
    }
  }

  lemma StepPlates(cfg: Config, s: State, f: Frame)
    requires Ready(cfg, s)
    ensures var r := Step(cfg, s, f);
            var plates := ReadPlates(cfg, s.anprLast, r.out.tracks, f);
            && r.s.anprLast == (if Completes(cfg, s, f) then plates.last else s.anprLast)
            && (Completes(cfg, s, f) ==>
                  r.out.analytic == AnalyticRows(EvaluateRules(cfg, s.rules, r.out.tracks, f.ts).events) + plates.rows)
  {
    hide TrackFrame, MarkAll, SampleAll, DropAbsent, EvaluateRules, ReadPlates, ClosedRows, TrackRows, Unmarked;
  }

  // ---------------------------------------------------------------- whole runs

  lemma {:induction false} EntriesAreLastReadings(cfg: Config, frames: seq<Frame>, id: string)
    ensures IsLast(Readings(cfg, frames, id), LastReading(Run(cfg, frames).anprLast, id))
    decreases |frames|
  {
    if frames != [] {
      var n := |frames| - 1;
      EntriesAreLastReadings(cfg, frames[..n], id);
      LastStep(cfg, frames);
      StepPlates(cfg, Run(cfg, frames[..n]), frames[n]);
      hide Step, Run, Ready, Completes, Taken, Extended, ReadPlates;
      if LastCompletes(cfg, frames) {
        PlatesStep(cfg, Readings(cfg, frames[..n], id), Run(cfg, frames[..n]), frames[n], id);
      }
    }
  }

  /** In a completed frame a plate event of a track is stored exactly when a reading is taken whose plate
      differs from the last one read of that track. */
  lemma {:induction false} PlateEventsTell(cfg: Config, frames: seq<Frame>, id: string)
    requires LastCompletes(cfg, frames)
    ensures var n := |frames| - 1;
            var before := Readings(cfg, frames[..n], id);
            var seen := SeenAs(OutputAt(cfg, frames, n).tracks, id);
            PlateRows(OutputAt(cfg, frames, n).analytic, id)
            == NewRows(id, before, frames[n], seen, Taken(cfg, before, frames[n], seen))
  {
    var n := |frames| - 1;
    EntriesAreLastReadings(cfg, frames[..n], id);
    LastStep(cfg, frames);
    hide Step, Run, Ready, Completes, Taken, NewRows;
    PlatesStep(cfg, Readings(cfg, frames[..n], id), Run(cfg, frames[..n]), frames[n], id);
  }

  ghost predicate Spaced(readings: seq<PlateSeen>) {
    forall i :: 0 < i < |readings| ==> readings[i].ts - readings[i - 1].ts >= 5.0
  }

  lemma SpacedExtended(cfg: Config, readings: seq<PlateSeen>, f: Frame, seen: Option<Track>)
    requires Spaced(readings)
    ensures Spaced(Extended(readings, f.ts, Taken(cfg, readings, f, seen)))
  {
  }

  /** Consecutive readings of one vehicle's plate are at least 5 seconds apart. */
  lemma {:induction false} ReadingsAreSpaced(cfg: Config, frames: seq<Frame>, id: string)
    ensures Spaced(Readings(cfg, frames, id))
    decreases |frames|
  {
    hide Spaced, Taken, Extended, Run, LastCompletes;
    if frames != [] {
      var n := |frames| - 1;
      ReadingsAreSpaced(cfg, frames[..n], id);
      SpacedExtended(cfg, Readings(cfg, frames[..n], id), frames[n], SeenAs(OutputAt(cfg, frames, n).tracks, id));
    } else {
      NothingIsSpaced();
    }
  }

  lemma NothingIsSpaced()
    ensures Spaced([])
  {
  }
}
