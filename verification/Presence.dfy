/** Presence windows of one track: the pipeline's online bookkeeping against the offline aggregation
    of the same sightings. Online windows are always unions of consecutive offline windows, and the
    two agree exactly when no long gap passes unobserved. */
module Presence {
  import opened Boxes
  import opened Options
  import opened StableSort
  import opened Intervals

  /** A processed frame as one track sees it: its time, and whether the track is in it. */
  datatype Look = Look(ts: real, seen: bool)

  /** Windows already reported, and the one still open. */
  datatype Online = Online(closed: seq<Window>, open: Option<Window>)

  function LookStep(o: Online, l: Look, gap: real): Online {
    if l.seen then
      Online(o.closed, Some(Window(if o.open.Some? then o.open.value.start else l.ts, l.ts)))
    else if o.open.Some? && l.ts - o.open.value.end >= gap then
      Online(o.closed + [o.open.value], None)
    else o
  }

  function Follow(looks: seq<Look>, gap: real): Online {
    if looks == [] then Online([], None)
    else LookStep(Follow(looks[..|looks| - 1], gap), looks[|looks| - 1], gap)
  }

  function Windows(o: Online): seq<Window> {
    o.closed + if o.open.Some? then [o.open.value] else []
  }

  /** The times of the sightings. */
  function Sightings(looks: seq<Look>): seq<real> {
    if looks == [] then []
    else Sightings(looks[..|looks| - 1]) + if looks[|looks| - 1].seen then [looks[|looks| - 1].ts] else []
  }

  function Points(ts: seq<real>): (r: seq<Window>)
    ensures |r| == |ts| && forall i :: 0 <= i < |ts| ==> r[i] == Window(ts[i], ts[i])
  {
    seq(|ts|, i requires 0 <= i < |ts| => Window(ts[i], ts[i]))
  }

  /** Offline aggregation of one track: its sightings, or its whole span when it has none. */
  method AggregateTrack(firstSeen: real, lastSeen: real, detections: seq<real>, mergeGap: real) returns (r: seq<Window>)
    ensures r == Aggregated(firstSeen, lastSeen, detections, mergeGap)
  {
    var intervals := if detections == [] then [Window(firstSeen, lastSeen)] else Points(detections);
    r := MergeIntervals(intervals, mergeGap);
  }

  function Aggregated(firstSeen: real, lastSeen: real, detections: seq<real>, mergeGap: real): seq<Window> {
    Merged(if detections == [] then [Window(firstSeen, lastSeen)] else Points(detections), mergeGap)
  }

  ghost predicate Increasing(looks: seq<Look>) {
    forall i, j :: 0 <= i < j < |looks| ==> looks[i].ts < looks[j].ts
  }

  // ---------------------------------------------------------------- the offline side, sighting by sighting

  function Offline(looks: seq<Look>, gap: real): seq<Window> {
    Fold(Points(Sightings(looks)), gap)
  }

  ghost predicate Ascending(s: seq<real>) {
    forall i, j :: 0 <= i < j < |s| ==> s[i] < s[j]
  }

  ghost predicate UpTo(s: seq<real>, t: real) {
    forall i :: 0 <= i < |s| ==> s[i] <= t
  }

  lemma {:induction false} SightingTimes(looks: seq<Look>)
    requires Increasing(looks)
    ensures Ascending(Sightings(looks)) && (looks == [] ==> Sightings(looks) == [])
    ensures looks != [] ==> UpTo(Sightings(looks), looks[|looks| - 1].ts)
  {
    if looks != [] {
      var n := |looks| - 1;
      assert Increasing(looks[..n]);
      SightingTimes(looks[..n]);
      if n > 0 {
        assert looks[..n][n - 1] == looks[n - 1] && looks[n - 1].ts < looks[n].ts;
        assert UpTo(Sightings(looks[..n]), looks[n - 1].ts);
      }
    }
  }

  /** On increasing times, aggregation adds the sightings one after the other. */
  lemma {:induction false} OfflineIsAggregated(looks: seq<Look>, gap: real, first: real, last: real)
    requires Increasing(looks) && Sightings(looks) != []
    ensures Aggregated(first, last, Sightings(looks), gap) == Offline(looks, gap)
  {
    SightingTimes(looks);
    assert Ascending(Sightings(looks));
    SortOfOrdered(Points(Sightings(looks)), ByStart);
  }

  lemma {:induction false} OfflineStep(looks: seq<Look>, gap: real)
    requires looks != []
    ensures var n := |looks| - 1;
            Offline(looks, gap)
            == if looks[n].seen then Absorb(Offline(looks[..n], gap), Window(looks[n].ts, looks[n].ts), gap)
                                   else Offline(looks[..n], gap)
  {
    var n := |looks| - 1;
    var before, now := Points(Sightings(looks[..n])), Points(Sightings(looks));
    if looks[n].seen {
      assert now[..|now| - 1] == before;
    } else {
      assert now == before;
    }
  }

  // ---------------------------------------------------------------- coarsening

  /** Each window of `on` spans a run of consecutive windows of `off`, all of `off` being used up. */
  ghost predicate Coarsens(on: seq<Window>, off: seq<Window>)
    decreases |on|
  {
    if on == [] then off == []
    else exists k :: 1 <= k <= |off| && SpansLast(on, off, k) && Coarsens(on[..|on| - 1], off[..|off| - k])
  }

  ghost predicate SpansLast(on: seq<Window>, off: seq<Window>, k: int)
    requires on != [] && 1 <= k <= |off|
  {
    on[|on| - 1] == Window(off[|off| - k].start, off[|off| - 1].end)
  }

  lemma {:induction false} CoarsensLength(on: seq<Window>, off: seq<Window>)
    requires Coarsens(on, off)
    ensures |on| <= |off| && (on == [] <==> off == [])
    decreases |on|
  {
    if on != [] {
      var k :| 1 <= k <= |off| && SpansLast(on, off, k) && Coarsens(on[..|on| - 1], off[..|off| - k]);
      CoarsensLength(on[..|on| - 1], off[..|off| - k]);
    }
  }

  lemma {:induction false} CoarsensSplit(on: seq<Window>, off: seq<Window>, w: Window)
    requires Coarsens(on, off)
    ensures Coarsens(on + [w], off + [w])
  {
    var on', off' := on + [w], off + [w];
    assert on'[..|on'| - 1] == on && off'[..|off'| - 1] == off;
    assert SpansLast(on', off', 1);
  }

  lemma {:induction false} CoarsensStretch(on: seq<Window>, off: seq<Window>, t: real)
    requires Coarsens(on, off) && on != []
    ensures off != []
    ensures Coarsens(Stretched(on, t), Stretched(off, t))
    ensures Coarsens(Stretched(on, t), off + [Window(t, t)])
  {
    var k :| 1 <= k <= |off| && SpansLast(on, off, k) && Coarsens(on[..|on| - 1], off[..|off| - k]);
    var on', off', off'' := Stretched(on, t), Stretched(off, t), off + [Window(t, t)];
    assert on'[..|on'| - 1] == on[..|on| - 1];
    assert off'[..|off'| - k] == off[..|off| - k];
    assert SpansLast(on', off', k);
    assert off''[..|off''| - (k + 1)] == off[..|off| - k];
    assert SpansLast(on', off'', k + 1);
  }

  /** The last window extended to `t`. */
  function Stretched(ws: seq<Window>, t: real): seq<Window>
    requires ws != []
  {
    ws[|ws| - 1 := Window(ws[|ws| - 1].start, t)]
  }

  // ---------------------------------------------------------------- the two sides together

  ghost predicate LastSeen(looks: seq<Look>, i: nat) {
    i < |looks| && looks[i].seen && forall m :: i < m < |looks| ==> !looks[m].seen
  }

  /** Some frame between `i` and `j` came at least `gap` after frame `i`. */
  ghost predicate Noticed(looks: seq<Look>, i: nat, j: nat, gap: real)
    requires i < j <= |looks|
  {
    exists m :: i < m < j && looks[m].ts - looks[i].ts >= gap
  }

  ghost predicate Consecutive(looks: seq<Look>, i: nat, j: nat) {
    i < j < |looks| && looks[i].seen && looks[j].seen && forall m :: i < m < j ==> !looks[m].seen
  }

  /** Two consecutive sightings are close, or a frame between them noticed the gap. */
  ghost predicate Tended(looks: seq<Look>, i: nat, j: nat, gap: real)
    requires i < j < |looks|
  {
    looks[j].ts - looks[i].ts <= gap || Noticed(looks, i, j, gap)
  }

  /** Whenever two consecutive sightings are more than `gap` apart, some frame between them came at
      least `gap` after the first. */
  ghost predicate NoMissedGap(looks: seq<Look>, gap: real) {
    forall i: nat, j: nat {:trigger Consecutive(looks, i, j)} :: Consecutive(looks, i, j) ==> Tended(looks, i, j, gap)
  }

  /** The online state knows the last sighting, and closed its window iff the gap was noticed. */
  ghost predicate Tracks(looks: seq<Look>, o: Online, gap: real) {
    && (o.open.Some? || o.closed != [] <==> exists i: nat :: LastSeen(looks, i))
    && forall i: nat :: LastSeen(looks, i) ==>
         Windows(o)[|Windows(o)| - 1].end == looks[i].ts && (o.open.None? <==> Noticed(looks, i, |looks|, gap))
  }

  lemma {:induction false} LastSeenUnique(looks: seq<Look>, i: nat, j: nat)
    requires LastSeen(looks, i) && LastSeen(looks, j)
    ensures i == j
  {
  }

  lemma {:induction false} UnseenKeepsGaps(looks: seq<Look>, gap: real)
    requires looks != [] && !looks[|looks| - 1].seen
    ensures NoMissedGap(looks, gap) <==> NoMissedGap(looks[..|looks| - 1], gap)
  {
    var n := |looks| - 1;
    forall i: nat, j: nat ensures Consecutive(looks, i, j) <==> Consecutive(looks[..n], i, j) {
    }
    forall i: nat, j: nat | Consecutive(looks, i, j) ensures Tended(looks, i, j, gap)
        <==> Tended(looks[..n], i, j, gap) {
      NoticedPrefix(looks, n, i, j, gap);
    }
  }

  lemma {:induction false} NoticedPrefix(looks: seq<Look>, n: nat, i: nat, j: nat, gap: real)
    requires i < j <= n <= |looks|
    ensures Noticed(looks, i, j, gap) <==> Noticed(looks[..n], i, j, gap)
  {
    assert forall m :: i < m < j ==> looks[..n][m] == looks[m];
  }

  lemma {:induction false} SeenAddsGap(looks: seq<Look>, gap: real, i: nat)
    requires looks != [] && looks[|looks| - 1].seen && LastSeen(looks[..|looks| - 1], i)
    ensures Consecutive(looks, i, |looks| - 1)
    ensures NoMissedGap(looks, gap) <==> NoMissedGap(looks[..|looks| - 1], gap) && Tended(looks, i, |looks| - 1, gap)
  {
    var n := |looks| - 1;
    var before := looks[..n];
    assert forall m :: i < m < n ==> looks[m] == before[m];
    forall a: nat, b: nat | b != n ensures Consecutive(looks, a, b) <==> Consecutive(before, a, b) {
    }
    forall a: nat | Consecutive(looks, a, n) ensures a == i {
      assert before[i] == looks[i] && (a < n ==> before[a] == looks[a]);
    }
    forall a: nat, b: nat | b != n && Consecutive(looks, a, b) ensures Tended(looks, a, b, gap)
        <==> Tended(before, a, b, gap) {
      NoticedPrefix(looks, n, a, b, gap);
    }
    if NoMissedGap(before, gap) && Tended(looks, i, n, gap) {
      forall a: nat, b: nat | Consecutive(looks, a, b) ensures Tended(looks, a, b, gap) {
        assert b != n ==> Consecutive(before, a, b) && Tended(before, a, b, gap);
      }
    }
    if NoMissedGap(looks, gap) {
      forall a: nat, b: nat | Consecutive(before, a, b) ensures Tended(before, a, b, gap) {
        assert Consecutive(looks, a, b) && Tended(looks, a, b, gap);
      }
      assert NoMissedGap(before, gap);
      assert Consecutive(looks, i, n);
      assert Tended(looks, i, n, gap);
    }
  }

  lemma {:induction false} FirstHasNoGap(looks: seq<Look>, before: seq<Look>, gap: real)
    requires looks != [] && before == looks[..|looks| - 1] && forall i: nat :: !LastSeen(before, i)
    ensures NoMissedGap(looks, gap)
  {
    NoneSeen(before);
    assert forall i :: 0 <= i < |looks| - 1 ==> before[i] == looks[i];
  }

  lemma {:induction false} NoneSeen(looks: seq<Look>)
    requires forall i: nat :: !LastSeen(looks, i)
    ensures forall i :: 0 <= i < |looks| ==> !looks[i].seen
  {
    if looks != [] {
      var n := |looks| - 1;
      assert !LastSeen(looks, n);
      forall i: nat ensures !LastSeen(looks[..n], i) {
        if LastSeen(looks[..n], i) {
          assert LastSeen(looks, i) by {
            assert forall m :: 0 <= m < n ==> looks[..n][m] == looks[m];
          }
        }
      }
      NoneSeen(looks[..n]);
      assert forall m :: 0 <= m < n ==> looks[..n][m] == looks[m];
    }
  }

  // ---------------------------------------------------------------- one more frame

  /** How the online windows and the offline windows relate. */
  ghost predicate Related(looks: seq<Look>, gap: real, o: Online, off: seq<Window>) {
    && Tracks(looks, o, gap)
    && Coarsens(Windows(o), off)
    && (Windows(o) == off <==> NoMissedGap(looks, gap))
  }

  lemma {:induction false} UnseenNotices(looks: seq<Look>, gap: real, i: nat)
    requires looks != [] && !looks[|looks| - 1].seen
    ensures LastSeen(looks, i) <==> LastSeen(looks[..|looks| - 1], i)
    ensures LastSeen(looks, i) ==>
              (Noticed(looks, i, |looks|, gap) <==>
               Noticed(looks[..|looks| - 1], i, |looks| - 1, gap) || looks[|looks| - 1].ts - looks[i].ts >= gap)
  {
    var n := |looks| - 1;
    assert forall m :: 0 <= m < n ==> looks[..n][m] == looks[m];
    if LastSeen(looks, i) {
      NoticedPrefix(looks, n, i, n, gap);
      assert Noticed(looks, i, n + 1, gap) <==> Noticed(looks, i, n, gap) || looks[n].ts - looks[i].ts >= gap;
    }
  }

  lemma {:induction false} UnseenTracks(looks: seq<Look>, before: seq<Look>, gap: real, o: Online)
    requires looks != [] && before == looks[..|looks| - 1] && !looks[|looks| - 1].seen
    requires Tracks(before, o, gap)
    ensures Tracks(looks, LookStep(o, looks[|looks| - 1], gap), gap)
    ensures Windows(LookStep(o, looks[|looks| - 1], gap)) == Windows(o)
  {
    var o' := LookStep(o, looks[|looks| - 1], gap);
    assert Windows(o') == Windows(o);
    forall i: nat ensures LastSeen(looks, i) <==> LastSeen(before, i) {
      UnseenNotices(looks, gap, i);
    }
    forall i: nat | LastSeen(looks, i)
      ensures Windows(o')[|Windows(o')| - 1].end == looks[i].ts && (o'.open.None? <==> Noticed(looks, i, |looks|, gap))
    {
      UnseenNotices(looks, gap, i);
    }
  }

  lemma {:induction false} UnseenRelated(looks: seq<Look>, gap: real, o: Online, off: seq<Window>)
    requires looks != [] && !looks[|looks| - 1].seen
    requires Related(looks[..|looks| - 1], gap, o, off)
    ensures Related(looks, gap, LookStep(o, looks[|looks| - 1], gap), off)
  {
    UnseenTracks(looks, looks[..|looks| - 1], gap, o);
    UnseenKeepsGaps(looks, gap);
  }

  lemma {:induction false} SeenTracks(looks: seq<Look>, gap: real, o: Online)
    requires looks != [] && looks[|looks| - 1].seen
    ensures Tracks(looks, LookStep(o, looks[|looks| - 1], gap), gap)
  {
    var n := |looks| - 1;
    assert LastSeen(looks, n);
    forall i: nat | LastSeen(looks, i) ensures i == n {
      LastSeenUnique(looks, i, n);
    }
  }

  lemma {:induction false} FirstRelated(looks: seq<Look>, gap: real, o: Online, off: seq<Window>)
    requires looks != [] && looks[|looks| - 1].seen && Windows(o) == []
    requires Related(looks[..|looks| - 1], gap, o, off)
    ensures var l := looks[|looks| - 1];
            Related(looks, gap, LookStep(o, l, gap), Absorb(off, Window(l.ts, l.ts), gap))
  {
    var l := looks[|looks| - 1];
    CoarsensLength(Windows(o), off);
    CoarsensSplit([], [], Window(l.ts, l.ts));
    assert [] + [Window(l.ts, l.ts)] == [Window(l.ts, l.ts)];
    SeenTracks(looks, gap, o);
    FirstHasNoGap(looks, looks[..|looks| - 1], gap);
  }

  lemma {:induction false} LastEnds(on: seq<Window>, off: seq<Window>)
    requires Coarsens(on, off) && on != []
    ensures off != [] && on[|on| - 1].end == off[|off| - 1].end
  {
    var k :| 1 <= k <= |off| && SpansLast(on, off, k) && Coarsens(on[..|on| - 1], off[..|off| - k]);
  }

  lemma {:induction false} StretchedSame(on: seq<Window>, off: seq<Window>, t: real)
    requires on != [] && off != [] && on[|on| - 1].end == off[|off| - 1].end
    ensures Stretched(on, t) == Stretched(off, t) <==> on == off
  {
    if Stretched(on, t) == Stretched(off, t) {
      var n := |on| - 1;
      assert Stretched(on, t)[n] == Stretched(off, t)[n];
      forall i | 0 <= i < |on| ensures on[i] == off[i] {
        assert Stretched(on, t)[i] == Stretched(off, t)[i];
      }
    }
  }

  lemma {:induction false} OpenRelated(looks: seq<Look>, gap: real, o: Online, off: seq<Window>, i: nat)
    requires Increasing(looks) && looks != [] && looks[|looks| - 1].seen && o.open.Some?
    requires Related(looks[..|looks| - 1], gap, o, off) && LastSeen(looks[..|looks| - 1], i)
    ensures var l := looks[|looks| - 1];
            Related(looks, gap, LookStep(o, l, gap), Absorb(off, Window(l.ts, l.ts), gap))
  {
    var n := |looks| - 1;
    var t := looks[n].ts;
    var on := Windows(o);
    var o' := LookStep(o, looks[n], gap);
    LastEnds(on, off);
    assert looks[i].ts == looks[..n][i].ts < t;
    assert on[|on| - 1] == o.open.value;
    assert Windows(o') == Stretched(on, t);
    SeenTracks(looks, gap, o);
    SeenAddsGap(looks, gap, i);
    NoticedPrefix(looks, n, i, n, gap);
    CoarsensStretch(on, off, t);
    if t - looks[i].ts <= gap {
      assert Absorb(off, Window(t, t), gap) == Stretched(off, t);
      StretchedSame(on, off, t);
    } else {
      assert Absorb(off, Window(t, t), gap) == off + [Window(t, t)];
      CoarsensLength(on, off);
    }
  }

  lemma {:induction false} ClosedRelated(looks: seq<Look>, gap: real, o: Online, off: seq<Window>, i: nat)
    requires Increasing(looks) && looks != [] && looks[|looks| - 1].seen && o.open.None?
    requires Related(looks[..|looks| - 1], gap, o, off) && LastSeen(looks[..|looks| - 1], i)
    ensures var l := looks[|looks| - 1];
            Related(looks, gap, LookStep(o, l, gap), Absorb(off, Window(l.ts, l.ts), gap))
  {
    var n := |looks| - 1;
    var t := looks[n].ts;
    var on := Windows(o);
    hide NoMissedGap, Coarsens;
    LastEnds(on, off);
    assert Windows(LookStep(o, looks[n], gap)) == on + [Window(t, t)];
    SeenTracks(looks, gap, o);
    SeenAddsGap(looks, gap, i);
    NoticedPrefix(looks, n, i, n, gap);
    var m :| i < m < n && looks[m].ts - looks[i].ts >= gap;
    assert looks[m].ts < t;
    assert Absorb(off, Window(t, t), gap) == off + [Window(t, t)];
    CoarsensSplit(on, off, Window(t, t));
    AppendSame(on, off, Window(t, t));
  }

  lemma {:induction false} AppendSame(on: seq<Window>, off: seq<Window>, w: Window)
    ensures on + [w] == off + [w] <==> on == off
  {
    if on + [w] == off + [w] {
      assert (on + [w])[..|on|] == on && (off + [w])[..|off|] == off;
    }
  }

  lemma {:induction false} OnlineRelated(looks: seq<Look>, gap: real)
    requires Increasing(looks)
    ensures Related(looks, gap, Follow(looks, gap), Offline(looks, gap))
  {
    if looks != [] {
      var n := |looks| - 1;
      var o := Follow(looks[..n], gap);
      assert Increasing(looks[..n]);
      OnlineRelated(looks[..n], gap);
      OfflineStep(looks, gap);
      if !looks[n].seen {
        UnseenRelated(looks, gap, o, Offline(looks[..n], gap));
      } else if o.open.None? && o.closed == [] {
        FirstRelated(looks, gap, o, Offline(looks[..n], gap));
      } else {
        var i: nat :| LastSeen(looks[..n], i);
        if o.open.Some? {
          OpenRelated(looks, gap, o, Offline(looks[..n], gap), i);
        } else {
          ClosedRelated(looks, gap, o, Offline(looks[..n], gap), i);
        }
      }
    }
  }

  /** For a track that has been seen, over frames with increasing times: every window the pipeline
      has reported or still holds open is a union of consecutive windows of the offline aggregation,
      which are all covered; and the two lists are equal exactly when no long gap was missed. */
  lemma OnlineRefinesOffline(looks: seq<Look>, gap: real, first: real, last: real)
    requires Increasing(looks) && Sightings(looks) != []
    ensures var on := Windows(Follow(looks, gap));
            var off := Aggregated(first, last, Sightings(looks), gap);
            Coarsens(on, off) && (on == off <==> NoMissedGap(looks, gap))
  {
    OnlineRelated(looks, gap);
    OfflineIsAggregated(looks, gap, first, last);
  }
}
