/** What the analytics count: presence at some moment of a bucket, and points by the part of the frame
    they lie in. */
module Counting {
  import opened Boxes
  import opened Options
  import opened Analytics

  // ---------------------------------------------------------------- occupancy

  predicate There(s: Span, t: int) {
    s.first <= t <= s.last
  }

  /** The track was there at some moment of [lo, hi). */
  ghost predicate PresentIn(s: Span, lo: int, hi: int) {
    exists t :: lo <= t < hi && There(s, t)
  }

  lemma PresentWhen(s: Span, lo: int, hi: int)
    requires s.first <= s.last && lo < hi
    ensures PresentIn(s, lo, hi) <==> s.last >= lo && s.first < hi
  {
    if s.last >= lo && s.first < hi {
      var t := if s.first >= lo then s.first else lo;
      assert lo <= t < hi && There(s, t);
    }
  }

  ghost function PresentAt(tracks: seq<Span>, lo: int, hi: int): set<int> {
    set i | 0 <= i < |tracks| && PresentIn(tracks[i], lo, hi)
  }

  lemma {:induction false} MeetingCounts(tracks: seq<Span>, lo: int, hi: int)
    requires lo < hi && forall i :: 0 <= i < |tracks| ==> tracks[i].first <= tracks[i].last
    ensures Meeting(tracks, lo, hi) == |PresentAt(tracks, lo, hi)|
  {
    if tracks == [] {
      assert PresentAt(tracks, lo, hi) == {};
    } else {
      hide PresentAt, PresentIn;
      var n := |tracks| - 1;
      MeetingCounts(tracks[..n], lo, hi);
      PresentWhen(tracks[n], lo, hi);
      PresentSplit(tracks, lo, hi);
    }
  }

  lemma PresentSplit(tracks: seq<Span>, lo: int, hi: int)
    requires tracks != []
    ensures var n := |tracks| - 1;
            |PresentAt(tracks, lo, hi)|
            == |PresentAt(tracks[..n], lo, hi)| + if PresentIn(tracks[n], lo, hi) then 1 else 0
  {
    hide PresentIn;
    var n := |tracks| - 1;
    var before := PresentAt(tracks[..n], lo, hi);
    assert n !in before;
    if PresentIn(tracks[n], lo, hi) {
      assert PresentAt(tracks, lo, hi) == before + {n};
    } else {
      assert PresentAt(tracks, lo, hi) == before;
    }
  }

  /** Each bucket counts the tracks present at some moment of it; a bucket running past the end counts
      those present by the end. */
  lemma {:induction false} BucketsCountPresent(tracks: seq<Span>, start: int, end: int, step: int,
                                               buckets: seq<Count>, k: nat)
    requires Bucketed(tracks, start, end, step, buckets) && k < |buckets| && step > 0
    requires forall i :: 0 <= i < |tracks| ==> tracks[i].first <= tracks[i].last
    ensures var lo := buckets[k].start;
            buckets[k].n == |PresentAt(tracks, lo, Least(lo + step, end + 1))|
  {
    hide Tick;
    MeetingCounts(tracks, buckets[k].start, Least(buckets[k].start + step, end + 1));
  }

  // ---------------------------------------------------------------- heatmap cells

  /** The coordinate lies in band `k` of `n` equal ones; the outermost bands reach beyond the frame. */
  ghost predicate InBand(c: real, n: int, k: int) {
    && 0 <= k < n
    && (k == 0 || c * n as real >= k as real)
    && (k == n - 1 || c * n as real < (k + 1) as real)
  }

  lemma BandOf(c: real, n: int, k: int)
    requires n > 0
    ensures InBand(c, n, k) <==> k == Clamp(c, n)
  {
    var i := (c * n as real).Floor;
    assert i as real <= c * n as real < (i + 1) as real;
  }

  ghost function PointsIn(points: seq<Point>, rows: int, cols: int, iy: int, ix: int): set<int> {
    set i | 0 <= i < |points| && InBand(points[i].y, rows, iy) && InBand(points[i].x, cols, ix)
  }

  /** A cell counts the points in its row's band and its column's. */
  lemma {:induction false} VisitsCount(points: seq<Point>, rows: int, cols: int, iy: int, ix: int)
    requires rows > 0 && cols > 0
    ensures Visits(points, rows, cols, iy, ix) == |PointsIn(points, rows, cols, iy, ix)|
  {
    if points == [] {
      assert PointsIn(points, rows, cols, iy, ix) == {};
    } else {
      VisitsCount(points[..|points| - 1], rows, cols, iy, ix);
      PointsSplit(points, rows, cols, iy, ix);
      hide PointsIn, InCell;
    }
  }

  lemma PointsSplit(points: seq<Point>, rows: int, cols: int, iy: int, ix: int)
    requires rows > 0 && cols > 0 && points != []
    ensures |PointsIn(points, rows, cols, iy, ix)|
         == |PointsIn(points[..|points| - 1], rows, cols, iy, ix)|
             + if InCell(points[|points| - 1], rows, cols, iy, ix) then 1 else 0
  {
    var n := |points| - 1;
    BandOf(points[n].y, rows, iy);
    BandOf(points[n].x, cols, ix);
    hide InBand, Clamp;
    var before := PointsIn(points[..n], rows, cols, iy, ix);
    assert n !in before;
    if InCell(points[n], rows, cols, iy, ix) {
      assert PointsIn(points, rows, cols, iy, ix) == before + {n};
    } else {
      assert PointsIn(points, rows, cols, iy, ix) == before;
    }
  }

  // ---------------------------------------------------------------- which points

  lemma {:induction false} TouchingAre(tracks: seq<StoredTrack>, start: int, end: int, t: StoredTrack)
    requires start <= end && t.span.first <= t.span.last
    ensures multiset(Touching(tracks, start, end))[t]
         == if PresentIn(t.span, start, end + 1) then multiset(tracks)[t] else 0
  {
    if tracks != [] {
      var n := |tracks| - 1;
      assert tracks == tracks[..n] + [tracks[n]];
      TouchingAre(tracks[..n], start, end, t);
      PresentWhen(t.span, start, end + 1);
    }
  }

  lemma {:induction false} ReadableAre(trajectory: seq<Option<Point>>, p: Point)
    ensures multiset(Readable(trajectory))[p] == multiset(trajectory)[Some(p)]
  {
    if trajectory != [] {
      var n := |trajectory| - 1;
      assert trajectory == trajectory[..n] + [trajectory[n]];
      ReadableAre(trajectory[..n], p);
    }
  }

  /** Occurrences of a point in all the trajectories. */
  function Occurrences(tracks: seq<StoredTrack>, p: Point): nat {
    if tracks == [] then 0 else multiset(tracks[0].trajectory)[Some(p)] + Occurrences(tracks[1..], p)
  }

  lemma {:induction false} OccurrencesAppended(tracks: seq<StoredTrack>, t: StoredTrack, p: Point)
    ensures Occurrences(tracks + [t], p) == Occurrences(tracks, p) + multiset(t.trajectory)[Some(p)]
  {
    if tracks == [] {
      assert tracks + [t] == [t];
    } else {
      assert (tracks + [t])[1..] == tracks[1..] + [t];
      OccurrencesAppended(tracks[1..], t, p);
    }
  }

  lemma LastOccurrences(tracks: seq<StoredTrack>, p: Point)
    requires tracks != []
    ensures var n := |tracks| - 1;
            Occurrences(tracks, p) == Occurrences(tracks[..n], p) + multiset(tracks[n].trajectory)[Some(p)]
  {
    var n := |tracks| - 1;
    OccurrencesAppended(tracks[..n], tracks[n], p);
    assert tracks == tracks[..n] + [tracks[n]];
  }

  /** The points counted are exactly those of the queried tracks, each as often as it occurs. */
  lemma {:induction false} PointsAre(tracks: seq<StoredTrack>, p: Point)
    ensures multiset(PointsOf(tracks))[p] == Occurrences(tracks, p)
  {
    if tracks != [] {
      var n := |tracks| - 1;
      PointsAre(tracks[..n], p);
      ReadableAre(tracks[n].trajectory, p);
      LastOccurrences(tracks, p);
      Together(PointsOf(tracks[..n]), Readable(tracks[n].trajectory), p);
      hide Readable, Occurrences;
    }
  }

  lemma Together(a: seq<Point>, b: seq<Point>, p: Point)
    ensures multiset(a + b)[p] == multiset(a)[p] + multiset(b)[p]
  {
  }
}
