/** Occupancy per time bucket from a single fetch, and the footfall heatmap. Times are whole
    microseconds, the resolution of the program's timestamps. */
module Analytics {
  import opened Boxes
  import opened Options

  const MICROS_PER_MINUTE := 60_000_000

  /** First and last sighting of a track of the camera. */
  datatype Span = Span(first: int, last: int)

  /** The rows of the single query: tracks that touch the range [start, end]. */
  function Fetch(tracks: seq<Span>, start: int, end: int): seq<Span> {
    if tracks == [] then []
    else
      var n := |tracks| - 1;
      Fetch(tracks[..n], start, end) + if tracks[n].last >= start && tracks[n].first <= end then [tracks[n]] else []
  }

  /** Number of tracks that meet the half-open time range [lo, hi). */
  function Meeting(tracks: seq<Span>, lo: int, hi: int): nat {
    if tracks == [] then 0
    else
      var n := |tracks| - 1;
      Meeting(tracks[..n], lo, hi) + if tracks[n].last >= lo && tracks[n].first < hi then 1 else 0
  }

  function Least(a: int, b: int): int {
    if a <= b then a else b
  }

  /** Counting in the fetched rows is counting in all tracks, except that a bucket running past the
      end of the range sees no track that first appears after the end. */
  lemma {:induction false} FetchCounts(tracks: seq<Span>, start: int, end: int, lo: int, hi: int)
    requires start <= lo
    ensures Meeting(Fetch(tracks, start, end), lo, hi) == Meeting(tracks, lo, Least(hi, end + 1))
  {
    if tracks != [] {
      var n := |tracks| - 1;
      FetchCounts(tracks[..n], start, end, lo, hi);
      var fetched := Fetch(tracks, start, end);
      if tracks[n].last >= start && tracks[n].first <= end {
        assert fetched[..|fetched| - 1] == Fetch(tracks[..n], start, end);
      } else {
        assert fetched == Fetch(tracks[..n], start, end);
      }
    }
  }

  datatype Count = Count(start: int, n: nat)

  function Tick(start: int, step: int, k: nat): int {
    start + k * step
  }

  lemma NextTick(start: int, step: int, k: nat)
    ensures Tick(start, step, k + 1) == Tick(start, step, k) + step
  {
  }

  /** Bucket `k` starts at the k-th tick and counts the tracks that meet it; a bucket running past the
      end counts those that appear by the end. */
  ghost predicate Bucketed(tracks: seq<Span>, start: int, end: int, step: int, buckets: seq<Count>) {
    forall k :: 0 <= k < |buckets| ==>
      && buckets[k].start == Tick(start, step, k) && buckets[k].start < end
      && buckets[k].n == Meeting(tracks, buckets[k].start, Least(buckets[k].start + step, end + 1))
  }

  /** The loop ends; its buckets tile the range from `start` without gaps until `end` is reached. */
  method OccupancyTrend(tracks: seq<Span>, start: int, end: int, bucketMin: int) returns (buckets: seq<Count>)
    requires bucketMin > 0
    ensures Bucketed(tracks, start, end, bucketMin * MICROS_PER_MINUTE, buckets)
    ensures end <= Tick(start, bucketMin * MICROS_PER_MINUTE, |buckets|)
  {
    hide Tick;
    var rows := Fetch(tracks, start, end);
    var step := bucketMin * MICROS_PER_MINUTE;
    buckets := [];
    var cur := start;
    FirstTick(start, step);
    while cur < end
      invariant start <= cur == Tick(start, step, |buckets|)
      invariant Bucketed(tracks, start, end, step, buckets)
      decreases end - cur
    {
      var nxt := cur + step;
      FetchCounts(tracks, start, end, cur, nxt);
      NextTick(start, step, |buckets|);
      buckets := buckets + [Count(cur, Meeting(rows, cur, nxt))];
      cur := nxt;
    }
  }

  lemma FirstTick(start: int, step: int)
    ensures Tick(start, step, 0) == start
  {
  }

  /** A bucket that ends by `end` counts exactly the tracks of the camera that meet it, as a query of
      its own would. */
  lemma WholeBucketsAgree(tracks: seq<Span>, start: int, end: int, step: int, buckets: seq<Count>, k: nat)
    requires Bucketed(tracks, start, end, step, buckets) && k < |buckets| && Tick(start, step, k + 1) <= end
    ensures buckets[k].n == Meeting(tracks, Tick(start, step, k), Tick(start, step, k + 1))
  {
    NextTick(start, step, k);
  }

  // ---------------------------------------------------------------- heatmap

  /** The index along one axis, clamped into the grid. */
  function Clamp(c: real, n: int): (k: nat)
    requires n > 0
    ensures k < n
  {
    var i := (c * n as real).Floor;
    if i < 0 then 0 else if i > n - 1 then n - 1 else i
  }

  predicate InCell(p: Point, rows: int, cols: int, iy: int, ix: int)
    requires rows > 0 && cols > 0
  {
    Clamp(p.y, rows) == iy && Clamp(p.x, cols) == ix
  }

  /** Number of points in one cell. */
  function Visits(points: seq<Point>, rows: int, cols: int, iy: int, ix: int): nat
    requires rows > 0 && cols > 0
  {
    if points == [] then 0
    else
      var n := |points| - 1;
      Visits(points[..n], rows, cols, iy, ix) + if InCell(points[n], rows, cols, iy, ix) then 1 else 0
  }

  const MAX_TRACKS := 20000

  /** A stored track: its time span and its trajectory, in which some points may be unreadable. */
  datatype StoredTrack = StoredTrack(span: Span, trajectory: seq<Option<Point>>)

  /** The tracks of the camera that touch the range [start, end]. */
  function Touching(tracks: seq<StoredTrack>, start: int, end: int): seq<StoredTrack> {
    if tracks == [] then []
    else
      var n := |tracks| - 1;
      Touching(tracks[..n], start, end)
      + if tracks[n].span.last >= start && tracks[n].span.first <= end then [tracks[n]] else []
  }

  /** The rows of the query, which returns at most `MAX_TRACKS`. */
  function Queried(tracks: seq<StoredTrack>, start: int, end: int): seq<StoredTrack> {
    var all := Touching(tracks, start, end);
    if |all| <= MAX_TRACKS then all else all[..MAX_TRACKS]
  }

  function Readable(trajectory: seq<Option<Point>>): seq<Point> {
    if trajectory == [] then []
    else
      var n := |trajectory| - 1;
      Readable(trajectory[..n]) + if trajectory[n].Some? then [trajectory[n].value] else []
  }

  /** The readable points of all trajectories. */
  function PointsOf(tracks: seq<StoredTrack>): seq<Point> {
    if tracks == [] then []
    else PointsOf(tracks[..|tracks| - 1]) + Readable(tracks[|tracks| - 1].trajectory)
  }

  ghost predicate Counts(matrix: array2<nat>, points: seq<Point>, rows: int, cols: int)
    requires rows > 0 && cols > 0
    reads matrix
  {
    && matrix.Length0 == rows && matrix.Length1 == cols
    && forall iy, ix :: 0 <= iy < rows && 0 <= ix < cols ==> matrix[iy, ix] == Visits(points, rows, cols, iy, ix)
  }

  method AddTrajectory(matrix: array2<nat>, trajectory: seq<Option<Point>>, ghost before: seq<Point>, rows: int,
                       cols: int)
    requires rows > 0 && cols > 0 && Counts(matrix, before, rows, cols)
    modifies matrix
    ensures Counts(matrix, before + Readable(trajectory), rows, cols)
  {
    assert before + Readable(trajectory[..0]) == before;
    for i := 0 to |trajectory|
      invariant Counts(matrix, before + Readable(trajectory[..i]), rows, cols)
    {
      assert trajectory[..i + 1][..i] == trajectory[..i];
      if trajectory[i].None? {
        assert before + Readable(trajectory[..i + 1]) == before + Readable(trajectory[..i]);
        continue;
      }
      var point := trajectory[i].value;
      ghost var seen := before + Readable(trajectory[..i]);
      assert before + Readable(trajectory[..i + 1]) == seen + [point];
      assert (seen + [point])[..|seen|] == seen;
      var ix := Clamp(point.x, cols);
      var iy := Clamp(point.y, rows);
      matrix[iy, ix] := matrix[iy, ix] + 1;
    }
    assert trajectory[..|trajectory|] == trajectory;
  }

  /** Every cell holds the number of readable trajectory points of the queried tracks that fall into it. */
  method HeatmapGrid(tracks: seq<StoredTrack>, start: int, end: int, rows: int, cols: int) returns (matrix: array2<nat>)
    requires rows > 0 && cols > 0
    ensures fresh(matrix) && Counts(matrix, PointsOf(Queried(tracks, start, end)), rows, cols)
  {
    matrix := new nat[rows, cols]((_, _) => 0);
    var fetched := Queried(tracks, start, end);
    for i := 0 to |fetched|
      invariant fresh(matrix) && Counts(matrix, PointsOf(fetched[..i]), rows, cols)
    {
      assert fetched[..i + 1][..i] == fetched[..i];
      if fetched[i].trajectory == [] {
        assert PointsOf(fetched[..i + 1]) == PointsOf(fetched[..i]);
        continue;
      }
      AddTrajectory(matrix, fetched[i].trajectory, PointsOf(fetched[..i]), rows, cols);
    }
    assert fetched[..|fetched|] == fetched;
  }

  function RowTotal(points: seq<Point>, rows: int, cols: int, iy: int, n: nat): nat
    requires rows > 0 && cols > 0
  {
    if n == 0 then 0 else RowTotal(points, rows, cols, iy, n - 1) + Visits(points, rows, cols, iy, n - 1)
  }

  /** Sum over the first `n` rows of the grid. */
  function GridTotal(points: seq<Point>, rows: int, cols: int, n: nat): nat
    requires rows > 0 && cols > 0
  {
    if n == 0 then 0 else GridTotal(points, rows, cols, n - 1) + RowTotal(points, rows, cols, n - 1, cols)
  }

  lemma {:induction false} RowOneMore(points: seq<Point>, rows: int, cols: int, iy: int, n: nat)
    requires rows > 0 && cols > 0 && points != []
    ensures var p := points[|points| - 1];
            RowTotal(points, rows, cols, iy, n) == RowTotal(points[..|points| - 1], rows, cols, iy, n)
                                                   + if Clamp(p.y, rows) == iy && Clamp(p.x, cols) < n then 1 else 0
  {
    if n > 0 {
      RowOneMore(points, rows, cols, iy, n - 1);
    }
  }

  lemma {:induction false} GridOneMore(points: seq<Point>, rows: int, cols: int, n: nat)
    requires rows > 0 && cols > 0 && points != []
    ensures GridTotal(points, rows, cols, n) == GridTotal(points[..|points| - 1], rows, cols, n)
                                                + if Clamp(points[|points| - 1].y, rows) < n then 1 else 0
  {
    if n > 0 {
      GridOneMore(points, rows, cols, n - 1);
      RowOneMore(points, rows, cols, n - 1, cols);
    }
  }

  lemma {:induction false} EmptyRow(rows: int, cols: int, iy: int, n: nat)
    requires rows > 0 && cols > 0
    ensures RowTotal([], rows, cols, iy, n) == 0
  {
    if n > 0 {
      EmptyRow(rows, cols, iy, n - 1);
    }
  }

  lemma {:induction false} EmptyGrid(rows: int, cols: int, n: nat)
    requires rows > 0 && cols > 0
    ensures GridTotal([], rows, cols, n) == 0
  {
    if n > 0 {
      EmptyGrid(rows, cols, n - 1);
      EmptyRow(rows, cols, n - 1, cols);
    }
  }

  /** No visit is lost or counted twice: the cells of the grid add up to the number of points,
      wherever the points lie. */
  lemma {:induction false} VisitsConserved(points: seq<Point>, rows: int, cols: int)
    requires rows > 0 && cols > 0
    ensures GridTotal(points, rows, cols, rows) == |points|
  {
    if points == [] {
      EmptyGrid(rows, cols, rows);
    } else {
      VisitsConserved(points[..|points| - 1], rows, cols);
      GridOneMore(points, rows, cols, rows);
    }
  }
}
