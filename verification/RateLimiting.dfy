/** The in-memory token-bucket limiter. Times are readings of the monotonic clock, in seconds. */
module RateLimiting {
  import opened Boxes
  import opened Options

  datatype Bucket = Bucket(level: real, last: real)

  /** A call against one bucket: the new bucket and the answer. */
  datatype Answer = Answer(bucket: Bucket, allowed: bool)

  /** Tokens added between two times. */
  function Accrued(from: real, to: real, rate: real): real {
    (to - from) * rate
  }

  function Refilled(b: Bucket, now: real, rate: real, capacity: int): real {
    Min(capacity as real, b.level + Accrued(b.last, now, rate))
  }

  function Call(b: Option<Bucket>, now: real, rate: real, capacity: int): Answer {
    if b.None? then Answer(Bucket(capacity as real - 1.0, now), true)
    else
      var level := Refilled(b.value, now, rate, capacity);
      if level < 1.0 then Answer(Bucket(level, now), false) else Answer(Bucket(level - 1.0, now), true)
  }

  function Lookup(buckets: map<(string, string), Bucket>, bk: (string, string)): Option<Bucket> {
    if bk in buckets then Some(buckets[bk]) else None
  }

  class RateLimiter {
    var buckets: map<(string, string), Bucket>

    constructor ()
      ensures buckets == map[]
    {
      buckets := map[];
    }

    method Allow(key: string, bucket: string, rate: real, capacity: int, now: real) returns (ok: bool)
      modifies this
      ensures buckets == Apply(old(buckets), Operation.Allow(key, bucket, rate, capacity, now))
      ensures ok == Call(Lookup(old(buckets), (key, bucket)), now, rate, capacity).allowed
    {
      var bk := (key, bucket);
      if bk !in buckets {
        buckets := buckets[bk := Bucket(capacity as real - 1.0, now)];
        return true;
      }
      var level := Min(capacity as real, buckets[bk].level + Accrued(buckets[bk].last, now, rate));
      if level < 1.0 {
        buckets := buckets[bk := Bucket(level, now)];
        return false;
      }
      buckets := buckets[bk := Bucket(level - 1.0, now)];
      return true;
    }

    method Reset(key: string, bucket: string)
      modifies this
      ensures buckets == Apply(old(buckets), Operation.Reset(key, bucket))
    {
      buckets := buckets - {(key, bucket)};
    }

    method Clear()
      modifies this
      ensures buckets == Apply(old(buckets), Operation.Clear)
    {
      buckets := map[];
    }
  }

  // ---------------------------------------------------------------- one bucket over time

  /** A bucket after calls at the given times, with the answers. */
  datatype History = History(bucket: Option<Bucket>, answers: seq<bool>)

  function After(times: seq<real>, rate: real, capacity: int): (h: History)
    ensures |h.answers| == |times|
    ensures h.bucket.None? <==> times == []
  {
    if times == [] then History(None, [])
    else
      var n := |times| - 1;
      var h := After(times[..n], rate, capacity);
      var a := Call(h.bucket, times[n], rate, capacity);
      History(Some(a.bucket), h.answers + [a.allowed])
  }

  ghost predicate NonDecreasing(times: seq<real>) {
    forall i, j :: 0 <= i < j < |times| ==> times[i] <= times[j]
  }

  lemma AccruedNonNegative(from: real, to: real, rate: real)
    requires rate >= 0.0 && from <= to
    ensures Accrued(from, to, rate) >= 0.0
  {
    var d := to - from;
    assert d * rate >= 0.0;
  }

  lemma AccruedAdds(a: real, b: real, c: real, rate: real)
    ensures Accrued(a, c, rate) == Accrued(a, b, rate) + Accrued(b, c, rate)
  {
  }

  lemma LastTime(times: seq<real>, rate: real, capacity: int)
    requires times != []
    ensures After(times, rate, capacity).bucket.value.last == times[|times| - 1]
  {
  }

  /** The level always lies between 0 and the capacity. */
  lemma {:induction false} LevelInRange(times: seq<real>, rate: real, capacity: int)
    requires NonDecreasing(times) && rate >= 0.0 && capacity >= 1 && times != []
    ensures 0.0 <= After(times, rate, capacity).bucket.value.level <= capacity as real
  {
    hide Accrued;
    var n := |times| - 1;
    if n > 0 {
      LevelInRange(times[..n], rate, capacity);
      LastTime(times[..n], rate, capacity);
      AccruedNonNegative(times[n - 1], times[n], rate);
    }
  }

  function Allowed(answers: seq<bool>): nat {
    if answers == [] then 0
    else Allowed(answers[..|answers| - 1]) + if answers[|answers| - 1] then 1 else 0
  }

  /** Calls i..j admitted, plus what the bucket then holds, never exceed what it could hold at the
      first of them plus what has been refilled since. */
  lemma {:induction false} TokensConserved(times: seq<real>, rate: real, capacity: int, i: nat)
    requires NonDecreasing(times) && rate >= 0.0 && capacity >= 1 && i < |times|
    ensures var h := After(times, rate, capacity);
            Allowed(h.answers[i..]) as real + h.bucket.value.level
            <= capacity as real + Accrued(times[i], times[|times| - 1], rate)
  {
    hide Accrued;
    var n := |times| - 1;
    var g := After(times[..n], rate, capacity);
    var a := Call(g.bucket, times[n], rate, capacity);
    AllowedAppended(g.answers, a.allowed, i);
    if i == n {
      AccruedNonNegative(times[n], times[n], rate);
    } else {
      TokensConserved(times[..n], rate, capacity, i);
      LastTime(times[..n], rate, capacity);
      AccruedAdds(times[i], times[n - 1], times[n], rate);
    }
  }

  lemma AllowedAppended(answers: seq<bool>, allowed: bool, i: nat)
    requires i <= |answers|
    ensures Allowed((answers + [allowed])[i..])
         == (if i < |answers| then Allowed(answers[i..]) else 0) + if allowed then 1 else 0
  {
    assert (answers + [allowed])[i..] == answers[i..] + [allowed];
    assert (answers[i..] + [allowed])[..|answers[i..]|] == answers[i..];
  }

  lemma {:induction false} AfterPrefix(times: seq<real>, rate: real, capacity: int, j: nat)
    requires j <= |times|
    ensures After(times[..j], rate, capacity).answers == After(times, rate, capacity).answers[..j]
  {
    if j == |times| {
      assert times[..j] == times;
    } else {
      var n := |times| - 1;
      AfterPrefix(times[..n], rate, capacity, j);
      assert times[..n][..j] == times[..j];
    }
  }

  /** Any window of the clock admits at most its capacity plus rate times the window's length. */
  lemma WindowBound(times: seq<real>, rate: real, capacity: int, i: nat, j: nat, from: real, to: real)
    requires NonDecreasing(times) && rate >= 0.0 && capacity >= 1 && i <= j <= |times| && from <= to
    requires forall k :: i <= k < j ==> from <= times[k] <= to
    ensures Allowed(After(times, rate, capacity).answers[i..j]) as real <= capacity as real + Accrued(from, to, rate)
  {
    hide Accrued;
    AccruedNonNegative(from, to, rate);
    if i < j {
      var upTo := times[..j];
      AfterPrefix(times, rate, capacity, j);
      TokensConserved(upTo, rate, capacity, i);
      LevelInRange(upTo, rate, capacity);
      assert After(times, rate, capacity).answers[..j][i..] == After(times, rate, capacity).answers[i..j];
      AccruedNonNegative(from, times[i], rate);
      AccruedNonNegative(times[j - 1], to, rate);
      AccruedAdds(from, times[i], to, rate);
      AccruedAdds(times[i], times[j - 1], to, rate);
    }
  }

  // ---------------------------------------------------------------- when a call is admitted

  /** The calls from `i` on and the present level use up exactly what the bucket could give since. */
  ghost predicate Tight(times: seq<real>, rate: real, capacity: int, i: int) {
    && 0 <= i < |times|
    && var h := After(times, rate, capacity);
       Allowed(h.answers[i..]) as real + h.bucket.value.level
       == capacity as real + Accrued(times[i], times[|times| - 1], rate)
  }

  /** The bound of `TokensConserved` is attained: nothing refilled is lost except above the capacity. */
  lemma {:induction false} LevelIsTight(times: seq<real>, rate: real, capacity: int)
    requires times != []
    ensures exists i :: Tight(times, rate, capacity, i)
  {
    hide Accrued;
    var n := |times| - 1;
    var g := After(times[..n], rate, capacity);
    var a := Call(g.bucket, times[n], rate, capacity);
    NothingAccrued(times[n], rate);
    AllowedAppended(g.answers, a.allowed, n);
    if n == 0 || Refilled(g.bucket.value, times[n], rate, capacity) == capacity as real {
      assert Tight(times, rate, capacity, n);
    } else {
      LevelIsTight(times[..n], rate, capacity);
      var i :| Tight(times[..n], rate, capacity, i);
      LastTime(times[..n], rate, capacity);
      AccruedAdds(times[i], times[n - 1], times[n], rate);
      AllowedAppended(g.answers, a.allowed, i);
      assert Tight(times, rate, capacity, i);
    }
  }

  lemma NothingAccrued(t: real, rate: real)
    ensures Accrued(t, t, rate) == 0.0
  {
  }

  /** One more call at the end fits what the bucket could give since call `i`. */
  ghost predicate Fits(times: seq<real>, rate: real, capacity: int, i: int)
    requires 0 <= i < |times|
  {
    var n := |times| - 1;
    Allowed(After(times, rate, capacity).answers[i..n]) as real + 1.0
    <= capacity as real + Accrued(times[i], times[n], rate)
  }

  lemma FitsBefore(times: seq<real>, rate: real, capacity: int, i: nat)
    requires i < |times| - 1
    ensures Fits(times, rate, capacity, i)
        <==> Allowed(After(times[..|times| - 1], rate, capacity).answers[i..]) as real + 1.0
             <= capacity as real + Accrued(times[i], times[|times| - 1], rate)
  {
    var n := |times| - 1;
    assert After(times, rate, capacity).answers[i..n] == After(times[..n], rate, capacity).answers[i..];
  }

  /** The first call against a bucket is admitted; a later one exactly when, counted from each earlier
      call on, the admitted calls and this one fit the capacity plus what has been refilled since. */
  lemma {:induction false} AdmittedExactlyWhen(times: seq<real>, rate: real, capacity: int)
    requires NonDecreasing(times) && rate >= 0.0 && capacity >= 1 && times != []
    ensures After(times, rate, capacity).answers[|times| - 1]
       <==> forall i :: 0 <= i < |times| - 1 ==> Fits(times, rate, capacity, i)
  {
    hide Accrued, Fits;
    var n := |times| - 1;
    if n > 0 {
      var before := times[..n];
      var g := After(before, rate, capacity);
      LastTime(before, rate, capacity);
      var level := g.bucket.value.level + Accrued(times[n - 1], times[n], rate);
      assert After(times, rate, capacity).answers[n] <==> level >= 1.0;
      forall i | 0 <= i < n ensures level >= 1.0 ==> Fits(times, rate, capacity, i) {
        TokensConserved(before, rate, capacity, i);
        AccruedAdds(times[i], times[n - 1], times[n], rate);
        FitsBefore(times, rate, capacity, i);
      }
      LevelIsTight(before, rate, capacity);
      var i :| Tight(before, rate, capacity, i);
      AccruedAdds(times[i], times[n - 1], times[n], rate);
      FitsBefore(times, rate, capacity, i);
    }
  }

  // ---------------------------------------------------------------- denied calls leave no trace

  /** The times of the admitted calls. */
  function Admitted(times: seq<real>, rate: real, capacity: int): seq<real> {
    if times == [] then []
    else
      var n := |times| - 1;
      Admitted(times[..n], rate, capacity)
      + if After(times, rate, capacity).answers[n] then [times[n]] else []
  }

  /** From time `t` on the two buckets answer alike. */
  ghost predicate SameFrom(b: Option<Bucket>, c: Option<Bucket>, t: real, rate: real, capacity: int) {
    match (b, c)
    case (None, None) => true
    case (Some(b), Some(c)) =>
      forall now :: now >= t ==> Refilled(b, now, rate, capacity) == Refilled(c, now, rate, capacity)
    case _ => false
  }

  lemma DeniedLeavesNoTrace(b: Bucket, c: Bucket, t: real, rate: real, capacity: int)
    requires capacity >= 1 && Refilled(b, t, rate, capacity) == Refilled(c, t, rate, capacity) < 1.0
    ensures SameFrom(Some(Bucket(Refilled(b, t, rate, capacity), t)), Some(c), t, rate, capacity)
  {
    var d := Bucket(Refilled(b, t, rate, capacity), t);
    forall now | now >= t ensures Refilled(d, now, rate, capacity) == Refilled(c, now, rate, capacity) {
      AccruedAdds(c.last, t, now, rate);
    }
  }

  lemma {:induction false} AdmittedSameState(times: seq<real>, rate: real, capacity: int, t: real)
    requires NonDecreasing(times) && rate >= 0.0 && capacity >= 1
    requires times != [] ==> times[|times| - 1] <= t
    ensures SameFrom(After(times, rate, capacity).bucket,
                     After(Admitted(times, rate, capacity), rate, capacity).bucket, t, rate, capacity)
    ensures forall k :: 0 <= k < |Admitted(times, rate, capacity)| ==>
        After(Admitted(times, rate, capacity), rate, capacity).answers[k]
  {
    if times != [] {
      var n := |times| - 1;
      var before, now := times[..n], times[n];
      var kept := Admitted(before, rate, capacity);
      assert n > 0 ==> times[n - 1] <= times[n];
      AdmittedSameState(before, rate, capacity, now);
      var b, c := After(before, rate, capacity).bucket, After(kept, rate, capacity).bucket;
      var a := Call(b, now, rate, capacity);
      assert Call(c, now, rate, capacity).allowed == a.allowed;
      if a.allowed {
        assert Call(c, now, rate, capacity) == a;
        var kept' := Admitted(times, rate, capacity);
        assert kept' == kept + [now] && kept'[..|kept'| - 1] == kept;
      } else {
        DeniedLeavesNoTrace(b.value, c.value, now, rate, capacity);
        assert Admitted(times, rate, capacity) == kept;
      }
    }
  }

  /** Deleting all denied calls from a history changes no other answer. */
  lemma DeniedCallsDoNotMatter(times: seq<real>, rate: real, capacity: int)
    requires NonDecreasing(times) && rate >= 0.0 && capacity >= 1
    ensures forall k :: 0 <= k < |Admitted(times, rate, capacity)| ==>
        After(Admitted(times, rate, capacity), rate, capacity).answers[k]
  {
    AdmittedSameState(times, rate, capacity, if times == [] then 0.0 else times[|times| - 1]);
  }

  // ---------------------------------------------------------------- many buckets

  datatype Operation =
    | Allow(key: string, bucket: string, rate: real, capacity: int, now: real)
    | Reset(key: string, bucket: string)
    | Clear

  function Apply(buckets: map<(string, string), Bucket>, op: Operation): map<(string, string), Bucket> {
    match op
    case Allow(key, bucket, rate, capacity, now) =>
      buckets[(key, bucket) := Call(Lookup(buckets, (key, bucket)), now, rate, capacity).bucket]
    case Reset(key, bucket) => buckets - {(key, bucket)}
    case Clear => map[]
  }

  function RunAll(ops: seq<Operation>): map<(string, string), Bucket> {
    if ops == [] then map[] else Apply(RunAll(ops[..|ops| - 1]), ops[|ops| - 1])
  }

  predicate Concerns(op: Operation, bk: (string, string)) {
    op.Allow? && (op.key, op.bucket) == bk
  }

  /** The call times for one bucket since it was last reset. */
  function CallsSinceReset(ops: seq<Operation>, bk: (string, string)): seq<real> {
    if ops == [] then []
    else
      var op := ops[|ops| - 1];
      var before := CallsSinceReset(ops[..|ops| - 1], bk);
      if Concerns(op, bk) then before + [op.now]
      else if op.Clear? || (op.Reset? && (op.key, op.bucket) == bk) then []
      else before
  }

  /** A bucket depends only on the calls made against it since its last reset: calls against other
      keys or buckets never matter. */
  lemma {:induction false} BucketsAreIndependent(ops: seq<Operation>, bk: (string, string), rate: real, capacity: int)
    requires forall i :: 0 <= i < |ops| && Concerns(ops[i], bk) ==> ops[i].rate == rate && ops[i].capacity == capacity
    ensures Lookup(RunAll(ops), bk) == After(CallsSinceReset(ops, bk), rate, capacity).bucket
  {
    if ops != [] {
      var n := |ops| - 1;
      BucketsAreIndependent(ops[..n], bk, rate, capacity);
      if Concerns(ops[n], bk) {
        var times := CallsSinceReset(ops, bk);
        assert times[..|times| - 1] == CallsSinceReset(ops[..n], bk);
      }
    }
  }
}
