/** The indices below a bound that satisfy a condition, listed in increasing order. */
module Selections {
  ghost predicate Selects(at: seq<nat>, n: nat, hit: nat -> bool) {
    && (forall j, k :: 0 <= j < k < |at| ==> at[j] < at[k])
    && (forall i: nat :: i in at <==> i < n && hit(i))
  }

  /** What remains when the last index is dropped. */
  lemma {:induction false} SelectionSplit(at: seq<nat>, n: nat, hit: nat -> bool)
    requires n > 0 && Selects(at, n, hit)
    ensures hit(n - 1) ==> at != [] && at[|at| - 1] == n - 1 && Selects(at[..|at| - 1], n - 1, hit)
    ensures !hit(n - 1) ==> Selects(at, n - 1, hit)
  {
    if hit(n - 1) {
      assert n - 1 in at;
      var j :| 0 <= j < |at| && at[j] == n - 1;
      assert at[|at| - 1] in at;
      assert j == |at| - 1;
      var rest := at[..|at| - 1];
      forall i | i in at && i != n - 1 ensures i in rest {
        var k :| 0 <= k < |at| && at[k] == i;
        assert rest[k] == i;
      }
    }
  }

  lemma SelectionBelow(at: seq<nat>, n: nat, hit: nat -> bool)
    requires Selects(at, n, hit)
    ensures at != [] ==> n > 0
  {
    if at != [] {
      assert at[0] in at;
    }
  }

  /** There always is such a list. */
  lemma {:induction false} SomeSelection(n: nat, hit: nat -> bool) returns (at: seq<nat>)
    ensures Selects(at, n, hit)
  {
    if n == 0 {
      at := [];
    } else {
      at := SomeSelection(n - 1, hit);
      if hit(n - 1) {
        assert forall j :: 0 <= j < |at| ==> at[j] in at;
        at := at + [n - 1];
      }
    }
  }
}
