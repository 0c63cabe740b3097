/** Python's `sorted`: a stable sort by a real-valued key, smallest key first.
    A descending sort (`reverse=True`, also stable) is the ascending sort by the negated key. */
module StableSort {
  function Insert<T>(x: T, s: seq<T>, key: T -> real): (r: seq<T>)
    ensures |r| == |s| + 1
  {
    if s == [] || key(x) <= key(s[0]) then [x] + s else [s[0]] + Insert(x, s[1..], key)
  }

  function Sort<T>(s: seq<T>, key: T -> real): (r: seq<T>)
    ensures |r| == |s|
  {
    if s == [] then [] else Insert(s[0], Sort(s[1..], key), key)
  }

  ghost predicate Ordered<T>(s: seq<T>, key: T -> real) {
    forall i, j :: 0 <= i < j < |s| ==> key(s[i]) <= key(s[j])
  }

  ghost predicate StrictlyOrdered<T>(s: seq<T>, key: T -> real) {
    forall i, j :: 0 <= i < j < |s| ==> key(s[i]) < key(s[j])
  }

  /** Positions hold pairwise different keys. */
  ghost predicate DistinctKeys<T>(s: seq<T>, key: T -> real) {
    forall i, j :: 0 <= i < j < |s| ==> key(s[i]) != key(s[j])
  }

  lemma {:induction false} InsertPermutes<T>(x: T, s: seq<T>, key: T -> real)
    ensures multiset(Insert(x, s, key)) == multiset{x} + multiset(s)
  {
    if s != [] && key(x) > key(s[0]) {
      InsertPermutes(x, s[1..], key);
      assert s == [s[0]] + s[1..];
    }
  }

  lemma {:induction false} InsertOrdered<T>(x: T, s: seq<T>, key: T -> real)
    requires Ordered(s, key)
    ensures Ordered(Insert(x, s, key), key)
  {
    if s != [] && key(x) > key(s[0]) {
      InsertOrdered(x, s[1..], key);
      InsertPermutes(x, s[1..], key);
      var r := Insert(x, s[1..], key);
      forall i | 0 <= i < |r| ensures key(s[0]) <= key(r[i]) {
        assert r[i] in multiset(r);
        assert r[i] == x || r[i] in s[1..];
      }
    }
  }

  lemma {:induction false} SortPermutes<T>(s: seq<T>, key: T -> real)
    ensures multiset(Sort(s, key)) == multiset(s)
  {
    if s != [] {
      SortPermutes(s[1..], key);
      InsertPermutes(s[0], Sort(s[1..], key), key);
      assert s == [s[0]] + s[1..];
    }
  }

  lemma {:induction false} SortOrders<T>(s: seq<T>, key: T -> real)
    ensures Ordered(Sort(s, key), key)
  {
    if s != [] {
      SortOrders(s[1..], key);
      InsertOrdered(s[0], Sort(s[1..], key), key);
    }
  }

  /** A sorted list keeps exactly the elements it was given. */
  lemma SortMembers<T>(s: seq<T>, key: T -> real)
    ensures forall x :: x in Sort(s, key) <==> x in s
  {
    SortPermutes(s, key);
    forall x ensures x in Sort(s, key) <==> x in s {
      assert x in multiset(Sort(s, key)) <==> x in multiset(s);
    }
  }

  /** Sorting an ordered list changes nothing, ties included. */
  lemma {:induction false} SortOfOrdered<T>(s: seq<T>, key: T -> real)
    requires Ordered(s, key)
    ensures Sort(s, key) == s
  {
    if s != [] {
      assert Ordered(s[1..], key);
      SortOfOrdered(s[1..], key);
      assert s == [s[0]] + s[1..];
    }
  }

  /** The elements with one key, in the order in which they stand. */
  function Having<T>(s: seq<T>, key: T -> real, k: real): seq<T> {
    if s == [] then []
    else (if key(s[0]) == k then [s[0]] else []) + Having(s[1..], key, k)
  }

  lemma {:induction false} InsertIsStable<T>(x: T, s: seq<T>, key: T -> real, k: real)
    ensures Having(Insert(x, s, key), key, k) == Having([x] + s, key, k)
  {
    assert ([x] + s)[1..] == s;
    if s != [] && key(x) > key(s[0]) {
      InsertIsStable(x, s[1..], key, k);
      assert ([x] + s[1..])[1..] == s[1..];
      assert Insert(x, s, key)[1..] == Insert(x, s[1..], key);
    }
  }

  /** Elements with equal keys keep their order. */
  lemma {:induction false} SortIsStable<T>(s: seq<T>, key: T -> real, k: real)
    ensures Having(Sort(s, key), key, k) == Having(s, key, k)
  {
    if s != [] {
      SortIsStable(s[1..], key, k);
      InsertIsStable(s[0], Sort(s[1..], key), key, k);
      assert ([s[0]] + Sort(s[1..], key))[1..] == Sort(s[1..], key);
    }
  }

  /** With distinct keys the order of the input does not matter. */
  lemma SortIgnoresOrder<T>(s: seq<T>, t: seq<T>, key: T -> real)
    requires multiset(s) == multiset(t)
    requires DistinctKeys(s, key)
    ensures Sort(s, key) == Sort(t, key)
    ensures StrictlyOrdered(Sort(s, key), key)
  {
    SortOrders(s, key);
    SortOrders(t, key);
    SortPermutes(s, key);
    SortPermutes(t, key);
    DistinctKeysOfPermutation(s, Sort(s, key), key);
    DistinctKeysOfPermutation(s, Sort(t, key), key);
    OrderedUnique(Sort(s, key), Sort(t, key), key);
  }

  lemma TailOf<T>(s: seq<T>)
    requires s != []
    ensures s == [s[0]] + s[1..] && multiset(s[1..]) == multiset(s) - multiset{s[0]}
  {
    assert s == [s[0]] + s[1..];
  }

  lemma SameHead<T>(s: seq<T>, t: seq<T>, key: T -> real)
    requires multiset(s) == multiset(t) && s != [] && t != []
    requires StrictlyOrdered(s, key) && StrictlyOrdered(t, key)
    ensures s[0] == t[0]
  {
    assert s[0] in multiset(t) && t[0] in multiset(s);
    var i :| 0 <= i < |t| && t[i] == s[0];
    var j :| 0 <= j < |s| && s[j] == t[0];
  }

  lemma {:induction false} OrderedUnique<T>(s: seq<T>, t: seq<T>, key: T -> real)
    requires multiset(s) == multiset(t)
    requires StrictlyOrdered(s, key) && StrictlyOrdered(t, key)
    ensures s == t
  {
    assert |s| == |multiset(s)| == |multiset(t)| == |t|;
    if s != [] {
      SameHead(s, t, key);
      TailOf(s);
      TailOf(t);
      OrderedUnique(s[1..], t[1..], key);
    }
  }

  /** Distinct keys means: an element occurs once and different elements have different keys. */
  lemma DistinctKeysOfPermutation<T>(s: seq<T>, t: seq<T>, key: T -> real)
    requires multiset(s) == multiset(t)
    requires DistinctKeys(s, key)
    ensures DistinctKeys(t, key)
  {
    forall i, j | 0 <= i < j < |t| ensures key(t[i]) != key(t[j]) {
      if key(t[i]) == key(t[j]) {
        assert t[i] in multiset(s) && t[j] in multiset(s);
        var p :| 0 <= p < |s| && s[p] == t[i];
        var q :| 0 <= q < |s| && s[q] == t[j];
        assert p == q;
        TwiceInMultiset(t, i, j);
        OnceInMultiset(s, p);
        assert false;
      }
    }
  }

  lemma TwiceInMultiset<T>(t: seq<T>, i: nat, j: nat)
    requires i < j < |t| && t[i] == t[j]
    ensures multiset(t)[t[i]] >= 2
  {
    assert t == t[..j] + [t[j]] + t[j + 1..];
    assert t[i] in t[..j];
  }

  lemma OnceInMultiset<T>(s: seq<T>, p: nat)
    requires p < |s|
    requires forall q :: 0 <= q < |s| && q != p ==> s[q] != s[p]
    ensures multiset(s)[s[p]] == 1
  {
    assert s == s[..p] + [s[p]] + s[p + 1..];
    assert s[p] !in s[..p] && s[p] !in s[p + 1..];
  }
}
