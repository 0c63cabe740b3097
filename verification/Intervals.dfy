/** Merging of presence intervals. Times are seconds, as real numbers.
    For proper intervals the merged windows are exactly the connected components of the inputs
    under "at most `gap` apart". */
module Intervals {
  import opened Boxes
  import opened StableSort

  datatype Window = Window(start: real, end: real)

  function ByStart(w: Window): real {
    w.start
  }

  /** An interval given backwards is turned round. */
  function Upright(w: Window): Window {
    if w.start > w.end then Window(w.end, w.start) else w
  }

  function Absorb(merged: seq<Window>, w: Window, gap: real): seq<Window> {
    if merged != [] && w.start - merged[|merged| - 1].end <= gap then
      var last := merged[|merged| - 1];
      merged[|merged| - 1 := Window(last.start, Max(last.end, w.end))]
    else
      merged + [w]
  }

  function Fold(ivs: seq<Window>, gap: real): seq<Window> {
    if ivs == [] then [] else Absorb(Fold(ivs[..|ivs| - 1], gap), Upright(ivs[|ivs| - 1]), gap)
  }

  /** The merged windows of a list of intervals. */
  function Merged(ivs: seq<Window>, gap: real): seq<Window> {
    Fold(Sort(ivs, ByStart), gap)
  }

  method MergeIntervals(intervals: seq<Window>, gap: real) returns (merged: seq<Window>)
    ensures merged == Merged(intervals, gap)
  {
    var ivs := Sort(intervals, ByStart);
    merged := [];
    for i := 0 to |ivs|
      invariant merged == Fold(ivs[..i], gap)
    {
      var start, end := ivs[i].start, ivs[i].end;
      if start > end {
        start, end := end, start;
      }
      var n := |merged|;
      if merged != [] && start - merged[n - 1].end <= gap {
        merged := merged[n - 1 := Window(merged[n - 1].start, Max(merged[n - 1].end, end))];
      } else {
        merged := merged + [Window(start, end)];
      }
      assert ivs[..i + 1][..i] == ivs[..i];
    }
    assert ivs[..|ivs|] == ivs;
  }

  // ---------------------------------------------------------------- connected components

  ghost predicate Proper(ins: set<Window>) {
    forall w :: w in ins ==> w.start <= w.end
  }

  /** At most `gap` seconds lie between the two intervals. */
  predicate Near(a: Window, b: Window, gap: real) {
    a.start - b.end <= gap && b.start - a.end <= gap
  }

  ghost predicate Chain(ins: set<Window>, gap: real, path: seq<Window>) {
    && path != []
    && (forall i :: 0 <= i < |path| ==> path[i] in ins)
    && forall i :: 0 <= i < |path| - 1 ==> Near(path[i], path[i + 1], gap)
  }

  ghost predicate Links(ins: set<Window>, gap: real, path: seq<Window>, a: Window, b: Window) {
    Chain(ins, gap, path) && path[0] == a && path[|path| - 1] == b
  }

  ghost predicate Connected(ins: set<Window>, gap: real, a: Window, b: Window) {
    exists path :: Links(ins, gap, path, a, b)
  }

  predicate Covers(w: Window, a: Window) {
    w.start <= a.start && a.end <= w.end
  }

  ghost predicate ShareWindow(out: seq<Window>, a: Window, b: Window) {
    exists w :: w in out && Covers(w, a) && Covers(w, b)
  }

  /** Windows in time order, more than `gap` apart. */
  ghost predicate Separated(out: seq<Window>, gap: real) {
    && (forall i :: 0 <= i < |out| ==> out[i].start <= out[i].end)
    && forall i, j :: 0 <= i < j < |out| ==> out[j].start - out[i].end > gap
  }

  /** Both ends of a window are ends of inputs that lie in it. */
  ghost predicate Anchored(done: set<Window>, w: Window) {
    && (exists a :: a in done && Covers(w, a) && a.start == w.start)
    && (exists b :: b in done && Covers(w, b) && b.end == w.end)
  }

  ghost predicate Clustered(ins: set<Window>, done: set<Window>, gap: real, w: Window) {
    forall a, b {:trigger Connected(ins, gap, a, b)} ::
      a in done && b in done && Covers(w, a) && Covers(w, b) ==> Connected(ins, gap, a, b)
  }

  ghost predicate Covered(out: seq<Window>, a: Window) {
    exists w :: w in out && Covers(w, a)
  }

  /** `out` partitions `done` into components connected through `ins`. */
  ghost predicate Components(ins: set<Window>, done: set<Window>, gap: real, out: seq<Window>) {
    && Separated(out, gap)
    && (forall a {:trigger Covered(out, a)} :: a in done ==> Covered(out, a))
    && (forall w {:trigger Anchored(done, w)} {:trigger Clustered(ins, done, gap, w)} ::
          w in out ==> Anchored(done, w) && Clustered(ins, done, gap, w))
  }

  ghost function Elements(s: seq<Window>): set<Window> {
    set w | w in s
  }

  lemma ConnectedSelf(ins: set<Window>, gap: real, a: Window)
    requires a in ins
    ensures Connected(ins, gap, a, a)
  {
    assert Links(ins, gap, [a], a, a);
  }

  lemma ConnectedStep(ins: set<Window>, gap: real, a: Window, c: Window, x: Window)
    requires x in ins && Near(c, x, gap)
    requires Connected(ins, gap, a, c) && Connected(ins, gap, c, a)
    ensures Connected(ins, gap, a, x) && Connected(ins, gap, x, a)
  {
    var p :| Links(ins, gap, p, a, c);
    assert Links(ins, gap, p + [x], a, x);
    var q :| Links(ins, gap, q, c, a);
    assert Links(ins, gap, [x] + q, x, a);
  }

  /** An input inside a window's span belongs to that window and no other. */
  lemma OneWindow(out: seq<Window>, gap: real, v: Window, w: Window, a: Window)
    requires gap >= 0.0 && Separated(out, gap) && v in out && w in out
    requires a.start <= a.end && Covers(v, a) && w.start <= a.end && a.start <= w.end + gap
    ensures v == w
  {
    var i :| 0 <= i < |out| && out[i] == v;
    var j :| 0 <= j < |out| && out[j] == w;
  }

  /** A new interval that starts no earlier than all previous ones extends the last window or opens
      a new one; either way the windows stay the components. */
  lemma {:induction false} AbsorbKeepsComponents(ins: set<Window>, done: set<Window>, gap: real, out: seq<Window>,
                                                 x: Window)
    requires gap >= 0.0 && Proper(ins) && done <= ins && x in ins
    requires forall a :: a in done ==> a.start <= x.start
    requires Components(ins, done, gap, out)
    ensures Components(ins, done + {x}, gap, Absorb(out, x, gap))
  {
    if out != [] && x.start - out[|out| - 1].end <= gap {
      AbsorbExtends(ins, done, gap, out, x);
    } else {
      AbsorbOpens(ins, done, gap, out, x);
    }
  }

  lemma UntouchedWindow(ins: set<Window>, done: set<Window>, gap: real, w: Window, x: Window)
    requires Anchored(done, w) && Clustered(ins, done, gap, w) && !Covers(w, x)
    ensures Anchored(done + {x}, w) && Clustered(ins, done + {x}, gap, w)
  {
  }

  lemma LoneWindow(ins: set<Window>, done: set<Window>, gap: real, x: Window)
    requires x in ins && x.start <= x.end
    requires forall a :: a in done && Covers(x, a) ==> a == x
    ensures Anchored(done + {x}, x) && Clustered(ins, done + {x}, gap, x)
  {
    assert Covers(x, x);
    ConnectedSelf(ins, gap, x);
  }

  lemma LastWindowIsLatest(out: seq<Window>, gap: real, w: Window)
    requires Separated(out, gap) && gap >= 0.0 && w in out
    ensures w == out[|out| - 1] || w.end + gap < out[|out| - 1].start
    ensures w.end <= out[|out| - 1].end
  {
    var i :| 0 <= i < |out| && out[i] == w;
    assert i < |out| - 1 ==> out[|out| - 1].start - out[i].end > gap;
  }

  lemma {:induction false} AppendedSeparated(out: seq<Window>, x: Window, gap: real)
    requires gap >= 0.0 && Separated(out, gap) && x.start <= x.end
    requires out != [] ==> x.start - out[|out| - 1].end > gap
    ensures Separated(out + [x], gap)
    ensures forall w :: w in out ==> w.end + gap < x.start
  {
    forall w | w in out ensures w.end + gap < x.start {
      LastWindowIsLatest(out, gap, w);
    }
    forall i | 0 <= i < |out| ensures x.start - out[i].end > gap {
      assert out[i] in out;
    }
  }

  lemma {:induction false} AbsorbOpens(ins: set<Window>, done: set<Window>, gap: real, out: seq<Window>, x: Window)
    requires gap >= 0.0 && Proper(ins) && done <= ins && x in ins
    requires Components(ins, done, gap, out)
    requires out != [] ==> x.start - out[|out| - 1].end > gap
    ensures Components(ins, done + {x}, gap, out + [x])
  {
    var out' := out + [x];
    AppendedSeparated(out, x, gap);
    assert forall w :: w in out' <==> w in out || w == x;
    assert Covers(x, x);
    forall a | a in done + {x} ensures Covered(out', a) && (a != x ==> !Covers(x, a)) {
      assert a in done ==> Covered(out, a);
    }
    LoneWindow(ins, done, gap, x);
    forall w | w in out ensures Anchored(done + {x}, w) && Clustered(ins, done + {x}, gap, w) {
      assert Anchored(done, w) && Clustered(ins, done, gap, w);
      UntouchedWindow(ins, done, gap, w, x);
    }
  }

  lemma {:induction false} WidenedWindow(ins: set<Window>, done: set<Window>, gap: real, w: Window, x: Window)
    requires gap >= 0.0 && Proper(ins) && done <= ins && x in ins
    requires w.start <= x.start <= w.end + gap
    requires forall a :: a in done ==> a.start <= x.start
    requires Anchored(done, w) && Clustered(ins, done, gap, w)
    requires forall a :: a in done && Covers(Window(w.start, Max(w.end, x.end)), a) ==> Covers(w, a)
    ensures Anchored(done + {x}, Window(w.start, Max(w.end, x.end)))
    ensures Clustered(ins, done + {x}, gap, Window(w.start, Max(w.end, x.end)))
  {
    var wide := Window(w.start, Max(w.end, x.end));
    var s :| s in done && Covers(w, s) && s.start == w.start;
    var c :| c in done && Covers(w, c) && c.end == w.end;
    assert Near(c, x, gap);
    assert Covers(wide, x) && Covers(wide, s) && Covers(wide, c);
    ConnectedSelf(ins, gap, x);
    forall a | a in done && Covers(w, a)
      ensures Connected(ins, gap, a, x) && Connected(ins, gap, x, a)
    {
      assert Connected(ins, gap, a, c) && Connected(ins, gap, c, a);
      ConnectedStep(ins, gap, a, c, x);
    }
  }

  /** The list with its last window replaced by a wider one. */
  ghost predicate WidensLast(out: seq<Window>, out': seq<Window>, wide: Window) {
    && out != []
    && out' == out[..|out| - 1] + [wide]
    && wide.start == out[|out| - 1].start && wide.end >= out[|out| - 1].end
  }

  lemma {:induction false} WidenedSeparated(out: seq<Window>, out': seq<Window>, wide: Window, gap: real)
    requires WidensLast(out, out', wide) && Separated(out, gap)
    ensures Separated(out', gap)
  {
    var n := |out| - 1;
    assert forall i :: 0 <= i < n ==> out'[i] == out[i];
    forall i, j | 0 <= i < j < |out'| ensures out'[j].start - out'[i].end > gap {
      assert out[j].start - out[i].end > gap;
    }
  }

  lemma {:induction false} WidenedMembers(out: seq<Window>, out': seq<Window>, wide: Window, gap: real)
    requires WidensLast(out, out', wide) && Separated(out, gap) && gap >= 0.0
    ensures wide in out'
    ensures forall w :: w in out && w != out[|out| - 1] ==> w in out'
    ensures forall w :: w in out' && w != wide ==> w in out && w.end + gap < wide.start
  {
    var n := |out| - 1;
    assert out == out[..n] + [out[n]];
    forall w | w in out[..n] ensures w.end + gap < wide.start {
      var i :| 0 <= i < n && out[i] == w;
      assert out[n].start - out[i].end > gap;
    }
  }

  lemma {:induction false} AbsorbExtends(ins: set<Window>, done: set<Window>, gap: real, out: seq<Window>, x: Window)
    requires gap >= 0.0 && Proper(ins) && done <= ins && x in ins
    requires forall a :: a in done ==> a.start <= x.start
    requires Components(ins, done, gap, out)
    requires out != [] && x.start - out[|out| - 1].end <= gap
    ensures Components(ins, done + {x}, gap, Absorb(out, x, gap))
  {
    var last := out[|out| - 1];
    var wide := Window(last.start, Max(last.end, x.end));
    var out' := Absorb(out, x, gap);
    assert out' == out[..|out| - 1] + [wide];
    WidenedSeparated(out, out', wide, gap);
    WidenedMembers(out, out', wide, gap);
    assert last in out;
    assert Anchored(done, last) && Clustered(ins, done, gap, last);
    forall a | a in done && Covers(wide, a) ensures Covers(last, a) {
      assert Covered(out, a);
      var v :| v in out && Covers(v, a);
      OneWindow(out, gap, v, last, a);
    }
    WidenedWindow(ins, done, gap, last, x) by {
      var s :| s in done && Covers(last, s) && s.start == last.start;
    }
    forall a | a in done + {x} ensures Covered(out', a) {
      if a in done {
        assert Covered(out, a);
        var v :| v in out && Covers(v, a);
        assert v == last ==> Covers(wide, a);
      } else {
        assert Covers(wide, x);
      }
    }
    forall w | w in out' && w != wide
      ensures Anchored(done + {x}, w) && Clustered(ins, done + {x}, gap, w)
    {
      assert Anchored(done, w) && Clustered(ins, done, gap, w);
      UntouchedWindow(ins, done, gap, w, x);
    }
  }

  lemma {:induction false} ElementsSplit(ivs: seq<Window>)
    requires ivs != [] && Ordered(ivs, ByStart)
    ensures var n := |ivs| - 1;
            && Elements(ivs) == Elements(ivs[..n]) + {ivs[n]} && Ordered(ivs[..n], ByStart)
            && forall a :: a in Elements(ivs[..n]) ==> a.start <= ivs[n].start
  {
    var n := |ivs| - 1;
    assert ivs == ivs[..n] + [ivs[n]];
    forall a | a in Elements(ivs[..n]) ensures a.start <= ivs[n].start {
      var i :| 0 <= i < n && ivs[i] == a;
      assert ByStart(ivs[i]) <= ByStart(ivs[n]);
    }
  }

  lemma {:induction false} FoldComponents(ins: set<Window>, ivs: seq<Window>, gap: real)
    requires gap >= 0.0 && Proper(ins) && Elements(ivs) <= ins && Ordered(ivs, ByStart)
    ensures Components(ins, Elements(ivs), gap, Fold(ivs, gap))
  {
    if ivs != [] {
      var n := |ivs| - 1;
      ElementsSplit(ivs);
      FoldComponents(ins, ivs[..n], gap);
      FoldOneMore(ins, Elements(ivs[..n]), gap, Fold(ivs[..n], gap), ivs[n]);
    }
  }

  lemma {:induction false} FoldOneMore(ins: set<Window>, done: set<Window>, gap: real, out: seq<Window>, x: Window)
    requires gap >= 0.0 && Proper(ins) && done <= ins && x in ins
    requires forall a :: a in done ==> a.start <= x.start
    requires Components(ins, done, gap, out)
    ensures Components(ins, done + {x}, gap, Absorb(out, Upright(x), gap))
  {
    assert Upright(x) == x;
    AbsorbKeepsComponents(ins, done, gap, out, x);
  }

  lemma MergedComponents(ivs: seq<Window>, gap: real)
    requires gap >= 0.0 && Proper(Elements(ivs))
    ensures Components(Elements(ivs), Elements(ivs), gap, Merged(ivs, gap))
  {
    var s := Sort(ivs, ByStart);
    SortOrders(ivs, ByStart);
    SortMembers(ivs, ByStart);
    assert Elements(s) == Elements(ivs);
    FoldComponents(Elements(ivs), s, gap);
  }

  lemma {:induction false} ChainStaysInWindow(ins: set<Window>, gap: real, out: seq<Window>, w: Window,
                                              path: seq<Window>)
    requires gap >= 0.0 && Proper(ins) && Components(ins, ins, gap, out)
    requires Chain(ins, gap, path) && w in out && Covers(w, path[0])
    ensures Covers(w, path[|path| - 1])
  {
    if |path| > 1 {
      assert Covered(out, path[1]);
      var v :| v in out && Covers(v, path[1]);
      assert Near(path[0], path[1], gap);
      OneWindow(out, gap, v, w, path[1]);
      assert Chain(ins, gap, path[1..]) by {
        forall i | 0 <= i < |path[1..]| - 1 ensures Near(path[1..][i], path[1..][i + 1], gap) {
          assert Near(path[i + 1], path[i + 2], gap);
        }
      }
      ChainStaysInWindow(ins, gap, out, w, path[1..]);
    }
  }

  /** Two inputs end up in one window exactly when a chain of inputs, each at most `gap` from the
      next, leads from one to the other. */
  lemma WindowsAreComponents(ivs: seq<Window>, gap: real, a: Window, b: Window)
    requires gap >= 0.0 && Proper(Elements(ivs)) && a in ivs && b in ivs
    ensures ShareWindow(Merged(ivs, gap), a, b) <==> Connected(Elements(ivs), gap, a, b)
  {
    var ins := Elements(ivs);
    var out := Merged(ivs, gap);
    MergedComponents(ivs, gap);
    if ShareWindow(out, a, b) {
      var w :| w in out && Covers(w, a) && Covers(w, b);
      assert Clustered(ins, ins, gap, w);
    }
    if Connected(ins, gap, a, b) {
      var path :| Links(ins, gap, path, a, b);
      assert Covered(out, a);
      var w :| w in out && Covers(w, a);
      ChainStaysInWindow(ins, gap, out, w, path);
    }
  }

  // ---------------------------------------------------------------- uniqueness

  lemma ReachesOther(ins: set<Window>, gap: real, out: seq<Window>, out': seq<Window>, v: Window, w: Window, a: Window)
    requires gap >= 0.0 && Proper(ins) && a in ins
    requires Components(ins, ins, gap, out) && Components(ins, ins, gap, out')
    requires w in out && Covers(w, a) && v in out' && Covers(v, a)
    ensures v.start <= w.start && w.end <= v.end
  {
    assert Anchored(ins, w) && Clustered(ins, ins, gap, w);
    var s :| s in ins && Covers(w, s) && s.start == w.start;
    var e :| e in ins && Covers(w, e) && e.end == w.end;
    assert Connected(ins, gap, a, s) && Connected(ins, gap, a, e);
    var p :| Links(ins, gap, p, a, s);
    ChainStaysInWindow(ins, gap, out', v, p);
    var q :| Links(ins, gap, q, a, e);
    ChainStaysInWindow(ins, gap, out', v, q);
  }

  lemma ComponentsUnique(ins: set<Window>, gap: real, out: seq<Window>, out': seq<Window>)
    requires gap >= 0.0 && Proper(ins)
    requires Components(ins, ins, gap, out) && Components(ins, ins, gap, out')
    ensures forall w :: w in out ==> w in out'
  {
    forall w | w in out ensures w in out' {
      assert Anchored(ins, w);
      var a :| a in ins && Covers(w, a);
      assert Covered(out', a);
      var v :| v in out' && Covers(v, a);
      ReachesOther(ins, gap, out, out', v, w, a);
      ReachesOther(ins, gap, out', out, w, v, a);
    }
  }

  lemma {:induction false} SeparatedWithSameMembers(s: seq<Window>, t: seq<Window>, gap: real)
    requires gap >= 0.0 && Separated(s, gap) && Separated(t, gap)
    requires forall w :: w in s <==> w in t
    ensures s == t
  {
    var w := if t == [] then Window(0.0, 0.0) else t[0];
    assert w in s <==> w in t;
    if s != [] {
      assert s[0] in t && t[0] in s;
      SeparatedHeadFirst(s, gap, t[0]);
      SeparatedHeadFirst(t, gap, s[0]);
      assert s[0] == t[0];
      forall w ensures w in s[1..] <==> w in t[1..] {
        SeparatedHeadOnce(s, gap, w);
        SeparatedHeadOnce(t, gap, w);
      }
      SeparatedWithSameMembers(s[1..], t[1..], gap);
    }
  }

  lemma SeparatedHeadFirst(s: seq<Window>, gap: real, w: Window)
    requires gap >= 0.0 && Separated(s, gap) && w in s
    ensures w == s[0] || s[0].start < w.start
  {
    var i :| 0 <= i < |s| && s[i] == w;
    if i > 0 {
      assert s[i].start - s[0].end > gap;
    }
  }

  lemma SeparatedHeadOnce(s: seq<Window>, gap: real, w: Window)
    requires gap >= 0.0 && Separated(s, gap) && s != []
    ensures w in s[1..] <==> w in s && w != s[0]
  {
    if w in s[1..] {
      var i :| 1 <= i < |s| && s[i] == w;
      assert s[i].start - s[0].end > gap;
    }
  }

  /** Only the set of inputs matters: order and repetitions do not. */
  lemma MergedIgnoresOrder(ivs: seq<Window>, ivs': seq<Window>, gap: real)
    requires gap >= 0.0 && Proper(Elements(ivs)) && Elements(ivs) == Elements(ivs')
    ensures Merged(ivs, gap) == Merged(ivs', gap)
  {
    MergedComponents(ivs, gap);
    MergedComponents(ivs', gap);
    var ins := Elements(ivs);
    ComponentsUnique(ins, gap, Merged(ivs, gap), Merged(ivs', gap));
    ComponentsUnique(ins, gap, Merged(ivs', gap), Merged(ivs, gap));
    SeparatedWithSameMembers(Merged(ivs, gap), Merged(ivs', gap), gap);
  }

  lemma {:induction false} AbsorbApart(merged: seq<Window>, w: Window, gap: real)
    requires w.start <= w.end && (merged != [] ==> w.start - merged[|merged| - 1].end > gap)
    ensures Absorb(merged, Upright(w), gap) == merged + [w]
  {
  }

  lemma {:induction false} SeparatedPrefix(s: seq<Window>, gap: real)
    requires Separated(s, gap) && s != []
    ensures var n := |s| - 1;
            Separated(s[..n], gap) && s[n].start <= s[n].end && (n > 0 ==> s[n].start - s[..n][n - 1].end > gap)
  {
  }

  lemma {:induction false} FoldOfSeparated(s: seq<Window>, gap: real)
    requires Separated(s, gap)
    ensures Fold(s, gap) == s
  {
    if s != [] {
      var n := |s| - 1;
      SeparatedPrefix(s, gap);
      FoldOfSeparated(s[..n], gap);
      AbsorbApart(s[..n], s[n], gap);
      assert s == s[..n] + [s[n]];
    }
  }

  /** The windows are sorted, more than `gap` apart, start and end where inputs do, and merging
      them again changes nothing. */
  lemma MergedIsSettled(ivs: seq<Window>, gap: real)
    requires gap >= 0.0 && Proper(Elements(ivs))
    ensures Separated(Merged(ivs, gap), gap)
    ensures forall w :: w in Merged(ivs, gap) ==> Anchored(Elements(ivs), w)
    ensures Merged(Merged(ivs, gap), gap) == Merged(ivs, gap)
  {
    MergedComponents(ivs, gap);
    var out := Merged(ivs, gap);
    assert Ordered(out, ByStart) by {
      forall i, j | 0 <= i < j < |out| ensures out[i].start <= out[j].start {
        assert out[j].start - out[i].end > gap;
      }
    }
    SortOfOrdered(out, ByStart);
    FoldOfSeparated(out, gap);
  }

  // ---------------------------------------------------------------- intervals given backwards

  ghost predicate AllCovered(out: seq<Window>, ivs: seq<Window>) {
    forall a :: a in ivs ==> Covered(out, Upright(a))
  }

  /** No interval, once upright, begins before the window it extends. The program sorts before it turns
      intervals round, so an interval given backwards can break this. */
  ghost predicate Forward(ivs: seq<Window>, gap: real) {
    ivs == [] ||
    var n := |ivs| - 1;
    var before := Fold(ivs[..n], gap);
    Forward(ivs[..n], gap) && (before != [] ==> before[|before| - 1].start <= Upright(ivs[n]).start)
  }

  /** Every window begins by time `t`. */
  ghost predicate StartBy(out: seq<Window>, t: real) {
    forall w :: w in out ==> w.start <= t
  }

  ghost predicate EndsWithin(out: seq<Window>, ivs: seq<Window>) {
    forall a :: a in ivs ==> out != [] && Upright(a).end <= out[|out| - 1].end
  }

  /** The last window ends with the latest interval. */
  lemma {:induction false} FoldEnds(ivs: seq<Window>, gap: real)
    requires gap >= 0.0
    ensures EndsWithin(Fold(ivs, gap), ivs)
  {
    if ivs != [] {
      var n := |ivs| - 1;
      FoldEnds(ivs[..n], gap);
      var before, after := Fold(ivs[..n], gap), Fold(ivs, gap);
      forall m | 0 <= m < |ivs| ensures Upright(ivs[m]).end <= after[|after| - 1].end {
        assert m < n ==> ivs[..n][m] in ivs[..n];
      }
    }
  }

  /** Whatever intervals are given, the windows are in time order and more than `gap` apart. */
  lemma {:induction false} FoldSeparated(ivs: seq<Window>, gap: real, t: real)
    requires gap >= 0.0 && Ordered(ivs, ByStart) && forall a :: a in ivs ==> a.start <= t
    ensures Separated(Fold(ivs, gap), gap) && StartBy(Fold(ivs, gap), t)
  {
    if ivs != [] {
      var n := |ivs| - 1;
      FoldSeparated(ivs[..n], gap, t);
      ElementsSplit(ivs);
      var out, x := Fold(ivs[..n], gap), Upright(ivs[n]);
      if out != [] && x.start - out[|out| - 1].end <= gap {
        var wide := Window(out[|out| - 1].start, Max(out[|out| - 1].end, x.end));
        assert Fold(ivs, gap) == out[..|out| - 1] + [wide];
        WidenedSeparated(out, Fold(ivs, gap), wide, gap);
        WidenedMembers(out, Fold(ivs, gap), wide, gap);
      } else {
        AppendedSeparated(out, x, gap);
      }
    }
  }

  /** Extending or appending neither loses nor regains what came before. */
  lemma {:induction false} CoverKept(out: seq<Window>, gap: real, x: Window, a: Window)
    requires gap >= 0.0 && Separated(out, gap) && a.start <= a.end
    requires out != [] && a.end <= out[|out| - 1].end
    ensures Covered(Absorb(out, x, gap), a) <==> Covered(out, a)
  {
    var out' := Absorb(out, x, gap);
    var n := |out| - 1;
    if Covered(out, a) {
      var i :| 0 <= i <= n && Covers(out[i], a);
      assert Covers(out'[i], a);
    }
    if Covered(out', a) {
      var i :| 0 <= i < |out'| && Covers(out'[i], a);
      assert i <= n && Covers(out[i], a);
    }
  }

  lemma {:induction false} NewCovered(out: seq<Window>, gap: real, x: Window)
    requires gap >= 0.0 && Separated(out, gap) && x.start <= x.end && StartBy(out, x.end)
    ensures Covered(Absorb(out, x, gap), x) <==> out == [] || out[|out| - 1].start <= x.start
  {
    var out' := Absorb(out, x, gap);
    assert out'[|out'| - 1] in out';
    if out != [] && Covered(out', x) {
      var i :| 0 <= i < |out'| && Covers(out'[i], x);
      assert out[|out| - 1] in out;
    }
  }

  lemma {:induction false} FoldCovers(ivs: seq<Window>, gap: real)
    requires gap >= 0.0 && Ordered(ivs, ByStart)
    ensures AllCovered(Fold(ivs, gap), ivs) <==> Forward(ivs, gap)
  {
    if ivs != [] {
      var n := |ivs| - 1;
      var x := ivs[n];
      var out := Fold(ivs[..n], gap);
      ElementsSplit(ivs);
      FoldCovers(ivs[..n], gap);
      forall a | a in ivs[..n] ensures a.start <= x.start {
        assert a in Elements(ivs[..n]);
      }
      FoldSeparated(ivs[..n], gap, x.start);
      FoldEnds(ivs[..n], gap);
      NewCovered(out, gap, Upright(x));
      forall a | a in ivs[..n]
        ensures Covered(Fold(ivs, gap), Upright(a)) <==> Covered(out, Upright(a))
      {
        CoverKept(out, gap, Upright(x), Upright(a));
      }
      assert forall a :: a in ivs <==> a in ivs[..n] || a == x by {
        assert forall a :: a in Elements(ivs) <==> a in Elements(ivs[..n]) || a == x;
      }
    }
  }

  /** Interval `i` of the sorted list lies more than `gap` after the end of every earlier one. */
  ghost predicate Opens(ivs: seq<Window>, gap: real, i: nat)
    requires i < |ivs|
  {
    forall k :: 0 <= k < i ==> Upright(ivs[i]).start - Upright(ivs[k]).end > gap
  }

  ghost predicate NotBehind(ivs: seq<Window>, gap: real, i: nat, j: nat)
    requires i < j < |ivs|
  {
    Opens(ivs, gap, i) ==> Upright(ivs[i]).start <= Upright(ivs[j]).start
  }

  /** After an interval that lies beyond all earlier ones, none begins before it. */
  ghost predicate NoneReachesBack(ivs: seq<Window>, gap: real) {
    forall i: nat, j: nat :: i < j < |ivs| ==> NotBehind(ivs, gap, i, j)
  }

  ghost predicate LatestOpener(ivs: seq<Window>, gap: real, i: nat)
    requires i < |ivs|
  {
    Opens(ivs, gap, i) && forall k: nat :: i < k < |ivs| ==> !Opens(ivs, gap, k)
  }

  lemma {:induction false} LatestOpenerExtends(ivs: seq<Window>, gap: real, i: nat)
    requires i < |ivs| - 1 && LatestOpener(ivs[..|ivs| - 1], gap, i)
    ensures LatestOpener(ivs, gap, if Opens(ivs, gap, |ivs| - 1) then |ivs| - 1 else i)
  {
    forall k: nat | k < |ivs| - 1 ensures Opens(ivs[..|ivs| - 1], gap, k) <==> Opens(ivs, gap, k) {
      OpensInPrefix(ivs, gap, |ivs| - 1, k);
    }
    hide Opens;
  }

  /** The last window begins with interval `i`, the last one that lies beyond all before it, and ends
      where the latest interval does. */
  ghost predicate LastOpener(ivs: seq<Window>, gap: real, i: nat) {
    && i < |ivs| && LatestOpener(ivs, gap, i)
    && Fold(ivs, gap) != []
    && Fold(ivs, gap)[|Fold(ivs, gap)| - 1].start == Upright(ivs[i]).start
    && EndsWithin(Fold(ivs, gap), ivs)
    && SomeEndsAt(ivs, LastEnd(Fold(ivs, gap)))
  }

  ghost predicate SomeEndsAt(ivs: seq<Window>, t: real) {
    exists k :: 0 <= k < |ivs| && Upright(ivs[k]).end == t
  }

  lemma {:induction false} OpensInPrefix(ivs: seq<Window>, gap: real, n: nat, i: nat)
    requires i < n <= |ivs|
    ensures Opens(ivs[..n], gap, i) <==> Opens(ivs, gap, i)
  {
    forall k | 0 <= k <= i ensures ivs[..n][k] == ivs[k] {
    }
  }

  lemma FirstWindow(ivs: seq<Window>, gap: real)
    requires |ivs| == 1
    ensures LastOpener(ivs, gap, 0)
  {
    assert Fold(ivs[..0], gap) == [];
    assert Fold(ivs, gap) == [Upright(ivs[0])];
  }

  lemma {:induction false} LastWindowOpener(ivs: seq<Window>, gap: real) returns (i: nat)
    requires gap >= 0.0 && ivs != []
    ensures LastOpener(ivs, gap, i)
  {
    var n := |ivs| - 1;
    if n == 0 {
      FirstWindow(ivs, gap);
      return 0;
    }
    hide Opens, LatestOpener, EndsWithin, SomeEndsAt, Fold, Absorb;
    i := LastWindowOpener(ivs[..n], gap);
    var before := Fold(ivs[..n], gap);
    FoldEnds(ivs, gap);
    FoldEnds(ivs[..n], gap);
    OpensAtEnd(ivs, gap, before);
    LatestOpenerExtends(ivs, gap, i);
    LatestEnd(ivs, gap);
    LatestStart(ivs, gap);
    assert ivs[..n][i] == ivs[i];
    if Opens(ivs, gap, n) {
      i := n;
    }
  }

  lemma {:induction false} LatestStart(ivs: seq<Window>, gap: real)
    requires |ivs| > 1 && Fold(ivs[..|ivs| - 1], gap) != []
    ensures var before, after, x := Fold(ivs[..|ivs| - 1], gap), Fold(ivs, gap), Upright(ivs[|ivs| - 1]);
            && after != []
            && after[|after| - 1].start
               == if x.start - before[|before| - 1].end <= gap then before[|before| - 1].start else x.start
  {
  }

  lemma {:induction false} LatestEnd(ivs: seq<Window>, gap: real)
    requires |ivs| > 1 && SomeEndsAt(ivs[..|ivs| - 1], LastEnd(Fold(ivs[..|ivs| - 1], gap)))
    requires Fold(ivs[..|ivs| - 1], gap) != []
    ensures Fold(ivs, gap) != [] && SomeEndsAt(ivs, LastEnd(Fold(ivs, gap)))
  {
    var n := |ivs| - 1;
    var before := Fold(ivs[..n], gap);
    var e :| 0 <= e < n && Upright(ivs[..n][e]).end == LastEnd(before);
    assert Upright(ivs[e]).end == LastEnd(before);
    assert Upright(ivs[n]).end == LastEnd(Fold(ivs, gap)) || LastEnd(before) == LastEnd(Fold(ivs, gap));
  }

  function LastEnd(out: seq<Window>): real {
    if out == [] then 0.0 else out[|out| - 1].end
  }

  /** The last interval opens a window exactly when it lies beyond the end of the last one so far. */
  lemma {:induction false} OpensAtEnd(ivs: seq<Window>, gap: real, before: seq<Window>)
    requires |ivs| > 1 && before != [] && EndsWithin(before, ivs[..|ivs| - 1])
    requires SomeEndsAt(ivs[..|ivs| - 1], before[|before| - 1].end)
    ensures Opens(ivs, gap, |ivs| - 1) <==> Upright(ivs[|ivs| - 1]).start - before[|before| - 1].end > gap
  {
    var n := |ivs| - 1;
    var k :| 0 <= k < n && Upright(ivs[..n][k]).end == before[|before| - 1].end;
    forall m | 0 <= m < n ensures Upright(ivs[m]).end <= before[|before| - 1].end {
      assert ivs[..n][m] in ivs[..n];
    }
  }

  lemma {:induction false} NotBehindInPrefix(ivs: seq<Window>, gap: real, n: nat, i: nat, j: nat)
    requires i < j < n <= |ivs|
    ensures NotBehind(ivs[..n], gap, i, j) <==> NotBehind(ivs, gap, i, j)
  {
    OpensInPrefix(ivs, gap, n, i);
    assert ivs[..n][i] == ivs[i] && ivs[..n][j] == ivs[j];
  }

  /** Only the last opener matters for one more interval: it begins no earlier than those before it. */
  lemma {:induction false} BehindLastOpener(ivs: seq<Window>, gap: real, i: nat, k: nat)
    requires ivs != [] && LastOpener(ivs[..|ivs| - 1], gap, i) && k < |ivs| - 1
    requires NoneReachesBack(ivs[..|ivs| - 1], gap) && Upright(ivs[i]).start <= Upright(ivs[|ivs| - 1]).start
    ensures NotBehind(ivs, gap, k, |ivs| - 1)
  {
    var n := |ivs| - 1;
    OpensInPrefix(ivs, gap, n, k);
    assert ivs[..n][i] == ivs[i] && ivs[..n][k] == ivs[k];
    if k < i {
      assert NotBehind(ivs[..n], gap, k, i);
    }
  }

  lemma {:induction false} ReachesBackOneMore(ivs: seq<Window>, gap: real, i: nat)
    requires ivs != [] && LastOpener(ivs[..|ivs| - 1], gap, i)
    ensures NoneReachesBack(ivs, gap)
        <==> NoneReachesBack(ivs[..|ivs| - 1], gap) && Upright(ivs[i]).start <= Upright(ivs[|ivs| - 1]).start
  {
    var n := |ivs| - 1;
    forall k: nat, j: nat | k < j < n ensures NotBehind(ivs[..n], gap, k, j) <==> NotBehind(ivs, gap, k, j) {
      NotBehindInPrefix(ivs, gap, n, k, j);
    }
    OpensInPrefix(ivs, gap, n, i);
    var reaches := NoneReachesBack(ivs[..n], gap) && Upright(ivs[i]).start <= Upright(ivs[n]).start;
    if reaches {
      forall k: nat | k < n ensures NotBehind(ivs, gap, k, n) {
        BehindLastOpener(ivs, gap, i, k);
      }
    }
    if NoneReachesBack(ivs, gap) {
      assert NotBehind(ivs, gap, i, n);
    }
  }

  /** Said of the inputs alone: no interval begins before the window it extends exactly when none
      reaches back behind one that lay beyond all before it. */
  lemma {:induction false} ForwardOnInputs(ivs: seq<Window>, gap: real)
    requires gap >= 0.0
    ensures Forward(ivs, gap) <==> NoneReachesBack(ivs, gap)
  {
    if |ivs| == 1 {
      assert ivs[..0] == [];
    } else if |ivs| > 1 {
      var n := |ivs| - 1;
      ForwardOnInputs(ivs[..n], gap);
      var i := LastWindowOpener(ivs[..n], gap);
      assert ivs[..n][i] == ivs[i];
      ReachesBackOneMore(ivs, gap, i);
    }
  }

  /** For any intervals, given either way round, the merged windows cover them all exactly when, in
      order of their given starts, no interval reaches back behind one that lies more than `gap` beyond
      all before it. In any case the windows stay in order and apart. */
  lemma CoveredExactlyWhen(ivs: seq<Window>, gap: real)
    requires gap >= 0.0
    ensures AllCovered(Merged(ivs, gap), ivs) <==> NoneReachesBack(Sort(ivs, ByStart), gap)
    ensures Separated(Merged(ivs, gap), gap)
  {
    var order := Sort(ivs, ByStart);
    SortOrders(ivs, ByStart);
    SortMembers(ivs, ByStart);
    FoldCovers(order, gap);
    ForwardOnInputs(order, gap);
    OrderedSeparated(order, gap);
    hide Fold, Sort, Forward, NoneReachesBack, Separated, Ordered;
    assert AllCovered(Merged(ivs, gap), ivs) <==> AllCovered(Merged(ivs, gap), order);
  }

  lemma OrderedSeparated(order: seq<Window>, gap: real)
    requires gap >= 0.0 && Ordered(order, ByStart)
    ensures Separated(Fold(order, gap), gap)
  {
    if order != [] {
      forall a | a in order ensures a.start <= order[|order| - 1].start {
        var i :| 0 <= i < |order| && order[i] == a;
        assert i < |order| - 1 ==> ByStart(order[i]) <= ByStart(order[|order| - 1]);
      }
      FoldSeparated(order, gap, order[|order| - 1].start);
    }
  }

  /** Such an input: of the backwards interval from 10 to 0 the first five seconds are lost. */
  lemma BackwardsIntervalLost()
    ensures Merged([Window(10.0, 0.0), Window(5.0, 6.0)], 0.0) == [Window(5.0, 10.0)]
    ensures !AllCovered(Merged([Window(10.0, 0.0), Window(5.0, 6.0)], 0.0), [Window(10.0, 0.0), Window(5.0, 6.0)])
  {
    var ivs := [Window(10.0, 0.0), Window(5.0, 6.0)];
    assert ivs[1..] == [Window(5.0, 6.0)] && ivs[1..][1..] == [];
    assert Sort(ivs[1..], ByStart) == [Window(5.0, 6.0)];
    var order := Sort(ivs, ByStart);
    assert order == [Window(5.0, 6.0), Window(10.0, 0.0)];
    assert order[..1] == [Window(5.0, 6.0)] && order[..1][..0] == [];
    assert Fold(order[..1], 0.0) == [Window(5.0, 6.0)];
    assert Merged(ivs, 0.0) == [Window(5.0, 10.0)];
    assert ivs[0] in ivs && Upright(ivs[0]) == Window(0.0, 10.0);
  }
}
