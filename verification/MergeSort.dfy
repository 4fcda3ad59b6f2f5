/**
 * The bottom-up merge sort of a singly linked list that relinks the nodes in
 * place (LL_SORT2 in utlist.h). The nodes are numbered; their next pointers
 * are the elements of an array, and NIL stands for the null pointer.
 */
module MergeSort {

  const NIL := -1

  type Cmp = (int, int) -> int

  ghost predicate Total(cmp: Cmp) { forall a, b :: cmp(a, b) <= 0 || cmp(b, a) <= 0 }

  ghost predicate Transitive(cmp: Cmp)
  {
    forall a, b, c :: cmp(a, b) <= 0 && cmp(b, c) <= 0 ==> cmp(a, c) <= 0
  }

  // ----- what a pass computes -----

  /** The node of the first run goes first unless the other is less. */
  function Merge(cmp: Cmp, a: seq<int>, b: seq<int>): (r: seq<int>)
    ensures |r| == |a| + |b|
    decreases |a| + |b|
  {
    if a == [] then b
    else if b == [] then a
    else if cmp(a[0], b[0]) <= 0 then [a[0]] + Merge(cmp, a[1..], b)
    else [b[0]] + Merge(cmp, a, b[1..])
  }

  function Min(a: nat, b: nat): nat { if a <= b then a else b }

  /** Merges neighbouring runs of k nodes, pair by pair. */
  function Pass(cmp: Cmp, s: seq<int>, k: nat): (r: seq<int>)
    requires k > 0
    ensures |r| == |s|
    decreases |s|
  {
    if s == [] then []
    else
      var m := Min(k, |s|);
      var n := m + Min(k, |s| - m);
      Merge(cmp, s[..m], s[m..n]) + Pass(cmp, s[n..], k)
  }

  /** Passes with runs of doubled length until one merge is enough. */
  function SortFrom(cmp: Cmp, s: seq<int>, k: nat): (r: seq<int>)
    requires k > 0
    ensures |r| == |s|
    decreases if |s| <= 2 * k then 0 else |s| - 2 * k
  {
    var t := Pass(cmp, s, k);
    if |s| <= 2 * k then t else SortFrom(cmp, t, 2 * k)
  }

  function Sorted(cmp: Cmp, s: seq<int>): seq<int> { SortFrom(cmp, s, 1) }

  // ----- sorted, stable, a permutation -----

  /** The order of a stable sort: pos is the place in the original list. */
  predicate Before(cmp: Cmp, pos: int -> int, a: int, b: int)
  {
    cmp(a, b) <= 0 && (cmp(b, a) <= 0 ==> pos(a) < pos(b))
  }

  ghost predicate InOrder(cmp: Cmp, pos: int -> int, s: seq<int>)
  {
    forall i, j :: 0 <= i < j < |s| ==> Before(cmp, pos, s[i], s[j])
  }

  ghost predicate Increasing(pos: int -> int, s: seq<int>)
  {
    forall i, j :: 0 <= i < j < |s| ==> pos(s[i]) < pos(s[j])
  }

  lemma BeforeTransitive(cmp: Cmp, pos: int -> int, a: int, b: int, c: int)
    requires Transitive(cmp) && Before(cmp, pos, a, b) && Before(cmp, pos, b, c)
    ensures Before(cmp, pos, a, c)
  {
  }

  /** x comes before all of s. */
  ghost predicate Heads(cmp: Cmp, pos: int -> int, x: int, s: seq<int>)
  {
    forall y :: y in s ==> Before(cmp, pos, x, y)
  }

  lemma HeadFirst(cmp: Cmp, pos: int -> int, x: int, s: seq<int>)
    requires InOrder(cmp, pos, s) && Heads(cmp, pos, x, s)
    ensures InOrder(cmp, pos, [x] + s)
  {
    var t := [x] + s;
    forall i, j | 0 <= i < j < |t| ensures Before(cmp, pos, t[i], t[j]) {
      assert t[j] == s[j - 1];
      if i == 0 {
        assert s[j - 1] in s;
      } else {
        assert t[i] == s[i - 1];
      }
    }
  }

  lemma Bag(s: seq<int>)
    requires s != []
    ensures multiset(s) == multiset{s[0]} + multiset(s[1..])
  {
    assert s == [s[0]] + s[1..];
  }

  lemma BagOfJoin(a: seq<int>, b: seq<int>)
    ensures multiset(a + b) == multiset(a) + multiset(b)
  {
  }

  lemma MergeUnfolds(cmp: Cmp, a: seq<int>, b: seq<int>)
    ensures a == [] ==> Merge(cmp, a, b) == b
    ensures b == [] ==> Merge(cmp, a, b) == a
    ensures a != [] && b != [] ==>
              Merge(cmp, a, b) == if cmp(a[0], b[0]) <= 0 then [a[0]] + Merge(cmp, a[1..], b)
                                  else [b[0]] + Merge(cmp, a, b[1..])
  {
  }

  lemma {:induction false} MergeElements(cmp: Cmp, a: seq<int>, b: seq<int>)
    ensures multiset(Merge(cmp, a, b)) == multiset(a) + multiset(b)
    decreases |a| + |b|
  {
    if a != [] && b != [] {
      hide Merge;
      MergeUnfolds(cmp, a, b);
      if cmp(a[0], b[0]) <= 0 {
        MergeElements(cmp, a[1..], b);
        BagOfJoin([a[0]], Merge(cmp, a[1..], b));
        Bag(a);
      } else {
        MergeElements(cmp, a, b[1..]);
        BagOfJoin([b[0]], Merge(cmp, a, b[1..]));
        Bag(b);
      }
    }
  }

  lemma InMerge(cmp: Cmp, a: seq<int>, b: seq<int>, y: int)
    requires y in Merge(cmp, a, b)
    ensures y in a || y in b
  {
    MergeElements(cmp, a, b);
    assert y in multiset(Merge(cmp, a, b));
    assert y in multiset(a) || y in multiset(b);
  }

  /** Everything of b comes later in the original list than everything of a. */
  ghost predicate Apart(pos: int -> int, a: seq<int>, b: seq<int>)
  {
    forall x, y :: x in a && y in b ==> pos(x) < pos(y)
  }

  lemma {:induction false} MergeInOrder(cmp: Cmp, pos: int -> int, a: seq<int>, b: seq<int>)
    requires Total(cmp) && Transitive(cmp) && InOrder(cmp, pos, a) && InOrder(cmp, pos, b) && Apart(pos, a, b)
    ensures InOrder(cmp, pos, Merge(cmp, a, b))
    decreases |a| + |b|
  {
    if a != [] && b != [] {
      var x, y := a[0], b[0];
      if cmp(x, y) <= 0 {
        var rest := Merge(cmp, a[1..], b);
        assert Before(cmp, pos, x, y);
        MergeInOrder(cmp, pos, a[1..], b);
        forall z | z in rest ensures Before(cmp, pos, x, z) {
          InMerge(cmp, a[1..], b, z);
          LeadsAll(cmp, pos, x, a, b, z);
        }
        HeadFirst(cmp, pos, x, rest);
      } else {
        var rest := Merge(cmp, a, b[1..]);
        assert Before(cmp, pos, y, x);
        MergeInOrder(cmp, pos, a, b[1..]);
        forall z | z in rest ensures Before(cmp, pos, y, z) {
          InMerge(cmp, a, b[1..], z);
          LeadsAll(cmp, pos, y, b, a, z);
        }
        HeadFirst(cmp, pos, y, rest);
      }
    }
  }

  /** The head of a, before the head of b, is before all the rest. */
  lemma LeadsAll(cmp: Cmp, pos: int -> int, x: int, a: seq<int>, b: seq<int>, z: int)
    requires Transitive(cmp) && a != [] && b != [] && a[0] == x && Before(cmp, pos, x, b[0])
    requires InOrder(cmp, pos, a) && InOrder(cmp, pos, b) && (z in a[1..] || z in b)
    ensures Before(cmp, pos, x, z)
  {
    if z in a[1..] {
      var i :| 0 <= i < |a[1..]| && a[1..][i] == z;
      assert a[i + 1] == z;
    } else {
      var i :| 0 <= i < |b| && b[i] == z;
      if i > 0 {
        BeforeTransitive(cmp, pos, x, b[0], z);
      }
    }
  }

  // ----- runs -----

  /** s is made of runs of k nodes, each the original one put in order. */
  ghost predicate Runs(cmp: Cmp, pos: int -> int, s: seq<int>, original: seq<int>, k: nat)
    requires k > 0
    decreases |s|
  {
    && |s| == |original|
    && (s != [] ==>
          var m := Min(k, |s|);
          && InOrder(cmp, pos, s[..m]) && multiset(s[..m]) == multiset(original[..m])
          && Runs(cmp, pos, s[m..], original[m..], k))
  }

  lemma {:induction false} SingleRuns(cmp: Cmp, pos: int -> int, s: seq<int>)
    ensures Runs(cmp, pos, s, s, 1)
    decreases |s|
  {
    if s != [] {
      SingleRuns(cmp, pos, s[1..]);
    }
  }

  lemma ApartSlices(pos: int -> int, s: seq<int>, a: seq<int>, b: seq<int>, m: nat, n: nat)
    requires m <= n <= |s| && Increasing(pos, s)
    requires multiset(a) == multiset(s[..m]) && multiset(b) == multiset(s[m..n])
    ensures Apart(pos, a, b)
  {
    forall x, y | x in a && y in b ensures pos(x) < pos(y) {
      assert x in multiset(a) && y in multiset(b);
      assert x in s[..m] && y in s[m..n];
      var i :| 0 <= i < m && s[..m][i] == x;
      var j :| 0 <= j < n - m && s[m..n][j] == y;
      assert s[i] == x && s[m + j] == y;
    }
  }

  /** One pass doubles the length of the runs. */
  lemma {:induction false} PassDoubles(cmp: Cmp, pos: int -> int, s: seq<int>, original: seq<int>, k: nat)
    requires k > 0 && Total(cmp) && Transitive(cmp) && Increasing(pos, original) && Runs(cmp, pos, s, original, k)
    ensures Runs(cmp, pos, Pass(cmp, s, k), original, 2 * k)
    decreases |s|
  {
    if s != [] {
      hide Runs, InOrder, Merge, Increasing, Total, Transitive, Pass;
      var m := Min(k, |s|);
      var n := m + Min(k, |s| - m);
      SecondRun(cmp, pos, s, original, k, m, n);
      IncreasingTail(pos, original, n);
      PassDoubles(cmp, pos, s[n..], original[n..], k);
      PairMerged(cmp, pos, s, original, k, m, n);
    }
  }

  /** The first two runs merged, and the rest done. */
  lemma PairMerged(cmp: Cmp, pos: int -> int, s: seq<int>, o: seq<int>, k: nat, m: nat, n: nat)
    requires k > 0 && s != [] && |s| == |o| && m == Min(k, |s|) && n == m + Min(k, |s| - m)
    requires Total(cmp) && Transitive(cmp) && Increasing(pos, o)
    requires InOrder(cmp, pos, s[..m]) && multiset(s[..m]) == multiset(o[..m])
    requires InOrder(cmp, pos, s[m..n]) && multiset(s[m..n]) == multiset(o[m..n])
    requires Runs(cmp, pos, Pass(cmp, s[n..], k), o[n..], 2 * k)
    ensures Runs(cmp, pos, Pass(cmp, s, k), o, 2 * k)
  {
    hide Runs, InOrder, Merge, Increasing, Total, Transitive, Pass;
    var f, r := Merge(cmp, s[..m], s[m..n]), Pass(cmp, s[n..], k);
    MergedRun(cmp, pos, s[..m], s[m..n], o, m, n);
    PassUnfolds(cmp, s, k);
    FirstRun(cmp, pos, f, r, o, 2 * k);
  }

  lemma MergedRun(cmp: Cmp, pos: int -> int, a: seq<int>, b: seq<int>, o: seq<int>, m: nat, n: nat)
    requires m <= n <= |o| && Total(cmp) && Transitive(cmp) && Increasing(pos, o)
    requires InOrder(cmp, pos, a) && InOrder(cmp, pos, b) && multiset(a) == multiset(o[..m]) && multiset(b) == multiset(o[m..n])
    ensures InOrder(cmp, pos, Merge(cmp, a, b)) && multiset(Merge(cmp, a, b)) == multiset(o[..n])
  {
    hide InOrder, Merge, Increasing, Total, Transitive, Apart;
    ApartSlices(pos, o, a, b, m, n);
    MergeInOrder(cmp, pos, a, b);
    MergeElements(cmp, a, b);
    BagOfJoin(o[..m], o[m..n]);
    assert o[..n] == o[..m] + o[m..n];
  }

  lemma TwoParts(a: seq<int>, b: seq<int>)
    ensures (a + b)[..|a|] == a && (a + b)[|a|..] == b
  {
  }

  lemma PassUnfolds(cmp: Cmp, s: seq<int>, k: nat)
    requires k > 0 && s != []
    ensures var m := Min(k, |s|); var n := m + Min(k, |s| - m);
            Pass(cmp, s, k) == Merge(cmp, s[..m], s[m..n]) + Pass(cmp, s[n..], k) && n == Min(2 * k, |s|)
  {
    hide Merge;
  }

  lemma IncreasingTail(pos: int -> int, s: seq<int>, n: nat)
    requires Increasing(pos, s) && n <= |s|
    ensures Increasing(pos, s[n..])
  {
  }

  lemma FirstRun(cmp: Cmp, pos: int -> int, f: seq<int>, r: seq<int>, o: seq<int>, k: nat)
    requires k > 0 && f + r != [] && |f + r| == |o| && |f| == Min(k, |f + r|)
    requires InOrder(cmp, pos, f) && multiset(f) == multiset(o[..|f|]) && Runs(cmp, pos, r, o[|f|..], k)
    ensures Runs(cmp, pos, f + r, o, k)
  {
    hide InOrder;
    TwoParts(f, r);
  }

  lemma SecondRun(cmp: Cmp, pos: int -> int, s: seq<int>, o: seq<int>, k: nat, m: nat, n: nat)
    requires k > 0 && s != [] && Runs(cmp, pos, s, o, k) && m == Min(k, |s|) && n == m + Min(k, |s| - m)
    ensures |s| == |o| && InOrder(cmp, pos, s[..m]) && multiset(s[..m]) == multiset(o[..m])
    ensures InOrder(cmp, pos, s[m..n]) && multiset(s[m..n]) == multiset(o[m..n])
    ensures Runs(cmp, pos, s[n..], o[n..], k)
  {
    RunsUnfold(cmp, pos, s, o, k);
    hide Runs, InOrder;
    if m < |s| {
      RunsUnfold(cmp, pos, s[m..], o[m..], k);
      Slices(s, m, n);
      Slices(o, m, n);
    } else {
      NoRun(cmp, pos, s, o, k, m);
    }
  }

  lemma Slices(s: seq<int>, m: nat, n: nat)
    requires m <= n <= |s|
    ensures s[m..][..n - m] == s[m..n] && s[m..][n - m..] == s[n..]
  {
  }

  lemma NoRun(cmp: Cmp, pos: int -> int, s: seq<int>, o: seq<int>, k: nat, m: nat)
    requires k > 0 && m == |s| == |o|
    ensures s[m..m] == [] && o[m..m] == [] && InOrder(cmp, pos, []) && Runs(cmp, pos, s[m..], o[m..], k)
  {
  }

  lemma RunsUnfold(cmp: Cmp, pos: int -> int, s: seq<int>, o: seq<int>, k: nat)
    requires k > 0 && s != [] && Runs(cmp, pos, s, o, k)
    ensures |s| == |o|
    ensures var m := Min(k, |s|);
            && InOrder(cmp, pos, s[..m]) && multiset(s[..m]) == multiset(o[..m])
            && Runs(cmp, pos, s[m..], o[m..], k)
  {
    hide InOrder;
  }

  lemma {:induction false} SortsFrom(cmp: Cmp, pos: int -> int, s: seq<int>, original: seq<int>, k: nat)
    requires k > 0 && Total(cmp) && Transitive(cmp) && Increasing(pos, original) && Runs(cmp, pos, s, original, k)
    ensures InOrder(cmp, pos, SortFrom(cmp, s, k)) && multiset(SortFrom(cmp, s, k)) == multiset(original)
    decreases if |s| <= 2 * k then 0 else |s| - 2 * k
  {
    PassDoubles(cmp, pos, s, original, k);
    var t := Pass(cmp, s, k);
    if |s| <= 2 * k {
      assert t[..|t|] == t && original[..|t|] == original;
    } else {
      SortsFrom(cmp, pos, t, original, 2 * k);
    }
  }

  /** The sorted list: a permutation, in order, and equal nodes as they came. */
  lemma SortsStably(cmp: Cmp, pos: int -> int, s: seq<int>)
    requires Total(cmp) && Transitive(cmp) && Increasing(pos, s)
    ensures var r := Sorted(cmp, s);
            && multiset(r) == multiset(s)
            && forall i, j :: 0 <= i < j < |r| ==>
                                cmp(r[i], r[j]) <= 0 && (cmp(r[j], r[i]) <= 0 ==> pos(r[i]) < pos(r[j]))
  {
    SingleRuns(cmp, pos, s);
    SortsFrom(cmp, pos, s, s, 1);
    var r := Sorted(cmp, s);
    forall i, j | 0 <= i < j < |r|
      ensures cmp(r[i], r[j]) <= 0 && (cmp(r[j], r[i]) <= 0 ==> pos(r[i]) < pos(r[j]))
    {
      assert Before(cmp, pos, r[i], r[j]);
    }
  }

  // ----- lists -----

  predicate IsNode(next: seq<int>, x: int) { 0 <= x < |next| }

  ghost predicate Nodes(next: seq<int>, s: seq<int>)
  {
    && (forall i :: 0 <= i < |s| ==> IsNode(next, s[i]))
    && (forall i, j :: 0 <= i < j < |s| ==> s[i] != s[j])
  }

  /** Each node of s points to the one behind it. */
  ghost predicate Linked(next: seq<int>, s: seq<int>)
  {
    forall i :: 0 <= i < |s| - 1 ==> IsNode(next, s[i]) && next[s[i]] == s[i + 1]
  }

  function First(s: seq<int>): int { if s == [] then NIL else s[0] }

  function Last(s: seq<int>): int { if s == [] then NIL else s[|s| - 1] }

  /** The list that starts at p and ends with a null pointer has exactly these nodes. */
  ghost predicate IsList(next: seq<int>, p: int, s: seq<int>)
  {
    && Nodes(next, s) && Linked(next, s) && p == First(s)
    && (s != [] ==> next[Last(s)] == NIL)
  }

  /** A pointer changed in a node that is not in s. */
  lemma LinkedStays(next: seq<int>, s: seq<int>, x: int, v: int)
    requires Linked(next, s) && IsNode(next, x) && x !in s
    ensures Linked(next[x := v], s)
  {
  }

  lemma ListStays(next: seq<int>, p: int, s: seq<int>, x: int, v: int)
    requires IsList(next, p, s) && IsNode(next, x) && x !in s
    ensures IsList(next[x := v], p, s)
  {
    LinkedStays(next, s, x, v);
  }

  /** The state inside a pass: what was put out, the rest of both runs, and what is behind them. */
  ghost predicate Parts(next: seq<int>, list: int, tail: int, p: int, q: int,
                        done: seq<int>, a: seq<int>, b: seq<int>, r: seq<int>)
  {
    && Nodes(next, done + a + b + r)
    && Linked(next, done) && list == First(done) && tail == Last(done)
    && Linked(next, a) && (a != [] ==> p == a[0])
    && IsList(next, q, b + r)
  }

  lemma NodesParts(next: seq<int>, done: seq<int>, a: seq<int>, rest: seq<int>)
    requires Nodes(next, done + a + rest)
    ensures Nodes(next, done) && Nodes(next, a) && Nodes(next, rest)
    ensures forall x :: x in done ==> x !in a && x !in rest
    ensures forall x :: x in a ==> x !in rest
  {
    var all := done + a + rest;
    assert forall i :: 0 <= i < |done| ==> all[i] == done[i];
    assert forall i :: 0 <= i < |a| ==> all[|done| + i] == a[i];
    assert forall i :: 0 <= i < |rest| ==> all[|done| + |a| + i] == rest[i];
  }

  /** Appending a node behind the tail. */
  lemma LinkTail(next: seq<int>, done: seq<int>, e: int)
    requires Nodes(next, done) && Linked(next, done) && done != [] && IsNode(next, e)
    ensures Linked(next[Last(done) := e], done + [e])
  {
    var n := next[Last(done) := e];
    forall i | 0 <= i < |done + [e]| - 1
      ensures IsNode(n, (done + [e])[i]) && n[(done + [e])[i]] == (done + [e])[i + 1]
    {
      if i < |done| - 1 {
        assert done[i] != Last(done);
      }
    }
  }

  lemma LinkedTail(next: seq<int>, s: seq<int>)
    requires s != [] && Linked(next, s)
    ensures Linked(next, s[1..]) && (|s| > 1 ==> IsNode(next, s[0]) && next[s[0]] == s[1])
  {
  }

  lemma ListTail(next: seq<int>, p: int, s: seq<int>)
    requires s != [] && IsList(next, p, s)
    ensures IsNode(next, p) && p == s[0] && IsList(next, next[p], s[1..])
  {
    if |s| > 1 {
      assert Last(s[1..]) == Last(s);
      assert next[s[0]] == s[1];
    }
  }

  /** The step from the first run: p moves on, its old node goes behind the tail. */
  lemma TakeA(next: seq<int>, list: int, tail: int, p: int, q: int,
              done: seq<int>, a: seq<int>, b: seq<int>, r: seq<int>)
    requires Parts(next, list, tail, p, q, done, a, b, r) && a != []
    ensures IsNode(next, p) && (done != [] ==> IsNode(next, tail))
    ensures var next' := if done == [] then next else next[tail := p];
            Parts(next', if done == [] then p else list, p, next[p], q, done + [p], a[1..], b, r)
  {
    var e, rest := p, b + r;
    assert done + a + b + r == done + a + rest;
    NodesParts(next, done, a, rest);
    LinkedTail(next, a);
    assert (done + [e]) + a[1..] + b + r == done + a + b + r;
    assert a == [e] + a[1..] && e in a;
    if done != [] {
      assert tail in done;
      LinkTail(next, done, e);
      LinkedStays(next, a[1..], tail, e);
      ListStays(next, q, rest, tail, e);
    }
  }

  /** The step from the second run. */
  lemma TakeB(next: seq<int>, list: int, tail: int, p: int, q: int,
              done: seq<int>, a: seq<int>, b: seq<int>, r: seq<int>)
    requires Parts(next, list, tail, p, q, done, a, b, r) && b != []
    ensures IsNode(next, q) && q == b[0] && (done != [] ==> IsNode(next, tail))
    ensures var next' := if done == [] then next else next[tail := q];
            Parts(next', if done == [] then q else list, q, p, next[q], done + [q], a, b[1..], r)
  {
    var e, rest := q, b + r;
    assert done + a + b + r == done + a + rest;
    NodesParts(next, done, a, rest);
    ListTail(next, q, rest);
    assert rest[1..] == b[1..] + r;
    assert rest == [e] + rest[1..];
    if done != [] {
      assert tail in done;
      LinkTail(next, done, e);
      LinkedStays(next, a, tail, e);
      ListStays(next, next[q], rest[1..], tail, e);
    }
    Reordered(next, done, a, e, rest[1..]);
    assert (done + [e]) + a + b[1..] + r == (done + [e]) + a + rest[1..];
  }

  lemma Reordered(next: seq<int>, done: seq<int>, a: seq<int>, e: int, rest: seq<int>)
    requires Nodes(next, done + a + ([e] + rest))
    ensures Nodes(next, (done + [e]) + a + rest)
  {
    var s, t := done + a + ([e] + rest), (done + [e]) + a + rest;
    var d, n := |done|, |done| + |a|;
    forall i | 0 <= i < |t| ensures t[i] == s[Source(d, n, i)] && IsNode(next, t[i]) {
    }
    forall i, j | 0 <= i < j < |t| ensures t[i] != t[j] {
      assert t[i] == s[Source(d, n, i)] && t[j] == s[Source(d, n, j)];
      assert Source(d, n, i) != Source(d, n, j);
    }
  }

  /** Where the element at i came from when the one at n moved to d. */
  function Source(d: nat, n: nat, i: nat): nat
  {
    if i < d then i else if i == d then n else if i <= n then i - 1 else i
  }

  // ----- the statements of LL_SORT2 -----

  lemma MergeA(cmp: Cmp, a: seq<int>, b: seq<int>)
    requires a != [] && (b != [] ==> cmp(a[0], b[0]) <= 0)
    ensures Merge(cmp, a, b) == [a[0]] + Merge(cmp, a[1..], b)
  {
    hide Merge;
    MergeUnfolds(cmp, a, b);
    MergeUnfolds(cmp, a[1..], b);
    assert a == [a[0]] + a[1..];
  }

  lemma MergeB(cmp: Cmp, a: seq<int>, b: seq<int>)
    requires b != [] && (a != [] ==> cmp(a[0], b[0]) > 0)
    ensures Merge(cmp, a, b) == [b[0]] + Merge(cmp, a, b[1..])
  {
    hide Merge;
    MergeUnfolds(cmp, a, b);
    MergeUnfolds(cmp, a, b[1..]);
    assert b == [b[0]] + b[1..];
  }

  /** One node goes behind the tail of what was put out. */
  method Append(next: array<int>, list0: int, tail: int, e: int, ghost done: seq<int>) returns (list: int)
    requires tail == Last(done) && list0 == First(done) && (done != [] ==> IsNode(next[..], tail))
    modifies next
    ensures list == if done == [] then e else list0
    ensures next[..] == if done == [] then old(next[..]) else old(next[..])[tail := e]
  {
    list := list0;
    if tail != NIL {
      next[tail] := e;
    } else {
      list := e;
    }
  }

  /** The inner loop: merges a run of psize nodes at p with one of at most qsize nodes at q. */
  method MergeRuns(cmp: Cmp, next: array<int>, list0: int, tail0: int, p0: int, psize0: nat, q0: int, qsize0: nat,
                   ghost done: seq<int>, ghost a: seq<int>, ghost b: seq<int>, ghost r: seq<int>)
    returns (list: int, tail: int, q: int)
    requires Parts(next[..], list0, tail0, p0, q0, done, a, b, r)
    requires psize0 == |a| && |b| <= qsize0 && (|b| < qsize0 ==> r == [])
    modifies next
    ensures Parts(next[..], list, tail, NIL, q, done + Merge(cmp, a, b), [], [], r)
  {
    hide Merge, Parts;
    list, tail, q := list0, tail0, q0;
    var p, psize, qsize := p0, psize0, qsize0;
    ghost var d, x, y := done, a, b;
    while psize > 0 || (qsize > 0 && q != NIL)
      invariant Parts(next[..], list, tail, p, q, d, x, y, r)
      invariant psize == |x| && |y| <= qsize && (|y| < qsize ==> r == [])
      invariant d + Merge(cmp, x, y) == done + Merge(cmp, a, b)
      decreases psize + qsize
    {
      PartsHeads(next[..], list, tail, p, q, d, x, y, r);
      var first := if psize == 0 then false else if qsize == 0 || q == NIL then true else cmp(p, q) <= 0;
      ghost var l, t := list, tail;
      if first {
        TakeA(next[..], list, tail, p, q, d, x, y, r);
        MergeA(cmp, x, y);
        var e := p;
        p := next[p];
        psize := psize - 1;
        list := Append(next, list, tail, e, d);
        tail := e;
        assert d + ([e] + Merge(cmp, x[1..], y)) == (d + [e]) + Merge(cmp, x[1..], y);
        d, x := d + [e], x[1..];
      } else {
        TakeB(next[..], list, tail, p, q, d, x, y, r);
        MergeB(cmp, x, y);
        var e := q;
        q := next[q];
        qsize := qsize - 1;
        list := Append(next, list, tail, e, d);
        tail := e;
        assert d + ([e] + Merge(cmp, x, y[1..])) == (d + [e]) + Merge(cmp, x, y[1..]);
        d, y := d + [e], y[1..];
      }
    }
    PartsHeads(next[..], list, tail, p, q, d, x, y, r);
    NothingToMerge(cmp);
    assert d + [] == d;
    PartsEnd(next[..], list, tail, p, q, d, r);
  }

  lemma NothingToMerge(cmp: Cmp)
    ensures Merge(cmp, [], []) == []
  {
  }

  lemma PartsHeads(next: seq<int>, list: int, tail: int, p: int, q: int,
                   done: seq<int>, a: seq<int>, b: seq<int>, r: seq<int>)
    requires Parts(next, list, tail, p, q, done, a, b, r)
    ensures (a != [] ==> p == a[0]) && (b != [] ==> q == b[0] && q != NIL) && (q == NIL <==> b + r == [])
    ensures list == First(done) && tail == Last(done)
  {
    assert done + a + b + r == done + a + (b + r);
    NodesParts(next, done, a, b + r);
    assert b + r != [] ==> IsNode(next, (b + r)[0]);
  }

  lemma PartsEnd(next: seq<int>, list: int, tail: int, p: int, q: int, done: seq<int>, r: seq<int>)
    requires Parts(next, list, tail, p, q, done, [], [], r)
    ensures Parts(next, list, tail, NIL, q, done, [], [], r)
  {
  }

  /** Steps over up to insize nodes from p on. */
  method StepOver(next: array<int>, p: int, insize: nat, ghost s: seq<int>) returns (q: int, psize: nat)
    requires insize > 0 && s != [] && IsList(next[..], p, s)
    ensures psize == Min(insize, |s|)
    ensures q == First(s[psize..]) && IsList(next[..], q, s[psize..])
  {
    q, psize := p, 0;
    var i := 0;
    while i < insize
      invariant psize == i <= insize && i <= |s| && IsList(next[..], q, s[i..])
      invariant i < insize ==> i < |s|
    {
      ListTail(next[..], q, s[i..]);
      assert s[i..][1..] == s[i + 1..];
      psize := psize + 1;
      q := next[q];
      i := i + 1;
      if q == NIL {
        NilEnds(next[..], s[i..]);
        break;
      }
    }
  }

  lemma NilEnds(next: seq<int>, s: seq<int>)
    requires IsList(next, NIL, s)
    ensures s == []
  {
    if s != [] {
      ListTail(next, NIL, s);
    }
  }

  /** What is left of the list, cut into two runs and the rest. */
  lemma CutRuns(next: seq<int>, list: int, tail: int, p: int, q: int, done: seq<int>, s: seq<int>, m: nat, n: nat)
    requires Parts(next, list, tail, NIL, p, done, [], [], s) && 0 < m <= n <= |s| && IsList(next, q, s[m..])
    ensures Parts(next, list, tail, p, q, done, s[..m], s[m..n], s[n..])
  {
    CutParts(done, s, m, n);
    LinkedFront(next, p, s, m);
    hide Linked, IsList, Nodes;
  }

  lemma CutParts(done: seq<int>, s: seq<int>, m: nat, n: nat)
    requires m <= n <= |s|
    ensures done + [] + [] + s == done + s[..m] + s[m..n] + s[n..]
    ensures s[m..] == s[m..n] + s[n..] && [] + s == s
  {
    assert s == s[..m] + s[m..n] + s[n..];
    assert done + (s[..m] + s[m..n] + s[n..]) == done + s[..m] + s[m..n] + s[n..];
  }

  lemma LinkedFront(next: seq<int>, p: int, s: seq<int>, m: nat)
    requires IsList(next, p, s) && m <= |s|
    ensures Linked(next, s[..m]) && (s != [] ==> p == s[0])
  {
  }

  /** How many merges a pass over n nodes takes. */
  function Merges(n: nat, k: nat): nat
    requires k > 0
  {
    if n == 0 then 0 else 1 + Merges(n - Min(2 * k, n), k)
  }

  lemma OneMerge(n: nat, k: nat)
    requires k > 0
    ensures Merges(n, k) <= 1 <==> n <= 2 * k
  {
    assert Merges(0, k) == 0;
  }

  lemma BeginPass(next: seq<int>, head: int, s: seq<int>)
    requires IsList(next, head, s)
    ensures Parts(next, NIL, NIL, NIL, head, [], [], [], s)
  {
    assert [] + [] + [] + s == s && [] + s == s;
  }

  lemma RestIsList(next: seq<int>, list: int, tail: int, p: int, done: seq<int>, rest: seq<int>)
    requires Parts(next, list, tail, NIL, p, done, [], [], rest)
    ensures IsList(next, p, rest)
  {
    assert [] + rest == rest;
  }

  /** The null pointer at the tail ends the list. */
  lemma EndPass(next: seq<int>, list: int, tail: int, p: int, done: seq<int>)
    requires Parts(next, list, tail, NIL, p, done, [], [], []) && done != []
    ensures IsNode(next, tail) && tail != NIL && IsList(next[tail := NIL], list, done)
  {
    assert done + [] + [] + [] == done;
    assert tail == done[|done| - 1];
  }

  /** One round of a pass: the runs at p are merged, what is behind them is left. */
  method MergeNext(cmp: Cmp, next: array<int>, list0: int, tail0: int, p0: int, insize: nat,
                   ghost done: seq<int>, ghost rest: seq<int>)
    returns (list: int, tail: int, p: int, ghost done': seq<int>, ghost rest': seq<int>)
    requires insize > 0 && rest != [] && Parts(next[..], list0, tail0, NIL, p0, done, [], [], rest)
    modifies next
    ensures Parts(next[..], list, tail, NIL, p, done', [], [], rest')
    ensures done' + Pass(cmp, rest', insize) == done + Pass(cmp, rest, insize)
    ensures |rest'| < |rest| && Merges(|rest'|, insize) + 1 == Merges(|rest|, insize)
  {
    hide Parts, Pass, Merge, IsList;
    RestIsList(next[..], list0, tail0, p0, done, rest);
    var q, psize := StepOver(next, p0, insize, rest);
    ghost var n := psize + Min(insize, |rest| - psize);
    CutRuns(next[..], list0, tail0, p0, q, done, rest, psize, n);
    list, tail, p := MergeRuns(cmp, next, list0, tail0, p0, psize, q, insize, done, rest[..psize], rest[psize..n], rest[n..]);
    PassUnfolds(cmp, rest, insize);
    ghost var m := Merge(cmp, rest[..psize], rest[psize..n]);
    done', rest' := done + m, rest[n..];
    assert done + (m + Pass(cmp, rest', insize)) == done' + Pass(cmp, rest', insize);
  }

  /** One pass over the list. */
  method PassOver(cmp: Cmp, next: array<int>, head: int, insize: nat, ghost s: seq<int>)
    returns (list: int, nmerges: nat)
    requires insize > 0 && s != [] && IsList(next[..], head, s)
    modifies next
    ensures IsList(next[..], list, Pass(cmp, s, insize))
    ensures nmerges <= 1 <==> |s| <= 2 * insize
  {
    hide Parts, Merge, IsList, Merges;
    EmptyPass(cmp, insize);
    hide Pass;
    var p, tail := head, NIL;
    list, nmerges := NIL, 0;
    ghost var done: seq<int>, rest := [], s;
    BeginPass(next[..], head, s);
    assert [] + Pass(cmp, s, insize) == Pass(cmp, s, insize);
    while p != NIL
      invariant Parts(next[..], list, tail, NIL, p, done, [], [], rest)
      invariant done + Pass(cmp, rest, insize) == Pass(cmp, s, insize)
      invariant nmerges + Merges(|rest|, insize) == Merges(|s|, insize)
      decreases |rest|
    {
      PartsHeads(next[..], list, tail, NIL, p, done, [], [], rest);
      assert [] + rest == rest;
      list, tail, p, done, rest := MergeNext(cmp, next, list, tail, p, insize, done, rest);
      nmerges := nmerges + 1;
    }
    PartsHeads(next[..], list, tail, NIL, p, done, [], [], rest);
    assert [] + rest == rest;
    OneMerge(|s|, insize);
    assert done + [] == done;
    EndPass(next[..], list, tail, p, done);
    if tail != NIL {
      next[tail] := NIL;
    }
  }

  lemma EmptyPass(cmp: Cmp, k: nat)
    requires k > 0
    ensures Pass(cmp, [], k) == [] && Merges(0, k) == 0
  {
  }

  /** LL_SORT2: the nodes relinked are the sorted list, ended by a null pointer. */
  method Sort(cmp: Cmp, next: array<int>, head: int, ghost s: seq<int>) returns (list: int)
    requires IsList(next[..], head, s)
    modifies next
    ensures IsList(next[..], list, Sorted(cmp, s))
  {
    hide IsList, Pass;
    list := head;
    if head == NIL {
      NilEnds(next[..], s);
      EmptyPass(cmp, 1);
      return;
    }
    NotEmpty(next[..], head, s);
    var insize, looping := 1, true;
    ghost var cur := s;
    while looping
      invariant insize > 0 && cur != [] && IsList(next[..], list, cur)
      invariant if looping then SortFrom(cmp, cur, insize) == Sorted(cmp, s) else cur == Sorted(cmp, s)
      decreases looping, if |cur| <= 2 * insize then 0 else |cur| - 2 * insize
    {
      var nmerges;
      list, nmerges := PassOver(cmp, next, list, insize, cur);
      cur := Pass(cmp, cur, insize);
      if nmerges <= 1 {
        looping := false;
      }
      insize := insize * 2;
    }
  }

  lemma NotEmpty(next: seq<int>, head: int, s: seq<int>)
    requires IsList(next, head, s) && head != NIL
    ensures s != []
  {
  }
}
