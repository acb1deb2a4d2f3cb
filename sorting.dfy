// The stable sort Rust's `slice::sort`, `sort_by` and `sort_by_key` perform,
// for any comparison that is a total preorder. `Sort` is the specification
// (insertion from the right, which keeps equal elements in their original
// order); `SortInPlace` is the in-place algorithm proved to produce it.
module StableSort {
  import opened Orderings

  /** What Rust's `Ord` promises of a comparison: swapping the arguments
    * flips the answer, and "not greater" is transitive. */
  ghost predicate TotalPreorder<T(!new)>(cmp: (T, T) -> Ordering) {
    (forall a: T, b: T :: cmp(b, a) == Flip(cmp(a, b))) &&
    (forall a: T, b: T, c: T :: cmp(a, b) != Greater && cmp(b, c) != Greater ==> cmp(a, c) != Greater)
  }

  predicate Le<T(!new)>(cmp: (T, T) -> Ordering, a: T, b: T) {
    cmp(a, b) != Greater
  }

  predicate Sorted<T(!new)>(cmp: (T, T) -> Ordering, s: seq<T>) {
    forall i, j :: 0 <= i < j < |s| ==> Le(cmp, s[i], s[j])
  }

  /** Places `x` after every element of `t` that is not greater than it. */
  function Insert<T(!new)>(cmp: (T, T) -> Ordering, t: seq<T>, x: T): (r: seq<T>)
    ensures |r| == |t| + 1
    decreases |t|
  {
    if |t| == 0 then [x]
    else if cmp(t[|t| - 1], x) == Greater then
      Insert(cmp, t[..|t| - 1], x) + [t[|t| - 1]]
    else t + [x]
  }

  /** The stable sort: each element inserted after the equal ones before it. */
  function Sort<T(!new)>(cmp: (T, T) -> Ordering, s: seq<T>): (r: seq<T>)
    ensures |r| == |s|
  {
    if |s| == 0 then []
    else
      Insert(cmp, Sort(cmp, s[..|s| - 1]), s[|s| - 1])
  }

  /** Insertion adds exactly `x` to the elements of `t`. */
  lemma {:induction false} InsertPermutes<T(!new)>(cmp: (T, T) -> Ordering, t: seq<T>, x: T)
    ensures multiset(Insert(cmp, t, x)) == multiset(t) + multiset{x}
    decreases |t|
  {
    if |t| > 0 && cmp(t[|t| - 1], x) == Greater {
      var u := t[..|t| - 1];
      InsertPermutes(cmp, u, x);
      assert t == u + [t[|t| - 1]];
    }
  }

  /** Sorting is a permutation of its input. */
  lemma {:induction false} SortPermutes<T(!new)>(cmp: (T, T) -> Ordering, s: seq<T>)
    ensures multiset(Sort(cmp, s)) == multiset(s)
  {
    if |s| > 0 {
      var p := s[..|s| - 1];
      SortPermutes(cmp, p);
      InsertPermutes(cmp, Sort(cmp, p), s[|s| - 1]);
      assert s == p + [s[|s| - 1]];
    }
  }

  lemma LeTotal<T(!new)>(cmp: (T, T) -> Ordering, a: T, b: T)
    requires TotalPreorder(cmp)
    ensures Le(cmp, a, b) || Le(cmp, b, a)
  {
    assert cmp(b, a) == Flip(cmp(a, b));
  }

  lemma {:induction false} InsertSorted<T(!new)>(cmp: (T, T) -> Ordering, t: seq<T>, x: T)
    requires TotalPreorder(cmp) && Sorted(cmp, t)
    ensures Sorted(cmp, Insert(cmp, t, x))
    decreases |t|
  {
    var n := |t|;
    if n > 0 {
      var last := t[n - 1];
      if cmp(last, x) == Greater {
        var u := t[..n - 1];
        InsertSorted(cmp, u, x);
        InsertBelow(cmp, t, x, Insert(cmp, u, x));
        SnocSorted(cmp, Insert(cmp, u, x), last);
      } else {
        forall i | 0 <= i < n ensures Le(cmp, t[i], x) {
          if i < n - 1 { assert Le(cmp, t[i], last); }
        }
      }
    }
  }

  /** When `x` passes the last element of a sorted `t`, everything the
    * insertion into the rest produces is at most that last element. */
  lemma InsertBelow<T(!new)>(cmp: (T, T) -> Ordering, t: seq<T>, x: T, r: seq<T>)
    requires TotalPreorder(cmp) && Sorted(cmp, t) && |t| > 0 && cmp(t[|t| - 1], x) == Greater
    requires r == Insert(cmp, t[..|t| - 1], x)
    ensures forall k :: 0 <= k < |r| ==> Le(cmp, r[k], t[|t| - 1])
  {
    var u, last := t[..|t| - 1], t[|t| - 1];
    InsertPermutes(cmp, u, x);
    assert cmp(x, last) == Flip(cmp(last, x));
    forall k | 0 <= k < |r| ensures Le(cmp, r[k], last) {
      assert r[k] in multiset(r);
      if r[k] != x {
        var m :| 0 <= m < |u| && u[m] == r[k];
        assert Le(cmp, t[m], t[|t| - 1]);
      }
    }
  }

  /** A sorted sequence extended by an element at least each of its elements is sorted. */
  lemma SnocSorted<T(!new)>(cmp: (T, T) -> Ordering, r: seq<T>, y: T)
    requires Sorted(cmp, r) && forall k :: 0 <= k < |r| ==> Le(cmp, r[k], y)
    ensures Sorted(cmp, r + [y])
  {
    var s := r + [y];
    forall i, j | 0 <= i < j < |s| ensures Le(cmp, s[i], s[j]) {
      assert s[i] == r[i];
    }
  }

  lemma {:induction false} SortSorted<T(!new)>(cmp: (T, T) -> Ordering, s: seq<T>)
    requires TotalPreorder(cmp)
    ensures Sorted(cmp, Sort(cmp, s))
  {
    if |s| > 0 {
      SortSorted(cmp, s[..|s| - 1]);
      InsertSorted(cmp, Sort(cmp, s[..|s| - 1]), s[|s| - 1]);
    }
  }

  /** Without ties there is one sorted order: a sorted sequence with the
    * elements of a strictly ascending one is that sequence. */
  lemma {:induction false} SortedUnique<T(!new)>(cmp: (T, T) -> Ordering, r: seq<T>, t: seq<T>)
    requires TotalPreorder(cmp) && Sorted(cmp, r) && multiset(r) == multiset(t)
    requires forall i, j :: 0 <= i < j < |t| ==> cmp(t[i], t[j]) == Less
    ensures r == t
    decreases |t|
  {
    assert |r| == |t| by {
      assert |multiset(r)| == |multiset(t)|;
    }
    if |t| > 0 {
      var n := |t| - 1;
      SortedLast(cmp, r, t);
      MultisetInit(r, t);
      SortedUnique(cmp, r[..n], t[..n]);
      assert r == r[..n] + [r[n]] && t == t[..n] + [t[n]];
    }
  }

  /** The greatest element of a strictly ascending sequence ends every sorted
    * arrangement of it. */
  lemma SortedLast<T(!new)>(cmp: (T, T) -> Ordering, r: seq<T>, t: seq<T>)
    requires TotalPreorder(cmp) && Sorted(cmp, r) && multiset(r) == multiset(t)
    requires forall i, j :: 0 <= i < j < |t| ==> cmp(t[i], t[j]) == Less
    requires |r| == |t| > 0
    ensures r[|r| - 1] == t[|t| - 1]
  {
    var n := |t| - 1;
    assert r[n] in multiset(t) by {
      assert r[n] in r;
    }
    var k :| 0 <= k < |t| && t[k] == r[n];
    assert t[n] in multiset(r) by {
      assert t[n] in t;
    }
    var m :| 0 <= m < |r| && r[m] == t[n];
    assert Le(cmp, r[m], r[n]) by {
      assert cmp(r[n], r[n]) == Flip(cmp(r[n], r[n]));
    }
    assert k == n;
  }

  /** Equal multisets with equal last elements stay equal without them. */
  lemma MultisetInit<T>(r: seq<T>, t: seq<T>)
    requires |r| == |t| > 0 && multiset(r) == multiset(t) && r[|r| - 1] == t[|t| - 1]
    ensures multiset(r[..|r| - 1]) == multiset(t[..|t| - 1])
  {
    var n := |t| - 1;
    var x := r[n];
    var a, b := multiset(r[..n]), multiset(t[..n]);
    assert r == r[..n] + [x] && t == t[..n] + [x];
    assert a + multiset{x} == b + multiset{x} by {
      assert multiset(r[..n] + [x]) == a + multiset{x};
      assert multiset(t[..n] + [x]) == b + multiset{x};
    }
    forall y ensures a[y] == b[y] {
      assert (a + multiset{x})[y] == a[y] + multiset{x}[y];
      assert (b + multiset{x})[y] == b[y] + multiset{x}[y];
    }
  }

  /** Sorting a rearrangement of a strictly ascending sequence gives it back. */
  lemma SortOfStrict<T(!new)>(cmp: (T, T) -> Ordering, s: seq<T>, t: seq<T>)
    requires TotalPreorder(cmp) && multiset(s) == multiset(t)
    requires forall i, j :: 0 <= i < j < |t| ==> cmp(t[i], t[j]) == Less
    ensures Sort(cmp, s) == t
  {
    SortSorted(cmp, s);
    SortPermutes(cmp, s);
    SortedUnique(cmp, Sort(cmp, s), t);
  }

  /** `s` lists the elements of `t` in the order the distinct positions `f`
    * pick them, so the two have the same elements. */
  lemma {:induction false} PermByIndex<T>(s: seq<T>, t: seq<T>, f: seq<int>)
    requires |s| == |t| == |f|
    requires forall i :: 0 <= i < |f| ==> 0 <= f[i] < |t| && s[i] == t[f[i]]
    requires forall i, j :: 0 <= i < j < |f| ==> f[i] != f[j]
    ensures multiset(s) == multiset(t)
    decreases |s|
  {
    if |s| > 0 {
      var n := |s| - 1;
      var m := f[n];
      var u := t[..m] + t[m + 1..];
      var g := seq(n, i requires 0 <= i < n => if f[i] < m then f[i] else f[i] - 1);
      forall i | 0 <= i < n ensures 0 <= g[i] < |u| && s[..n][i] == u[g[i]] {
        assert f[i] != m;
      }
      PermByIndex(s[..n], u, g);
      assert s == s[..n] + [s[n]];
      assert t == t[..m] + [t[m]] + t[m + 1..];
      assert multiset(t) == multiset(u) + multiset{t[m]} by {
        assert multiset(t) == multiset(t[..m]) + multiset{t[m]} + multiset(t[m + 1..]);
        assert multiset(u) == multiset(t[..m]) + multiset(t[m + 1..]);
      }
    }
  }

  /** The last element of the sorted sequence is a maximum of the input. */
  lemma SortLastIsMaximum<T(!new)>(cmp: (T, T) -> Ordering, s: seq<T>)
    requires TotalPreorder(cmp) && |s| > 0
    ensures forall i :: 0 <= i < |s| ==> Le(cmp, s[i], Sort(cmp, s)[|s| - 1])
  {
    SortSorted(cmp, s);
    SortPermutes(cmp, s);
    var r := Sort(cmp, s);
    forall i | 0 <= i < |s| ensures Le(cmp, s[i], r[|s| - 1]) {
      assert s[i] in multiset(r);
      var m :| 0 <= m < |r| && r[m] == s[i];
      assert cmp(r[m], r[m]) == Flip(cmp(r[m], r[m]));
    }
  }

  /** The index of the last maximal element: every element is at most it,
    * and every later element is strictly smaller. */
  function LastMax<T(!new)>(cmp: (T, T) -> Ordering, s: seq<T>): (k: nat)
    requires TotalPreorder(cmp) && |s| > 0
    ensures k < |s|
    ensures forall j :: 0 <= j < |s| ==> Le(cmp, s[j], s[k])
    ensures forall j :: k < j < |s| ==> cmp(s[j], s[k]) == Less
  {
    var n := |s|;
    if n == 1 then
      assert cmp(s[0], s[0]) == Flip(cmp(s[0], s[0]));
      0
    else
      var k := LastMax(cmp, s[..n - 1]);
      assert forall j :: 0 <= j < n - 1 ==> s[..n - 1][j] == s[j];
      if Le(cmp, s[k], s[n - 1]) then
        assert cmp(s[n - 1], s[n - 1]) == Flip(cmp(s[n - 1], s[n - 1]));
        n - 1
      else
        assert cmp(s[n - 1], s[k]) == Flip(cmp(s[k], s[n - 1]));
        k
  }

  /** Stability on ties: of several maximal elements, sorting leaves the one
    * that came last in the input at the end. */
  lemma {:induction false} SortLastIsLastMax<T(!new)>(cmp: (T, T) -> Ordering, s: seq<T>)
    requires TotalPreorder(cmp) && |s| > 0
    ensures Sort(cmp, s)[|s| - 1] == s[LastMax(cmp, s)]
  {
    var n := |s|;
    if n > 1 {
      var p := s[..n - 1];
      SortLastIsLastMax(cmp, p);
      var t := Sort(cmp, p);
      var k := LastMax(cmp, p);
      var x := s[n - 1];
      assert t[n - 2] == s[k];
      assert Sort(cmp, s) == Insert(cmp, t, x);
      if cmp(t[n - 2], x) == Greater {
        assert Insert(cmp, t, x) == Insert(cmp, t[..n - 2], x) + [t[n - 2]];
        assert LastMax(cmp, s) == k;
      } else {
        assert LastMax(cmp, s) == n - 1;
      }
    }
  }

  /** The elements of `s` that compare Equal to `x`, in their order in `s`. */
  function Ties<T(!new)>(cmp: (T, T) -> Ordering, s: seq<T>, x: T): (r: seq<T>)
    ensures |r| <= |s|
    ensures forall k :: 0 <= k < |r| ==> cmp(r[k], x) == Equal && r[k] in s
    decreases |s|
  {
    if |s| == 0 then []
    else
      var p := Ties(cmp, s[..|s| - 1], x);
      assert forall k :: 0 <= k < |p| ==> p[k] in s by {
        forall k | 0 <= k < |p| ensures p[k] in s {
          var m :| 0 <= m < |s| - 1 && s[..|s| - 1][m] == p[k];
        }
      }
      if cmp(s[|s| - 1], x) == Equal then p + [s[|s| - 1]] else p
  }

  /** The ties of a sequence extended by one element: that element joins them
    * at the end exactly when it compares Equal. */
  lemma TiesSnoc<T(!new)>(cmp: (T, T) -> Ordering, a: seq<T>, e: T, x: T)
    ensures Ties(cmp, a + [e], x) == Ties(cmp, a, x) + (if cmp(e, x) == Equal then [e] else [])
  {
    assert (a + [e])[..|a|] == a;
  }

  /** The ties of `x` are exactly the elements of `s` that compare Equal to it. */
  lemma {:induction false} TiesMembers<T(!new)>(cmp: (T, T) -> Ordering, s: seq<T>, x: T)
    ensures forall d :: d in Ties(cmp, s, x) <==> d in s && cmp(d, x) == Equal
    decreases |s|
  {
    if |s| > 0 {
      var p := s[..|s| - 1];
      TiesMembers(cmp, p, x);
      assert s == p + [s[|s| - 1]];
      TiesSnoc(cmp, p, s[|s| - 1], x);
    }
  }

  /** Inserting `y` keeps the ties of `x` in order and adds `y` after them
    * when it is one. */
  lemma {:induction false} InsertTies<T(!new)>(cmp: (T, T) -> Ordering, t: seq<T>, y: T, x: T)
    requires TotalPreorder(cmp)
    ensures Ties(cmp, Insert(cmp, t, y), x) == Ties(cmp, t, x) + (if cmp(y, x) == Equal then [y] else [])
    decreases |t|
  {
    if |t| == 0 {
      TiesSnoc(cmp, [], y, x);
    } else {
      var u, last := t[..|t| - 1], t[|t| - 1];
      assert t == u + [last];
      TiesSnoc(cmp, u, last, x);
      if cmp(last, y) == Greater {
        InsertTies(cmp, u, y, x);
        TiesSnoc(cmp, Insert(cmp, u, y), last, x);
        // `last` above `y` cannot both equal `x`: that would make `last` at most `y`.
        assert cmp(x, y) == Flip(cmp(y, x));
        assert !(cmp(y, x) == Equal && cmp(last, x) == Equal);
      } else {
        TiesSnoc(cmp, t, y, x);
      }
    }
  }

  /** Stability: for every `x`, the elements equal to it leave the sort in
    * the order they came in. */
  lemma {:induction false} SortStable<T(!new)>(cmp: (T, T) -> Ordering, s: seq<T>, x: T)
    requires TotalPreorder(cmp)
    ensures Ties(cmp, Sort(cmp, s), x) == Ties(cmp, s, x)
  {
    if |s| > 0 {
      var p := s[..|s| - 1];
      SortStable(cmp, p, x);
      InsertTies(cmp, Sort(cmp, p), s[|s| - 1], x);
      assert s == p + [s[|s| - 1]];
      TiesSnoc(cmp, p, s[|s| - 1], x);
    }
  }

  /** Passing a greater element moves the insertion point one to the left. */
  lemma InsertPasses<T(!new)>(cmp: (T, T) -> Ordering, t: seq<T>, x: T, j: nat)
    requires 0 < j <= |t| && cmp(t[j - 1], x) == Greater
    ensures Insert(cmp, t[..j], x) + t[j..] == Insert(cmp, t[..j - 1], x) + t[j - 1..]
  {
    assert t[..j][..j - 1] == t[..j - 1];
    assert t[j - 1..] == [t[j - 1]] + t[j..];
  }

  /** Insertion stops after the first element, from the right, that is not greater. */
  lemma InsertStops<T(!new)>(cmp: (T, T) -> Ordering, t: seq<T>, x: T, j: nat)
    requires j <= |t| && (j == 0 || cmp(t[j - 1], x) != Greater)
    ensures Insert(cmp, t[..j], x) == t[..j] + [x]
  {
    assert j > 0 ==> t[..j][j - 1] == t[j - 1];
  }

  /** The array during insertion: `x` at `j`, the prefix `t` around it, `rest` after. */
  function Placed<T(!new)>(t: seq<T>, x: T, rest: seq<T>, j: nat): (r: seq<T>)
    requires j <= |t|
    ensures |r| == |t| + 1 + |rest| && r[j] == x
    ensures r[..|t| + 1] == t[..j] + [x] + t[j..] && r[|t| + 1..] == rest
  {
    t[..j] + [x] + t[j..] + rest
  }

  /** Swapping `x` with its left neighbour places it one to the left. */
  lemma PlacedSwap<T(!new)>(t: seq<T>, x: T, rest: seq<T>, j: nat)
    requires 0 < j <= |t|
    ensures Placed(t, x, rest, j)[j - 1] == t[j - 1]
    ensures Placed(t, x, rest, j)[j - 1 := x][j := t[j - 1]] == Placed(t, x, rest, j - 1)
  {
    assert t[j - 1..] == [t[j - 1]] + t[j..];
  }

  /** One step of insertion sort: moves `a[i]` left past the greater
    * elements of the sorted prefix `a[..i]`. */
  method InsertLast<T(!new)>(cmp: (T, T) -> Ordering, a: array<T>, i: nat)
    requires i < a.Length
    modifies a
    ensures a[..] == Insert(cmp, old(a[..i]), old(a[i])) + old(a[i + 1..])
  {
    ghost var t := a[..i];
    ghost var rest := a[i + 1..];
    var x := a[i];
    var j := i;
    assert a[..] == Placed(t, x, rest, j) by {
      assert t[..j] == t && t[j..] == [];
      assert a[..] == a[..i] + [a[i]] + a[i + 1..];
    }
    while j > 0 && cmp(a[j - 1], x) == Greater
      invariant 0 <= j <= i
      invariant a[..] == Placed(t, x, rest, j)
      invariant Insert(cmp, t, x) == Insert(cmp, t[..j], x) + t[j..]
    {
      PlacedSwap(t, x, rest, j);
      InsertPasses(cmp, t, x, j);
      a[j - 1], a[j] := x, a[j - 1];
      j := j - 1;
    }
    InsertStops(cmp, t, x, j);
    assert a[..] == Placed(t, x, rest, j);
  }

  /** Sorting one more element of the input inserts it into the sorted prefix. */
  lemma SortPrefix<T(!new)>(cmp: (T, T) -> Ordering, s: seq<T>, i: nat)
    requires i < |s|
    ensures Sort(cmp, s[..i + 1]) == Insert(cmp, Sort(cmp, s[..i]), s[i])
  {
    assert s[..i + 1][..i] == s[..i];
  }

  /** The stable in-place sort of a vector. */
  method SortInPlace<T(!new)>(cmp: (T, T) -> Ordering, a: array<T>)
    modifies a
    ensures a[..] == Sort(cmp, old(a[..]))
  {
    ghost var s := a[..];
    var i := 0;
    assert s[..0] == [];
    while i < a.Length
      invariant 0 <= i <= a.Length
      invariant a[..] == Sort(cmp, s[..i]) + s[i..]
    {
      ghost var p := Sort(cmp, s[..i]);
      assert a[..i] == p && a[i] == s[i] && a[i + 1..] == s[i + 1..];
      InsertLast(cmp, a, i);
      SortPrefix(cmp, s, i);
      i := i + 1;
    }
    assert s[..a.Length] == s;
  }
}
