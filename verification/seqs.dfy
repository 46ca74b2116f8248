/** Sequence operations every store and view is built from: selection by a predicate
    (a `find` or `$match`), the first index satisfying a predicate (a `findOne`), removal
    of one element (a `deleteOne`), and a stable-enough insertion sort (a `$sort`). */
module Seqs {
  import opened Wrappers

  /** The elements of `s` that satisfy `p`, in their original order. */
  function Filter<T(!new)>(s: seq<T>, p: T -> bool): (r: seq<T>)
    ensures |r| <= |s|
    ensures forall i :: 0 <= i < |r| ==> p(r[i])
    ensures forall x :: x in r <==> x in s && p(x)
    decreases |s|
  {
    if |s| == 0 then []
    else
      var rest := Filter(s[1..], p);
      assert forall x :: x in s <==> x == s[0] || x in s[1..];
      (if p(s[0]) then [s[0]] else []) + rest
  }

  /** Selecting from a concatenation selects from each part. */
  lemma {:induction false} FilterConcat<T(!new)>(a: seq<T>, b: seq<T>, p: T -> bool)
    ensures Filter(a + b, p) == Filter(a, p) + Filter(b, p)
    decreases |a|
  {
    if |a| > 0 {
      assert (a + b)[1..] == a[1..] + b;
      FilterConcat(a[1..], b, p);
    } else {
      assert a + b == b;
    }
  }

  /** Two predicates that agree on the elements of `s` select the same subsequence. */
  lemma {:induction false} FilterExt<T(!new)>(s: seq<T>, p: T -> bool, q: T -> bool)
    requires forall x :: x in s ==> p(x) == q(x)
    ensures Filter(s, p) == Filter(s, q)
    decreases |s|
  {
    if |s| > 0 {
      assert forall x :: x in s[1..] ==> x in s;
      FilterExt(s[1..], p, q);
    }
  }

  /** Replacing one element by one the predicate treats alike keeps the selection's
      length. */
  lemma {:induction false} FilterUpdateKeepsLength<T(!new)>(s: seq<T>, i: nat, x: T, p: T -> bool)
    requires i < |s| && p(x) == p(s[i])
    ensures |Filter(s[i := x], p)| == |Filter(s, p)|
  {
    var t := s[i := x];
    assert s == s[..i] + [s[i]] + s[i + 1..];
    assert t == s[..i] + [x] + s[i + 1..];
    FilterConcat(s[..i] + [s[i]], s[i + 1..], p);
    FilterConcat(s[..i], [s[i]], p);
    FilterConcat(s[..i] + [x], s[i + 1..], p);
    FilterConcat(s[..i], [x], p);
  }

  /** Nothing is selected when no element satisfies the predicate. */
  lemma {:induction false} FilterNone<T(!new)>(s: seq<T>, p: T -> bool)
    requires forall i :: 0 <= i < |s| ==> !p(s[i])
    ensures Filter(s, p) == []
    decreases |s|
  {
    if |s| > 0 {
      FilterNone(s[1..], p);
    }
  }

  /** The selection keeps every selected element exactly as often as the input holds it,
      and no other element. */
  lemma {:induction false} FilterMultiset<T(!new)>(s: seq<T>, p: T -> bool)
    ensures forall x :: multiset(Filter(s, p))[x] == if p(x) then multiset(s)[x] else 0
    decreases |s|
  {
    if |s| > 0 {
      FilterMultiset(s[1..], p);
      assert s == [s[0]] + s[1..];
    }
  }

  /** A predicate that rejects an element leaves it out of the selection. */
  lemma FilterSkips<T(!new)>(a: seq<T>, x: T, b: seq<T>, p: T -> bool)
    requires !p(x)
    ensures Filter(a + [x] + b, p) == Filter(a + b, p)
  {
    assert [x][1..] == [];
    assert Filter([x], p) == [];
    FilterConcat(a, [x], p);
    assert Filter(a + [x], p) == Filter(a, p);
    FilterConcat(a + [x], b, p);
    FilterConcat(a, b, p);
  }

  /** The index of the first element satisfying `p`, if any. */
  function IndexWhere<T>(s: seq<T>, p: T -> bool): (r: Option<nat>)
    ensures r.Some? ==> r.value < |s| && p(s[r.value]) && forall j :: 0 <= j < r.value ==> !p(s[j])
    ensures r.None? <==> forall j :: 0 <= j < |s| ==> !p(s[j])
    decreases |s|
  {
    if |s| == 0 then None
    else if p(s[0]) then Some(0)
    else
      match IndexWhere(s[1..], p)
      case None => None
      case Some(i) => Some(i + 1)
  }

  /** `s` with the element at index `i` taken out; everything else keeps its order. */
  function RemoveAt<T>(s: seq<T>, i: nat): (r: seq<T>)
    requires i < |s|
    ensures |r| == |s| - 1
    ensures forall j :: 0 <= j < i ==> r[j] == s[j]
    ensures forall j :: i <= j < |r| ==> r[j] == s[j + 1]
    ensures s == r[..i] + [s[i]] + r[i..]
  {
    s[..i] + s[i + 1..]
  }

  /** Whether `x` comes no later than `y` in the order by `key`, descending or ascending. */
  predicate Before<T>(key: T -> int, desc: bool, x: T, y: T) {
    if desc then key(x) >= key(y) else key(x) <= key(y)
  }

  /** `s` is ordered by `key` (descending when `desc`). */
  predicate InOrder<T>(s: seq<T>, key: T -> int, desc: bool) {
    forall i, j :: 0 <= i < j < |s| ==> Before(key, desc, s[i], s[j])
  }

  /** Places `x` into an ordered sequence ahead of the first element it may precede. */
  function Insert<T(!new)>(x: T, s: seq<T>, key: T -> int, desc: bool): (r: seq<T>)
    requires InOrder(s, key, desc)
    ensures InOrder(r, key, desc)
    ensures multiset(r) == multiset(s) + multiset{x}
    ensures forall y :: y in r <==> y == x || y in s
    decreases |s|
  {
    if |s| == 0 || Before(key, desc, x, s[0]) then
      [x] + s
    else
      TailInOrder(s, key, desc);
      var t := Insert(x, s[1..], key, desc);
      assert s == [s[0]] + s[1..];
      assert forall y :: y in t ==> Before(key, desc, s[0], y);
      ConsInOrder(s[0], t, key, desc);
      [s[0]] + t
  }

  lemma TailInOrder<T>(s: seq<T>, key: T -> int, desc: bool)
    requires |s| > 0 && InOrder(s, key, desc)
    ensures InOrder(s[1..], key, desc)
  {
    var tail := s[1..];
    forall i, j | 0 <= i < j < |tail| ensures Before(key, desc, tail[i], tail[j]) {
      assert tail[i] == s[i + 1] && tail[j] == s[j + 1];
    }
  }

  lemma ConsInOrder<T>(x: T, t: seq<T>, key: T -> int, desc: bool)
    requires InOrder(t, key, desc)
    requires forall y :: y in t ==> Before(key, desc, x, y)
    ensures InOrder([x] + t, key, desc)
  {
    var r := [x] + t;
    forall i, j | 0 <= i < j < |r| ensures Before(key, desc, r[i], r[j]) {
      if i == 0 {
        assert r[j] == t[j - 1];
      } else {
        assert r[i] == t[i - 1] && r[j] == t[j - 1];
      }
    }
  }

  /** `$sort` on one numeric field: a permutation of `s` ordered by `key`. */
  function Sort<T(!new)>(s: seq<T>, key: T -> int, desc: bool): (r: seq<T>)
    ensures InOrder(r, key, desc)
    ensures multiset(r) == multiset(s)
    ensures |r| == |s|
    decreases |s|
  {
    if |s| == 0 then []
    else
      assert s == [s[0]] + s[1..];
      Insert(s[0], Sort(s[1..], key, desc), key, desc)
  }

  /** Sorting a selection keeps only selected elements, and it is empty exactly when
      nothing in `s` is selected. */
  lemma SortedSelection<T(!new)>(s: seq<T>, p: T -> bool, key: T -> int, desc: bool)
    ensures var r := Sort(Filter(s, p), key, desc);
            && (forall i :: 0 <= i < |r| ==> p(r[i]))
            && (r == [] <==> forall i :: 0 <= i < |s| ==> !p(s[i]))
  {
    var f := Filter(s, p);
    var r := Sort(f, key, desc);
    forall i | 0 <= i < |r| ensures p(r[i]) {
      assert r[i] in multiset(r);
      assert r[i] in f;
    }
    forall i | 0 <= i < |s| && p(s[i]) ensures r != [] {
      assert s[i] in f;
      assert s[i] in multiset(r);
    }
    if r != [] {
      assert r[0] in multiset(f);
      assert r[0] in s;
    }
  }
}
