/** The aggregation stages the views are written in, as pure functions over sequences
    of records: `$lookup` (a left join), `$unwind` with and without
    `preserveNullAndEmptyArrays`, `$first`, `$count`, and the `$skip`/`$limit` window.
    `$match` is `Seqs.Filter` and `$sort` is `Seqs.Sort`. */
module Pipeline {
  import opened Wrappers
  import opened Seqs

  /** A record after a `$lookup`: the local record and the foreign records joined to it. */
  datatype Joined<A, B> = Joined(local: A, matches: seq<B>)

  /** The foreign records that the join condition `on` pairs with `a`, in store order. */
  function MatchesOf<A, B(!new)>(a: A, foreign: seq<B>, on: (A, B) -> bool): (r: seq<B>)
    ensures |r| <= |foreign|
    ensures forall b :: b in r <==> b in foreign && on(a, b)
    decreases |foreign|
  {
    if |foreign| == 0 then []
    else
      var rest := MatchesOf(a, foreign[1..], on);
      assert forall b :: b in foreign <==> b == foreign[0] || b in foreign[1..];
      (if on(a, foreign[0]) then [foreign[0]] else []) + rest
  }

  /** The matches of `a` are the selection by any predicate that agrees with `on(a, _)`. */
  lemma {:induction false} MatchesOfIsFilter<A, B(!new)>(a: A, foreign: seq<B>, on: (A, B) -> bool, p: B -> bool)
    requires forall b :: on(a, b) == p(b)
    ensures MatchesOf(a, foreign, on) == Filter(foreign, p)
    decreases |foreign|
  {
    if |foreign| > 0 {
      MatchesOfIsFilter(a, foreign[1..], on, p);
    }
  }

  /** `$lookup`: every local record, in order, paired with its matches. A record with no
      match is kept with an empty sequence (a left join). */
  function Lookup<A, B(!new)>(s: seq<A>, foreign: seq<B>, on: (A, B) -> bool): (r: seq<Joined<A, B>>)
    ensures |r| == |s|
    ensures forall i :: 0 <= i < |s| ==> r[i].local == s[i]
    ensures forall i, b :: 0 <= i < |s| ==> (b in r[i].matches <==> b in foreign && on(s[i], b))
  {
    seq(|s|, i requires 0 <= i < |s| => Joined(s[i], MatchesOf(s[i], foreign, on)))
  }

  /** The records one joined record unwinds into, one per match. */
  function Spread<A, B>(j: Joined<A, B>): (r: seq<(A, B)>)
    ensures |r| == |j.matches|
    ensures forall k :: 0 <= k < |r| ==> r[k] == (j.local, j.matches[k])
  {
    seq(|j.matches|, k requires 0 <= k < |j.matches| => (j.local, j.matches[k]))
  }

  /** Some record of `s` is `a` and joined `b`. */
  predicate JoinedIn<A(==), B(==)>(s: seq<Joined<A, B>>, a: A, b: B) {
    exists i :: 0 <= i < |s| && s[i].local == a && b in s[i].matches
  }

  /** `$unwind` without `preserveNullAndEmptyArrays`: one record per match; a record
      whose join is empty is dropped. */
  function Unwind<A(==,!new), B(==,!new)>(s: seq<Joined<A, B>>): (r: seq<(A, B)>)
    ensures forall a, b :: (a, b) in r <==> JoinedIn(s, a, b)
    decreases |s|
  {
    if |s| == 0 then []
    else
      var head := Spread(s[0]);
      var rest := Unwind(s[1..]);
      assert forall a, b :: (a, b) in head <==> s[0].local == a && b in s[0].matches by {
        forall a, b | (a, b) in head ensures s[0].local == a && b in s[0].matches {
          var k :| 0 <= k < |head| && head[k] == (a, b);
        }
        forall a, b | s[0].local == a && b in s[0].matches ensures (a, b) in head {
          var k :| 0 <= k < |s[0].matches| && s[0].matches[k] == b;
          assert head[k] == (a, b);
        }
      }
      assert forall a, b :: JoinedIn(s, a, b) <==> (s[0].local == a && b in s[0].matches) || JoinedIn(s[1..], a, b) by {
        forall a, b | JoinedIn(s, a, b) && !(s[0].local == a && b in s[0].matches)
          ensures JoinedIn(s[1..], a, b)
        {
          var i :| 0 <= i < |s| && s[i].local == a && b in s[i].matches;
          assert s[1..][i - 1] == s[i];
        }
        forall a, b | JoinedIn(s[1..], a, b) ensures JoinedIn(s, a, b) {
          var i :| 0 <= i < |s[1..]| && s[1..][i].local == a && b in s[1..][i].matches;
          assert s[i + 1] == s[1..][i];
        }
      }
      head + rest
  }

  /** When every record joins exactly one foreign record, unwinding keeps every record,
      in order, next to its match. */
  lemma {:induction false} UnwindSingletons<A(!new), B(!new)>(s: seq<Joined<A, B>>)
    requires forall i :: 0 <= i < |s| ==> |s[i].matches| == 1
    ensures |Unwind(s)| == |s|
    ensures forall i :: 0 <= i < |s| ==> Unwind(s)[i] == (s[i].local, s[i].matches[0])
    decreases |s|
  {
    if |s| > 0 {
      UnwindSingletons(s[1..]);
      var rest := Unwind(s[1..]);
      assert Unwind(s) == Spread(s[0]) + rest;
      SpreadSingletonThen(s, rest);
    }
  }

  /** The step of `UnwindSingletons`: one spread singleton in front of the unwound tail. */
  lemma SpreadSingletonThen<A, B>(s: seq<Joined<A, B>>, rest: seq<(A, B)>)
    requires |s| > 0 && |rest| == |s| - 1
    requires forall i :: 0 <= i < |s| ==> |s[i].matches| == 1
    requires forall i :: 1 <= i < |s| ==> rest[i - 1] == (s[i].local, s[i].matches[0])
    ensures |Spread(s[0]) + rest| == |s|
    ensures forall i :: 0 <= i < |s| ==> (Spread(s[0]) + rest)[i] == (s[i].local, s[i].matches[0])
  {
  }

  /** `$unwind` with `preserveNullAndEmptyArrays: true`: one record per match, and a
      record whose join is empty is kept once with the field absent. */
  function UnwindPreserve<A, B>(s: seq<Joined<A, B>>): (r: seq<(A, Option<B>)>)
    ensures |r| >= |s|
    decreases |s|
  {
    if |s| == 0 then []
    else
      var head := if |s[0].matches| == 0 then [(s[0].local, None)]
                  else seq(|s[0].matches|, k requires 0 <= k < |s[0].matches| => (s[0].local, Some(s[0].matches[k])));
      head + UnwindPreserve(s[1..])
  }

  /** A left join of records with at most one match each, unwound with preservation,
      keeps every record in order, each next to its match or next to nothing. */
  lemma {:induction false} UnwindPreserveAtMostOne<A, B>(s: seq<Joined<A, B>>)
    requires forall i :: 0 <= i < |s| ==> |s[i].matches| <= 1
    ensures |UnwindPreserve(s)| == |s|
    ensures forall i :: 0 <= i < |s| ==> UnwindPreserve(s)[i].0 == s[i].local
    ensures forall i :: 0 <= i < |s| ==>
      UnwindPreserve(s)[i].1 == (if |s[i].matches| == 0 then None else Some(s[i].matches[0]))
    decreases |s|
  {
    if |s| > 0 {
      UnwindPreserveAtMostOne(s[1..]);
    }
  }

  /** `$first` of a joined array: its first element, or absent when it is empty. */
  function First<B>(s: seq<B>): (r: Option<B>)
    ensures r.None? <==> s == []
    ensures r.Some? ==> r.value == s[0]
  {
    if |s| == 0 then None else Some(s[0])
  }

  /** `$count` in a facet: one document holding the number of inputs, or no document at
      all when there are no inputs. */
  function CountStage<T>(s: seq<T>): (r: seq<nat>)
    ensures |r| <= 1
    ensures r == [] <==> s == []
    ensures forall i :: 0 <= i < |r| ==> r[i] == |s|
  {
    if |s| == 0 then [] else [|s|]
  }

  function Min(a: int, b: int): int {
    if a <= b then a else b
  }

  /** `$skip: skip` followed by `$limit: take`. */
  function Window<T>(s: seq<T>, skip: nat, take: nat): (r: seq<T>)
    ensures |r| == if skip >= |s| then 0 else Min(take, |s| - skip)
    ensures forall i :: 0 <= i < |r| ==> r[i] == s[skip + i]
  {
    if skip >= |s| then [] else s[skip..Min(|s|, skip + take)]
  }

  /** Page `page` (1-based) of size `limit`: skip `(page - 1) * limit`, take `limit`. */
  function Page<T>(s: seq<T>, page: nat, limit: nat): (r: seq<T>)
    requires page >= 1
    ensures |r| <= limit
  {
    Window(s, (page - 1) * limit, limit)
  }

  /** Pages 1 through `k`, one after another. */
  function Pages<T>(s: seq<T>, limit: nat, k: nat): seq<T> {
    if k == 0 then [] else Pages(s, limit, k - 1) + Page(s, k, limit)
  }

  /** Reading pages 1 through `k` in turn yields exactly the first `k * limit` records:
      no record is skipped or repeated between pages. */
  lemma {:induction false} PagesArePrefix<T>(s: seq<T>, limit: nat, k: nat)
    ensures Pages(s, limit, k) == s[..Min(|s|, k * limit)]
  {
    if k > 0 {
      PagesArePrefix(s, limit, k - 1);
      var a := (k - 1) * limit;
      var b := k * limit;
      assert b == a + limit;
      var lo := Min(|s|, a);
      var hi := Min(|s|, b);
      if a >= |s| {
        assert Page(s, k, limit) == [];
      } else {
        assert Page(s, k, limit) == s[lo..hi];
      }
      assert s[..hi] == s[..lo] + s[lo..hi];
    }
  }

  /** Every record sits on exactly one page: the record at index `i` is item
      `i % limit` of page `i / limit + 1`. */
  lemma PageOfIndex<T>(s: seq<T>, limit: nat, i: nat)
    requires limit >= 1 && i < |s|
    ensures var p := Page(s, i / limit + 1, limit); i % limit < |p| && p[i % limit] == s[i]
  {
    assert (i / limit) * limit + i % limit == i;
  }
}
