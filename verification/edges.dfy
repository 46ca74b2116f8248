/** The edge store shared by subscriptions and likes, and the check-then-flip toggle both
    controllers perform: look the edge up by its key (`findOne`); if one is found, delete
    it by its `_id` (`deleteOne` / `findByIdAndDelete`); otherwise create one (`create`).

    No unique index covers the key, so the store is a sequence that may in principle hold
    several edges with one key; at most one edge per key is a property that sequential
    toggles keep, proved below. `_id` is unique in every collection (the database
    guarantees it); the lemmas take that as the hypothesis `UniqueIds`. */
module Edges {
  import opened Wrappers
  import opened ObjectIds
  import opened Seqs

  /** A relationship document: its `_id`, the pair it relates and its timestamps. */
  datatype Edge<K> = Edge(id: Id, key: K, createdAt: nat, updatedAt: nat)

  /** No two documents share an `_id`. */
  predicate UniqueIds<K>(s: seq<Edge<K>>) {
    forall i, j :: 0 <= i < j < |s| ==> s[i].id != s[j].id
  }

  /** No two edges relate the same pair. */
  predicate UniqueKeys<K(==)>(s: seq<Edge<K>>) {
    forall i, j :: 0 <= i < j < |s| ==> s[i].key != s[j].key
  }

  /** `id` is not the `_id` of any stored edge. */
  predicate FreshId<K>(s: seq<Edge<K>>, id: Id) {
    forall i :: 0 <= i < |s| ==> s[i].id != id
  }

  /** Some stored edge relates the pair `k`. */
  predicate Has<K(==)>(s: seq<Edge<K>>, k: K) {
    exists i :: 0 <= i < |s| && s[i].key == k
  }

  /** The edges relating the pair `k`, in store order (`find({...k})`). */
  function Select<K(==,!new)>(s: seq<Edge<K>>, k: K): (r: seq<Edge<K>>)
    ensures forall e :: e in r <==> e in s && e.key == k
  {
    Filter(s, (e: Edge<K>) => e.key == k)
  }

  /** How many edges relate the pair `k`. */
  function Count<K(==,!new)>(s: seq<Edge<K>>, k: K): nat {
    |Select(s, k)|
  }

  lemma CountHas<K(!new)>(s: seq<Edge<K>>, k: K)
    ensures Count(s, k) > 0 <==> Has(s, k)
  {
    var r := Select(s, k);
    if |r| > 0 {
      assert r[0] in r;
    }
    if Has(s, k) {
      var i :| 0 <= i < |s| && s[i].key == k;
      assert s[i] in r;
    }
  }

  /** An edge store without duplicate pairs holds each pair at most once, and conversely. */
  lemma UniqueKeysIffCountAtMostOne<K(!new)>(s: seq<Edge<K>>)
    ensures UniqueKeys(s) <==> forall k :: Count(s, k) <= 1
  {
    if UniqueKeys(s) {
      forall k ensures Count(s, k) <= 1 {
        UniqueKeysCount(s, k);
      }
    } else {
      var i, j :| 0 <= i < j < |s| && s[i].key == s[j].key;
      var k := s[i].key;
      var p := (e: Edge<K>) => e.key == k;
      assert s == s[..j] + [s[j]] + s[j + 1..];
      FilterConcat(s[..j] + [s[j]], s[j + 1..], p);
      FilterConcat(s[..j], [s[j]], p);
      assert s[i] in s[..j];
      assert s[i] in Filter(s[..j], p);
      assert Filter([s[j]], p) == [s[j]];
      assert Count(s, k) >= 2;
    }
  }

  lemma {:induction false} UniqueKeysCount<K(!new)>(s: seq<Edge<K>>, k: K)
    requires UniqueKeys(s)
    ensures Count(s, k) <= 1
    decreases |s|
  {
    if |s| > 0 {
      var p := (e: Edge<K>) => e.key == k;
      var tail := s[1..];
      assert UniqueKeys(tail) by {
        forall i, j | 0 <= i < j < |tail| ensures tail[i].key != tail[j].key {
          assert tail[i] == s[i + 1] && tail[j] == s[j + 1];
        }
      }
      UniqueKeysCount(tail, k);
      assert s == [s[0]] + tail;
      FilterConcat([s[0]], tail, p);
      if s[0].key == k {
        assert forall j :: 0 <= j < |tail| ==> tail[j] == s[j + 1];
        FilterNone(tail, p);
      }
    }
  }

  /** Taking one edge out keeps `_id`s and pairs unique, and keeps an unused `_id` unused. */
  lemma RemoveAtKeepsUnique<K>(s: seq<Edge<K>>, i: nat, id: Id)
    requires i < |s|
    ensures UniqueIds(s) ==> UniqueIds(RemoveAt(s, i))
    ensures UniqueKeys(s) ==> UniqueKeys(RemoveAt(s, i))
    ensures FreshId(s, id) ==> FreshId(RemoveAt(s, i), id)
  {
    var t := RemoveAt(s, i);
    forall a | 0 <= a < |t| ensures t[a] == s[if a < i then a else a + 1] {
    }
    if UniqueIds(s) {
      forall a, b | 0 <= a < b < |t| ensures t[a].id != t[b].id {
        assert t[a] == s[if a < i then a else a + 1];
        assert t[b] == s[if b < i then b else b + 1];
      }
    }
    if UniqueKeys(s) {
      forall a, b | 0 <= a < b < |t| ensures t[a].key != t[b].key {
        assert t[a] == s[if a < i then a else a + 1];
        assert t[b] == s[if b < i then b else b + 1];
      }
    }
  }

  /** The outcome of a toggle: the edge it deleted, or the edge it created. */
  datatype Flip<K> = Removed(edge: Edge<K>) | Created(edge: Edge<K>)

  /** The store after a toggle and what the toggle did. */
  datatype Toggled<K> = Toggled(store: seq<Edge<K>>, flip: Flip<K>)

  /** `findOne({...k})`: the index of the first edge relating `k`, if any. */
  function FindEdge<K(==)>(s: seq<Edge<K>>, k: K): (r: Option<nat>)
    ensures r.Some? ==> r.value < |s| && s[r.value].key == k && forall j :: 0 <= j < r.value ==> s[j].key != k
    ensures r.None? <==> !Has(s, k)
  {
    IndexWhere(s, (e: Edge<K>) => e.key == k)
  }

  /** `deleteOne({ _id: id })`: removes the first edge carrying `id`, if there is one. */
  function DeleteById<K>(s: seq<Edge<K>>, id: Id): (r: seq<Edge<K>>)
    ensures |r| <= |s|
  {
    match IndexWhere(s, (e: Edge<K>) => e.id == id)
    case None => s
    case Some(i) => RemoveAt(s, i)
  }

  /** When `_id`s are unique, deleting by the `_id` of the edge at `i` removes exactly it. */
  lemma DeleteByIdAt<K>(s: seq<Edge<K>>, i: nat)
    requires UniqueIds(s) && i < |s|
    ensures DeleteById(s, s[i].id) == RemoveAt(s, i)
  {
    var found := IndexWhere(s, (e: Edge<K>) => e.id == s[i].id);
    assert found.Some?;
    assert found.value == i;
  }

  /** The toggle: delete the first edge relating `k` if there is one, else append a new
      edge `newId` relating `k`, stamped `now`. */
  function Toggle<K(==)>(s: seq<Edge<K>>, k: K, newId: Id, now: nat): (r: Toggled<K>)
    ensures r.flip.Created? <==> !Has(s, k)
    ensures r.flip.edge.key == k
    ensures r.flip.Created? ==> r.flip.edge == Edge(newId, k, now, now) && r.store == s + [r.flip.edge]
    ensures r.flip.Removed? ==> FindEdge(s, k).Some? && r.flip.edge == s[FindEdge(s, k).value]
    ensures r.flip.Removed? && UniqueIds(s) ==> r.store == RemoveAt(s, FindEdge(s, k).value)
  {
    match FindEdge(s, k)
    case Some(i) =>
      var r := DeleteById(s, s[i].id);
      assert UniqueIds(s) ==> r == RemoveAt(s, i) by {
        if UniqueIds(s) {
          DeleteByIdAt(s, i);
        }
      }
      Toggled(r, Removed(s[i]))
    case None =>
      var e := Edge(newId, k, now, now);
      Toggled(s + [e], Created(e))
  }

  /** A toggle keeps `_id`s unique and pairs unique (given an unused `_id`), keeps every
      other unused `_id` unused, and introduces no edge other than the one it creates. */
  lemma ToggleKeepsUnique<K>(s: seq<Edge<K>>, k: K, newId: Id, now: nat, other: Id)
    requires UniqueIds(s) && FreshId(s, newId)
    ensures var t := Toggle(s, k, newId, now).store;
            && UniqueIds(t)
            && (UniqueKeys(s) ==> UniqueKeys(t))
            && (FreshId(s, other) && other != newId ==> FreshId(t, other))
  {
    var r := Toggle(s, k, newId, now);
    if r.flip.Removed? {
      RemoveAtKeepsUnique(s, FindEdge(s, k).value, other);
    }
  }

  /** A toggle on `k` leaves the selection by any predicate that no edge relating `k`
      satisfies untouched: every other edge stays, in order. */
  lemma ToggleFrame<K(!new)>(s: seq<Edge<K>>, k: K, newId: Id, now: nat, p: Edge<K> -> bool)
    requires UniqueIds(s)
    requires forall e: Edge<K> :: p(e) ==> e.key != k
    ensures Filter(Toggle(s, k, newId, now).store, p) == Filter(s, p)
  {
    var r := Toggle(s, k, newId, now);
    match r.flip
    case Removed(x) =>
      var i := FindEdge(s, k).value;
      assert s == s[..i] + [x] + s[i + 1..];
      FilterSkips(s[..i], x, s[i + 1..], p);
    case Created(x) =>
      FilterConcat(s, [x], p);
      assert Filter([x], p) == [];
  }

  /** A toggle on `k` leaves the edges of every other pair exactly as they were. */
  lemma ToggleOtherKeys<K(!new)>(s: seq<Edge<K>>, k: K, newId: Id, now: nat)
    requires UniqueIds(s)
    ensures forall k' :: k' != k ==> Select(Toggle(s, k, newId, now).store, k') == Select(s, k')
  {
    forall k' | k' != k
      ensures Select(Toggle(s, k, newId, now).store, k') == Select(s, k')
    {
      ToggleFrame(s, k, newId, now, (e: Edge<K>) => e.key == k');
    }
  }

  /** A toggle on `k` removes one edge relating `k` if there was one, else adds one. */
  lemma ToggleCount<K(!new)>(s: seq<Edge<K>>, k: K, newId: Id, now: nat)
    requires UniqueIds(s)
    ensures Count(Toggle(s, k, newId, now).store, k) == if Has(s, k) then Count(s, k) - 1 else Count(s, k) + 1
  {
    var r := Toggle(s, k, newId, now);
    var p := (e: Edge<K>) => e.key == k;
    match r.flip
    case Removed(x) =>
      var i := FindEdge(s, k).value;
      var a, b := s[..i], s[i + 1..];
      assert s == a + [x] + b;
      assert r.store == a + b;
      FilterConcat(a + [x], b, p);
      FilterConcat(a, [x], p);
      FilterConcat(a, b, p);
      assert Filter([x], p) == [x];
    case Created(x) =>
      FilterConcat(s, [x], p);
      assert Filter([x], p) == [x];
  }

  /** The `_id`s a run of requests brings for the edges it may create, in order. */
  function NewIds<R>(reqs: seq<R>, newIdOf: R -> Id): (r: seq<Id>)
    ensures |r| == |reqs| && forall i :: 0 <= i < |reqs| ==> r[i] == newIdOf(reqs[i])
  {
    seq(|reqs|, i requires 0 <= i < |reqs| => newIdOf(reqs[i]))
  }

  /** `_id`s that are unused in `s` and pairwise distinct: the ids a run of requests
      brings for the edges it may create. */
  predicate FreshIds<K>(s: seq<Edge<K>>, ids: seq<Id>) {
    && (forall i :: 0 <= i < |ids| ==> FreshId(s, ids[i]))
    && (forall i, j :: 0 <= i < j < |ids| ==> ids[i] != ids[j])
  }

  /** A handler step that either leaves the store alone (a rejected request) or toggles
      with the first of a run of fresh `_id`s keeps `_id`s and pairs unique and the rest
      of the run fresh. */
  lemma GuardedToggleStep<K>(s: seq<Edge<K>>, t: seq<Edge<K>>, k: K, now: nat, ids: seq<Id>)
    requires UniqueIds(s) && |ids| > 0 && FreshIds(s, ids)
    requires t == s || t == Toggle(s, k, ids[0], now).store
    ensures UniqueIds(t) && (UniqueKeys(s) ==> UniqueKeys(t))
    ensures FreshIds(t, ids[1..])
  {
    var rest := ids[1..];
    if t != s {
      ToggleKeepsUnique(s, k, ids[0], now, ids[0]);
      forall i | 0 <= i < |rest| ensures FreshId(t, rest[i]) {
        assert rest[i] == ids[i + 1];
        ToggleKeepsUnique(s, k, ids[0], now, rest[i]);
      }
    }
    forall i, j | 0 <= i < j < |rest| ensures rest[i] != rest[j] {
      assert rest[i] == ids[i + 1] && rest[j] == ids[j + 1];
    }
    forall i | 0 <= i < |rest| ensures FreshId(s, rest[i]) {
      assert rest[i] == ids[i + 1];
    }
  }

  /** One toggle request: the pair to flip, the `_id` a created edge gets, and the time. */
  datatype Request<K> = Request(key: K, newId: Id, now: nat)

  /** Every request brings an `_id` unused in `s` and by every other request. */
  predicate FreshRequests<K>(s: seq<Edge<K>>, reqs: seq<Request<K>>) {
    && (forall i :: 0 <= i < |reqs| ==> FreshId(s, reqs[i].newId))
    && (forall i, j :: 0 <= i < j < |reqs| ==> reqs[i].newId != reqs[j].newId)
  }

  /** Toggles applied one after another. */
  function ToggleAll<K(==)>(s: seq<Edge<K>>, reqs: seq<Request<K>>): seq<Edge<K>>
    decreases |reqs|
  {
    if |reqs| == 0 then s
    else ToggleAll(Toggle(s, reqs[0].key, reqs[0].newId, reqs[0].now).store, reqs[1..])
  }

  /** After the first toggle of a batch the store keeps unique `_id`s and the remaining
      requests are still fresh. */
  lemma ToggleStep<K>(s: seq<Edge<K>>, reqs: seq<Request<K>>)
    requires |reqs| > 0 && UniqueIds(s) && FreshRequests(s, reqs)
    ensures var t := Toggle(s, reqs[0].key, reqs[0].newId, reqs[0].now).store;
            && UniqueIds(t)
            && (UniqueKeys(s) ==> UniqueKeys(t))
            && FreshRequests(t, reqs[1..])
  {
    var r := reqs[0];
    var t := Toggle(s, r.key, r.newId, r.now).store;
    ToggleKeepsUnique(s, r.key, r.newId, r.now, r.newId);
    forall i | 0 <= i < |reqs[1..]| ensures FreshId(t, reqs[1..][i].newId) {
      assert reqs[1..][i] == reqs[i + 1];
      ToggleKeepsUnique(s, r.key, r.newId, r.now, reqs[i + 1].newId);
    }
  }

  /** From a store with at most one edge per pair, any sequence of toggles (each with a
      fresh `_id`) keeps at most one edge per pair. */
  lemma {:induction false} ToggleAllKeepsUnique<K(!new)>(s: seq<Edge<K>>, reqs: seq<Request<K>>)
    requires UniqueIds(s) && UniqueKeys(s) && FreshRequests(s, reqs)
    ensures UniqueIds(ToggleAll(s, reqs)) && UniqueKeys(ToggleAll(s, reqs))
    ensures forall k :: Count(ToggleAll(s, reqs), k) <= 1
    decreases |reqs|
  {
    if |reqs| > 0 {
      var r := reqs[0];
      ToggleStep(s, reqs);
      ToggleAllKeepsUnique(Toggle(s, r.key, r.newId, r.now).store, reqs[1..]);
    } else {
      UniqueKeysIffCountAtMostOne(s);
    }
  }

  /** On a pair held at most once, a toggle flips its count between 0 and 1. */
  lemma ToggleFlipsCount<K(!new)>(s: seq<Edge<K>>, k: K, newId: Id, now: nat)
    requires UniqueIds(s) && Count(s, k) <= 1
    ensures Count(Toggle(s, k, newId, now).store, k) == 1 - Count(s, k)
  {
    ToggleCount(s, k, newId, now);
    CountHas(s, k);
  }

  /** `n` is odd, by counting down (the same as `n % 2 == 1`, see `OddMod`). */
  predicate Odd(n: nat) {
    n > 0 && !Odd(n - 1)
  }

  lemma {:induction false} OddMod(n: nat)
    ensures Odd(n) <==> n % 2 == 1
  {
    if n > 0 {
      OddMod(n - 1);
    }
  }

  /** Toggling one pair `n` times, from a store holding it at most once: an odd number
      of toggles flips its presence, an even number restores it. */
  lemma {:induction false} ToggleAllParity<K(!new)>(s: seq<Edge<K>>, k: K, reqs: seq<Request<K>>)
    requires UniqueIds(s) && FreshRequests(s, reqs) && Count(s, k) <= 1
    requires forall i :: 0 <= i < |reqs| ==> reqs[i].key == k
    ensures Count(ToggleAll(s, reqs), k) == if Odd(|reqs|) then 1 - Count(s, k) else Count(s, k)
    decreases |reqs|
  {
    if |reqs| > 0 {
      var r := reqs[0];
      assert r.key == k;
      var t := Toggle(s, r.key, r.newId, r.now).store;
      var rest := reqs[1..];
      ToggleFlipsCount(s, k, r.newId, r.now);
      ToggleStep(s, reqs);
      assert forall i :: 0 <= i < |rest| ==> rest[i].key == k by {
        forall i | 0 <= i < |rest| ensures rest[i].key == k {
          assert rest[i] == reqs[i + 1];
        }
      }
      ToggleAllParity(t, k, rest);
    }
  }

  /** Toggling an absent pair twice restores the store exactly: the edge the first
      toggle creates is the one the second deletes. */
  lemma ToggleTwiceFromAbsent<K>(s: seq<Edge<K>>, k: K, id1: Id, t1: nat, id2: Id, t2: nat)
    requires UniqueIds(s) && FreshId(s, id1) && !Has(s, k)
    ensures var once := Toggle(s, k, id1, t1);
            once.flip.Created? && Toggle(once.store, k, id2, t2) == Toggled(s, Removed(once.flip.edge))
  {
    var once := Toggle(s, k, id1, t1);
    var s1 := once.store;
    assert s1 == s + [Edge(id1, k, t1, t1)];
    assert UniqueIds(s1);
    assert forall j :: 0 <= j < |s| ==> s1[j].key != k by {
      forall j | 0 <= j < |s| ensures s1[j].key != k {
        assert s1[j] == s[j];
      }
    }
    assert s1[|s|].key == k;
    assert Has(s1, k);
    assert FindEdge(s1, k) == Some(|s|);
    DeleteByIdAt(s1, |s|);
    assert RemoveAt(s1, |s|) == s;
  }

  /** Toggling a present pair twice (in a store without duplicate pairs) restores the
      presence of every pair and leaves every other pair's edges as they were; only the
      `_id` and timestamps of the re-created edge are new. */
  lemma ToggleTwiceFromPresent<K(!new)>(s: seq<Edge<K>>, k: K, id1: Id, t1: nat, id2: Id, t2: nat)
    requires UniqueIds(s) && UniqueKeys(s) && Has(s, k)
    ensures var once := Toggle(s, k, id1, t1);
            var twice := Toggle(once.store, k, id2, t2);
            && once.flip.Removed? && twice.flip.Created?
            && (forall k' :: Count(twice.store, k') == Count(s, k'))
            && (forall k' :: k' != k ==> Select(twice.store, k') == Select(s, k'))
  {
    var once := Toggle(s, k, id1, t1);
    var s1 := once.store;
    RemoveAtKeepsUnique(s, FindEdge(s, k).value, id1);
    ToggleCount(s, k, id1, t1);
    UniqueKeysCount(s, k);
    CountHas(s, k);
    CountHas(s1, k);
    ToggleCount(s1, k, id2, t2);
    ToggleOtherKeys(s, k, id1, t1);
    ToggleOtherKeys(s1, k, id2, t2);
  }
}
