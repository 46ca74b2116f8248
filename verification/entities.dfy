/** The records the controllers read and write, reduced to the fields the modelled
    operations touch, and the `findById` lookup they share. */
module Entities {
  import opened Wrappers
  import opened ObjectIds
  import opened Seqs

  /** A user account. `password` is stored but never returned by the modelled views. */
  datatype User = User(
    id: Id,
    username: string,
    email: string,
    fullname: string,
    avatar: string,
    coverImage: string,
    password: string,
    watchHistory: seq<Id>)

  /** An uploaded video and its owner. */
  datatype Video = Video(
    id: Id,
    owner: Id,
    title: string,
    description: string,
    videoFile: string,
    thumbnail: string,
    isPublished: bool,
    createdAt: nat,
    updatedAt: nat)

  /** A comment on a video. */
  datatype Comment = Comment(id: Id, content: string, videoId: Id, owner: Id, createdAt: nat)

  /** A short post by a user. */
  datatype Tweet = Tweet(id: Id, content: string, owner: Id)

  /** `findById`: the index of the first record whose `_id` is `id`, if any. */
  function FindById<T>(s: seq<T>, idOf: T -> Id, id: Id): (r: Option<nat>)
    ensures r.Some? ==> r.value < |s| && idOf(s[r.value]) == id
    ensures r.Some? ==> forall j :: 0 <= j < r.value ==> idOf(s[j]) != id
    ensures r.None? <==> forall j :: 0 <= j < |s| ==> idOf(s[j]) != id
  {
    IndexWhere(s, (x: T) => idOf(x) == id)
  }

  /** No two records of `s` share an `_id` (the database guarantees it). */
  predicate DistinctIds<T>(s: seq<T>, idOf: T -> Id) {
    forall i, j :: 0 <= i < j < |s| ==> idOf(s[i]) != idOf(s[j])
  }

  /** With distinct `_id`s, `findById` finds the record at `i` by its own `_id`. */
  lemma FindByIdAt<T>(s: seq<T>, idOf: T -> Id, i: nat)
    requires DistinctIds(s, idOf) && i < |s|
    ensures FindById(s, idOf, idOf(s[i])) == Some(i)
  {
  }

  /** Selecting by one `_id` yields nothing exactly when `findById` finds nothing, and
      otherwise starts with the record `findById` finds. */
  lemma {:induction false} SelectFirstById<T(!new)>(s: seq<T>, idOf: T -> Id, id: Id, p: T -> bool)
    requires forall x :: p(x) == (idOf(x) == id)
    ensures Filter(s, p) == [] <==> FindById(s, idOf, id).None?
    ensures Filter(s, p) != [] ==> Filter(s, p)[0] == s[FindById(s, idOf, id).value]
    decreases |s|
  {
    if |s| > 0 {
      var tail := s[1..];
      SelectFirstById(tail, idOf, id, p);
      if idOf(s[0]) != id {
        match FindById(tail, idOf, id)
        case None =>
        case Some(k) =>
          assert s[k + 1] == tail[k];
      }
    }
  }

  /** Selecting by one `_id` from records with distinct `_id`s yields at most the one
      record `findById` finds. */
  lemma {:induction false} SelectById<T(!new)>(s: seq<T>, idOf: T -> Id, id: Id, p: T -> bool)
    requires DistinctIds(s, idOf)
    requires forall x :: p(x) == (idOf(x) == id)
    ensures |Filter(s, p)| <= 1
    ensures Filter(s, p) == [] <==> FindById(s, idOf, id).None?
    ensures Filter(s, p) != [] ==> Filter(s, p)[0] == s[FindById(s, idOf, id).value]
    decreases |s|
  {
    if |s| > 0 {
      var tail := s[1..];
      assert DistinctIds(tail, idOf) by {
        forall a, b | 0 <= a < b < |tail| ensures idOf(tail[a]) != idOf(tail[b]) {
          assert tail[a] == s[a + 1] && tail[b] == s[b + 1];
        }
      }
      SelectById(tail, idOf, id, p);
      if idOf(s[0]) == id {
        assert forall j :: 0 <= j < |tail| ==> !p(tail[j]) by {
          forall j | 0 <= j < |tail| ensures !p(tail[j]) {
            assert tail[j] == s[j + 1];
          }
        }
        FilterNone(tail, p);
      } else {
        match FindById(tail, idOf, id)
        case None =>
        case Some(k) =>
          assert s[k + 1] == tail[k];
      }
    }
  }

  /** The join of a video with its owner: the user's `_id` is the video's `owner`. */
  function OwnerOn(): (Video, User) -> bool {
    (v: Video, u: User) => u.id == v.owner
  }

  /** An appended record whose `_id` no earlier record has is found at the end. */
  lemma FindAppended<T>(s: seq<T>, idOf: T -> Id, x: T)
    requires forall j :: 0 <= j < |s| ==> idOf(s[j]) != idOf(x)
    ensures FindById(s + [x], idOf, idOf(x)) == Some(|s|)
    ensures RemoveAt(s + [x], |s|) == s
  {
    var t := s + [x];
    assert forall j :: 0 <= j < |s| ==> t[j] == s[j];
    assert t[|s|] == x;
  }

  function UserId(u: User): Id { u.id }
  function VideoId(v: Video): Id { v.id }
  function CommentId(c: Comment): Id { c.id }
  function TweetId(t: Tweet): Id { t.id }
}
