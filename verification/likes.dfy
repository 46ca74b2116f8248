/** Likes: `(subject, likedBy)` edges where the subject is a video, a comment or a tweet,
    the three like toggles, and the liked-videos list. */
module Likes {
  import opened Wrappers
  import opened ObjectIds
  import opened Seqs
  import opened Edges
  import opened Entities

  /** What a like is about. Each kind is stored in its own field (`video`, `comment`,
      `tweet`), so a like carries exactly one of them. */
  datatype Subject = OnVideo(video: Id) | OnComment(comment: Id) | OnTweet(tweet: Id)

  /** The pair a like relates: its subject and the user who likes it. */
  datatype LikeKey = LikeKey(subject: Subject, likedBy: Id)

  type Like = Edge<LikeKey>

  /** Which of the three toggle handlers is called. */
  datatype Kind = VideoLike | CommentLike | TweetLike

  /** The subject a handler of kind `kind` builds from its route parameter. */
  function SubjectOf(kind: Kind, id: Id): (s: Subject)
    ensures kind == VideoLike <==> s.OnVideo?
    ensures kind == CommentLike <==> s.OnComment?
    ensures kind == TweetLike <==> s.OnTweet?
  {
    match kind
    case VideoLike => OnVideo(id)
    case CommentLike => OnComment(id)
    case TweetLike => OnTweet(id)
  }

  /** The subject's identifier, whichever field holds it. */
  function SubjectId(s: Subject): Id {
    match s
    case OnVideo(v) => v
    case OnComment(c) => c
    case OnTweet(t) => t
  }

  /** A success reply: whether the toggle liked (created) or unliked (deleted), and the
      status code written into the response envelope. */
  datatype LikeReply = LikeReply(liked: bool, envelope: nat)

  /** `toggleVideoLike`, `toggleCommentLike` and `toggleTweetLike`: `actor` toggles its
      like of the subject named by the route parameter. The HTTP status is 200 either
      way; the envelope says 201 for a new like and 200 for a removed one. */
  function ToggleLike(store: seq<Like>, kind: Kind, actor: Id, param: Option<string>, newId: Id, now: nat): (r: Outcome<seq<Like>, LikeReply>)
    ensures r.reply.Fail? <==> InvalidIdParam(param)
    ensures r.reply.Fail? ==> r.reply.status == 400 && r.state == store
    ensures r.reply.Ok? ==>
              var k := LikeKey(SubjectOf(kind, ParamId(param)), actor);
              && r.reply.status == 200
              && (r.reply.body.liked <==> !Has(store, k))
              && r.reply.body.envelope == (if r.reply.body.liked then 201 else 200)
              && (r.reply.body.liked ==> r.state == store + [Edge(newId, k, now, now)])
              && (!r.reply.body.liked && UniqueIds(store) ==> r.state == RemoveAt(store, FindEdge(store, k).value))
              && r.state == Toggle(store, k, newId, now).store
  {
    if InvalidIdParam(param) then Outcome(store, Fail(400))
    else
      var t := Toggle(store, LikeKey(SubjectOf(kind, ParamId(param)), actor), newId, now);
      if t.flip.Created? then Outcome(t.store, Ok(200, LikeReply(true, 201)))
      else Outcome(t.store, Ok(200, LikeReply(false, 200)))
  }

  /** The reply tells the truth about the new state: after "liked" the like is stored,
      after "unliked" (in a store with at most one like per pair) it is gone. */
  lemma LikeReplyMatchesState(store: seq<Like>, kind: Kind, actor: Id, param: Option<string>, newId: Id, now: nat)
    requires UniqueIds(store) && UniqueKeys(store) && !InvalidIdParam(param)
    ensures var r := ToggleLike(store, kind, actor, param, newId, now);
            r.reply.Ok? && (r.reply.body.liked <==> Has(r.state, LikeKey(SubjectOf(kind, ParamId(param)), actor)))
  {
    var k := LikeKey(SubjectOf(kind, ParamId(param)), actor);
    var r := ToggleLike(store, kind, actor, param, newId, now);
    ToggleCount(store, k, newId, now);
    UniqueKeysCount(store, k);
    CountHas(store, k);
    CountHas(r.state, k);
  }

  /** Liking something not yet liked and toggling again gives back exactly the store one
      started from. */
  lemma LikeThenUnlike(store: seq<Like>, kind: Kind, actor: Id, param: Option<string>, id1: Id, t1: nat, id2: Id, t2: nat)
    requires UniqueIds(store) && FreshId(store, id1) && !InvalidIdParam(param)
    requires !Has(store, LikeKey(SubjectOf(kind, ParamId(param)), actor))
    ensures var once := ToggleLike(store, kind, actor, param, id1, t1);
            var twice := ToggleLike(once.state, kind, actor, param, id2, t2);
            && once.reply == Ok(200, LikeReply(true, 201))
            && twice.reply == Ok(200, LikeReply(false, 200))
            && twice.state == store
  {
    ToggleTwiceFromAbsent(store, LikeKey(SubjectOf(kind, ParamId(param)), actor), id1, t1, id2, t2);
  }

  /** Unliking and liking again restores, for every pair, how many likes relate it, and
      every other pair's likes exactly. */
  lemma UnlikeThenLike(store: seq<Like>, kind: Kind, actor: Id, param: Option<string>, id1: Id, t1: nat, id2: Id, t2: nat)
    requires UniqueIds(store) && UniqueKeys(store) && !InvalidIdParam(param)
    requires Has(store, LikeKey(SubjectOf(kind, ParamId(param)), actor))
    ensures var once := ToggleLike(store, kind, actor, param, id1, t1);
            var twice := ToggleLike(once.state, kind, actor, param, id2, t2);
            && once.reply == Ok(200, LikeReply(false, 200))
            && twice.reply == Ok(200, LikeReply(true, 201))
            && (forall k :: Count(twice.state, k) == Count(store, k))
            && (forall k :: k != LikeKey(SubjectOf(kind, ParamId(param)), actor) ==> Select(twice.state, k) == Select(store, k))
  {
    ToggleTwiceFromPresent(store, LikeKey(SubjectOf(kind, ParamId(param)), actor), id1, t1, id2, t2);
  }

  /** A toggle of one kind never changes likes of another kind, not even the same
      user's: the likes whose subject is of a different kind stay as they were. */
  lemma ToggleLikeOtherKinds(store: seq<Like>, kind: Kind, actor: Id, param: Option<string>, newId: Id, now: nat, other: Kind)
    requires UniqueIds(store) && other != kind
    ensures var p := (e: Like) => SubjectOf(other, SubjectId(e.key.subject)) == e.key.subject;
            Filter(ToggleLike(store, kind, actor, param, newId, now).state, p) == Filter(store, p)
  {
    var p := (e: Like) => SubjectOf(other, SubjectId(e.key.subject)) == e.key.subject;
    var r := ToggleLike(store, kind, actor, param, newId, now);
    if r.reply.Ok? {
      var k := LikeKey(SubjectOf(kind, ParamId(param)), actor);
      assert forall e: Like :: p(e) ==> e.key != k;
      ToggleFrame(store, k, newId, now, p);
    }
  }

  /** A toggle never touches the likes of any other user. */
  lemma ToggleLikeOtherUsers(store: seq<Like>, kind: Kind, actor: Id, param: Option<string>, newId: Id, now: nat)
    requires UniqueIds(store)
    ensures var p := (e: Like) => e.key.likedBy != actor;
            Filter(ToggleLike(store, kind, actor, param, newId, now).state, p) == Filter(store, p)
  {
    var p := (e: Like) => e.key.likedBy != actor;
    var r := ToggleLike(store, kind, actor, param, newId, now);
    if r.reply.Ok? {
      ToggleFrame(store, LikeKey(SubjectOf(kind, ParamId(param)), actor), newId, now, p);
    }
  }

  /** One like-toggle call. */
  datatype LikeRequest = LikeRequest(kind: Kind, actor: Id, param: Option<string>, newId: Id, now: nat)

  /** The `_id` a request would give a created edge. */
  function LikeRequestId(q: LikeRequest): Id {
    q.newId
  }

  /** The like store after serving the requests one after another. */
  function Serve(store: seq<Like>, reqs: seq<LikeRequest>): seq<Like>
    decreases |reqs|
  {
    if |reqs| == 0 then store
    else
      var q := reqs[0];
      Serve(ToggleLike(store, q.kind, q.actor, q.param, q.newId, q.now).state, reqs[1..])
  }

  /** From a store with at most one like per pair, any run of like toggles (each bringing
      a fresh `_id`) keeps at most one like per pair. */
  lemma {:induction false} ServeKeepsUnique(store: seq<Like>, reqs: seq<LikeRequest>)
    requires UniqueIds(store) && UniqueKeys(store) && FreshIds(store, NewIds(reqs, LikeRequestId))
    ensures UniqueIds(Serve(store, reqs)) && UniqueKeys(Serve(store, reqs))
    ensures forall k :: Count(Serve(store, reqs), k) <= 1
    decreases |reqs|
  {
    if |reqs| == 0 {
      UniqueKeysIffCountAtMostOne(store);
    } else {
      var q := reqs[0];
      var r := ToggleLike(store, q.kind, q.actor, q.param, q.newId, q.now);
      var ids := NewIds(reqs, LikeRequestId);
      var k := LikeKey(SubjectOf(q.kind, if q.param.Some? then ParamId(q.param) else ""), q.actor);
      GuardedToggleStep(store, r.state, k, q.now, ids);
      assert NewIds(reqs[1..], LikeRequestId) == ids[1..];
      ServeKeepsUnique(r.state, reqs[1..]);
    }
  }

  /** A like of a video after `populate("video")`: the like, and the video document it
      names, or nothing when that video no longer exists. */
  datatype LikedVideo = LikedVideo(like: Like, video: Option<Video>)

  /** `populate("video")` on one like. */
  function Populate(videos: seq<Video>, l: Like): (r: LikedVideo)
    requires l.key.subject.OnVideo?
    ensures r.like == l
    ensures r.video.None? <==> forall j :: 0 <= j < |videos| ==> videos[j].id != l.key.subject.video
    ensures r.video.Some? ==> r.video.value.id == l.key.subject.video && r.video.value in videos
  {
    match FindById(videos, VideoId, l.key.subject.video)
    case None => LikedVideo(l, None)
    case Some(i) => LikedVideo(l, Some(videos[i]))
  }

  /** `find({ likedBy: actor, video: { $exists: true } })`. */
  predicate IsVideoLikeBy(actor: Id, l: Like) {
    l.key.likedBy == actor && l.key.subject.OnVideo?
  }

  /** The selection `IsVideoLikeBy(actor, _)` as one function value. */
  function VideoLikeBy(actor: Id): Like -> bool {
    (l: Like) => IsVideoLikeBy(actor, l)
  }

  function LikeCreatedAt(l: Like): int { l.createdAt }

  /** The likes underneath a populated list. */
  function LikesOf(s: seq<LikedVideo>): (r: seq<Like>)
    ensures |r| == |s| && forall i :: 0 <= i < |s| ==> r[i] == s[i].like
  {
    seq(|s|, i requires 0 <= i < |s| => s[i].like)
  }

  /** `populate("video")` over a list of video likes. */
  function PopulateAll(videos: seq<Video>, s: seq<Like>): (r: seq<LikedVideo>)
    requires forall i :: 0 <= i < |s| ==> s[i].key.subject.OnVideo?
    ensures LikesOf(r) == s
    ensures forall i :: 0 <= i < |r| ==> r[i] == Populate(videos, s[i])
  {
    seq(|s|, i requires 0 <= i < |s| => Populate(videos, s[i]))
  }

  /** The actor's likes of videos, newest first. */
  function MyVideoLikes(store: seq<Like>, actor: Id): (r: seq<Like>)
    ensures multiset(r) == multiset(Filter(store, VideoLikeBy(actor)))
    ensures forall i, j :: 0 <= i < j < |r| ==> r[i].createdAt >= r[j].createdAt
    ensures forall i :: 0 <= i < |r| ==> IsVideoLikeBy(actor, r[i])
    ensures r == [] <==> forall i :: 0 <= i < |store| ==> !IsVideoLikeBy(actor, store[i])
  {
    var p := VideoLikeBy(actor);
    var sorted := Sort(Filter(store, p), LikeCreatedAt, true);
    SortedSelection(store, p, LikeCreatedAt, true);
    assert forall i, j :: 0 <= i < j < |sorted| ==> Before(LikeCreatedAt, true, sorted[i], sorted[j]);
    sorted
  }

  /** `getLikedVideos`: the actor's likes of videos, newest first, each with the video
      it names; 404 when there are none. */
  function GetLikedVideos(store: seq<Like>, videos: seq<Video>, actor: Id): (r: Response<seq<LikedVideo>>)
    ensures r.Fail? <==> forall i :: 0 <= i < |store| ==> !IsVideoLikeBy(actor, store[i])
    ensures r.Fail? ==> r.status == 404
    ensures r.Ok? ==> r.status == 200
    ensures r.Ok? ==> multiset(LikesOf(r.body)) == multiset(Filter(store, VideoLikeBy(actor)))
    ensures r.Ok? ==> forall i, j :: 0 <= i < j < |r.body| ==> r.body[i].like.createdAt >= r.body[j].like.createdAt
    ensures r.Ok? ==> forall i :: 0 <= i < |r.body| ==>
                        IsVideoLikeBy(actor, r.body[i].like) && r.body[i] == Populate(videos, r.body[i].like)
  {
    var mine := MyVideoLikes(store, actor);
    if mine == [] then Fail(404)
    else Ok(200, PopulateAll(videos, mine))
  }
}
