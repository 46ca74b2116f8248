/** Comments: the paginated comment feed of a video (a left join with the authors), and
    adding, editing and deleting a comment. */
module Comments {
  import opened Wrappers
  import opened ObjectIds
  import opened Seqs
  import opened Pipeline
  import opened Entities
  import opened JsText

  /** The author fields the feed keeps: `userDetails.username` and `userDetails.avatar`. */
  datatype Author = Author(username: string, avatar: string)

  /** One feed row after the final `$project`: `_id`, `content`, `createdAt` and the
      author, absent when the owner has no user record. */
  datatype CommentView = CommentView(id: Id, content: string, createdAt: nat, userDetails: Option<Author>)

  /** The selection of comments on video `v`. */
  function OnVideo(v: Id): Comment -> bool {
    (c: Comment) => c.videoId == v
  }

  /** The author a comment by `owner` is shown with: the first user with that `_id`. */
  function AuthorOf(users: seq<User>, owner: Id): Option<Author> {
    match FindById(users, UserId, owner)
    case None => None
    case Some(j) => Some(Author(users[j].username, users[j].avatar))
  }

  /** The `$project` of one unwound row. */
  function ViewOf(row: (Comment, Option<User>)): CommentView {
    var (c, u) := row;
    CommentView(c.id, c.content, c.createdAt, if u.Some? then Some(Author(u.value.username, u.value.avatar)) else None)
  }

  /** The pipeline of `getVideoComments` before pagination: `$match` on the video,
      `$lookup` of the owner, `$unwind` keeping comments without an owner, `$project`. */
  function Feed(comments: seq<Comment>, users: seq<User>, v: Id): (r: seq<CommentView>)
    ensures |r| >= |Filter(comments, OnVideo(v))|
  {
    var matched := Filter(comments, OnVideo(v));
    var joined := Lookup(matched, users, (c: Comment, u: User) => u.id == c.owner);
    var rows := UnwindPreserve(joined);
    seq(|rows|, i requires 0 <= i < |rows| => ViewOf(rows[i]))
  }

  /** With distinct user `_id`s each comment joins at most one author, so the feed has
      one row per comment on the video, in store order, each carrying the comment's
      fields and its author (absent when the owner has no record). */
  lemma FeedIsLeftJoin(comments: seq<Comment>, users: seq<User>, v: Id)
    requires DistinctIds(users, UserId)
    ensures var m := Filter(comments, OnVideo(v));
            var f := Feed(comments, users, v);
            && |f| == |m|
            && forall i :: 0 <= i < |m| ==>
                 && f[i].id == m[i].id && f[i].content == m[i].content && f[i].createdAt == m[i].createdAt
                 && f[i].userDetails == AuthorOf(users, m[i].owner)
  {
    var m := Filter(comments, OnVideo(v));
    var on := (c: Comment, u: User) => u.id == c.owner;
    var joined := Lookup(m, users, on);
    forall i | 0 <= i < |joined|
      ensures |joined[i].matches| <= 1
      ensures joined[i].matches == [] <==> FindById(users, UserId, m[i].owner).None?
      ensures joined[i].matches != [] ==> joined[i].matches[0] == users[FindById(users, UserId, m[i].owner).value]
    {
      var p := (u: User) => u.id == m[i].owner;
      MatchesOfIsFilter(m[i], users, on, p);
      SelectById(users, UserId, m[i].owner, p);
    }
    UnwindPreserveAtMostOne(joined);
  }

  /** The `page` option: `parseInt(page, 10)`, 1 when absent; a value that is not a
      positive number falls back to 1. */
  function PageParam(page: Option<string>): (p: nat)
    ensures p >= 1
    ensures page.None? ==> p == 1
    ensures page.Some? && ParseInt(page.value).Some? && ParseInt(page.value).value >= 1 ==> p == ParseInt(page.value).value
  {
    if page.None? then 1
    else
      match ParseInt(page.value)
      case Some(n) => if n >= 1 then n else 1
      case None => 1
  }

  /** The `limit` option: `parseInt(limit, 10)`, 10 when absent; a value that is not a
      positive number falls back to 10. */
  function LimitParam(limit: Option<string>): (l: nat)
    ensures l >= 1
    ensures limit.None? ==> l == 10
    ensures limit.Some? && ParseInt(limit.value).Some? && ParseInt(limit.value).value >= 1 ==> l == ParseInt(limit.value).value
  {
    if limit.None? then 10
    else
      match ParseInt(limit.value)
      case Some(n) => if n >= 1 then n else 10
      case None => 10
  }

  /** How many feed rows precede the requested page. */
  function SkipOf(page: Option<string>, limit: Option<string>): nat {
    var before: nat := PageParam(page) - 1;
    var size: nat := LimitParam(limit);
    before * size
  }

  /** `getVideoComments`: a missing `videoId` is a 404 and one that does not cast to an
      identifier a 500; otherwise the requested page of the feed. */
  function GetVideoComments(comments: seq<Comment>, users: seq<User>, videoId: Option<string>, page: Option<string>, limit: Option<string>): (r: Response<seq<CommentView>>)
    ensures Falsy(videoId) ==> r == Fail(404)
    ensures !Falsy(videoId) && !IsValidObjectId(videoId.value) ==> r == Fail(500)
    ensures r.Ok? <==> !InvalidIdParam(videoId)
    ensures r.Ok? ==>
              var f := Feed(comments, users, ParamId(videoId));
              var skip := SkipOf(page, limit);
              && r.status == 200
              && |r.body| <= LimitParam(limit)
              && (forall i :: 0 <= i < |r.body| ==> skip + i < |f| && r.body[i] == f[skip + i])
              && (skip < |f| ==> |r.body| == Min(LimitParam(limit), |f| - skip))
  {
    if Falsy(videoId) then Fail(404)
    else if !IsValidObjectId(videoId.value) then Fail(500)
    else
      var f := Feed(comments, users, ParamId(videoId));
      Ok(200, Window(f, SkipOf(page, limit), LimitParam(limit)))
  }

  /** Asking for pages 1, 2, ... k in turn (as decimal query strings) reads the feed from
      its start with nothing skipped or repeated. */
  lemma CommentPagesCoverFeed(comments: seq<Comment>, users: seq<User>, v: Id, limit: nat, k: nat)
    requires IsCanonicalId(v) && limit >= 1 && k >= 1
    ensures var f := Feed(comments, users, v);
            && (forall j :: 1 <= j <= k ==>
                  GetVideoComments(comments, users, Some(v), Some(ShowNat(j)), Some(ShowNat(limit))) == Ok(200, Page(f, j, limit)))
            && Pages(f, limit, k) == f[..Min(|f|, k * limit)]
  {
    CastKeepsCanonical(v);
    forall j | 1 <= j <= k
      ensures GetVideoComments(comments, users, Some(v), Some(ShowNat(j)), Some(ShowNat(limit)))
              == Ok(200, Page(Feed(comments, users, v), j, limit))
    {
      CommentPage(comments, users, v, limit, j);
    }
    PagesArePrefix(Feed(comments, users, v), limit, k);
  }

  /** One page of `CommentPagesCoverFeed`: page `j` asked for in decimal is window `j`. */
  lemma CommentPage(comments: seq<Comment>, users: seq<User>, v: Id, limit: nat, j: nat)
    requires IsCanonicalId(v) && limit >= 1 && j >= 1
    ensures GetVideoComments(comments, users, Some(v), Some(ShowNat(j)), Some(ShowNat(limit)))
            == Ok(200, Page(Feed(comments, users, v), j, limit))
  {
    CastKeepsCanonical(v);
    ParseIntShowNat(limit);
    ParseIntShowNat(j);
    assert SkipOf(Some(ShowNat(j)), Some(ShowNat(limit))) == (j - 1) * limit;
  }

  /** `addComment`: missing or blank content is a 400; otherwise a comment by the actor
      on the route's video is appended (201). */
  function AddComment(comments: seq<Comment>, actor: Id, content: Option<string>, videoId: Id, newId: Id, now: nat): (r: Outcome<seq<Comment>, Comment>)
    ensures r.reply.Fail? <==> content.None? || Blank(content.value)
    ensures r.reply.Fail? ==> r.reply.status == 400 && r.state == comments
    ensures r.reply.Ok? ==>
              && r.reply.status == 201
              && r.reply.body == Comment(newId, content.value, videoId, actor, now)
              && r.state == comments + [r.reply.body]
  {
    MissingOrBlankIff(content);
    if MissingOrBlank(content) then Outcome(comments, Fail(400))
    else
      var c := Comment(newId, content.value, videoId, actor, now);
      Outcome(comments + [c], Ok(201, c))
  }

  /** A new comment shows up as the last row of its video's feed. */
  lemma AddedCommentEndsFeed(comments: seq<Comment>, users: seq<User>, actor: Id, content: Option<string>, videoId: Id, newId: Id, now: nat)
    requires DistinctIds(users, UserId)
    requires AddComment(comments, actor, content, videoId, newId, now).reply.Ok?
    ensures var f := Feed(AddComment(comments, actor, content, videoId, newId, now).state, users, videoId);
            && |f| == |Feed(comments, users, videoId)| + 1
            && f[|f| - 1] == CommentView(newId, content.value, now, AuthorOf(users, actor))
  {
    var r := AddComment(comments, actor, content, videoId, newId, now);
    var c := r.reply.body;
    FilterConcat(comments, [c], OnVideo(videoId));
    assert Filter([c], OnVideo(videoId)) == [c];
    FeedIsLeftJoin(comments, users, videoId);
    FeedIsLeftJoin(r.state, users, videoId);
  }

  /** `updateComment`: blank content is a 400, a missing id a 400, an id that does not
      cast a 500, an unknown id a 404; otherwise only the comment's content changes. */
  function UpdateComment(comments: seq<Comment>, commentId: Option<string>, content: Option<string>): (r: Outcome<seq<Comment>, Comment>)
    ensures MissingOrBlank(content) || Falsy(commentId) ==> r.reply == Fail(400)
    ensures !MissingOrBlank(content) && !Falsy(commentId) && !IsValidObjectId(commentId.value) ==> r.reply == Fail(500)
    ensures r.reply.Fail? ==> r.state == comments
    ensures r.reply.Ok? <==> !MissingOrBlank(content) && !InvalidIdParam(commentId) && FindById(comments, CommentId, ParamId(commentId)).Some?
    ensures !MissingOrBlank(content) && !InvalidIdParam(commentId) && FindById(comments, CommentId, ParamId(commentId)).None? ==> r.reply == Fail(404)
    ensures r.reply.Ok? ==>
              var i := FindById(comments, CommentId, ParamId(commentId)).value;
              && r.reply.status == 200
              && |r.state| == |comments|
              && r.reply.body == r.state[i]
              && r.state[i].content == content.value
              && r.state[i].(content := comments[i].content) == comments[i]
              && (forall j :: 0 <= j < |comments| && j != i ==> r.state[j] == comments[j])
  {
    if MissingOrBlank(content) then Outcome(comments, Fail(400))
    else if Falsy(commentId) then Outcome(comments, Fail(400))
    else if !IsValidObjectId(commentId.value) then Outcome(comments, Fail(500))
    else
      match FindById(comments, CommentId, ParamId(commentId))
      case None => Outcome(comments, Fail(404))
      case Some(i) =>
        var c := comments[i].(content := content.value);
        Outcome(comments[i := c], Ok(200, c))
  }

  /** `deleteComment`: a missing id is a 400, one that does not cast a 500, an unknown id
      a 404; otherwise the comment is removed and returned. */
  function DeleteComment(comments: seq<Comment>, commentId: Option<string>): (r: Outcome<seq<Comment>, Comment>)
    ensures Falsy(commentId) ==> r.reply == Fail(400)
    ensures !Falsy(commentId) && !IsValidObjectId(commentId.value) ==> r.reply == Fail(500)
    ensures r.reply.Fail? ==> r.state == comments
    ensures r.reply.Ok? <==> !InvalidIdParam(commentId) && FindById(comments, CommentId, ParamId(commentId)).Some?
    ensures !InvalidIdParam(commentId) && FindById(comments, CommentId, ParamId(commentId)).None? ==> r.reply == Fail(404)
    ensures r.reply.Ok? ==>
              var i := FindById(comments, CommentId, ParamId(commentId)).value;
              && r.reply.status == 200
              && r.reply.body == comments[i]
              && r.state == RemoveAt(comments, i)
  {
    if Falsy(commentId) then Outcome(comments, Fail(400))
    else if !IsValidObjectId(commentId.value) then Outcome(comments, Fail(500))
    else
      match FindById(comments, CommentId, ParamId(commentId))
      case None => Outcome(comments, Fail(404))
      case Some(i) => Outcome(RemoveAt(comments, i), Ok(200, comments[i]))
  }

  /** Deleting a comment just added (under an `_id` no other comment has) restores the
      comment store exactly. */
  lemma AddThenDeleteRestores(comments: seq<Comment>, actor: Id, content: Option<string>, videoId: Id, newId: Id, now: nat)
    requires IsCanonicalId(newId)
    requires forall j :: 0 <= j < |comments| ==> comments[j].id != newId
    requires AddComment(comments, actor, content, videoId, newId, now).reply.Ok?
    ensures var added := AddComment(comments, actor, content, videoId, newId, now);
            var deleted := DeleteComment(added.state, Some(newId));
            deleted.reply == Ok(200, added.reply.body) && deleted.state == comments
  {
    CastKeepsCanonical(newId);
    var c := Comment(newId, content.value, videoId, actor, now);
    FindAppended(comments, CommentId, c);
  }

  /** Editing a comment twice with the same text is editing it once. */
  lemma UpdateCommentIdempotent(comments: seq<Comment>, commentId: Option<string>, content: Option<string>)
    ensures var once := UpdateComment(comments, commentId, content);
            UpdateComment(once.state, commentId, content) == once
  {
    var once := UpdateComment(comments, commentId, content);
    if once.reply.Ok? {
      var i := FindById(comments, CommentId, ParamId(commentId)).value;
      assert FindById(once.state, CommentId, ParamId(commentId)) == Some(i) by {
        assert forall j :: 0 <= j < i ==> once.state[j] == comments[j];
      }
      assert once.state[i := once.state[i].(content := content.value)] == once.state;
    }
  }
}
