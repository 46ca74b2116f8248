/** Tweets: creating, listing per user (an inner join with the owner), editing and
    deleting. */
module Tweets {
  import opened Wrappers
  import opened ObjectIds
  import opened Seqs
  import opened Pipeline
  import opened Entities
  import opened JsText

  /** The owner fields a listed tweet keeps: `allTweets.username` and `allTweets.email`. */
  datatype UserBrief = UserBrief(username: string, email: string)

  /** One listed tweet after the final `$project`. */
  datatype TweetView = TweetView(id: Id, content: string, allTweets: UserBrief)

  /** `createTweet`: an unknown actor is a 404, and so is missing or blank content;
      otherwise a tweet by the actor is appended. The actor is the authenticated user,
      whose `_id` always casts, so the identifier check after the content check cannot
      fail. */
  function CreateTweet(tweets: seq<Tweet>, users: seq<User>, actor: Id, content: Option<string>, newId: Id): (r: Outcome<seq<Tweet>, Tweet>)
    ensures FindById(users, UserId, actor).None? ==> r.reply == Fail(404)
    ensures FindById(users, UserId, actor).Some? && (content.None? || Blank(content.value)) ==>
              r.reply == Fail(404)
    ensures r.reply.Ok? <==> FindById(users, UserId, actor).Some? && content.Some? && !Blank(content.value)
    ensures r.reply.Fail? ==> r.state == tweets
    ensures r.reply.Ok? ==>
              && r.reply.status == 200
              && r.reply.body == Tweet(newId, content.value, actor)
              && r.state == tweets + [r.reply.body]
  {
    MissingOrBlankIff(content);
    if FindById(users, UserId, actor).None? then Outcome(tweets, Fail(404))
    else if MissingOrBlank(content) then Outcome(tweets, Fail(404))
    else
      var t := Tweet(newId, content.value, actor);
      Outcome(tweets + [t], Ok(200, t))
  }

  /** The selection of tweets owned by `owner`. */
  function TweetsBy(owner: Id): Tweet -> bool {
    (t: Tweet) => t.owner == owner
  }

  function BriefOf(u: User): UserBrief {
    UserBrief(u.username, u.email)
  }

  function ViewOf(t: Tweet, u: User): TweetView {
    TweetView(t.id, t.content, BriefOf(u))
  }

  function ViewOfRow(row: (Tweet, User)): TweetView {
    ViewOf(row.0, row.1)
  }

  /** The pipeline of `getUserTweets`: `$match` on the owner, `$lookup` of the owner,
      `$unwind` (dropping tweets without one), `$project`. */
  function UserTweets(tweets: seq<Tweet>, users: seq<User>, owner: Id): (r: seq<TweetView>)
    ensures FindById(users, UserId, owner).None? ==> r == []
    ensures forall x :: x in r ==>
              exists t, u :: t in tweets && u in users && t.owner == owner && u.id == owner && x == ViewOf(t, u)
  {
    var matched := Filter(tweets, TweetsBy(owner));
    var joined := Lookup(matched, users, (t: Tweet, u: User) => u.id == t.owner);
    var rows := Unwind(joined);
    var r := seq(|rows|, i requires 0 <= i < |rows| => ViewOfRow(rows[i]));
    forall x | x in r
      ensures exists t, u :: t in tweets && u in users && t.owner == owner && u.id == owner && x == ViewOf(t, u)
      ensures FindById(users, UserId, owner).Some?
    {
      var i :| 0 <= i < |rows| && x == ViewOfRow(rows[i]);
      var (t, u) := rows[i];
      assert (t, u) in rows;
      assert JoinedIn(joined, t, u);
      var k :| 0 <= k < |joined| && joined[k].local == t && u in joined[k].matches;
      assert t in matched;
      var j :| 0 <= j < |users| && users[j] == u;
    }
    assert r != [] ==> r[0] in r;
    r
  }

  /** `getUserTweets`: a missing or invalid `userId` is a 404, and so is an empty
      listing; otherwise the listing. */
  function GetUserTweets(tweets: seq<Tweet>, users: seq<User>, userId: Option<string>): (r: Response<seq<TweetView>>)
    ensures InvalidIdParam(userId) ==> r == Fail(404)
    ensures !InvalidIdParam(userId) && FindById(users, UserId, ParamId(userId)).None? ==> r == Fail(404)
    ensures r.Fail? ==> r.status == 404
    ensures r.Ok? <==> !InvalidIdParam(userId) && UserTweets(tweets, users, ParamId(userId)) != []
    ensures r.Ok? ==> r.body == UserTweets(tweets, users, ParamId(userId))
    ensures r.Ok? ==> r.status == 200 && forall x :: x in r.body ==>
              exists t, u :: t in tweets && u in users && t.owner == ParamId(userId) && u.id == ParamId(userId) && x == ViewOf(t, u)
  {
    if InvalidIdParam(userId) then Fail(404)
    else
      var r := UserTweets(tweets, users, ParamId(userId));
      if r == [] then Fail(404) else Ok(200, r)
  }

  /** With distinct user `_id`s and an owner on record, the listing is the owner's
      tweets in store order, each with the owner's username and email. */
  lemma UserTweetsInOrder(tweets: seq<Tweet>, users: seq<User>, owner: Id)
    requires DistinctIds(users, UserId)
    requires FindById(users, UserId, owner).Some?
    ensures var m := Filter(tweets, TweetsBy(owner));
            var u := users[FindById(users, UserId, owner).value];
            var r := UserTweets(tweets, users, owner);
            |r| == |m| && forall i :: 0 <= i < |m| ==> r[i] == ViewOf(m[i], u)
  {
    var u := users[FindById(users, UserId, owner).value];
    var matched := Filter(tweets, TweetsBy(owner));
    var on := (t: Tweet, w: User) => w.id == t.owner;
    var joined := Lookup(matched, users, on);
    forall i | 0 <= i < |joined|
      ensures |joined[i].matches| == 1 && joined[i].matches[0] == u
    {
      var p := (w: User) => w.id == owner;
      assert matched[i].owner == owner;
      MatchesOfIsFilter(matched[i], users, on, p);
      SelectById(users, UserId, owner, p);
    }
    UnwindSingletons(joined);
  }

  /** A tweet appended to the store ends its owner's listing. */
  lemma AppendedTweetEndsListing(tweets: seq<Tweet>, users: seq<User>, t: Tweet)
    requires DistinctIds(users, UserId)
    requires FindById(users, UserId, t.owner).Some?
    ensures var r := UserTweets(tweets + [t], users, t.owner);
            |r| > 0 && r[|r| - 1] == ViewOf(t, users[FindById(users, UserId, t.owner).value])
  {
    FilterConcat(tweets, [t], TweetsBy(t.owner));
    assert Filter([t], TweetsBy(t.owner)) == [t];
    var m := Filter(tweets + [t], TweetsBy(t.owner));
    assert |m| > 0 && m[|m| - 1] == t;
    UserTweetsInOrder(tweets + [t], users, t.owner);
  }

  /** A tweet just created ends its owner's listing, read back under the actor's `_id`. */
  lemma CreatedTweetIsListed(tweets: seq<Tweet>, users: seq<User>, actor: Id, content: Option<string>, newId: Id)
    requires DistinctIds(users, UserId) && IsCanonicalId(actor)
    requires FindById(users, UserId, actor).Some? && content.Some? && !Blank(content.value)
    ensures var r := GetUserTweets(CreateTweet(tweets, users, actor, content, newId).state, users, Some(actor));
            && r.Ok?
            && r.body[|r.body| - 1] == ViewOf(Tweet(newId, content.value, actor), users[FindById(users, UserId, actor).value])
  {
    var t := Tweet(newId, content.value, actor);
    assert CreateTweet(tweets, users, actor, content, newId).state == tweets + [t];
    AppendedTweetIsServed(tweets, users, t);
  }

  /** The reply to a listing request under the owner's `_id`, after a tweet is appended,
      ends with that tweet. */
  lemma AppendedTweetIsServed(tweets: seq<Tweet>, users: seq<User>, t: Tweet)
    requires DistinctIds(users, UserId) && IsCanonicalId(t.owner)
    requires FindById(users, UserId, t.owner).Some?
    ensures var r := GetUserTweets(tweets + [t], users, Some(t.owner));
            r.Ok? && r.body[|r.body| - 1] == ViewOf(t, users[FindById(users, UserId, t.owner).value])
  {
    CastKeepsCanonical(t.owner);
    AppendedTweetEndsListing(tweets, users, t);
    var listing := UserTweets(tweets + [t], users, t.owner);
    assert !InvalidIdParam(Some(t.owner));
    assert GetUserTweets(tweets + [t], users, Some(t.owner)) == Ok(200, listing);
  }

  /** `updateTweet` as written: a missing or invalid id is a 400; content is rejected
      only when missing or empty, because the blank test compares a boolean with 0 and
      never holds; an unknown id is a 404. Otherwise content and owner are set. */
  function UpdateTweetAsWritten(tweets: seq<Tweet>, actor: Id, tweetId: Option<string>, content: Option<string>): (r: Outcome<seq<Tweet>, Tweet>)
    ensures InvalidIdParam(tweetId) || Falsy(content) ==> r.reply == Fail(400)
    ensures !InvalidIdParam(tweetId) && !Falsy(content) && FindById(tweets, TweetId, ParamId(tweetId)).None? ==> r.reply == Fail(404)
    ensures r.reply.Fail? ==> r.state == tweets
    ensures r.reply.Ok? <==> !InvalidIdParam(tweetId) && !Falsy(content) && FindById(tweets, TweetId, ParamId(tweetId)).Some?
    ensures r.reply.Ok? ==>
              var i := FindById(tweets, TweetId, ParamId(tweetId)).value;
              && r.reply.status == 200
              && r.reply.body == Tweet(tweets[i].id, content.value, actor)
              && r.state == tweets[i := r.reply.body]
  {
    if InvalidIdParam(tweetId) then Outcome(tweets, Fail(400))
    else if Falsy(content) then Outcome(tweets, Fail(400))
    else
      match FindById(tweets, TweetId, ParamId(tweetId))
      case None => Outcome(tweets, Fail(404))
      case Some(i) =>
        var t := tweets[i].(content := content.value, owner := actor);
        Outcome(tweets[i := t], Ok(200, t))
  }

  /** `updateTweet` as evidently intended: blank content is rejected too. Only the
      tweet's content and owner change. */
  function UpdateTweet(tweets: seq<Tweet>, actor: Id, tweetId: Option<string>, content: Option<string>): (r: Outcome<seq<Tweet>, Tweet>)
    ensures InvalidIdParam(tweetId) || MissingOrBlank(content) ==> r.reply == Fail(400)
    ensures !InvalidIdParam(tweetId) && !MissingOrBlank(content) && FindById(tweets, TweetId, ParamId(tweetId)).None? ==> r.reply == Fail(404)
    ensures r.reply.Fail? ==> r.state == tweets
    ensures r.reply.Ok? <==> !InvalidIdParam(tweetId) && !MissingOrBlank(content) && FindById(tweets, TweetId, ParamId(tweetId)).Some?
    ensures r.reply.Ok? ==>
              var i := FindById(tweets, TweetId, ParamId(tweetId)).value;
              && r.reply.status == 200
              && |r.state| == |tweets|
              && r.reply.body == r.state[i]
              && r.state[i].id == tweets[i].id
              && r.state[i].content == content.value && !Blank(r.state[i].content)
              && r.state[i].owner == actor
              && (forall j :: 0 <= j < |tweets| && j != i ==> r.state[j] == tweets[j])
  {
    MissingOrBlankIff(content);
    if InvalidIdParam(tweetId) then Outcome(tweets, Fail(400))
    else if MissingOrBlank(content) then Outcome(tweets, Fail(400))
    else
      match FindById(tweets, TweetId, ParamId(tweetId))
      case None => Outcome(tweets, Fail(404))
      case Some(i) =>
        var t := tweets[i].(content := content.value, owner := actor);
        Outcome(tweets[i := t], Ok(200, t))
  }

  /** The two versions agree except on blank content, which the version as written
      stores: a tweet can be emptied to white space. */
  lemma UpdateTweetVersionsAgree(tweets: seq<Tweet>, actor: Id, tweetId: Option<string>, content: Option<string>)
    requires content.None? || !Blank(content.value)
    ensures UpdateTweetAsWritten(tweets, actor, tweetId, content) == UpdateTweet(tweets, actor, tweetId, content)
  {
    MissingOrBlankIff(content);
  }

  /** As written, white-space content passes the check and is stored; the intended
      version refuses it with a 400. */
  lemma UpdateTweetAcceptsWhitespace(tweets: seq<Tweet>, actor: Id, i: nat)
    requires i < |tweets| && IsCanonicalId(tweets[i].id)
    ensures UpdateTweetAsWritten(tweets, actor, Some(tweets[i].id), Some(" ")).reply.Ok?
    ensures UpdateTweet(tweets, actor, Some(tweets[i].id), Some(" ")).reply == Fail(400)
  {
    CastKeepsCanonical(tweets[i].id);
    assert IsWhitespace(" "[0]);
    MissingOrBlankIff(Some(" "));
    assert FindById(tweets, TweetId, tweets[i].id).Some?;
  }

  /** Editing a tweet twice with the same content is editing it once. */
  lemma UpdateTweetIdempotent(tweets: seq<Tweet>, actor: Id, tweetId: Option<string>, content: Option<string>)
    ensures var once := UpdateTweet(tweets, actor, tweetId, content);
            UpdateTweet(once.state, actor, tweetId, content) == once
  {
    var once := UpdateTweet(tweets, actor, tweetId, content);
    if once.reply.Ok? {
      var i := FindById(tweets, TweetId, ParamId(tweetId)).value;
      assert FindById(once.state, TweetId, ParamId(tweetId)) == Some(i) by {
        assert forall j :: 0 <= j < i ==> once.state[j] == tweets[j];
      }
      assert once.state[i := once.state[i].(content := content.value, owner := actor)] == once.state;
    }
  }

  /** `deleteTweet`: a missing or invalid id is a 400, and so is an unknown one;
      otherwise the tweet is removed and returned. */
  function DeleteTweet(tweets: seq<Tweet>, tweetId: Option<string>): (r: Outcome<seq<Tweet>, Tweet>)
    ensures r.reply.Fail? ==> r.reply.status == 400 && r.state == tweets
    ensures r.reply.Ok? <==> !InvalidIdParam(tweetId) && FindById(tweets, TweetId, ParamId(tweetId)).Some?
    ensures r.reply.Ok? ==>
              var i := FindById(tweets, TweetId, ParamId(tweetId)).value;
              && r.reply.status == 200
              && r.reply.body == tweets[i]
              && r.state == RemoveAt(tweets, i)
  {
    if InvalidIdParam(tweetId) then Outcome(tweets, Fail(400))
    else
      match FindById(tweets, TweetId, ParamId(tweetId))
      case None => Outcome(tweets, Fail(400))
      case Some(i) => Outcome(RemoveAt(tweets, i), Ok(200, tweets[i]))
  }

  /** Deleting a tweet just created (under an `_id` no other tweet has) restores the
      tweet store exactly. */
  lemma CreateThenDeleteRestores(tweets: seq<Tweet>, users: seq<User>, actor: Id, content: Option<string>, newId: Id)
    requires IsCanonicalId(newId)
    requires forall j :: 0 <= j < |tweets| ==> tweets[j].id != newId
    requires CreateTweet(tweets, users, actor, content, newId).reply.Ok?
    ensures var created := CreateTweet(tweets, users, actor, content, newId);
            var deleted := DeleteTweet(created.state, Some(newId));
            deleted.reply == Ok(200, created.reply.body) && deleted.state == tweets
  {
    CastKeepsCanonical(newId);
    var t := Tweet(newId, content.value, actor);
    FindAppended(tweets, TweetId, t);
  }
}
