/** The user-account operations of the core: registration (validation, duplicate check
    and the record it creates), the account-details update, the channel profile with its
    subscription counters, and the watch history. */
module Users {
  import opened Wrappers
  import opened ObjectIds
  import opened Seqs
  import opened Pipeline
  import opened Edges
  import opened Entities
  import opened Subscriptions
  import opened JsText

  /** What happened to an uploaded file: none was sent, the blob store returned nothing,
      or it returned a response carrying `url` (possibly empty). */
  datatype Upload = NoFile | UploadFailed | Uploaded(url: string)

  /** The registration request: the four body fields (each possibly absent) and the two
      files. */
  datatype RegisterForm = RegisterForm(
    fullname: Option<string>,
    email: Option<string>,
    username: Option<string>,
    password: Option<string>,
    avatar: Upload,
    cover: Upload)

  /** Some present field trims to "" (an absent field does not count). */
  predicate SomeFieldBlank(f: RegisterForm) {
    TrimsToEmpty(f.fullname) || TrimsToEmpty(f.username) || TrimsToEmpty(f.email) || TrimsToEmpty(f.password)
  }

  /** `findOne({ $or: [{ username }, { email }] })` matches `u`: the username as supplied
      (not lower-cased) or the email is already stored. */
  predicate Clashes(f: RegisterForm, u: User) {
    (f.username.Some? && u.username == f.username.value) || (f.email.Some? && u.email == f.email.value)
  }

  /** The avatar URL registration can use, if any. */
  function AvatarUrl(a: Upload): (r: Option<string>)
    ensures r.Some? <==> a.Uploaded? && a.url != ""
  {
    if a.Uploaded? && a.url != "" then Some(a.url) else None
  }

  /** `registerUser`. Checks, in order: a blank field (400), a clash with a stored user
      (409), no avatar file (400), an avatar upload without URL (500), a cover upload
      without URL (500), then the record is created; a field that is absent altogether
      makes the creation fail (500). A failed cover upload leaves the cover empty. */
  function RegisterUser(users: seq<User>, f: RegisterForm, newId: Id): (r: Outcome<seq<User>, User>)
    ensures r.reply.Fail? ==> r.state == users
    ensures SomeFieldBlank(f) ==> r.reply == Fail(400)
    ensures !SomeFieldBlank(f) && (exists i :: 0 <= i < |users| && Clashes(f, users[i])) ==> r.reply == Fail(409)
    ensures r.reply == Fail(400) <==> SomeFieldBlank(f) || (!(exists i :: 0 <= i < |users| && Clashes(f, users[i])) && f.avatar.NoFile?)
    ensures !SomeFieldBlank(f) && (forall i :: 0 <= i < |users| ==> !Clashes(f, users[i])) && !f.avatar.NoFile? &&
            (AvatarUrl(f.avatar).None? || f.cover == Uploaded("") ||
             f.fullname.None? || f.email.None? || f.username.None? || f.password.None?) ==>
              r.reply == Fail(500)
    ensures r.reply.Ok? <==>
              && !SomeFieldBlank(f)
              && (forall i :: 0 <= i < |users| ==> !Clashes(f, users[i]))
              && AvatarUrl(f.avatar).Some?
              && f.cover != Uploaded("")
              && f.fullname.Some? && f.email.Some? && f.username.Some? && f.password.Some?
    ensures r.reply.Ok? ==>
              var u := r.reply.body;
              && r.reply.status == 201
              && r.state == users + [u]
              && u.id == newId
              && u.username == Lower(f.username.value)
              && u.fullname == f.fullname.value && u.email == f.email.value && u.password == f.password.value
              && u.avatar == f.avatar.url
              && u.coverImage == (if f.cover.Uploaded? then f.cover.url else "")
              && u.watchHistory == []
  {
    if SomeFieldBlank(f) then Outcome(users, Fail(400))
    else if IndexWhere(users, (u: User) => Clashes(f, u)).Some? then Outcome(users, Fail(409))
    else if f.avatar.NoFile? then Outcome(users, Fail(400))
    else if AvatarUrl(f.avatar).None? then Outcome(users, Fail(500))
    else if f.cover == Uploaded("") then Outcome(users, Fail(500))
    else if f.fullname.None? || f.email.None? || f.username.None? || f.password.None? then Outcome(users, Fail(500))
    else
      var cover := if f.cover.Uploaded? then f.cover.url else "";
      var u := User(newId, Lower(f.username.value), f.email.value, f.fullname.value, f.avatar.url, cover, f.password.value, []);
      Outcome(users + [u], Ok(201, u))
  }

  /** The stored username has no upper-case letter, and registering any capitalisation
      of a name stores the same username. */
  lemma RegisteredUsernameIsLowerCase(users: seq<User>, f: RegisterForm, g: RegisterForm, newId: Id)
    requires RegisterUser(users, f, newId).reply.Ok? && RegisterUser(users, g, newId).reply.Ok?
    requires Lower(f.username.value) == Lower(g.username.value)
    ensures var u := RegisterUser(users, f, newId).reply.body;
            && (forall i :: 0 <= i < |u.username| ==> !IsUpper(u.username[i]))
            && Lower(u.username) == u.username
            && u.username == RegisterUser(users, g, newId).reply.body.username
  {
    LowerIdempotent(f.username.value);
  }

  /** The duplicate check compares the username as supplied, so a capitalised variant
      of a stored name ("Alice" when "alice" is stored) passes it, and the new record
      then carries the same username as the stored one. */
  lemma CaseVariantPassesDuplicateCheck(users: seq<User>, f: RegisterForm, newId: Id, i: nat)
    requires i < |users| && f.username.Some? && users[i].username == Lower(f.username.value)
    requires RegisterUser(users, f, newId).reply.Ok?
    ensures var r := RegisterUser(users, f, newId);
            && f.username.value != Lower(f.username.value)
            && |r.state| == |users| + 1
            && r.state[i].username == r.state[|users|].username
  {
    assert !Clashes(f, users[i]);
  }

  /** `updateAccountDetails`: both fields are required (400 otherwise); the actor's record
      gets the new fullname and email and nothing else changes. An actor with no record
      gets 200 with an empty body. */
  function UpdateAccountDetails(users: seq<User>, actor: Id, fullname: Option<string>, email: Option<string>): (r: Outcome<seq<User>, Option<User>>)
    ensures r.reply.Fail? <==> Falsy(fullname) || Falsy(email)
    ensures r.reply.Fail? ==> r.reply.status == 400 && r.state == users
    ensures r.reply.Ok? ==> r.reply.status == 200 && |r.state| == |users|
    ensures r.reply.Ok? && FindById(users, UserId, actor).None? ==> r.state == users && r.reply.body.None?
    ensures r.reply.Ok? && FindById(users, UserId, actor).Some? ==>
              var i := FindById(users, UserId, actor).value;
              && r.reply.body == Some(r.state[i])
              && r.state[i].fullname == fullname.value && r.state[i].email == email.value
              && r.state[i].(fullname := users[i].fullname, email := users[i].email) == users[i]
              && (forall j :: 0 <= j < |users| && j != i ==> r.state[j] == users[j])
  {
    if Falsy(fullname) || Falsy(email) then Outcome(users, Fail(400))
    else
      match FindById(users, UserId, actor)
      case None => Outcome(users, Ok(200, None))
      case Some(i) =>
        var u := users[i].(fullname := fullname.value, email := email.value);
        Outcome(users[i := u], Ok(200, Some(u)))
  }

  /** Sending the same details twice has the effect of sending them once. */
  lemma UpdateAccountDetailsIdempotent(users: seq<User>, actor: Id, fullname: Option<string>, email: Option<string>)
    ensures var once := UpdateAccountDetails(users, actor, fullname, email);
            UpdateAccountDetails(once.state, actor, fullname, email) == once
  {
    var once := UpdateAccountDetails(users, actor, fullname, email);
    if once.reply.Ok? {
      match FindById(users, UserId, actor)
      case None =>
      case Some(i) =>
        var u := users[i].(fullname := fullname.value, email := email.value);
        assert once.state == users[i := u];
        assert FindById(once.state, UserId, actor) == Some(i) by {
          assert forall j :: 0 <= j < i ==> once.state[j] == users[j];
        }
        assert once.state[i].(fullname := fullname.value, email := email.value) == u;
        assert once.state[i := u] == once.state;
    }
  }

  /** The profile `getUserChannelProfile` returns, after its `$project`. */
  datatype ChannelProfile = ChannelProfile(
    id: Id,
    fullname: string,
    username: string,
    avatar: string,
    email: string,
    coverImage: string,
    subscribersCount: nat,
    channelsSubscribedToCount: nat,
    isSubscribed: bool)

  /** Whether any joined subscription was made by `viewer` (`$in` on
      `$subscribers.subscriber`). */
  function SubscriberAmong(viewer: Id, joined: seq<Subscription>): (r: bool)
    ensures r <==> exists j :: 0 <= j < |joined| && joined[j].key.subscriber == viewer
  {
    IndexWhere(joined, BySubscriber(viewer)).Some?
  }

  /** The `$lookup`s and `$addFields` for one matched user. */
  function ProfileOf(u: User, subs: seq<Subscription>, viewer: Id): ChannelProfile {
    var subscribers := MatchesOf(u, subs, IntoChannel());
    var subscribedTo := MatchesOf(u, subs, OutOfChannel());
    ChannelProfile(u.id, u.fullname, u.username, u.avatar, u.email, u.coverImage,
                   |subscribers|, |subscribedTo|, SubscriberAmong(viewer, subscribers))
  }

  /** The join condition of the `subscribers` lookup: `channel` is the user's `_id`. */
  function IntoChannel(): (User, Subscription) -> bool {
    (u: User, e: Subscription) => e.key.channel == u.id
  }

  /** The join condition of the `subscribedTo` lookup: `subscriber` is the user's `_id`. */
  function OutOfChannel(): (User, Subscription) -> bool {
    (u: User, e: Subscription) => e.key.subscriber == u.id
  }

  /** A profile's counters: the number of subscriptions to the user, the number made by
      the user, and whether the viewer subscribes to the user. */
  lemma ProfileCounters(u: User, subs: seq<Subscription>, viewer: Id)
    ensures var p := ProfileOf(u, subs, viewer);
            && p.id == u.id
            && p.subscribersCount == |Filter(subs, ToChannel(u.id))|
            && p.channelsSubscribedToCount == |Filter(subs, BySubscriber(u.id))|
            && (p.isSubscribed <==> Has(subs, SubKey(viewer, u.id)))
  {
    MatchesOfIsFilter(u, subs, IntoChannel(), ToChannel(u.id));
    MatchesOfIsFilter(u, subs, OutOfChannel(), BySubscriber(u.id));
    SubscribedIffEdge(u, subs, viewer);
  }

  /** The viewer is among the joined subscribers exactly when its edge to the user is
      stored. */
  lemma SubscribedIffEdge(u: User, subs: seq<Subscription>, viewer: Id)
    ensures SubscriberAmong(viewer, MatchesOf(u, subs, IntoChannel())) <==> Has(subs, SubKey(viewer, u.id))
  {
    var subscribers := MatchesOf(u, subs, IntoChannel());
    var k := SubKey(viewer, u.id);
    if SubscriberAmong(viewer, subscribers) {
      var j :| 0 <= j < |subscribers| && subscribers[j].key.subscriber == viewer;
      var e := subscribers[j];
      assert e in subscribers;
      assert e in subs && e.key.channel == u.id;
      var i :| 0 <= i < |subs| && subs[i] == e;
      assert subs[i].key == k;
    }
    if Has(subs, k) {
      var i :| 0 <= i < |subs| && subs[i].key == k;
      var e := subs[i];
      assert IntoChannel()(u, e);
      assert e in subscribers;
      var j :| 0 <= j < |subscribers| && subscribers[j] == e;
      assert subscribers[j].key.subscriber == viewer;
    }
  }

  /** The selection of users whose username is `name`. */
  function Named(name: string): User -> bool {
    (u: User) => u.username == name
  }

  /** `getUserChannelProfile`: a missing or blank name is a 400; the lower-cased name
      (not trimmed) is matched; no match is a 404; otherwise the first match's profile. */
  function GetUserChannelProfile(users: seq<User>, subs: seq<Subscription>, viewer: Id, username: Option<string>): (r: Response<ChannelProfile>)
    ensures MissingOrBlank(username) ==> r == Fail(400)
    ensures !MissingOrBlank(username) ==>
              (r == Fail(404) <==> forall i :: 0 <= i < |users| ==> users[i].username != Lower(username.value))
    ensures !MissingOrBlank(username) ==>
              (r.Ok? <==> exists i :: 0 <= i < |users| && users[i].username == Lower(username.value))
    ensures r.Ok? ==> r.status == 200 && r.body.username == Lower(username.value)
    ensures r.Ok? ==>
              var i := IndexWhere(users, Named(Lower(username.value))).value;
              i < |users| && r.body == ProfileOf(users[i], subs, viewer)
  {
    if MissingOrBlank(username) then Fail(400)
    else
      var matched := Filter(users, Named(Lower(username.value)));
      var profiles := seq(|matched|, i requires 0 <= i < |matched| => ProfileOf(matched[i], subs, viewer));
      assert forall i :: 0 <= i < |users| && users[i].username == Lower(username.value) ==> users[i] in matched;
      if |profiles| == 0 then Fail(404)
      else
        FirstSelected(users, Named(Lower(username.value)));
        Ok(200, profiles[0])
  }

  /** The first selected element is the one at the first index satisfying the
      predicate. */
  lemma {:induction false} FirstSelected<T(!new)>(s: seq<T>, p: T -> bool)
    requires Filter(s, p) != []
    ensures IndexWhere(s, p).Some? && Filter(s, p)[0] == s[IndexWhere(s, p).value]
    decreases |s|
  {
    if !p(s[0]) {
      FirstSelected(s[1..], p);
    }
  }

  /** A user with no subscriptions either way has zero counters and is not subscribed
      to by anyone. */
  lemma ProfileOfUnconnectedUser(u: User, subs: seq<Subscription>, viewer: Id)
    requires forall i :: 0 <= i < |subs| ==> subs[i].key.channel != u.id && subs[i].key.subscriber != u.id
    ensures ProfileOf(u, subs, viewer).subscribersCount == 0
    ensures ProfileOf(u, subs, viewer).channelsSubscribedToCount == 0
    ensures !ProfileOf(u, subs, viewer).isSubscribed
  {
    ProfileCounters(u, subs, viewer);
    FilterNone(subs, ToChannel(u.id));
    FilterNone(subs, BySubscriber(u.id));
  }

  /** The channel's subscription list and its profile's counter agree. */
  lemma SubscriberListMatchesCounter(u: User, subs: seq<Subscription>, viewer: Id)
    requires IsCanonicalId(u.id)
    ensures var l := ChannelSubscribers(subs, Some(u.id));
            l.Ok? && |l.body| == ProfileOf(u, subs, viewer).subscribersCount
  {
    CastKeepsCanonical(u.id);
    ProfileCounters(u, subs, viewer);
  }

  /** After the viewer subscribes to a channel, its profile says so and counts one more
      subscriber; after the viewer unsubscribes (with at most one subscription per pair)
      it says not subscribed and counts one fewer. */
  lemma ToggleShowsInProfile(subs: seq<Subscription>, u: User, viewer: Id, newId: Id, now: nat)
    requires UniqueIds(subs) && UniqueKeys(subs)
    requires IsCanonicalId(u.id) && viewer != u.id
    ensures var r := ToggleSubscription(subs, viewer, Some(u.id), newId, now);
            var before := ProfileOf(u, subs, viewer);
            var after := ProfileOf(u, r.state, viewer);
            && r.reply.Ok?
            && (after.isSubscribed <==> r.reply.body.Subscribed?)
            && after.subscribersCount == (if r.reply.body.Subscribed? then before.subscribersCount + 1 else before.subscribersCount - 1)
            && after.channelsSubscribedToCount == before.channelsSubscribedToCount
  {
    CastKeepsCanonical(u.id);
    var r := ToggleSubscription(subs, viewer, Some(u.id), newId, now);
    ProfileCounters(u, subs, viewer);
    ProfileCounters(u, r.state, viewer);
    ToggleChannelCounters(subs, u.id, viewer, newId, now);
  }

  /** The counters `ToggleShowsInProfile` reads, in terms of the edge store: a toggle of
      the viewer's edge to `c` moves the channel's subscriber count by one, keeps the
      count of subscriptions made by `c`, and flips whether the edge is stored. */
  lemma ToggleChannelCounters(subs: seq<Subscription>, c: Id, viewer: Id, newId: Id, now: nat)
    requires UniqueIds(subs) && UniqueKeys(subs) && viewer != c
    ensures var k := SubKey(viewer, c);
            var t := Toggle(subs, k, newId, now).store;
            && |Filter(t, ToChannel(c))| == (if Has(subs, k) then |Filter(subs, ToChannel(c))| - 1 else |Filter(subs, ToChannel(c))| + 1)
            && |Filter(t, BySubscriber(c))| == |Filter(subs, BySubscriber(c))|
            && (Has(t, k) <==> !Has(subs, k))
  {
    var k := SubKey(viewer, c);
    var t := Toggle(subs, k, newId, now);
    ToggleCount(subs, k, newId, now);
    UniqueKeysCount(subs, k);
    CountHas(subs, k);
    CountHas(t.store, k);
    ToggleFrame(subs, k, newId, now, BySubscriber(c));
    var p' := (e: Subscription) => e.key.channel == c && e.key.subscriber != viewer;
    FilterSplitsChannel(subs, c, viewer);
    FilterSplitsChannel(t.store, c, viewer);
    ToggleFrame(subs, k, newId, now, p');
  }

  /** The subscriptions to a channel are those from one subscriber plus those from
      everyone else. */
  lemma {:induction false} FilterSplitsChannel(subs: seq<Subscription>, c: Id, viewer: Id)
    ensures |Filter(subs, ToChannel(c))| ==
            Count(subs, SubKey(viewer, c)) + |Filter(subs, (e: Subscription) => e.key.channel == c && e.key.subscriber != viewer)|
    decreases |subs|
  {
    if |subs| > 0 {
      FilterSplitsChannel(subs[1..], c, viewer);
    }
  }

  /** A user's card in another record: `$project` of fullname, avatar and username. */
  datatype OwnerCard = OwnerCard(id: Id, fullname: string, avatar: string, username: string)

  /** A watch-history entry: the video with its `owner` replaced by the owner's card, or
      absent when no user has that id. */
  datatype WatchedVideo = WatchedVideo(video: Video, owner: Option<OwnerCard>)

  function CardOf(u: User): OwnerCard {
    OwnerCard(u.id, u.fullname, u.avatar, u.username)
  }

  /** The inner `$lookup` with `$first` for one video. */
  function WithOwner(users: seq<User>, v: Video): (r: WatchedVideo)
    ensures r.video == v
    ensures r.owner.None? <==> forall j :: 0 <= j < |users| ==> users[j].id != v.owner
    ensures r.owner.Some? ==> r.owner.value == CardOf(users[FindById(users, UserId, v.owner).value])
  {
    var owners := MatchesOf(v, users, OwnerOn());
    OwnersOf(users, v);
    match First(owners)
    case None => WatchedVideo(v, None)
    case Some(o) => WatchedVideo(v, Some(CardOf(o)))
  }

  /** The users the inner lookup joins to a video: none exactly when no user has the
      owner's `_id`, and otherwise first the one `findById` finds. */
  lemma OwnersOf(users: seq<User>, v: Video)
    ensures var owners := MatchesOf(v, users, OwnerOn());
            && (owners == [] <==> FindById(users, UserId, v.owner).None?)
            && (owners != [] ==> owners[0] == users[FindById(users, UserId, v.owner).value])
  {
    var p := (u: User) => u.id == v.owner;
    MatchesOfIsFilter(v, users, OwnerOn(), p);
    SelectFirstById(users, UserId, v.owner, p);
  }

  /** The selection of videos whose `_id` is in `history`. */
  function InHistory(history: seq<Id>): Video -> bool {
    (v: Video) => v.id in history
  }

  /** The videos of a watch-history list. */
  function VideosOf(s: seq<WatchedVideo>): (r: seq<Video>)
    ensures |r| == |s| && forall i :: 0 <= i < |s| ==> r[i] == s[i].video
  {
    seq(|s|, i requires 0 <= i < |s| => s[i].video)
  }

  /** `getWatchHistory`: the stored videos whose `_id` appears in the actor's
      `watchHistory`, in store order, each with its owner's card; 404 when the actor has
      no record. */
  function GetWatchHistory(users: seq<User>, videos: seq<Video>, actor: Id): (r: Response<seq<WatchedVideo>>)
    ensures r.Fail? <==> FindById(users, UserId, actor).None?
    ensures r.Fail? ==> r.status == 404
    ensures r.Ok? ==>
              var wh := users[FindById(users, UserId, actor).value].watchHistory;
              && r.status == 200
              && (forall v :: v in VideosOf(r.body) <==> v in videos && v.id in wh)
              && (forall i :: 0 <= i < |r.body| ==> r.body[i] == WithOwner(users, r.body[i].video))
    ensures r.Ok? ==>
              VideosOf(r.body) == Filter(videos, InHistory(users[FindById(users, UserId, actor).value].watchHistory))
  {
    match FindById(users, UserId, actor)
    case None => Fail(404)
    case Some(i) =>
      var vs := Filter(videos, InHistory(users[i].watchHistory));
      var r := seq(|vs|, j requires 0 <= j < |vs| => WithOwner(users, vs[j]));
      assert VideosOf(r) == vs;
      Ok(200, r)
  }

  /** The history lists each stored video at most once, however often its id repeats in
      `watchHistory`. */
  lemma WatchHistoryHasNoRepeats(users: seq<User>, videos: seq<Video>, actor: Id)
    requires DistinctIds(videos, VideoId)
    ensures var r := GetWatchHistory(users, videos, actor);
            r.Ok? ==> DistinctIds(VideosOf(r.body), VideoId) && |r.body| <= |videos|
  {
    var r := GetWatchHistory(users, videos, actor);
    if r.Ok? {
      var i := FindById(users, UserId, actor).value;
      FilterKeepsDistinct(videos, InHistory(users[i].watchHistory), VideoId);
    }
  }

  /** A selection from records with distinct `_id`s has distinct `_id`s. */
  lemma {:induction false} FilterKeepsDistinct<T(!new)>(s: seq<T>, p: T -> bool, idOf: T -> Id)
    requires DistinctIds(s, idOf)
    ensures DistinctIds(Filter(s, p), idOf)
    decreases |s|
  {
    if |s| > 0 {
      assert DistinctIds(s[1..], idOf) by {
        forall a, b | 0 <= a < b < |s[1..]| ensures idOf(s[1..][a]) != idOf(s[1..][b]) {
          assert s[1..][a] == s[a + 1] && s[1..][b] == s[b + 1];
        }
      }
      FilterKeepsDistinct(s[1..], p, idOf);
      var rest := Filter(s[1..], p);
      forall x | x in rest ensures idOf(x) != idOf(s[0]) {
        var b :| 0 <= b < |s[1..]| && s[1..][b] == x;
        assert s[b + 1] == x;
      }
    }
  }
}
