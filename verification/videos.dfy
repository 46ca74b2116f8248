/** Videos: the per-owner listing (an inner join with the owner, sorted and windowed),
    the lookup by `_id`, and the publish-flag toggle. */
module Videos {
  import opened Wrappers
  import opened ObjectIds
  import opened Seqs
  import opened Pipeline
  import opened Entities
  import opened JsText

  /** The owner fields the listing joins in: `_id`, `username` and `avatar`. */
  datatype OwnerDetails = OwnerDetails(id: Id, username: string, avatar: string)

  /** One listing row after the final `$project`. */
  datatype VideoListing = VideoListing(
    id: Id,
    title: string,
    description: string,
    videoFile: string,
    thumbnail: string,
    ownerDetails: OwnerDetails,
    createdAt: nat,
    updatedAt: nat)

  /** The query string of `getAllVideos`; every field may be absent. */
  datatype VideoQuery = VideoQuery(
    page: Option<string>,
    limit: Option<string>,
    query: Option<string>,
    sortBy: Option<string>,
    sortType: Option<string>,
    userId: Option<string>)

  /** The field `sortBy` names. The two timestamps are ordered numerically; any other
      name is treated as a field on which all rows tie. */
  datatype SortField = ByCreatedAt | ByUpdatedAt | ByOther

  function SortFieldOf(sortBy: Option<string>): (f: SortField)
    ensures f.ByCreatedAt? <==> sortBy == Some("createdAt")
    ensures f.ByUpdatedAt? <==> sortBy == Some("updatedAt")
  {
    if sortBy == Some("createdAt") then ByCreatedAt
    else if sortBy == Some("updatedAt") then ByUpdatedAt
    else ByOther
  }

  /** The value a row is sorted on. */
  function ListingKey(f: SortField): VideoListing -> int {
    (x: VideoListing) => match f
      case ByCreatedAt => x.createdAt
      case ByUpdatedAt => x.updatedAt
      case ByOther => 0
  }

  /** The selection of videos owned by `owner`. */
  function OwnedBy(owner: Id): Video -> bool {
    (v: Video) => v.owner == owner
  }

  function DetailsOf(u: User): OwnerDetails {
    OwnerDetails(u.id, u.username, u.avatar)
  }

  /** The `$project` of one unwound `(video, owner)` row. */
  function ListingOf(v: Video, u: User): VideoListing {
    VideoListing(v.id, v.title, v.description, v.videoFile, v.thumbnail, DetailsOf(u), v.createdAt, v.updatedAt)
  }

  function ListingOfRow(row: (Video, User)): VideoListing {
    ListingOf(row.0, row.1)
  }

  /** The pipeline of `getAllVideos` before the window: `$match` on the owner, `$lookup`
      of the owner record, `$unwind` (dropping videos without one), and `$sort`. The
      projection keeps the sort fields, so it is applied before sorting. */
  function Listing(videos: seq<Video>, users: seq<User>, owner: Id, f: SortField, desc: bool): (r: seq<VideoListing>)
    ensures InOrder(r, ListingKey(f), desc)
    ensures FindById(users, UserId, owner).None? ==> r == []
    ensures forall x :: x in r ==>
              exists v, u :: v in videos && u in users && v.owner == owner && u.id == owner && x == ListingOf(v, u)
  {
    var projected := JoinedRows(videos, users, owner);
    var sorted := Sort(projected, ListingKey(f), desc);
    assert forall x :: x in sorted ==> x in projected by {
      forall x | x in sorted ensures x in projected {
        assert x in multiset(sorted);
      }
    }
    assert sorted != [] ==> sorted[0] in projected;
    sorted
  }

  /** `$match`, `$lookup`, `$unwind` and `$project`, before sorting: every row is an
      owned video next to a user with the owner's `_id`. */
  function JoinedRows(videos: seq<Video>, users: seq<User>, owner: Id): (r: seq<VideoListing>)
    ensures forall x :: x in r ==>
              exists v, u :: v in videos && u in users && v.owner == owner && u.id == owner && x == ListingOf(v, u)
    ensures r != [] ==> FindById(users, UserId, owner).Some?
  {
    var matched := Filter(videos, OwnedBy(owner));
    var joined := Lookup(matched, users, OwnerOn());
    var rows := Unwind(joined);
    var r := seq(|rows|, i requires 0 <= i < |rows| => ListingOfRow(rows[i]));
    forall x | x in r
      ensures exists v, u :: v in videos && u in users && v.owner == owner && u.id == owner && x == ListingOf(v, u)
      ensures FindById(users, UserId, owner).Some?
    {
      var i :| 0 <= i < |rows| && x == ListingOfRow(rows[i]);
      var (v, u) := rows[i];
      assert (v, u) in rows;
      assert JoinedIn(joined, v, u);
      var k :| 0 <= k < |joined| && joined[k].local == v && u in joined[k].matches;
      assert v in matched;
      var j :| 0 <= j < |users| && users[j] == u;
    }
    assert r != [] ==> r[0] in r;
    r
  }

  /** The rows before sorting when the owner has exactly one record: one per owned
      video, in store order, each carrying that record. */
  function OwnedRows(videos: seq<Video>, owner: User): (r: seq<VideoListing>)
    ensures |r| == |Filter(videos, OwnedBy(owner.id))|
  {
    var m := Filter(videos, OwnedBy(owner.id));
    seq(|m|, i requires 0 <= i < |m| => ListingOf(m[i], owner))
  }

  /** With distinct user `_id`s and an existing owner, the inner join drops nothing:
      the listing is a permutation of the owner's videos, each with the owner's details. */
  lemma ListingIsInnerJoin(videos: seq<Video>, users: seq<User>, owner: Id, f: SortField, desc: bool)
    requires DistinctIds(users, UserId)
    requires FindById(users, UserId, owner).Some?
    ensures multiset(Listing(videos, users, owner, f, desc))
            == multiset(OwnedRows(videos, users[FindById(users, UserId, owner).value]))
  {
    JoinedRowsAreOwnedRows(videos, users, owner);
  }

  /** The unsorted rows of `ListingIsInnerJoin`: the owner's videos in store order. */
  lemma JoinedRowsAreOwnedRows(videos: seq<Video>, users: seq<User>, owner: Id)
    requires DistinctIds(users, UserId)
    requires FindById(users, UserId, owner).Some?
    ensures JoinedRows(videos, users, owner) == OwnedRows(videos, users[FindById(users, UserId, owner).value])
  {
    var u := users[FindById(users, UserId, owner).value];
    var matched := Filter(videos, OwnedBy(owner));
    var joined := Lookup(matched, users, OwnerOn());
    forall i | 0 <= i < |joined|
      ensures |joined[i].matches| == 1 && joined[i].matches[0] == u
    {
      assert matched[i].owner == owner;
      SoleOwner(users, matched[i]);
    }
    UnwindSingletons(joined);
  }

  /** With distinct user `_id`s, a video whose owner is on record joins exactly that
      user. */
  lemma SoleOwner(users: seq<User>, v: Video)
    requires DistinctIds(users, UserId)
    requires FindById(users, UserId, v.owner).Some?
    ensures MatchesOf(v, users, OwnerOn()) == [users[FindById(users, UserId, v.owner).value]]
  {
    var p := (w: User) => w.id == v.owner;
    MatchesOfIsFilter(v, users, OwnerOn(), p);
    SelectById(users, UserId, v.owner, p);
  }

  /** `(page - 1) * limit` with both operands coerced by `Number`: absent when either is
      not a number or the product is negative, which the database rejects. */
  function SkipCount(page: Option<string>, limit: Option<string>): (r: Option<nat>)
    ensures page.None? && limit.None? ==> r == Some(0)
  {
    var p := if page.None? then Some(1) else NumberOf(page.value);
    var l := if limit.None? then Some(10) else NumberOf(limit.value);
    if p.None? || l.None? || (p.value - 1) * l.value < 0 then None
    else Some((p.value - 1) * l.value)
  }

  /** `parseInt(limit, 10)`: absent when it is not a number or not positive, which the
      database rejects. */
  function TakeCount(limit: Option<string>): (r: Option<nat>)
    ensures r.Some? ==> r.value >= 1
    ensures limit.None? ==> r == Some(10)
    ensures limit.Some? ==> (r.Some? <==> ParseInt(limit.value).Some? && ParseInt(limit.value).value >= 1)
  {
    if limit.None? then Some(10)
    else
      match ParseInt(limit.value)
      case Some(n) => if n >= 1 then Some(n) else None
      case None => None
  }

  /** `getAllVideos`. A missing or invalid `userId`, a missing `query` or an unknown owner
      is a 404; a window the database rejects a 500; an empty window a 404; otherwise
      the window of the sorted listing. */
  function GetAllVideos(videos: seq<Video>, users: seq<User>, q: VideoQuery): (r: Response<seq<VideoListing>>)
    ensures InvalidIdParam(q.userId) ==> r == Fail(404)
    ensures !InvalidIdParam(q.userId) && Falsy(q.query) ==> r == Fail(404)
    ensures !InvalidIdParam(q.userId) && FindById(users, UserId, ParamId(q.userId)).None? ==> r == Fail(404)
    ensures !InvalidIdParam(q.userId) && !Falsy(q.query) && FindById(users, UserId, ParamId(q.userId)).Some? ==>
              (r == Fail(500) <==> SkipCount(q.page, q.limit).None? || TakeCount(q.limit).None?)
    ensures r.Ok? ==>
              && r.status == 200
              && r.body != []
              && |r.body| <= TakeCount(q.limit).value
              && InOrder(r.body, ListingKey(SortFieldOf(q.sortBy)), q.sortType == Some("desc"))
              && forall x :: x in r.body ==>
                   x in Listing(videos, users, ParamId(q.userId), SortFieldOf(q.sortBy), q.sortType == Some("desc"))
    ensures r.Ok? ==> forall i :: 0 <= i < |r.body| ==> r.body[i].ownerDetails.id == ParamId(q.userId)
    ensures !InvalidIdParam(q.userId) && !Falsy(q.query) && FindById(users, UserId, ParamId(q.userId)).Some?
            && SkipCount(q.page, q.limit).Some? && TakeCount(q.limit).Some? ==>
              var all := Listing(videos, users, ParamId(q.userId), SortFieldOf(q.sortBy), q.sortType == Some("desc"));
              var w := Window(all, SkipCount(q.page, q.limit).value, TakeCount(q.limit).value);
              && (r.Ok? <==> w != [])
              && (r.Ok? ==> r.body == w)
              && (r.Fail? ==> r.status == 404)
  {
    if InvalidIdParam(q.userId) then Fail(404)
    else if Falsy(q.query) then Fail(404)
    else if FindById(users, UserId, ParamId(q.userId)).None? then Fail(404)
    else
      var skip := SkipCount(q.page, q.limit);
      var take := TakeCount(q.limit);
      if skip.None? || take.None? then Fail(500)
      else
        var all := Listing(videos, users, ParamId(q.userId), SortFieldOf(q.sortBy), q.sortType == Some("desc"));
        var w := WindowOf(all, skip.value, take.value, ListingKey(SortFieldOf(q.sortBy)), q.sortType == Some("desc"));
        forall i | 0 <= i < |w| ensures w[i].ownerDetails.id == ParamId(q.userId) {
          assert w[i] in all;
        }
        if w == [] then Fail(404) else Ok(200, w)
  }

  /** A window of an ordered sequence stays ordered and keeps only its elements. */
  function WindowOf<T>(s: seq<T>, skip: nat, take: nat, key: T -> int, desc: bool): (r: seq<T>)
    requires InOrder(s, key, desc)
    ensures r == Window(s, skip, take)
    ensures |r| <= take
    ensures InOrder(r, key, desc)
    ensures forall x :: x in r ==> x in s
  {
    var r := Window(s, skip, take);
    assert forall i, j :: 0 <= i < j < |r| ==> r[i] == s[skip + i] && r[j] == s[skip + j];
    r
  }

  /** Page `p` of `l` rows, both asked for as decimal query strings, skips `(p - 1) * l`
      rows of the sorted listing and answers with the window that follows, or 404 when
      the window is empty. */
  lemma VideoPagesAreWindows(videos: seq<Video>, users: seq<User>, q: VideoQuery, p: nat, l: nat)
    requires !InvalidIdParam(q.userId) && !Falsy(q.query)
    requires FindById(users, UserId, ParamId(q.userId)).Some?
    requires p >= 1 && l >= 1 && q.page == Some(ShowNat(p)) && q.limit == Some(ShowNat(l))
    ensures SkipCount(q.page, q.limit) == Some((p - 1) * l)
    ensures var all := Listing(videos, users, ParamId(q.userId), SortFieldOf(q.sortBy), q.sortType == Some("desc"));
            var w := Window(all, (p - 1) * l, l);
            GetAllVideos(videos, users, q) == if w == [] then Fail(404) else Ok(200, w)
  {
    NumeralPaging(p, l);
    var r := GetAllVideos(videos, users, q);
    var all := Listing(videos, users, ParamId(q.userId), SortFieldOf(q.sortBy), q.sortType == Some("desc"));
    var w := Window(all, (p - 1) * l, l);
    if w == [] {
      assert r.Fail? && r.status == 404;
    } else {
      assert r.Ok? && r.status == 200 && r.body == w;
    }
  }

  /** Decimal page and limit numerals, both at least 1, give `$skip` `(p - 1) * l` and
      `$limit` `l`. */
  lemma NumeralPaging(p: nat, l: nat)
    requires p >= 1 && l >= 1
    ensures SkipCount(Some(ShowNat(p)), Some(ShowNat(l))) == Some((p - 1) * l)
    ensures TakeCount(Some(ShowNat(l))) == Some(l)
  {
    NumberOfShowNat(p);
    NumberOfShowNat(l);
    ParseIntShowNat(l);
    SkipOfNumbers(ShowNat(p), ShowNat(l), p, l);
    TakeOfNumber(ShowNat(l), l);
  }

  /** A page and a limit that coerce to `p >= 1` and `l` skip `(p - 1) * l` rows. */
  lemma SkipOfNumbers(page: string, limit: string, p: nat, l: nat)
    requires NumberOf(page) == Some(p) && NumberOf(limit) == Some(l) && p >= 1
    ensures SkipCount(Some(page), Some(limit)) == Some((p - 1) * l)
  {
    var pv := NumberOf(page);
    var lv := NumberOf(limit);
    assert pv.value - 1 >= 0 && lv.value >= 0;
    MulNonNegative(pv.value - 1, lv.value);
  }

  /** The product of two non-negative numbers is non-negative. */
  lemma MulNonNegative(a: int, b: int)
    requires a >= 0 && b >= 0
    ensures a * b >= 0
  {
  }

  /** A limit that parses to a positive `l` takes `l` rows. */
  lemma TakeOfNumber(limit: string, l: nat)
    requires ParseInt(limit) == Some(l) && l >= 1
    ensures TakeCount(Some(limit)) == Some(l)
  {
  }

  /** With default paging, the listing of an existing owner holds every one of the
      owner's first ten videos (in sorted order): nothing is lost to the join. */
  lemma DefaultPageListsOwnedVideos(videos: seq<Video>, users: seq<User>, q: VideoQuery)
    requires DistinctIds(users, UserId)
    requires !InvalidIdParam(q.userId) && !Falsy(q.query)
    requires FindById(users, UserId, ParamId(q.userId)).Some?
    requires q.page.None? && q.limit.None?
    requires Filter(videos, OwnedBy(ParamId(q.userId))) != []
    ensures var r := GetAllVideos(videos, users, q);
            var owned := |Filter(videos, OwnedBy(ParamId(q.userId)))|;
            var all := Listing(videos, users, ParamId(q.userId), SortFieldOf(q.sortBy), q.sortType == Some("desc"));
            && r.Ok? && |r.body| == Min(10, owned)
            && r.body == all[..Min(10, owned)]
  {
    var owner := ParamId(q.userId);
    var f := SortFieldOf(q.sortBy);
    var desc := q.sortType == Some("desc");
    ListingIsInnerJoin(videos, users, owner, f, desc);
    var all := Listing(videos, users, owner, f, desc);
    var u := users[FindById(users, UserId, owner).value];
    assert |all| == |multiset(all)| == |multiset(OwnedRows(videos, u))| == |OwnedRows(videos, u)|;
  }

  /** `getVideoById`: a missing, invalid or unknown id is a 404; otherwise the first
      video with that `_id`. */
  function GetVideoById(videos: seq<Video>, videoId: Option<string>): (r: Response<Video>)
    ensures r.Ok? <==> !InvalidIdParam(videoId) && exists i :: 0 <= i < |videos| && videos[i].id == ParamId(videoId)
    ensures r.Fail? ==> r.status == 404
    ensures r.Ok? ==> r.status == 200 && r.body in videos && r.body.id == ParamId(videoId)
  {
    if InvalidIdParam(videoId) then Fail(404)
    else
      match FindById(videos, VideoId, ParamId(videoId))
      case None => Fail(404)
      case Some(i) => Ok(200, videos[i])
  }

  /** With distinct `_id`s every stored video is found by its own `_id`. */
  lemma GetVideoByIdFindsEach(videos: seq<Video>, i: nat)
    requires DistinctIds(videos, VideoId) && i < |videos|
    requires IsCanonicalId(videos[i].id)
    ensures GetVideoById(videos, Some(videos[i].id)) == Ok(200, videos[i])
  {
    CastKeepsCanonical(videos[i].id);
    FindByIdAt(videos, VideoId, i);
  }

  /** `togglePublishStatus` as intended: a missing, invalid or unknown id is a 404;
      otherwise only `isPublished` of the video is negated, and the saved video is
      returned. */
  function TogglePublishStatus(videos: seq<Video>, videoId: Option<string>): (r: Outcome<seq<Video>, Video>)
    ensures r.reply.Fail? ==> r.reply.status == 404 && r.state == videos
    ensures r.reply.Ok? <==> !InvalidIdParam(videoId) && FindById(videos, VideoId, ParamId(videoId)).Some?
    ensures r.reply.Ok? ==>
              var i := FindById(videos, VideoId, ParamId(videoId)).value;
              && r.reply.status == 200
              && |r.state| == |videos|
              && r.reply.body == r.state[i]
              && r.state[i].isPublished == !videos[i].isPublished
              && r.state[i].(isPublished := videos[i].isPublished) == videos[i]
              && (forall j :: 0 <= j < |videos| && j != i ==> r.state[j] == videos[j])
  {
    if InvalidIdParam(videoId) then Outcome(videos, Fail(404))
    else
      match FindById(videos, VideoId, ParamId(videoId))
      case None => Outcome(videos, Fail(404))
      case Some(i) =>
        var v := videos[i].(isPublished := !videos[i].isPublished);
        Outcome(videos[i := v], Ok(200, v))
  }

  /** Toggling the publish flag twice restores the store, and the second reply is the
      original video. */
  lemma TogglePublishTwice(videos: seq<Video>, videoId: Option<string>)
    ensures var once := TogglePublishStatus(videos, videoId);
            var twice := TogglePublishStatus(once.state, videoId);
            && twice.state == videos
            && (once.reply.Ok? ==> twice.reply == Ok(200, videos[FindById(videos, VideoId, ParamId(videoId)).value]))
  {
    var once := TogglePublishStatus(videos, videoId);
    if once.reply.Ok? {
      var i := FindById(videos, VideoId, ParamId(videoId)).value;
      assert FindById(once.state, VideoId, ParamId(videoId)) == Some(i) by {
        assert forall j :: 0 <= j < i ==> once.state[j] == videos[j];
      }
      assert once.state[i := videos[i]] == videos;
    }
  }

  /** `togglePublishStatus` as written: the check after the lookup tests the route id,
      which is known to be present, instead of the video, so an unknown id reaches the
      negation of a field of `null`, a type error the error middleware turns into a
      500. */
  function TogglePublishStatusAsWritten(videos: seq<Video>, videoId: Option<string>): (r: Outcome<seq<Video>, Video>)
    ensures r.reply.Fail? ==> r.state == videos
    ensures !InvalidIdParam(videoId) && FindById(videos, VideoId, ParamId(videoId)).None? ==> r.reply == Fail(500)
    ensures !InvalidIdParam(videoId) && FindById(videos, VideoId, ParamId(videoId)).Some? ==>
              r == TogglePublishStatus(videos, videoId)
  {
    if InvalidIdParam(videoId) then Outcome(videos, Fail(404))
    else
      // the second check re-tests the route id, which the first one has passed
      match FindById(videos, VideoId, ParamId(videoId))
      case None => Outcome(videos, Fail(500))
      case Some(i) =>
        var v := videos[i].(isPublished := !videos[i].isPublished);
        Outcome(videos[i := v], Ok(200, v))
  }

  /** The two versions differ exactly on a well-formed id no video has: the code as
      written answers 500 where a 404 is evidently meant. */
  lemma TogglePublishUnknownId(videos: seq<Video>, id: Id)
    requires IsCanonicalId(id)
    requires forall j :: 0 <= j < |videos| ==> videos[j].id != id
    ensures TogglePublishStatusAsWritten(videos, Some(id)).reply == Fail(500)
    ensures TogglePublishStatus(videos, Some(id)).reply == Fail(404)
  {
    CastKeepsCanonical(id);
  }
}
