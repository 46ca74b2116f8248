# vidTube relationship and aggregation core, in Dafny

This project models the part of the vidTube Express/Mongoose backend that holds real
logic. It covers three things.

- **The edge store and its toggles.** Subscriptions are `(subscriber, channel)` edges
  between users. Likes are `(subject, likedBy)` edges, where the subject is a video, a
  comment or a tweet. A toggle is check-then-flip: it deletes the matching edge if one
  exists and creates one otherwise.
- **The read-side views.** The aggregation pipelines become pure functions over
  sequences of records: `$match`, `$lookup`, `$unwind` (with and without
  `preserveNullAndEmptyArrays`), counters, `$project`, `$sort`, `$skip`/`$limit` and
  `$facet`. The views are:
  - the channel profile;
  - the watch history;
  - the comment feed;
  - the per-owner video listing;
  - the dashboard's channel videos;
  - a user's tweets;
  - the liked videos.
- **Validation and update rules.** These cover registration, account details,
  comments, tweets and the publish flag of a video.

## How the model is organised

The database is a set of collections. Each one is a `seq` of immutable records, and no
unique index is assumed: `_id` uniqueness, which MongoDB does guarantee, appears only as
a lemma hypothesis (`UniqueIds`, `DistinctIds`). Each controller is a pure function
from the collections and the request to an `Outcome` (the new store and the reply) or a
`Response`. A reply is `Ok(status, body)` or `Fail(status)`, where the status is the
HTTP code the controller sends. `ApiError`s and errors thrown by the database or the
runtime all end in the error middleware, which is modelled as the status it would send
(500 for a thrown non-`ApiError`).

Identifiers are kept as text. A stored `_id` reads as 24 lower-case hexadecimal
digits. `isValidObjectId` also accepts upper-case digits, and a query casts a route or
query parameter to an `ObjectId`, which keeps no letter case. So wherever a parameter
meets stored identifiers, the model compares the lower-cased text
(`ObjectIds.ParamId`). A `toString()` comparison in a controller compares the raw text.

Values that come from outside are parameters:

- the `_id` a created record receives;
- the current time;
- the authenticated user (`actor`);
- the outcome of a blob upload (`Upload`).

| file | module | what it holds |
|---|---|---|
| wrappers.dfy | Wrappers | `Option`, `Response`, `Outcome` |
| js_text.dfy | JsText | `trim`, blankness, `toLowerCase` on ASCII, `parseInt(s, 10)`, `Number(s)` |
| object_ids.dfy | ObjectIds | identifiers, `isValidObjectId` (24 hexadecimal characters) and the cast of a parameter |
| seqs.dfy | Seqs | selection, first index, removal, stable insertion sort |
| pipeline.dfy | Pipeline | `$lookup`, `$unwind`, `$count`, `$skip`/`$limit`, pages |
| edges.dfy | Edges | the generic edge store, the toggle and its invariants |
| entities.dfy | Entities | `User`, `Video`, `Comment`, `Tweet`, `findById` |
| subscriptions.dfy | Subscriptions | `toggleSubscription`, `getUserChannelSubscribers` |
| likes.dfy | Likes | the three like toggles, `getLikedVideos` |
| users.dfy | Users | `registerUser`, `updateAccountDetails`, `getUserChannelProfile`, `getWatchHistory` |
| comments.dfy | Comments | `getVideoComments`, `addComment`, `updateComment`, `deleteComment` |
| videos.dfy | Videos | `getAllVideos`, `getVideoById`, `togglePublishStatus` |
| dashboard.dfy | Dashboard | `getChannelVideos` |
| tweets.dfy | Tweets | `createTweet`, `getUserTweets`, `updateTweet`, `deleteTweet` |

### Code that cannot run as written, modelled by its evident intent

Each of the following would throw (or return nonsense) as written. The model follows
what the surrounding code evidently means:

- `parserInt` at src/controllers/video.controllers.js:62 is read as `parseInt`.
- `mongoose` at src/controllers/user.controllers.js:436 is never imported in that file
  (lines 1-11), so as written every `getWatchHistory` call would fail before its
  pipeline runs. It is read as the imported module.
- `mongoose.Types.ObjectId(id)` without `new` is read as a cast: at
  src/controllers/video.controllers.js:33, src/controllers/comment.controllers.js:18,
  src/controllers/tweet.controllers.js:48 and
  src/controllers/dashboard.controllers.js:129. A string that is not a well-formed
  identifier still fails the cast, which gives a 500.
- The `$lookup` sub-pipeline given as an object rather than an array, at
  src/controllers/video.controllers.js:42-47, is read as the one-stage array.
- `req.params` passed as an identifier, at src/controllers/video.controllers.js:203 and
  src/controllers/tweet.controllers.js:84 and 111, is read as the named route parameter.
- `owner: req.user_id` at src/controllers/tweet.controllers.js:97 is read as the actor's
  `_id`.
- `subscribers.subscriber` at src/controllers/subscription.controllers.js:66 is read as
  the list of subscriptions that was found.
- `new ApiResponse(200), channel[0]` at src/controllers/user.controllers.js:427 is read
  as a 200 carrying the first matched profile.
- `if (!user)` at src/controllers/user.controllers.js:476 tests an array, which is never
  falsy. It is read as "the actor has no record".

### Where the design description and the code differ

The model follows the code in each case:

- The design describes the watch history as the referenced videos in the order of the
  `watchHistory` list, repeats included. A `$lookup` on an array field instead yields
  each matching video once, in collection order. `Users.GetWatchHistory` returns the
  stored videos whose `_id` occurs in the list, in store order.
  `Users.WatchHistoryHasNoRepeats` proves that no video appears twice.
- The design speaks of uniqueness-constrained edges. The subscription schema declares
  no unique index, so at most one edge per pair rests on the toggle alone. That is
  what `Subscriptions.ServeKeepsUnique` and `Likes.ServeKeepsUnique` prove for
  sequential use.

## Model

| member | source | states |
|---|---|---|
| ObjectIds.CastIsCanonical | src/controllers/subscription.controllers.js:20-23 | a parameter that passes `isValidObjectId` casts to 24 lower-case hexadecimal digits, the text of a stored `_id` |
| ObjectIds.CastKeepsCanonical | src/controllers/subscription.controllers.js:20-23 | the text of a stored `_id` passes `isValidObjectId` and casts back to itself |
| Subscriptions.NewSubscription | src/models/subscriptions.models.js:4-19 | a subscription record exists only when both `subscriber` and `channel` are present, well-formed user ids; it carries the lower-case ids they cast to and `createdAt == updatedAt == now` |
| Subscriptions.ToggleSubscription | src/controllers/subscription.controllers.js:8-48 | the intended toggle: 400 with the store untouched exactly for a missing or invalid `channelId` or one that casts to the actor's own id; otherwise 200. It subscribes exactly when no `(actor, channel)` edge exists for the cast id, appending one edge stamped with the new id and time, and otherwise removes the first matching edge |
| Subscriptions.ChannelSubscribers | src/controllers/subscription.controllers.js:50-70 | 400 exactly for a missing or invalid id; otherwise the list holds exactly the stored edges whose `channel` is the id the parameter casts to, in any letter case, each as often as the store holds it |
| Subscriptions.ToggleKeepsNoSelf | src/controllers/subscription.controllers.js:16-18 | under the intended self-check, no toggle creates an edge from a user to itself |
| Subscriptions.SubscribedEdgeFitsSchema | src/controllers/subscription.controllers.js:33-36 | a created subscription is the record the schema builds from the actor's id and the route's id |
| Subscriptions.ToggleSubscriptionAsWritten | src/controllers/subscription.controllers.js:8-48 | as written: 400 exactly for a missing or invalid `channelId` or one whose raw text equals the actor's id; otherwise the toggle of the edge to the cast id |
| Subscriptions.ToggleSubscriptionVersionsAgree | src/controllers/subscription.controllers.js:16-24 | the two versions give the same result except when the route spells the actor's own id in another letter case |
| Subscriptions.SelfSubscriptionAsWritten | src/controllers/subscription.controllers.js:16-36 | as written, the actor "aaaa…a" calling with "AAAA…A" stores a subscription to itself, which the intended toggle refuses |
| Subscriptions.SubscribeThenUnsubscribe | src/controllers/subscription.controllers.js:20-47 | from a state without the edge, subscribing then toggling again answers "subscribed" then "unsubscribed" and gives back exactly the original store |
| Subscriptions.UnsubscribeThenSubscribe | src/controllers/subscription.controllers.js:20-47 | from a state with the edge, two toggles restore every pair's edge count and leave every other pair's edges exactly as they were |
| Subscriptions.ToggleSubscriptionOtherPairs | src/controllers/subscription.controllers.js:20-36 | a toggle leaves the edges of every other `(subscriber, channel)` pair unchanged, in order |
| Subscriptions.ServeKeepsUnique | src/controllers/subscription.controllers.js:20-47 | from a store with unique ids, at most one edge per pair and no self-edges, any run of toggles keeps all three and leaves every pair with at most one edge |
| Edges.Toggle | src/controllers/subscription.controllers.js:20-36 | it creates exactly when the key is absent, appending one edge with the fresh id and time; otherwise it removes the first edge with that key (by its `_id`) |
| Edges.ToggleOtherKeys | src/controllers/like.controllers.js:15-30 | the edges of every other key are identical, in order, before and after a toggle |
| Edges.ToggleFrame | src/controllers/like.controllers.js:67-79 | every selection that excludes the toggled key is unchanged by the toggle |
| Edges.ToggleCount | src/controllers/like.controllers.js:15-30 | a toggle lowers the key's edge count by one when an edge exists and raises it by one otherwise |
| Edges.ToggleFlipsCount | src/controllers/subscription.controllers.js:20-47 | with at most one edge for the key, a toggle turns count 0 into 1 and 1 into 0 |
| Edges.ToggleAllParity | src/controllers/subscription.controllers.js:20-47 | after `n` toggles of one key the edge is present exactly when it was present and `n` is even, or absent and `n` is odd |
| Edges.ToggleAllKeepsUnique | src/controllers/like.controllers.js:15-30 | any sequence of toggles with fresh ids keeps ids unique and at most one edge per key |
| Edges.ToggleTwiceFromAbsent | src/controllers/subscription.controllers.js:20-47 | creating and then toggling the same key again restores the store exactly |
| Edges.ToggleTwiceFromPresent | src/controllers/like.controllers.js:20-26 | removing and then re-creating restores every key's count, and every other key's edges exactly |
| Edges.UniqueKeysIffCountAtMostOne | src/models/subscriptions.models.js:4-19 | "at most one edge per key" means exactly that no key has a count above one |
| Edges.DeleteByIdAt | src/controllers/subscription.controllers.js:27 | with unique ids, deleting by the found edge's `_id` removes exactly that edge |
| Likes.ToggleLike | src/controllers/like.controllers.js:8-83 | 400 with the store untouched exactly for a missing or invalid subject id. Otherwise it likes exactly when the actor has no like on that subject, with envelope 201 when liking and 200 when unliking; liking appends one edge and unliking removes the first match |
| Likes.LikeReplyMatchesState | src/controllers/like.controllers.js:22-29 | the reply says "liked" exactly when the actor's like on the subject is in the new store |
| Likes.LikeThenUnlike | src/controllers/like.controllers.js:41-56 | liking and then toggling again restores the like store exactly |
| Likes.UnlikeThenLike | src/controllers/like.controllers.js:20-30 | unliking and liking again restores every key's count and every other key's likes |
| Likes.ToggleLikeOtherKinds | src/controllers/like.controllers.js:15-18 | a toggle on one kind of subject leaves the likes on the other two kinds unchanged, in order |
| Likes.ToggleLikeOtherUsers | src/controllers/like.controllers.js:67-79 | likes by any other user are never touched by a toggle |
| Likes.ServeKeepsUnique | src/controllers/like.controllers.js:15-30 | any run of like toggles keeps at most one like per `(subject, user)` |
| Likes.Populate | src/controllers/like.controllers.js:91 | the populated video is absent exactly when no video has the liked id, and is otherwise a stored video with that id |
| Likes.MyVideoLikes | src/controllers/like.controllers.js:87-92 | the result is a permutation of the actor's likes that carry a video, ordered by `createdAt` descending, and is empty exactly when there are none |
| Likes.GetLikedVideos | src/controllers/like.controllers.js:86-103 | 404 exactly when the actor has no video likes; otherwise 200 with those likes, newest first, each with its populated video |
| Users.RegisterUser | src/controllers/user.controllers.js:33-93 | the checks run in source order with their codes: 400 blank field, 409 clash, 400 no avatar, 500 upload failure. It succeeds exactly when all pass, appending one user with the lower-cased username, the avatar URL, the cover URL or `""`, and an empty history |
| Users.RegisteredUsernameIsLowerCase | src/controllers/user.controllers.js:92 | registering any capitalisation of a name stores the same name |
| Users.CaseVariantPassesDuplicateCheck | src/controllers/user.controllers.js:43-48 | the duplicate check compares the username as supplied, so a capitalised variant of a stored username passes it, and the record is stored lower-cased: the same username as the stored user's |
| Users.UpdateAccountDetails | src/controllers/user.controllers.js:281-302 | 400 exactly when `fullname` or `email` is missing or empty; otherwise only those two fields of the actor's record change |
| Users.UpdateAccountDetailsIdempotent | src/controllers/user.controllers.js:288-297 | sending the same details twice is sending them once |
| Users.ProfileCounters | src/controllers/user.controllers.js:362-394 | `subscribersCount` is the number of edges into the user, `channelsSubscribedToCount` the number out of it, and `isSubscribed` holds exactly when the viewer's edge to the user exists |
| Users.GetUserChannelProfile | src/controllers/user.controllers.js:347-413 | 400 for a missing or blank name; 404 exactly when no user has the lower-cased name; 200 exactly when one does, with the profile of the first such user |
| Users.ProfileOfUnconnectedUser | src/controllers/user.controllers.js:380-394 | a user without edges has both counters 0 and is not subscribed to |
| Users.SubscriberListMatchesCounter | src/controllers/subscription.controllers.js:53-56 | the subscriber list of a channel has as many entries as the profile's `subscribersCount` |
| Users.ToggleShowsInProfile | src/controllers/user.controllers.js:381-393 | after a toggle the profile says "subscribed" exactly when the toggle subscribed, `subscribersCount` moves by one in that direction, and the other counter is unchanged |
| Users.WithOwner | src/controllers/user.controllers.js:447-470 | a history entry's owner is absent exactly when no user has the video's owner id, and otherwise is the card of the first such user |
| Users.GetWatchHistory | src/controllers/user.controllers.js:431-480 | 404 exactly when the actor has no record; otherwise the entries are exactly the stored videos whose id is in the actor's history, in store order, each with its owner's card |
| Users.WatchHistoryHasNoRepeats | src/controllers/user.controllers.js:441-446 | with distinct video ids no video appears twice in the history view |
| Comments.FeedIsLeftJoin | src/controllers/comment.controllers.js:15-51 | the feed has one row per comment on the video, in store order, carrying its id, content and time, with the author present exactly when the owner has a record |
| Comments.PageParam | src/controllers/comment.controllers.js:9 | the page is 1 when absent, at least 1 always, and the parsed value when that is a positive integer |
| Comments.LimitParam | src/controllers/comment.controllers.js:53-56 | the limit is at least 1, defaults to 10, and is the parsed value when that is a positive integer |
| Comments.GetVideoComments | src/controllers/comment.controllers.js:7-65 | 404 for a missing id and 500 for a malformed one; otherwise at most `limit` rows, exactly the feed rows starting at `(page-1)*limit` |
| Comments.CommentPagesCoverFeed | src/controllers/comment.controllers.js:53-58 | requesting pages 1..k in turn returns the first `k*limit` feed rows with nothing skipped or repeated |
| Comments.AddComment | src/controllers/comment.controllers.js:67-88 | 400 with nothing created exactly for missing or blank content; otherwise 201 and one appended comment with the given content, the route's video and the actor as owner |
| Comments.AddedCommentEndsFeed | src/controllers/comment.controllers.js:75-79 | a new comment becomes the last row of its video's feed, with its author |
| Comments.UpdateComment | src/controllers/comment.controllers.js:90-114 | 400 for blank content or a missing id, 500 for a malformed id, 404 for an unknown one; otherwise only the content of that comment changes |
| Comments.UpdateCommentIdempotent | src/controllers/comment.controllers.js:108-109 | editing twice with the same text is editing once |
| Comments.DeleteComment | src/controllers/comment.controllers.js:116-134 | 400 for a missing id, 500 for a malformed one, 404 for an unknown one; otherwise exactly that comment is removed and returned |
| Comments.AddThenDeleteRestores | src/controllers/comment.controllers.js:75-127 | deleting a just-added comment restores the comment store exactly |
| Videos.Listing | src/controllers/video.controllers.js:30-57 | every row is an owned video joined with a user whose id is the owner, the rows are ordered on the sort field, and an owner without a record gets no rows |
| Videos.ListingIsInnerJoin | src/controllers/video.controllers.js:37-52 | with an existing owner the listing is a permutation of all the owner's videos, each carrying the owner's details |
| Videos.TakeCount | src/controllers/video.controllers.js:62 | `$limit` is 10 by default and otherwise the parsed limit, which must be a positive integer |
| Videos.SkipCount | src/controllers/video.controllers.js:59 | `$skip` is 0 with both defaults |
| Videos.NumeralPaging | src/controllers/video.controllers.js:58-63 | decimal numerals `p` and `l`, both at least 1, give `$skip` `(p - 1) * l` and `$limit` `l` |
| Videos.VideoPagesAreWindows | src/controllers/video.controllers.js:53-63 | for page `p` and limit `l` given as decimal numerals (both at least 1), `$skip` is `(p - 1) * l`, and the reply is 200 with the `l`-row window of the sorted listing starting there, or 404 when that window is empty |
| Videos.GetAllVideos | src/controllers/video.controllers.js:13-83 | 404 for a missing or invalid `userId`, a missing `query` or an unknown owner, and 500 exactly when the database rejects the window. Otherwise the reply is 200 exactly when the skip/limit window of the sorted listing is non-empty, and its body is that window; an empty window is a 404 |
| Videos.DefaultPageListsOwnedVideos | src/controllers/video.controllers.js:15 | with default paging an existing owner with videos gets `min(10, number of owned videos)` rows |
| Videos.GetVideoById | src/controllers/video.controllers.js:121-135 | 404 exactly when the id is missing, invalid or unknown; otherwise a stored video with that id |
| Videos.GetVideoByIdFindsEach | src/controllers/video.controllers.js:128-134 | every stored video is returned by its own id |
| Videos.TogglePublishStatus | src/controllers/video.controllers.js:202-219 | 404 for a missing, invalid or unknown id; otherwise only `isPublished` of that video is negated, and the saved video is returned |
| Videos.TogglePublishTwice | src/controllers/video.controllers.js:211-212 | toggling twice restores the store, and the second reply is the original video |
| Videos.TogglePublishStatusAsWritten | src/controllers/video.controllers.js:207-211 | an unknown well-formed id gives a 500; a known one behaves like the intended version |
| Videos.TogglePublishUnknownId | src/controllers/video.controllers.js:207-210 | for a well-formed id no video has, the code as written answers 500 where the intended version answers 404 |
| Dashboard.Facet | src/controllers/dashboard.controllers.js:126-153 | both facets see the same matched videos: the list holds one card per owned video, and the count facet is empty exactly when there are none and otherwise holds their number |
| Dashboard.GetChannelVideos | src/controllers/dashboard.controllers.js:121-176 | always 200; `totalVideos` equals the list's length and the number of owned videos, and the list holds exactly the cards of the actor's videos |
| Dashboard.EmptyChannel | src/controllers/dashboard.controllers.js:161-163 | a channel without videos gets count 0 and an empty list |
| Dashboard.OtherUploadsInvisible | src/controllers/dashboard.controllers.js:126-131 | videos of other owners never change the view |
| Dashboard.PublishToggleKeepsCount | src/controllers/dashboard.controllers.js:150-153 | toggling a publish flag keeps every channel's count |
| Tweets.CreateTweet | src/controllers/tweet.controllers.js:8-37 | 404 for an unknown actor, 404 for missing or blank content; it succeeds exactly otherwise, appending one tweet with the content and the actor as owner |
| Tweets.UserTweets | src/controllers/tweet.controllers.js:45-70 | every row is a tweet of the user joined with a user of that id; a user without a record gets no rows |
| Tweets.GetUserTweets | src/controllers/tweet.controllers.js:39-78 | 404 for a missing or invalid id, an unknown user or no tweets; otherwise 200 with the whole listing for the cast id, every row drawn from that user's tweets |
| Tweets.UserTweetsInOrder | src/controllers/tweet.controllers.js:45-69 | with an existing owner, the listing is exactly the owner's tweets in order, each projected to id, content, username and email |
| Tweets.CreatedTweetIsListed | src/controllers/tweet.controllers.js:26-29 | a created tweet becomes the last row of its owner's listing |
| Tweets.AppendedTweetIsServed | src/controllers/tweet.controllers.js:39-78 | a listing request under the owner's id, after a tweet of theirs is appended, is answered 200 and the last row is that tweet joined with its owner |
| Tweets.UpdateTweetAsWritten | src/controllers/tweet.controllers.js:80-108 | 400 for a missing or invalid id and for missing or empty content only, 404 for an unknown tweet; otherwise content and owner are set |
| Tweets.UpdateTweet | src/controllers/tweet.controllers.js:80-108 | as intended: blank content is a 400 as well; otherwise only content and owner of that tweet change, and the stored content is never blank |
| Tweets.UpdateTweetAcceptsWhitespace | src/controllers/tweet.controllers.js:90-92 | content `" "` on an existing tweet passes the code as written and is rejected by the intended version |
| Tweets.UpdateTweetVersionsAgree | src/controllers/tweet.controllers.js:90-92 | the two versions differ only on blank content |
| Tweets.UpdateTweetIdempotent | src/controllers/tweet.controllers.js:93-100 | updating twice with the same content is updating once |
| Tweets.DeleteTweet | src/controllers/tweet.controllers.js:110-123 | 400 for a missing, invalid or unknown id; otherwise exactly that tweet is removed and returned |
| Tweets.CreateThenDeleteRestores | src/controllers/tweet.controllers.js:26-119 | deleting a just-created tweet restores the tweet store exactly |
| JsText.Trim | src/controllers/user.controllers.js:38 | the result is a slice of the input with only white space cut from both ends, starts and ends with non-white space, and is empty exactly for a blank input |
| JsText.ParseInt | src/controllers/comment.controllers.js:54-55 | `parseInt` fails exactly when no digit follows the optional white space and sign |
| JsText.ParseIntShowNat | src/controllers/comment.controllers.js:54-55 | `parseInt` reads back every decimal numeral |

## Left out

- Blob storage is left out because it is a foreign service. This covers
  `uploadOnCloudinary` and `deleteFromCloudinary`, `publishAVideo`, `updateVideo`,
  `deleteVideo`, the avatar and cover updates, and registration's upload and cleanup
  paths. An upload's outcome is a parameter of registration.
- Token, password and cookie flows are left out: login, logout, refresh, password
  change and token generation. They rest on library and model methods that are not
  part of this model.
- `getChannelStats` is left out: its lookups join on fields no record has, so it
  computes nothing stateable.
- `getSubscribedChannels` is left out: it matches on a field the subscription schema
  lacks and always ends in its 400.
- Concurrency is left out. Both toggles read and then write without atomicity, and the
  model runs requests one after another, so it claims nothing about races.
- The `aggregatePaginate` metadata and the `ApiResponse`/`ApiError` envelopes are left
  out: they come from libraries. A reply is its status and its data.
- The `select("-password -refreshToken")` projection and other field exclusions are
  left out; records carry only the fields the views use.
- ObjectIds.IsValidObjectId: accepts 24 hexadecimal characters only, not the 12-byte
  binary form `isValidObjectId` also accepts.
- JsText.Lower: lower-cases ASCII letters only, not the rest of Unicode.
- Comments.PageParam: assumes the pagination library falls back to page 1 when the
  parsed page is not a positive number. The library is not part of this model.
- Comments.LimitParam: assumes the same fallback to 10 for the limit.
- Comments.AddComment: does not model the schema cast of the route's `videoId`, because
  the comment schema is not part of this model.
- Videos.Listing: orders numerically on `createdAt` and `updatedAt` only. Any other
  `sortBy` (a string field, a missing field, or a name the database rejects) is treated
  as a field on which all rows tie. The order among ties that the database picks is
  not modelled.
- Videos.SkipCount: accepts only integer numerals. A fractional page or limit such as
  `"1.5"` is treated as rejected, although `Number` would accept it.
- Videos.TogglePublishStatus: does not refresh `updatedAt` on save, because the video
  schema's timestamp option is not part of this model.
- Comments.UpdateComment: does not refresh `updatedAt` on save either.
- Users.CaseVariantPassesDuplicateCheck: the user schema's indexes are not part of
  this model. The model lets the creation succeed; with a unique index on `username`
  the creation would fail and the controller would answer 500, storing nothing.
- Schema-level required-field checks of the user, video, comment, tweet and like
  models are not part of this model. Registration's absent fields are modelled as the
  500 a failed create would give.

## Findings

| source | as written | input that shows it | evidently intended | confidence | as-written member | corrected member |
|---|---|---|---|---|---|---|
| src/controllers/video.controllers.js:207-211 | after `findById`, the code tests `!videoId` (already known present) instead of `!video`, then negates `video.isPublished` | a well-formed id that no video has | 404 "Video not found" | not executed | Videos.TogglePublishStatusAsWritten, Videos.TogglePublishUnknownId | Videos.TogglePublishStatus |
| src/controllers/tweet.controllers.js:90-92 | `!updateContent.trim() === 0` compares a boolean with 0 and is always false, so only missing or empty content is rejected | `updateContent = " "` on an existing tweet | 400 for whitespace-only content, as in the other controllers | not executed | Tweets.UpdateTweetAsWritten, Tweets.UpdateTweetAcceptsWhitespace | Tweets.UpdateTweet |
| src/controllers/subscription.controllers.js:16-36 | the self-subscription test compares `channelId.toString()`, the raw route text, with the actor's lower-case id, while `findOne` and `create` cast the route id, which ignores letter case | actor `aaaaaaaaaaaaaaaaaaaaaaaa` calling with `channelId = AAAAAAAAAAAAAAAAAAAAAAAA` | 400 "You cannot subscribe to yourself" for every spelling of the actor's own id | not executed | Subscriptions.ToggleSubscriptionAsWritten, Subscriptions.SelfSubscriptionAsWritten | Subscriptions.ToggleSubscription |
