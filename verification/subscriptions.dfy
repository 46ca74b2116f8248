/** Subscriptions: `(subscriber, channel)` edges between users, the subscribe/unsubscribe
    toggle, and the list of a channel's subscriptions. */
module Subscriptions {
  import opened Wrappers
  import opened ObjectIds
  import opened Seqs
  import opened Edges

  /** The pair a subscription relates: who subscribes, to which channel (both users). */
  datatype SubKey = SubKey(subscriber: Id, channel: Id)

  type Subscription = Edge<SubKey>

  /** The subscription record the schema accepts: both user references are required and
      are cast to identifiers; `timestamps` stamps creation and update with `now`. */
  function NewSubscription(id: Id, subscriber: Option<string>, channel: Option<string>, now: nat): (r: Option<Subscription>)
    ensures r.Some? <==> !InvalidIdParam(subscriber) && !InvalidIdParam(channel)
    ensures r.Some? ==> && r.value.key == SubKey(ParamId(subscriber), ParamId(channel))
                        && IsCanonicalId(r.value.key.subscriber) && IsCanonicalId(r.value.key.channel)
                        && r.value.id == id
                        && r.value.createdAt == now && r.value.updatedAt == now
  {
    if InvalidIdParam(subscriber) || InvalidIdParam(channel) then None
    else
      CastIsCanonical(subscriber);
      CastIsCanonical(channel);
      Some(Edge(id, SubKey(ParamId(subscriber), ParamId(channel)), now, now))
  }

  /** What `toggleSubscription` reports on success. */
  datatype SubReply = Unsubscribed | Subscribed(edge: Subscription)

  /** `toggleSubscription`: `actor` toggles its subscription to the channel in the route.
      A user may not subscribe to itself: the route's id is compared with the actor's
      after the cast, so no spelling of the actor's own id gets through. */
  function ToggleSubscription(store: seq<Subscription>, actor: Id, channelId: Option<string>, newId: Id, now: nat): (r: Outcome<seq<Subscription>, SubReply>)
    ensures r.reply.Fail? <==> InvalidIdParam(channelId) || actor == ParamId(channelId)
    ensures r.reply.Fail? ==> r.reply.status == 400 && r.state == store
    ensures r.reply.Ok? ==> r.reply.status == 200
    ensures r.reply.Ok? ==> (r.reply.body.Subscribed? <==> !Has(store, SubKey(actor, ParamId(channelId))))
    ensures r.reply.Ok? && r.reply.body.Subscribed? ==>
              && r.reply.body.edge == Edge(newId, SubKey(actor, ParamId(channelId)), now, now)
              && r.state == store + [r.reply.body.edge]
    ensures r.reply.Ok? && r.reply.body.Unsubscribed? && UniqueIds(store) ==>
              var i := FindEdge(store, SubKey(actor, ParamId(channelId))).value;
              i < |store| && store[i].key == SubKey(actor, ParamId(channelId)) && r.state == RemoveAt(store, i)
    ensures r.reply.Ok? ==> r.state == Toggle(store, SubKey(actor, ParamId(channelId)), newId, now).store
  {
    if InvalidIdParam(channelId) then Outcome(store, Fail(400))
    else if actor == ParamId(channelId) then Outcome(store, Fail(400))
    else
      var t := Toggle(store, SubKey(actor, ParamId(channelId)), newId, now);
      Reply(t)
  }

  /** A created subscription is the record the schema builds from the actor's id and
      the route's id. */
  lemma SubscribedEdgeFitsSchema(store: seq<Subscription>, actor: Id, channelId: Option<string>, newId: Id, now: nat)
    requires IsCanonicalId(actor)
    ensures var r := ToggleSubscription(store, actor, channelId, newId, now);
            r.reply.Ok? && r.reply.body.Subscribed? ==>
              Some(r.reply.body.edge) == NewSubscription(newId, Some(actor), channelId, now)
  {
    CastKeepsCanonical(actor);
  }

  /** The store and the reply after a toggle that passed the guards. */
  function Reply(t: Toggled<SubKey>): Outcome<seq<Subscription>, SubReply> {
    Outcome(t.store, Ok(200, if t.flip.Removed? then Unsubscribed else Subscribed(t.flip.edge)))
  }

  /** `toggleSubscription` as written: the self-subscription test compares the actor's
      id with the raw text of the route's id, while the lookup and the insert cast it. */
  function ToggleSubscriptionAsWritten(store: seq<Subscription>, actor: Id, channelId: Option<string>, newId: Id, now: nat): (r: Outcome<seq<Subscription>, SubReply>)
    ensures r.reply.Fail? <==> InvalidIdParam(channelId) || actor == channelId.value
    ensures r.reply.Fail? ==> r.reply == Fail(400) && r.state == store
    ensures r.reply.Ok? ==> r.reply.status == 200 && r.state == Toggle(store, SubKey(actor, ParamId(channelId)), newId, now).store
    ensures r.reply.Ok? ==> (r.reply.body.Subscribed? <==> !Has(store, SubKey(actor, ParamId(channelId))))
  {
    if InvalidIdParam(channelId) then Outcome(store, Fail(400))
    else if actor == channelId.value then Outcome(store, Fail(400))
    else Reply(Toggle(store, SubKey(actor, ParamId(channelId)), newId, now))
  }

  /** The two versions differ only where the route spells the actor's own id in another
      letter case: there the code as written accepts the request. */
  lemma ToggleSubscriptionVersionsAgree(store: seq<Subscription>, actor: Id, channelId: Option<string>, newId: Id, now: nat)
    requires IsCanonicalId(actor)
    ensures var w := ToggleSubscriptionAsWritten(store, actor, channelId, newId, now);
            var i := ToggleSubscription(store, actor, channelId, newId, now);
            w != i <==> !InvalidIdParam(channelId) && channelId.value != actor && ParamId(channelId) == actor
  {
    CastKeepsCanonical(actor);
  }

  /** Twenty-four copies of `c`. */
  function Run(c: char): (r: string)
    ensures |r| == 24 && forall i :: 0 <= i < 24 ==> r[i] == c
  {
    seq(24, _ => c)
  }

  /** The id "aaaa…a" spelled "AAAA…A" in the route: as written, its owner subscribes to
      itself; the intended toggle refuses. */
  lemma SelfSubscriptionAsWritten(newId: Id, now: nat)
    ensures var actor := Run('a');
            var route := Some(Run('A'));
            var w := ToggleSubscriptionAsWritten([], actor, route, newId, now);
            && w.reply.Ok?
            && w.state == [Edge(newId, SubKey(actor, actor), now, now)]
            && !NoSelfSubscriptions(w.state)
            && ToggleSubscription([], actor, route, newId, now).reply == Fail(400)
  {
    var actor := Run('a');
    var route := Some(Run('A'));
    UpperSpelling();
    var w := ToggleSubscriptionAsWritten([], actor, route, newId, now);
    assert w.state == [] + [Edge(newId, SubKey(actor, actor), now, now)];
    assert w.state[0].key.subscriber == w.state[0].key.channel;
  }

  /** "AAAA…A" is a valid id, differs from "aaaa…a" as text, and casts to it. */
  lemma UpperSpelling()
    ensures !InvalidIdParam(Some(Run('A')))
    ensures Run('A') != Run('a')
    ensures ParamId(Some(Run('A'))) == Run('a')
  {
    assert Run('A')[0] != Run('a')[0];
    RunIsValid();
    CastOfRun(Run('A'));
  }

  /** "AAAA…A" passes `isValidObjectId`. */
  lemma RunIsValid()
    ensures IsValidObjectId(Run('A'))
  {
    CastOfRun(Run('A'));
  }

  /** A run of 'A's is valid hexadecimal and casts to the same run of 'a's. */
  lemma CastOfRun(s: string)
    requires forall i :: 0 <= i < |s| ==> s[i] == 'A'
    ensures forall i :: 0 <= i < |s| ==> IsHexDigit(s[i]) && ParamId(Some(s))[i] == 'a'
  {
    forall i | 0 <= i < |s| ensures ParamId(Some(s))[i] == 'a' {
      assert JsText.IsUpper(s[i]);
    }
  }

  /** The selection of subscriptions to channel `c`. */
  function ToChannel(c: Id): Subscription -> bool {
    (e: Subscription) => e.key.channel == c
  }

  /** The selection of subscriptions made by user `u`. */
  function BySubscriber(u: Id): Subscription -> bool {
    (e: Subscription) => e.key.subscriber == u
  }

  /** `getUserChannelSubscribers`: the subscriptions to the channel in the route, each
      as often as the store holds it. */
  function ChannelSubscribers(store: seq<Subscription>, channelId: Option<string>): (r: Response<seq<Subscription>>)
    ensures r.Fail? <==> InvalidIdParam(channelId)
    ensures r.Fail? ==> r.status == 400
    ensures r.Ok? ==> r.status == 200 && forall e :: e in r.body <==> e in store && e.key.channel == ParamId(channelId)
    ensures r.Ok? ==> forall e :: multiset(r.body)[e] ==
                        if e.key.channel == ParamId(channelId) then multiset(store)[e] else 0
  {
    if InvalidIdParam(channelId) then Fail(400)
    else
      FilterMultiset(store, ToChannel(ParamId(channelId)));
      Ok(200, Filter(store, ToChannel(ParamId(channelId))))
  }

  /** No stored subscription relates a user to itself. */
  predicate NoSelfSubscriptions(store: seq<Subscription>) {
    forall i :: 0 <= i < |store| ==> store[i].key.subscriber != store[i].key.channel
  }

  /** The toggle never creates a self-subscription: the invariant survives every call. */
  lemma ToggleKeepsNoSelf(store: seq<Subscription>, actor: Id, channelId: Option<string>, newId: Id, now: nat)
    requires NoSelfSubscriptions(store)
    ensures NoSelfSubscriptions(ToggleSubscription(store, actor, channelId, newId, now).state)
  {
    var r := ToggleSubscription(store, actor, channelId, newId, now);
    if r.reply.Ok? {
      var k := SubKey(actor, ParamId(channelId));
      var t := Toggle(store, k, newId, now);
      if t.flip.Removed? {
        var i := FindEdge(store, k).value;
        var d := DeleteById(store, store[i].id);
        assert t.store == d;
        match IndexWhere(store, (e: Subscription) => e.id == store[i].id)
        case None =>
        case Some(j) =>
          assert d == RemoveAt(store, j);
      }
    }
  }

  /** Subscribing to a channel one is not subscribed to and then toggling again gives
      back exactly the store one started from. */
  lemma SubscribeThenUnsubscribe(store: seq<Subscription>, actor: Id, channelId: Option<string>, id1: Id, t1: nat, id2: Id, t2: nat)
    requires UniqueIds(store) && FreshId(store, id1)
    requires !InvalidIdParam(channelId) && actor != ParamId(channelId)
    requires !Has(store, SubKey(actor, ParamId(channelId)))
    ensures var once := ToggleSubscription(store, actor, channelId, id1, t1);
            var twice := ToggleSubscription(once.state, actor, channelId, id2, t2);
            && once.reply == Ok(200, Subscribed(Edge(id1, SubKey(actor, ParamId(channelId)), t1, t1)))
            && twice.reply == Ok(200, Unsubscribed)
            && twice.state == store
  {
    ToggleTwiceFromAbsent(store, SubKey(actor, ParamId(channelId)), id1, t1, id2, t2);
  }

  /** Unsubscribing and subscribing again restores, for every pair, how many
      subscriptions relate it, and every other pair's subscriptions exactly. */
  lemma UnsubscribeThenSubscribe(store: seq<Subscription>, actor: Id, channelId: Option<string>, id1: Id, t1: nat, id2: Id, t2: nat)
    requires UniqueIds(store) && UniqueKeys(store)
    requires !InvalidIdParam(channelId) && actor != ParamId(channelId)
    requires Has(store, SubKey(actor, ParamId(channelId)))
    ensures var once := ToggleSubscription(store, actor, channelId, id1, t1);
            var twice := ToggleSubscription(once.state, actor, channelId, id2, t2);
            && once.reply == Ok(200, Unsubscribed)
            && twice.reply.Ok? && twice.reply.body.Subscribed?
            && (forall k :: Count(twice.state, k) == Count(store, k))
            && (forall k :: k != SubKey(actor, ParamId(channelId)) ==> Select(twice.state, k) == Select(store, k))
  {
    ToggleTwiceFromPresent(store, SubKey(actor, ParamId(channelId)), id1, t1, id2, t2);
  }

  /** A toggle leaves the subscriptions of every other `(subscriber, channel)` pair as
      they were, in order. */
  lemma ToggleSubscriptionOtherPairs(store: seq<Subscription>, actor: Id, channelId: Option<string>, newId: Id, now: nat, k: SubKey)
    requires UniqueIds(store)
    requires channelId.Some? ==> k != SubKey(actor, ParamId(channelId))
    ensures Select(ToggleSubscription(store, actor, channelId, newId, now).state, k) == Select(store, k)
  {
    var r := ToggleSubscription(store, actor, channelId, newId, now);
    if r.reply.Ok? {
      ToggleOtherKeys(store, SubKey(actor, ParamId(channelId)), newId, now);
    }
  }

  /** One `toggleSubscription` call: who calls it, the route parameter, and the `_id` and
      time a created subscription would get. */
  datatype SubRequest = SubRequest(actor: Id, channelId: Option<string>, newId: Id, now: nat)

  /** The `_id` a request would give a created edge. */
  function SubRequestId(q: SubRequest): Id {
    q.newId
  }

  /** The store after serving the requests one after another. */
  function Serve(store: seq<Subscription>, reqs: seq<SubRequest>): seq<Subscription>
    decreases |reqs|
  {
    if |reqs| == 0 then store
    else
      var q := reqs[0];
      Serve(ToggleSubscription(store, q.actor, q.channelId, q.newId, q.now).state, reqs[1..])
  }

  /** From a store with at most one subscription per pair and none to oneself, any run
      of `toggleSubscription` calls (each bringing a fresh `_id`) keeps both properties. */
  lemma {:induction false} ServeKeepsUnique(store: seq<Subscription>, reqs: seq<SubRequest>)
    requires UniqueIds(store) && UniqueKeys(store) && NoSelfSubscriptions(store)
    requires FreshIds(store, NewIds(reqs, SubRequestId))
    ensures UniqueIds(Serve(store, reqs)) && UniqueKeys(Serve(store, reqs))
    ensures NoSelfSubscriptions(Serve(store, reqs))
    ensures forall k :: Count(Serve(store, reqs), k) <= 1
    decreases |reqs|
  {
    if |reqs| == 0 {
      UniqueKeysIffCountAtMostOne(store);
    } else {
      var q := reqs[0];
      var r := ToggleSubscription(store, q.actor, q.channelId, q.newId, q.now);
      var ids := NewIds(reqs, SubRequestId);
      var k := if q.channelId.Some? then SubKey(q.actor, ParamId(q.channelId)) else SubKey(q.actor, q.actor);
      GuardedToggleStep(store, r.state, k, q.now, ids);
      ToggleKeepsNoSelf(store, q.actor, q.channelId, q.newId, q.now);
      assert NewIds(reqs[1..], SubRequestId) == ids[1..];
      ServeKeepsUnique(r.state, reqs[1..]);
    }
  }
}
