/** The subscription controller: toggling a subscription and the two counting
    queries. As written, the toggle destructures `{userId}` out of
    `req.user._id`, an ObjectId with no `userId` property, so the subscriber
    key is always undefined: every toggle works on the one subscription per
    channel whose subscriber is absent, whoever calls it. */
module Subscriptions {
  import opened Js
  import opened ApiErrors
  import opened Collection

  /** A Subscription document; a subscriber left undefined at create is absent. */
  datatype Subscription = Subscription(subscriber: Option<Id>, channel: Option<Id>)

  /** The filter `{subscriber, channel}`; undefined is sent as null and matches an absent field. */
  function Filter(subscriber: Option<Id>, channel: Option<Id>): Subscription -> bool {
    (s: Subscription) => s.subscriber == subscriber && s.channel == channel
  }

  function OfChannel(channel: Id): Subscription -> bool {
    (s: Subscription) => s.channel == Some(channel)
  }

  function OfSubscriber(subscriber: Id): Subscription -> bool {
    (s: Subscription) => s.subscriber == Some(subscriber)
  }

  /** What a toggle sends back: the collection afterwards, the created
      subscription (null after an unsubscribe) and the message. */
  datatype Reply = Reply(subs: seq<Subscription>, data: Option<Subscription>, message: string)

  /** A successful toggle on the key `{userId, channelId}`: a matching
      subscription (the first, as `findOne` picks it) is deleted and null sent
      back; otherwise a new one is appended and sent back. */
  ghost predicate Toggled(subs: seq<Subscription>, userId: Option<Id>, channelId: Field, reply: Reply) {
    var d := Subscription(userId, channelId);
    if Count(subs, Filter(userId, channelId)) > 0 then
      && FindFirst(subs, Filter(userId, channelId)).Some?
      && subs[FindFirst(subs, Filter(userId, channelId)).value] == d
      && reply == Reply(RemoveAt(subs, FindFirst(subs, Filter(userId, channelId)).value), None, "Unsubscribed successfully!")
    else
      reply == Reply(subs + [d], Some(d), "Subscription successful!")
  }

  /** The toggle with an explicit subscriber key. */
  function ToggleKeyed(subs: seq<Subscription>, userId: Option<ObjectId>, channelId: Field): (r: Result<Reply>)
    ensures r.Err? <==> (!Truthy(channelId) && !Truthy(userId)) || (channelId.Some? && !IsValidObjectId(channelId.value))
    ensures IsApiError(r, 400, "Give channel and user info!") <==> !Truthy(channelId) && !Truthy(userId)
    ensures r.Err? && !IsApiError(r, 400, "Give channel and user info!") ==> r.failure == CastError(channelId.value)
    ensures r.Ok? ==> Toggled(subs, userId, channelId, r.value)
  {
    if !Truthy(channelId) && !Truthy(userId) then Fail(400, "Give channel and user info!")
    else if channelId.Some? && !IsValidObjectId(channelId.value) then Err(CastError(channelId.value))
    else
      match Toggle(subs, Filter(userId, channelId), Subscription(userId, channelId))
      case Removed(rest, _) => Ok(Reply(rest, None, "Unsubscribed successfully!"))
      case Created(all, made) => Ok(Reply(all, Some(made), "Subscription successful!"))
  }

  /** `toggleSubscription` as written: the subscriber key is undefined, so
      only a missing or empty channel id trips the 400 guard, and the toggle
      works on the channel's subscriber-less subscription. */
  function ToggleSubscription(subs: seq<Subscription>, caller: ObjectId, channelId: Field): (r: Result<Reply>)
    ensures IsApiError(r, 400, "Give channel and user info!") <==> !Truthy(channelId)
    ensures r.Err? <==> !Truthy(channelId) || !IsValidObjectId(channelId.value)
    ensures r.Ok? ==> Toggled(subs, None, channelId, r.value)
  {
    var userId: Option<ObjectId> := None;
    ToggleKeyed(subs, userId, channelId)
  }

  /** The caller's identity plays no part in the toggle, the 400 guard fires
      exactly when the channel id is missing or empty, and any subscription
      the toggle creates has no subscriber. */
  lemma ToggleSubscriptionIgnoresCaller(subs: seq<Subscription>, a: ObjectId, b: ObjectId, channelId: Field)
    ensures ToggleSubscription(subs, a, channelId) == ToggleSubscription(subs, b, channelId)
    ensures IsApiError(ToggleSubscription(subs, a, channelId), 400, "Give channel and user info!")
            <==> !Truthy(channelId)
    ensures var r := ToggleSubscription(subs, a, channelId);
            r.Ok? && r.value.data.Some? ==> r.value.data.value.subscriber == None
  {
  }

  /** The subscription the intended code would key on: the caller's own id.
      The caller is always known, so the 400 guard never fires; only a
      malformed channel id fails. */
  function ToggleSubscriptionByCaller(subs: seq<Subscription>, caller: ObjectId, channelId: Field): (r: Result<Reply>)
    ensures r.Err? <==> channelId.Some? && !IsValidObjectId(channelId.value)
    ensures r.Err? ==> r.failure == CastError(channelId.value)
    ensures r.Ok? ==> Toggled(subs, Some(caller), channelId, r.value)
  {
    ToggleKeyed(subs, Some(caller), channelId)
  }

  /** No two subscriptions are the same document. */
  ghost predicate Distinct(subs: seq<Subscription>) {
    forall i, j :: 0 <= i < j < |subs| ==> subs[i] != subs[j]
  }

  lemma DistinctRemoveAt(subs: seq<Subscription>, i: nat)
    requires Distinct(subs)
    requires i < |subs|
    ensures Distinct(RemoveAt(subs, i))
  {
    var out := RemoveAt(subs, i);
    forall a, b | 0 <= a < b < |out| ensures out[a] != out[b] {
      var a' := if a < i then a else a + 1;
      var b' := if b < i then b else b + 1;
      assert out[a] == subs[a'] && out[b] == subs[b'];
    }
  }

  lemma DistinctAppend(subs: seq<Subscription>, d: Subscription)
    requires Distinct(subs)
    requires forall k :: 0 <= k < |subs| ==> subs[k] != d
    ensures Distinct(subs + [d])
  {
    var out := subs + [d];
    forall a, b | 0 <= a < b < |out| ensures out[a] != out[b] {
      if b == |subs| {
        assert out[a] == subs[a] && out[b] == d;
      } else {
        assert out[a] == subs[a] && out[b] == subs[b];
      }
    }
  }

  /** In a duplicate-free collection a key matches at most one subscription. */
  lemma AtMostOneSubscriptionPerKey(subs: seq<Subscription>, userId: Option<Id>, channelId: Field)
    requires Distinct(subs)
    ensures Count(subs, Filter(userId, channelId)) <= 1
  {
    var p := Filter(userId, channelId);
    forall i, j | 0 <= i < j < |subs| ensures !(p(subs[i]) && p(subs[j])) {
      assert subs[i] != subs[j];
    }
    CountAtMostOne(subs, p);
  }

  /** Every keyed toggle keeps the collection free of duplicates, and moves the
      number of matching subscriptions between zero and one. */
  lemma ToggleKeyedKeepsDistinct(subs: seq<Subscription>, userId: Option<ObjectId>, channelId: Field)
    requires Distinct(subs)
    requires ToggleKeyed(subs, userId, channelId).Ok?
    ensures var out := ToggleKeyed(subs, userId, channelId).value.subs;
            && Distinct(out)
            && Count(out, Filter(userId, channelId)) == 1 - Count(subs, Filter(userId, channelId))
  {
    var p := Filter(userId, channelId);
    var d := Subscription(userId, channelId);
    var r := Toggle(subs, p, d);
    assert ToggleKeyed(subs, userId, channelId).value.subs == r.docs;
    AtMostOneSubscriptionPerKey(subs, userId, channelId);
    ToggleFlipsCount(subs, p, d);
    match FindFirst(subs, p)
    case Some(i) =>
      assert r.docs == RemoveAt(subs, i);
      DistinctRemoveAt(subs, i);
    case None =>
      assert r.docs == subs + [d];
      forall k | 0 <= k < |subs| ensures subs[k] != d {
        assert !p(subs[k]);
      }
      DistinctAppend(subs, d);
  }

  /** Two toggles in a row with the same key restore the collection: exactly
      from absence, as the same documents from presence. */
  lemma ToggleKeyedTwice(subs: seq<Subscription>, userId: Option<ObjectId>, c: Id)
    requires Distinct(subs)
    requires IsValidObjectId(c)
    ensures var once := ToggleKeyed(subs, userId, Some(c)).value.subs;
            var twice := ToggleKeyed(once, userId, Some(c)).value.subs;
            && (Count(subs, Filter(userId, Some(c))) == 0 ==> twice == subs)
            && multiset(twice) == multiset(subs)
  {
    var p := Filter(userId, Some(c));
    var d := Subscription(userId, Some(c));
    AtMostOneSubscriptionPerKey(subs, userId, Some(c));
    if Count(subs, p) == 0 {
      ToggleTwiceFromAbsent(subs, p, d);
    } else {
      ToggleTwiceFromPresent(subs, p, d);
    }
  }

  /** As written, two toggles of the same channel by ANY two callers restore
      the collection exactly when no subscriber-less subscription existed. */
  lemma ToggleSubscriptionTwice(subs: seq<Subscription>, a: ObjectId, b: ObjectId, c: Id)
    requires IsValidObjectId(c)
    requires Count(subs, Filter(None, Some(c))) == 0
    ensures var once := ToggleSubscription(subs, a, Some(c)).value.subs;
            ToggleSubscription(once, b, Some(c)).value.subs == subs
  {
    ToggleTwiceFromAbsent(subs, Filter(None, Some(c)), Subscription(None, Some(c)));
  }

  /** With the caller's id as key, one caller's toggle leaves every other
      caller's subscriptions, and other channels', untouched. */
  lemma ToggleByCallerIsolation(subs: seq<Subscription>, caller: ObjectId, c: Id, other: Id, c2: Id)
    requires IsValidObjectId(c)
    requires other != caller || c2 != c
    ensures var r := ToggleSubscriptionByCaller(subs, caller, Some(c));
            Keep(r.value.subs, Filter(Some(other), Some(c2))) == Keep(subs, Filter(Some(other), Some(c2)))
  {
    ToggleLeavesOthers(subs, Filter(Some(caller), Some(c)), Filter(Some(other), Some(c2)),
                       Subscription(Some(caller), Some(c)));
  }

  /** `getUserChannelSubscribers`: the `$group` result for the channel, or
      `{totalSubscribers: 0}` when nothing matched. An undefined channel id
      becomes a freshly generated ObjectId, which matches nothing; a malformed
      one makes the `ObjectId` constructor throw. */
  function GetUserChannelSubscribers(subs: seq<Subscription>, channelId: Field): (r: Result<GroupCount>)
    ensures r.Err? <==> channelId.Some? && !IsValidObjectId(channelId.value)
    ensures r.Err? ==> r.failure == BsonError(channelId.value)
    ensures r.Ok? && channelId.Some? ==> r.value.total == Count(subs, OfChannel(channelId.value))
    ensures r.Ok? && channelId.None? ==> r.value == GroupCount(None, 0)
    ensures r.Ok? ==> (r.value.total == 0 <==> r.value.id == None)
  {
    match channelId
    case None => Ok(GroupCount(None, 0))
    case Some(c) =>
      if !IsValidObjectId(c) then Err(BsonError(c))
      else
        var groups := GroupByKey(c, Count(subs, OfChannel(c)));
        if groups == [] then Ok(GroupCount(None, 0)) else Ok(groups[0])
  }

  /** Every toggle that creates a subscription adds one to its channel's
      count; every toggle that removes one takes one away. */
  lemma ToggleMovesChannelCount(subs: seq<Subscription>, caller: ObjectId, c: Id)
    requires IsValidObjectId(c)
    ensures var r := ToggleSubscription(subs, caller, Some(c)).value;
            var before := GetUserChannelSubscribers(subs, Some(c)).value.total;
            var after := GetUserChannelSubscribers(r.subs, Some(c)).value.total;
            after == if r.data.Some? then before + 1 else before - 1
  {
    var p := Filter(None, Some(c));
    var d := Subscription(None, Some(c));
    var q := OfChannel(c);
    match FindFirst(subs, p)
    case Some(i) =>
      assert Toggle(subs, p, d).docs == RemoveAt(subs, i);
      CountRemoveAt(subs, q, i);
    case None =>
      CountAppend(subs, q, d);
  }

  /** `getSubscribedChannels`: one `$group` document counting the
      subscriber's subscriptions, or an empty array when there are none. A
      malformed id makes the `ObjectId` constructor throw. */
  function GetSubscribedChannels(subs: seq<Subscription>, subscriberId: Field): (r: Result<seq<GroupCount>>)
    ensures IsApiError(r, 400, "Subscriber Id is required!") <==> !Truthy(subscriberId)
    ensures r.Err? <==> !Truthy(subscriberId) || !IsValidObjectId(subscriberId.value)
    ensures Truthy(subscriberId) && r.Err? ==> r.failure == BsonError(subscriberId.value)
    ensures r.Ok? ==> |r.value| <= 1
    ensures r.Ok? ==> (r.value == [] <==> Count(subs, OfSubscriber(subscriberId.value)) == 0)
    ensures r.Ok? && r.value != [] ==>
              r.value[0] == GroupCount(subscriberId, Count(subs, OfSubscriber(subscriberId.value)))
  {
    if !Truthy(subscriberId) then Fail(400, "Subscriber Id is required!")
    else if !IsValidObjectId(subscriberId.value) then Err(BsonError(subscriberId.value))
    else Ok(GroupByKey(subscriberId.value, Count(subs, OfSubscriber(subscriberId.value))))
  }

  /** No subscription names a subscriber: what the as-written toggle produces. */
  ghost predicate NoSubscribers(subs: seq<Subscription>) {
    forall k :: 0 <= k < |subs| ==> subs[k].subscriber == None
  }

  /** The as-written toggle never records a subscriber, so on a collection it
      built, every user's subscribed-channels query returns an empty array. */
  lemma SubscribedChannelsAlwaysEmpty(subs: seq<Subscription>, caller: ObjectId, channelId: Field, u: ObjectId)
    requires NoSubscribers(subs)
    ensures var r := ToggleSubscription(subs, caller, channelId);
            r.Ok? ==> NoSubscribers(r.value.subs)
    ensures GetSubscribedChannels(subs, Some(u)) == Ok([])
  {
    var r := ToggleSubscription(subs, caller, channelId);
    if r.Ok? {
      var p := Filter(None, channelId);
      var d := Subscription(None, channelId);
      match FindFirst(subs, p)
      case Some(i) =>
        assert r.value.subs == RemoveAt(subs, i);
        assert forall k :: 0 <= k < |RemoveAt(subs, i)| ==>
          RemoveAt(subs, i)[k] == subs[if k < i then k else k + 1];
      case None =>
        assert r.value.subs == subs + [d];
    }
    CountZero(subs, OfSubscriber(u));
  }
}
