/** The subscription store: three levels of dictionaries, pruned when they become empty
    (core/src/JetBlack.MessageBus.Distributor/Subscribers/SubscriptionRepository.cs), which is a flat map
    from (feed, topic, subscriber) to a count and an authorization. */
module Subscriptions {
  import opened Messages
  import opened Broker

  type TopicSubscribers = map<Guid, SubState>

  type Cache = map<Text, map<Text, TopicSubscribers>>

  predicate Holds(cache: Cache, k: Key) {
    k.feed in cache && k.topic in cache[k.feed] && k.client in cache[k.feed][k.topic]
  }

  ghost function Flat(cache: Cache): map<Key, SubState> {
    var keys := set f, t, c | f in cache && t in cache[f] && c in cache[f][t] :: Key(f, t, c);
    map k | k in keys :: cache[k.feed][k.topic][k.client]
  }

  ghost predicate Pruned(cache: Cache) {
    forall f :: f in cache ==> cache[f] != map[] && forall t :: t in cache[f] ==> cache[f][t] != map[]
  }

  function At(cache: Cache, k: Key): SubState
    requires Holds(cache, k)
  {
    cache[k.feed][k.topic][k.client]
  }

  lemma FlatHas(cache: Cache, k: Key)
    ensures k in Flat(cache) <==> Holds(cache, k)
    ensures Holds(cache, k) ==> Flat(cache)[k] == At(cache, k)
  {
    assert Holds(cache, k) ==> Key(k.feed, k.topic, k.client) == k;
  }

  function Topics(cache: Cache, feed: Text): map<Text, TopicSubscribers> {
    if feed in cache then cache[feed] else map[]
  }

  function SubscribersOf(topics: map<Text, TopicSubscribers>, topic: Text): TopicSubscribers {
    if topic in topics then topics[topic] else map[]
  }

  /** The cache with one entry added or replaced. */
  function With(cache: Cache, k: Key, state: SubState): Cache {
    var topics := Topics(cache, k.feed);
    cache[k.feed := topics[k.topic := SubscribersOf(topics, k.topic)[k.client := state]]]
  }

  lemma WithHolds(cache: Cache, k: Key, state: SubState, l: Key)
    ensures Holds(With(cache, k, state), l) <==> Holds(cache, l) || l == k
    ensures Holds(With(cache, k, state), l) ==> At(With(cache, k, state), l) == if l == k then state else At(cache, l)
  {
  }

  lemma WithIsPruned(cache: Cache, k: Key, state: SubState)
    requires Pruned(cache)
    ensures Pruned(With(cache, k, state))
  {
    var topics := Topics(cache, k.feed);
    var subscribers := SubscribersOf(topics, k.topic);
    assert k.client in subscribers[k.client := state];
    assert k.topic in topics[k.topic := subscribers[k.client := state]];
  }

  lemma FlatWith(cache: Cache, k: Key, state: SubState)
    ensures Flat(With(cache, k, state)) == Flat(cache)[k := state]
  {
    hide Flat, With, Holds, At;
    forall l ensures l in Flat(With(cache, k, state)) <==> l in Flat(cache)[k := state] {
      FlatHas(cache, l);
      FlatHas(With(cache, k, state), l);
      WithHolds(cache, k, state, l);
    }
    forall l | l in Flat(With(cache, k, state)) ensures Flat(With(cache, k, state))[l] == Flat(cache)[k := state][l] {
      FlatHas(cache, l);
      FlatHas(With(cache, k, state), l);
      WithHolds(cache, k, state, l);
    }
  }

  /** What remains when a client leaves a topic: empty topics and feeds go too. */
  function Without(cache: Cache, k: Key): Cache
    requires Holds(cache, k)
  {
    var subscribers := cache[k.feed][k.topic] - {k.client};
    var topics := if subscribers == map[] then cache[k.feed] - {k.topic} else cache[k.feed][k.topic := subscribers];
    if topics == map[] then cache - {k.feed} else cache[k.feed := topics]
  }

  lemma WithoutHolds(cache: Cache, k: Key, l: Key)
    requires Holds(cache, k)
    ensures Holds(Without(cache, k), l) <==> Holds(cache, l) && l != k
    ensures Holds(Without(cache, k), l) ==> At(Without(cache, k), l) == At(cache, l)
  {
    var subscribers := cache[k.feed][k.topic] - {k.client};
    var topics := if subscribers == map[] then cache[k.feed] - {k.topic} else cache[k.feed][k.topic := subscribers];
    if l.feed == k.feed && l.topic == k.topic {
      assert l.client in subscribers <==> l.client in cache[k.feed][k.topic] && l.client != k.client;
    }
    if l.feed == k.feed && l.topic != k.topic {
      assert l.topic in topics <==> l.topic in cache[k.feed];
    }
  }

  lemma WithoutIsPruned(cache: Cache, k: Key)
    requires Holds(cache, k) && Pruned(cache)
    ensures Pruned(Without(cache, k))
  {
  }

  lemma FlatWithout(cache: Cache, k: Key)
    requires Holds(cache, k)
    ensures Flat(Without(cache, k)) == Flat(cache) - {k}
  {
    hide Flat, Without, At;
    forall l ensures l in Flat(Without(cache, k)) <==> l in Flat(cache) - {k} {
      FlatHas(cache, l);
      FlatHas(Without(cache, k), l);
      WithoutHolds(cache, k, l);
    }
    forall l | l in Flat(Without(cache, k)) ensures Flat(Without(cache, k))[l] == (Flat(cache) - {k})[l] {
      FlatHas(cache, l);
      FlatHas(Without(cache, k), l);
      WithoutHolds(cache, k, l);
    }
  }

  // ----- The repository -----

  class SubscriptionRepository {
    var cache: Cache

    ghost predicate Valid()
      reads this
    {
      Pruned(cache)
    }

    ghost function Contents(): map<Key, SubState>
      reads this
    {
      Flat(cache)
    }

    constructor ()
      ensures Valid() && Contents() == map[]
    {
      cache := map[];
    }

    method AddSubscription(subscriber: Guid, feed: Text, topic: Text, authorizationInfo: Info,
                           isAuthorizationUpdate: bool)
      requires Valid()
      modifies this
      ensures Valid()
      ensures Contents() == WithSubscription(old(Contents()), Key(feed, topic, subscriber), authorizationInfo,
                                             isAuthorizationUpdate)
    {
      hide Flat, Pruned;
      ghost var k := Key(feed, topic, subscriber);
      FlatHas(cache, k);
      var topicSubscriptions: map<Text, TopicSubscribers> := map[];
      if feed in cache {
        topicSubscriptions := cache[feed];
      }
      var subscribersForTopic: TopicSubscribers := map[];
      if topic in topicSubscriptions {
        subscribersForTopic := topicSubscriptions[topic];
      }
      var subscriptionState := SubState(0, authorizationInfo);
      if subscriber in subscribersForTopic {
        subscriptionState := subscribersForTopic[subscriber];
      }
      if isAuthorizationUpdate {
        subscriptionState := subscriptionState.(info := authorizationInfo);
      } else {
        subscriptionState := subscriptionState.(count := subscriptionState.count + 1);
      }
      FlatWith(cache, k, subscriptionState);
      WithIsPruned(cache, k, subscriptionState);
      subscribersForTopic := subscribersForTopic[subscriber := subscriptionState];
      topicSubscriptions := topicSubscriptions[topic := subscribersForTopic];
      cache := cache[feed := topicSubscriptions];
    }

    method RemoveSubscription(subscriber: Guid, feed: Text, topic: Text, removeAll: bool)
      requires Valid()
      modifies this
      ensures Valid()
      ensures Contents() == WithoutSubscription(old(Contents()), Key(feed, topic, subscriber), removeAll)
    {
      hide Flat, Pruned;
      ghost var k := Key(feed, topic, subscriber);
      FlatHas(cache, k);
      if feed !in cache {
        return;
      }
      var topicSubscriptions := cache[feed];
      if topic !in topicSubscriptions {
        return;
      }
      var subscribersForTopic := topicSubscriptions[topic];
      if subscriber !in subscribersForTopic {
        return;
      }
      var subscriptionState := subscribersForTopic[subscriber];
      if !removeAll {
        subscriptionState := subscriptionState.(count := subscriptionState.count - 1);
      }
      if removeAll || subscriptionState.count == 0 {
        FlatWithout(cache, k);
        WithoutIsPruned(cache, k);
        subscribersForTopic := subscribersForTopic - {subscriber};
      } else {
        FlatWith(cache, k, subscriptionState);
        WithIsPruned(cache, k, subscriptionState);
        subscribersForTopic := subscribersForTopic[subscriber := subscriptionState];
        assert subscriber in subscribersForTopic;
      }
      if subscribersForTopic == map[] {
        topicSubscriptions := topicSubscriptions - {topic};
      } else {
        topicSubscriptions := topicSubscriptions[topic := subscribersForTopic];
        assert topic in topicSubscriptions;
      }
      if topicSubscriptions == map[] {
        cache := cache - {feed};
      } else {
        cache := cache[feed := topicSubscriptions];
      }
    }

    /** The topics to which the interactor has subscribed. */
    function FindByInteractor(interactor: Guid): (r: set<FeedTopic>)
      reads this
      ensures forall f, t :: FeedTopic(f, t) in r <==> Key(f, t, interactor) in Contents()
    {
      var r := set f, t | f in cache && t in cache[f] && interactor in cache[f][t] :: FeedTopic(f, t);
      assert forall f, t :: FeedTopic(f, t) in r <==> Key(f, t, interactor) in Contents() by {
        forall f, t ensures FeedTopic(f, t) in r <==> Key(f, t, interactor) in Contents() {
          FlatHas(cache, Key(f, t, interactor));
        }
      }
      r
    }

    function GetSubscribersToFeedAndTopic(feed: Text, topic: Text): (r: map<Guid, Info>)
      reads this
      ensures forall c: Guid :: c in r <==> Key(feed, topic, c) in Contents()
      ensures forall c: Guid :: c in r ==> r[c] == Contents()[Key(feed, topic, c)].info
    {
      var r: map<Guid, Info> :=
        if feed in cache && topic in cache[feed] then map c | c in cache[feed][topic] ::
            cache[feed][topic][c].info else map[];
      assert forall c: Guid ::
          (c in r <==> Key(feed, topic, c) in Contents())
              && (c in r ==> r[c] == Contents()[Key(feed, topic, c)].info) by {
        forall c: Guid
          ensures (c in r <==> Key(feed, topic, c) in Contents())
                  && (c in r ==> r[c] == Contents()[Key(feed, topic, c)].info)
        {
          FlatHas(cache, Key(feed, topic, c));
        }
      }
      r
    }

    /** The topics of the feed that have subscribers, and these. */
    function GetSubscribersToFeed(feed: Text): (r: map<Text, set<Guid>>)
      requires Valid()
      reads this
      ensures forall t :: t in r ==> r[t] != {}
      ensures forall t, c: Guid :: t in r && c in r[t] <==> Key(feed, t, c) in Contents()
    {
      var r: map<Text, set<Guid>> := if feed in cache then map t | t in cache[feed] :: cache[feed][t].Keys else map[];
      assert forall t, c: Guid :: t in r && c in r[t] <==> Key(feed, t, c) in Contents() by {
        forall t, c: Guid ensures t in r && c in r[t] <==> Key(feed, t, c) in Contents() {
          FlatHas(cache, Key(feed, t, c));
        }
      }
      r
    }
  }

  // ----- Reference counts -----

  datatype Call = Add(k: Key, info: Info, isUpdate: bool) | Remove(k: Key, removeAll: bool)

  /** The store after a sequence of calls. */
  function Contents(calls: seq<Call>): map<Key, SubState> {
    if calls == [] then map[]
    else
      var before, call := Contents(calls[..|calls| - 1]), calls[|calls| - 1];
      if call.Add? then WithSubscription(before, call.k, call.info, call.isUpdate)
      else WithoutSubscription(before, call.k, call.removeAll)
  }

  /** The additions less the removals of the key, where a balance of zero is not lowered and a removal of
      all starts again. */
  function Balance(calls: seq<Call>, k: Key): nat {
    if calls == [] then 0
    else
      var before, call := Balance(calls[..|calls| - 1], k), calls[|calls| - 1];
      if call.k != k || (call.Add? && call.isUpdate) then before
      else if call.Add? then before + 1
      else if call.removeAll || before == 0 then 0
      else before - 1
  }

  /** Authorization updates are made only to entries that are there. */
  ghost predicate UpdatesExisting(calls: seq<Call>) {
    forall i :: 0 <= i < |calls| && calls[i].Add? && calls[i].isUpdate ==> calls[i].k in Contents(calls[..i])
  }

  lemma UpdatesExistingBefore(calls: seq<Call>, n: nat)
    requires UpdatesExisting(calls) && n <= |calls|
    ensures UpdatesExisting(calls[..n])
  {
    forall i | 0 <= i < n && calls[..n][i].Add? && calls[..n][i].isUpdate
      ensures calls[..n][i].k in Contents(calls[..n][..i])
    {
      assert calls[..n][..i] == calls[..i];
    }
  }

  /** A subscriber is there exactly when its balance is positive, and that is its count. */
  lemma {:induction false} CountIsBalance(calls: seq<Call>, k: Key)
    requires UpdatesExisting(calls)
    ensures k in Contents(calls) <==> Balance(calls, k) > 0
    ensures k in Contents(calls) ==> Contents(calls)[k].count == Balance(calls, k)
    decreases |calls|
  {
    if calls != [] {
      var n := |calls| - 1;
      UpdatesExistingBefore(calls, n);
      CountIsBalance(calls[..n], k);
    }
  }

  /** An authorization update of an entry changes its authorization and nothing else. */
  lemma UpdatesLeaveCountsAlone(subs: map<Key, SubState>, k: Key, info: Info)
    requires k in subs
    ensures var subs' := WithSubscription(subs, k, info, true);
            && subs'.Keys == subs.Keys && subs'[k].info == info
            && forall l :: l in subs ==> subs'[l].count == subs[l].count && (l != k ==> subs'[l].info == subs[l].info)
  {
  }

  /** An update of an entry that is not there makes one with count zero, which the next removal keeps. */
  lemma UpdateOfNothingMiscounts(k: Key, info: Info)
    ensures k in Contents([Add(k, info, true), Remove(k, false)])
            && Balance([Add(k, info, true), Remove(k, false)], k) == 0
  {
    var calls := [Add(k, info, true), Remove(k, false)];
    assert calls[..1][..0] == [];
    assert Contents(calls[..1]) == map[k := SubState(0, info)];
    assert Balance(calls[..1], k) == 0;
  }
}
