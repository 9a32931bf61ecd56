/** What each message of a client comes to, in full: which entries of the stores change to what, and who is told
    what. The statements name messages and entries as they are, without the parts of the step function
    (core/src/JetBlack.MessageBus.Distributor: SubscriptionManager.cs, PublisherManager.cs,
    NotificationManager.cs, InteractorManager.cs). */
module Effects {
  import opened Options
  import opened Messages
  import opened Broker
  import Safety

  /** What the flat stores say outside the subscriptions and the stored authorizations. */
  predicate SameOtherwise(b: Broker, b': Broker) {
    b'.live == b.live && b'.notes == b.notes && b'.pubs == b.pubs
  }

  predicate SameBut(subs: map<Key, SubState>, subs': map<Key, SubState>, k: Key) {
    subs' - {k} == subs - {k}
  }

  /** Exactly those who watch the feed are told that the client has begun or ended a subscription, once each. */
  ghost predicate WatchersAreTold(cfg: Config, b: Broker, a: Addressed, c: Guid, feed: Text, topic: Text, isAdd: bool) {
    && a.second == {}
    && forall s: Send :: s in a.first <==>
         && (feed, s.to) in b.notes
         && s.message == ForwardedSubscriptionRequest(cfg.user(c), cfg.host(c), c, feed, topic, isAdd)
  }

  lemma ForwardingTells(cfg: Config, b: Broker, c: Guid, feed: Text, topic: Text, isAdd: bool)
    ensures WatchersAreTold(cfg, b, Addressed(ForwardSends(cfg, b.notes, c, feed, topic, isAdd), {}), c, feed, topic,
                            isAdd)
  {
    var sends := ForwardSends(cfg, b.notes, c, feed, topic, isAdd);
    forall s: Send | (feed, s.to) in b.notes && s.message == Forwarded(cfg, c, feed, topic, isAdd) ensures s in sends {
      assert s.to in Notifiables(b.notes, feed) && s == Send(s.to, s.message);
    }
  }

  // ----- Authorization responses -----

  /** A response takes effect for a live client if no authorization is required or some entitlement is granted: the
      client is subscribed with just this authorization, which is no further count, and those who watch the feed
      are told. A response that requires authorization and grants nothing sends the client one image without data.
      Nothing comes of a response for a client that is not live. */
  lemma AuthorizationTakesEffectExactlyWhen(cfg: Config, b: Broker, a: Guid, c: Guid, feed: Text, topic: Text,
                                            required: bool, entitlements: Option<set<int>>)
    ensures var e := Received(a, AuthorizationResponse(c, feed, topic, required, entitlements));
            var b', sent, k := After(cfg, b, e), Sends(cfg, b, e), Key(feed, topic, c);
            var grants := if entitlements.Some? then entitlements.value else {};
            && SameOtherwise(b, b')
            && (c in b.live && (!required || grants != {}) ==>
                  && k in b'.subs && SameBut(b.subs, b'.subs, k)
                  && b'.subs[k].info.isAuthorizationRequired == required && b'.subs[k].info.entitlements == grants
                  && b'.subs[k].count == (if k in b.subs then b.subs[k].count else 0)
                  && WatchersAreTold(cfg, b, sent, c, feed, topic, true))
            && (c in b.live && required && grants == {} ==>
                  && b'.subs == b.subs
                  && sent == Addressed({Send(c, ForwardedMulticastData("", "", feed, topic, "", None))}, {}))
            && (c !in b.live ==> b' == b && sent == Addressed({}, {}))
  {
    ForwardingTells(cfg, b, c, feed, topic, true);
  }

  /** An authorization is stored for the client and topic, unless one is stored under the name of the feed. */
  lemma AuthorizationIsStoredExactlyWhen(cfg: Config, b: Broker, a: Guid, c: Guid, feed: Text, topic: Text,
                                         required: bool, entitlements: Option<set<int>>)
    ensures var b' := After(cfg, b, Received(a, AuthorizationResponse(c, feed, topic, required, entitlements)));
            var k := Key(feed, topic, c);
            if c in b.live && Key(feed, feed, c) !in b.auths then
              && k in b'.auths && b'.auths - {k} == b.auths - {k}
              && b'.auths[k].isAuthorizationRequired == required
              && b'.auths[k].entitlements == (if entitlements.Some? then entitlements.value else {})
            else b'.auths == b.auths
  {
  }

  // ----- Subscription requests -----

  /** A request without the role comes to nothing. With a stored authorization it counts one more, and those who watch
      are told. Without one, either exactly the live authorizers of the feed are asked about this client, or, where
      no authorization is required, the client is subscribed as by a response that requires none. */
  lemma SubscribingComesTo(cfg: Config, b: Broker, c: Guid, feed: Text, topic: Text)
    ensures var e := Received(c, SubscriptionRequest(feed, topic, true));
            var b', sent, k := After(cfg, b, e), Sends(cfg, b, e), Key(feed, topic, c);
            && SameOtherwise(b, b')
            && (!cfg.hasRole(c, feed, Subscribe) ==> b' == b && sent == Addressed({}, {}))
            && (cfg.hasRole(c, feed, Subscribe) && k in b.auths ==>
                  && k in b'.subs && SameBut(b.subs, b'.subs, k) && b'.auths == b.auths
                  && b'.subs[k].count == (if k in b.subs then b.subs[k].count else 0) + 1
                  && b'.subs[k].info == (if k in b.subs then b.subs[k].info else b.auths[k])
                  && WatchersAreTold(cfg, b, sent, c, feed, topic, true))
            && (cfg.hasRole(c, feed, Subscribe) && k !in b.auths && cfg.isAuthorizationRequired ==>
                  b' == b && AuthorizersAreAsked(cfg, b, sent, c, feed, topic))
            && (cfg.hasRole(c, feed, Subscribe) && k !in b.auths && !cfg.isAuthorizationRequired ==>
                  forall a: Guid :: var r := Received(a, AuthorizationResponse(c, feed, topic, false, None));
                                    b' == After(cfg, b, r) && sent == Sends(cfg, b, r))
  {
    ForwardingTells(cfg, b, c, feed, topic, true);
  }

  ghost predicate AuthorizersAreAsked(cfg: Config, b: Broker, a: Addressed, c: Guid, feed: Text, topic: Text) {
    && a.second == {}
    && forall s: Send :: s in a.first <==>
         && s.to in b.live && feed in cfg.feeds(s.to) && cfg.hasRole(s.to, feed, Authorize)
         && s.message == AuthorizationRequest(c, cfg.host(c), cfg.user(c), feed, topic)
  }

  /** An unsubscription with the role counts down, or removes where the count is one, and those who watch are told
      even if there was nothing to remove. */
  lemma UnsubscribingComesTo(cfg: Config, b: Broker, c: Guid, feed: Text, topic: Text)
    ensures var e := Received(c, SubscriptionRequest(feed, topic, false));
            var b', sent, k := After(cfg, b, e), Sends(cfg, b, e), Key(feed, topic, c);
            && SameOtherwise(b, b') && b'.auths == b.auths && SameBut(b.subs, b'.subs, k)
            && (!cfg.hasRole(c, feed, Subscribe) ==> b' == b && sent == Addressed({}, {}))
            && (cfg.hasRole(c, feed, Subscribe) ==>
                  && (k in b'.subs <==> k in b.subs && b.subs[k].count != 1)
                  && (k in b'.subs ==> b'.subs[k] == SubState(b.subs[k].count - 1, b.subs[k].info))
                  && WatchersAreTold(cfg, b, sent, c, feed, topic, false))
  {
    ForwardingTells(cfg, b, c, feed, topic, false);
  }

  // ----- Notification requests -----

  /** A new request is told of each subscription to the feed, by whom and from where, in one message each; a repeated
      one and a removal are told nothing. */
  lemma NotificationComesTo(cfg: Config, b: Broker, c: Guid, feed: Text, isAdd: bool)
    ensures var e := Received(c, NotificationRequest(feed, isAdd));
            var b', sent := After(cfg, b, e), Sends(cfg, b, e);
            && b'.live == b.live && b'.subs == b.subs && b'.pubs == b.pubs && b'.auths == b.auths
            && (forall f: Text, n: Guid :: (f, n) in b'.notes <==>
                  if f == feed && n == c then isAdd else (f, n) in b.notes)
            && sent.second == {}
            && (forall s: Send :: s in sent.first <==>
                  && isAdd && (feed, c) !in b.notes && s.to == c && IsToldOf(cfg, b, s.message, feed))
  {
    var sent := Sends(cfg, b, Received(c, NotificationRequest(feed, isAdd)));
    forall s: Send | isAdd && (feed, c) !in b.notes && s.to == c && IsToldOf(cfg, b, s.message, feed)
      ensures s in sent.first
    {
      var topic, subscriber :| Tells(cfg, b, s.message, feed, topic, subscriber);
      var k := Key(feed, topic, subscriber);
      assert k in b.subs && s == Send(c, Forwarded(cfg, k.client, feed, k.topic, true));
    }
    forall s: Send | s in sent.first ensures IsToldOf(cfg, b, s.message, feed) {
      var k :| k in b.subs && k.feed == feed && s == Send(c, Forwarded(cfg, k.client, feed, k.topic, true));
      assert Tells(cfg, b, s.message, feed, k.topic, k.client);
    }
  }

  ghost predicate IsToldOf(cfg: Config, b: Broker, m: Msg, feed: Text) {
    exists topic: Text, subscriber: Guid :: Tells(cfg, b, m, feed, topic, subscriber)
  }

  predicate Tells(cfg: Config, b: Broker, m: Msg, feed: Text, topic: Text, subscriber: Guid) {
    && Key(feed, topic, subscriber) in b.subs
    && m == ForwardedSubscriptionRequest(cfg.user(subscriber), cfg.host(subscriber), subscriber, feed, topic, true)
  }

  // ----- Data -----

  /** No authorization is required, or the packet has entitlements and all of them are granted. */
  predicate MayPass(info: Info, p: Packet<set<int>>) {
    !info.isAuthorizationRequired
    || (p.entitlements.Some? && p.entitlements.value <= info.entitlements)
  }

  /** The data are passed on with just those packets that the authorization allows, each as often as it was
      published and in their order; missing data stay missing. */
  ghost predicate Filtered(info: Info, published: Packets<set<int>>, passed: Packets<set<int>>) {
    && (published.None? <==> passed.None?)
    && (published.Some? ==>
          && (forall p :: multiset(passed.value)[p] == if MayPass(info, p) then multiset(published.value)[p] else 0)
          && InOrder(passed.value, published.value))
  }

  /** The one sequence is the other with some elements left out. */
  ghost predicate InOrder<T>(part: seq<T>, whole: seq<T>) {
    if whole == [] then part == []
    else (part != [] && part[0] == whole[0] && InOrder(part[1..], whole[1..])) || InOrder(part, whole[1..])
  }

  lemma {:induction false} FilterIsInOrder(entitlements: set<int>, ps: seq<Packet<set<int>>>)
    ensures InOrder(EntitledPackets(entitlements, ps), ps)
  {
    if ps != [] {
      FilterIsInOrder(entitlements, ps[1..]);
      var rest := EntitledPackets(entitlements, ps[1..]);
      assert [] + rest == rest && ([ps[0]] + rest)[1..] == rest;
    }
  }

  lemma {:induction false} WholeIsInOrder<T>(s: seq<T>)
    ensures InOrder(s, s)
  {
    if s != [] { WholeIsInOrder(s[1..]); }
  }

  lemma AuthorizedDataIsFiltered(packets: Packets<set<int>>, info: Info)
    ensures Filtered(info, packets, AuthorizedData(packets, info))
  {
    if packets.Some? {
      if info.isAuthorizationRequired {
        FilterIsInOrder(info.entitlements, packets.value);
        var passed := EntitledPackets(info.entitlements, packets.value);
        forall p ensures multiset(passed)[p] == if MayPass(info, p) then multiset(packets.value)[p] else 0 {
          Safety.FilterKeepsExactlyTheEntitled(info.entitlements, packets.value, p);
          assert MayPass(info, p) <==> Entitled(info.entitlements, p);
        }
      } else {
        WholeIsInOrder(packets.value);
      }
    }
  }

  /** A client becomes a publisher of the topic, or nothing changes. */
  predicate Publishes(b: Broker, b': Broker, c: Guid, feed: Text, topic: Text, does: bool) {
    b' == if does then b.(pubs := b.pubs + {(c, FeedTopic(feed, topic))}) else b
  }

  /** Unicast data come to the client that they name, in one message, if it is subscribed to the topic and the sender
      may publish, and nobody else is sent any. The sender then counts as a publisher of the topic. */
  lemma UnicastIsDelivered(cfg: Config, b: Broker, c: Guid, to: Guid, feed: Text, topic: Text, contentType: Text,
                           packets: Packets<set<int>>)
    ensures var e := Received(c, UnicastData(to, feed, topic, contentType, packets));
            var sent, k := Sends(cfg, b, e), Key(feed, topic, to);
            var delivered := k in b.subs && cfg.hasRole(c, feed, Publish);
            && sent.second == {} && Publishes(b, After(cfg, b, e), c, feed, topic, delivered)
            && |sent.first| == (if delivered then 1 else 0)
            && forall s :: s in sent.first ==>
                 && delivered && s.to == to && s.message.ForwardedUnicastData?
                 && s.message.user == cfg.user(c) && s.message.host == cfg.host(c) && s.message.clientId == to
                 && s.message.feed == feed && s.message.topic == topic && s.message.contentType == contentType
                 && Filtered(b.subs[k].info, packets, s.message.packets)
  {
    var k := Key(feed, topic, to);
    if k in b.subs {
      AuthorizedDataIsFiltered(packets, b.subs[k].info);
    }
  }

  /** Multicast data come to exactly the subscribers of the topic if the sender may publish, to each in one message of
      its own. The sender then counts as a publisher of the topic if there is a subscriber. */
  lemma MulticastIsDelivered(cfg: Config, b: Broker, c: Guid, feed: Text, topic: Text, contentType: Text,
                             packets: Packets<set<int>>)
    ensures var e := Received(c, MulticastData(feed, topic, contentType, packets));
            var sent, may := Sends(cfg, b, e), cfg.hasRole(c, feed, Publish);
            && sent.second == {}
            && Publishes(b, After(cfg, b, e), c, feed, topic, may && exists to :: Key(feed, topic, to) in b.subs)
            && (forall to: Guid :: (exists s :: s in sent.first && s.to == to) <==>
                  may && Key(feed, topic, to) in b.subs)
            && (forall s, t :: s in sent.first && t in sent.first && s.to == t.to ==> s == t)
            && forall s :: s in sent.first ==>
                 && Key(feed, topic, s.to) in b.subs && s.message.ForwardedMulticastData?
                 && s.message.user == cfg.user(c) && s.message.host == cfg.host(c)
                 && s.message.feed == feed && s.message.topic == topic && s.message.contentType == contentType
                 && Filtered(b.subs[Key(feed, topic, s.to)].info, packets, s.message.packets)
  {
    hide AuthorizedData, Filtered;
    var e := Received(c, MulticastData(feed, topic, contentType, packets));
    var sent := Sends(cfg, b, e).first;
    SubscribersExist(b, feed, topic);
    if cfg.hasRole(c, feed, Publish) {
      forall to: Guid | Key(feed, topic, to) in b.subs ensures exists s :: s in sent && s.to == to {
        var m := ForwardedMulticastData(cfg.user(c), cfg.host(c), feed, topic, contentType,
                                        AuthorizedData(packets, b.subs[Key(feed, topic, to)].info));
        assert Send(to, m) in sent;
      }
      forall s | s in sent
        ensures var k := Key(feed, topic, s.to);
                && k in b.subs && Filtered(b.subs[k].info, packets, AuthorizedData(packets, b.subs[k].info))
                && s.message == ForwardedMulticastData(cfg.user(c), cfg.host(c), feed, topic, contentType,
                                                       AuthorizedData(packets, b.subs[k].info))
      {
        MulticastIsToASubscriber(cfg, b, c, feed, topic, contentType, packets, s);
        AuthorizedDataIsFiltered(packets, b.subs[Key(feed, topic, s.to)].info);
      }
    }
  }

  lemma SubscribersExist(b: Broker, feed: Text, topic: Text)
    ensures Subscribers(b, feed, topic) != {} <==> exists to :: Key(feed, topic, to) in b.subs
  {
    forall to: Guid | Key(feed, topic, to) in b.subs ensures to in Subscribers(b, feed, topic) { }
    if Subscribers(b, feed, topic) != {} {
      var to :| to in Subscribers(b, feed, topic);
      assert Key(feed, topic, to) in b.subs;
    }
  }

  lemma MulticastIsToASubscriber(cfg: Config, b: Broker, c: Guid, feed: Text, topic: Text, contentType: Text,
                                 packets: Packets<set<int>>, s: Send)
    requires s in MulticastSends(cfg, b, c, feed, topic, contentType, packets)
    ensures var k := Key(feed, topic, s.to);
            && k in b.subs
            && s.message == ForwardedMulticastData(cfg.user(c), cfg.host(c), feed, topic, contentType,
                                                   AuthorizedData(packets, b.subs[k].info))
  {
    hide AuthorizedData;
    var k :| k in b.subs && k.feed == feed && k.topic == topic
             && s == Send(k.client, ForwardedMulticastData(cfg.user(c), cfg.host(c), feed, topic, contentType,
                                                           AuthorizedData(packets, b.subs[k].info)));
    assert k == Key(feed, topic, s.to);
  }

  // ----- Everything else -----

  /** The messages that only the broker sends come to nothing when a client sends them, and connecting makes a client
      live and does nothing else. */
  lemma OthersComeToNothing(cfg: Config, b: Broker, c: Guid, m: Msg)
    requires m.ForwardedSubscriptionRequest? || m.AuthorizationRequest? || m.ForwardedMulticastData?
             || m.ForwardedUnicastData?
    ensures After(cfg, b, Received(c, m)) == b && Sends(cfg, b, Received(c, m)) == Addressed({}, {})
    ensures After(cfg, b, Connected(c)) == b.(live := b.live + {c})
            && Sends(cfg, b, Connected(c)) == Addressed({}, {})
  {
  }
}
