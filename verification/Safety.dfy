/** What the broker promises over whole runs of its event loop: data goes only to those who have been
    authorized for it, and it is known exactly when a client that has gone is forgotten. */
module Safety {
  import opened Options
  import opened Messages
  import opened Broker

  // ----- The entitlement filter -----

  /** The filter keeps exactly the packets whose entitlements are granted, as often as they occur. */
  lemma {:induction false} FilterKeepsExactlyTheEntitled(entitlements: set<int>, ps: seq<Packet<set<int>>>,
                                                         p: Packet<set<int>>)
    ensures multiset(EntitledPackets(entitlements, ps))[p] == if Entitled(entitlements, p) then multiset(ps)[p] else 0
  {
    if ps != [] {
      FilterKeepsExactlyTheEntitled(entitlements, ps[1..], p);
      assert ps == [ps[0]] + ps[1..];
    }
  }

  /** The filter works on the two parts of a sequence separately, so it keeps the order. */
  lemma {:induction false} FilterKeepsOrder(entitlements: set<int>, a: seq<Packet<set<int>>>, b: seq<Packet<set<int>>>)
    ensures EntitledPackets(entitlements, a + b) == EntitledPackets(entitlements, a) + EntitledPackets(entitlements, b)
  {
    hide Entitled;
    if a == [] {
      assert a + b == b;
    } else {
      assert (a + b)[0] == a[0] && (a + b)[1..] == a[1..] + b;
      var first := if Entitled(entitlements, a[0]) then [a[0]] else [];
      FilterKeepsOrder(entitlements, a[1..], b);
      assert EntitledPackets(entitlements, a + b) == first + EntitledPackets(entitlements, a[1..] + b);
    }
  }

  // ----- Entitlements -----

  /** An authorization that the broker accepts. */
  datatype Grant = Grant(key: Key, info: Info)

  /** The authorization that an event brings: the response of an authorizer for a live client, or the
      client's own request where no authorization is required. */
  function Accepted(cfg: Config, b: Broker, e: Event): Option<Grant> {
    match e
    case Received(c, AuthorizationResponse(client, feed, topic, required, entitlements)) =>
      if client in b.live then Some(Grant(Key(feed, topic, client), Granted(required, entitlements))) else None
    case Received(c, SubscriptionRequest(feed, topic, isAdd)) =>
      if isAdd && cfg.hasRole(c, feed, Subscribe) && Key(feed, topic, c) !in b.auths && !cfg.isAuthorizationRequired
          && c in b.live
      then Some(Grant(Key(feed, topic, c), Granted(false, None))) else None
    case _ => None
  }

  ghost function Grants(cfg: Config, es: seq<Event>): set<Grant> {
    set j, g | 0 <= j < |es| && g in AcceptedSet(cfg, State(cfg, es[..j]), es[j]) :: g
  }

  ghost function AcceptedSet(cfg: Config, b: Broker, e: Event): set<Grant> {
    var g := Accepted(cfg, b, e);
    if g.Some? then {g.value} else {}
  }

  /** Everything the stores know about authorizations has been accepted for that very client and topic. */
  ghost predicate Justified(grants: set<Grant>, b: Broker) {
    && (forall k :: k in b.subs ==> Grant(k, b.subs[k].info) in grants)
    && (forall k :: k in b.auths ==> Grant(k, b.auths[k]) in grants)
  }

  lemma StepKeepsJustified(cfg: Config, b: Broker, e: Event, grants: set<Grant>)
    requires Justified(grants, b)
    ensures Justified(grants + AcceptedSet(cfg, b, e), After(cfg, b, e))
  {
  }

  lemma GrantsGrow(cfg: Config, es: seq<Event>)
    requires es != []
    ensures var n := |es| - 1;
            Grants(cfg, es) == Grants(cfg, es[..n]) + AcceptedSet(cfg, State(cfg, es[..n]), es[n])
  {
    var n := |es| - 1;
    forall g | g in Grants(cfg, es[..n]) ensures g in Grants(cfg, es) {
      var j :| 0 <= j < n && g in AcceptedSet(cfg, State(cfg, es[..n][..j]), es[..n][j]);
      assert es[..n][..j] == es[..j];
    }
    forall g | g in Grants(cfg, es) ensures g in Grants(cfg, es[..n]) + AcceptedSet(cfg, State(cfg, es[..n]), es[n]) {
      var j :| 0 <= j < |es| && g in AcceptedSet(cfg, State(cfg, es[..j]), es[j]);
      if j < n { assert es[..n][..j] == es[..j] && es[..n][j] == es[j]; }
    }
  }

  lemma {:induction false} AlwaysJustified(cfg: Config, es: seq<Event>)
    ensures Justified(Grants(cfg, es), State(cfg, es))
  {
    if es != [] {
      var n := |es| - 1;
      AlwaysJustified(cfg, es[..n]);
      StepKeepsJustified(cfg, State(cfg, es[..n]), es[n], Grants(cfg, es[..n]));
      GrantsGrow(cfg, es);
    }
  }

  /** The message carries the packet on the feed and topic. */
  predicate Carries(m: Msg, feed: Text, topic: Text, p: Packet<set<int>>) {
    match m
    case ForwardedMulticastData(_, _, f, t, _, packets) => f == feed && t == topic && packets.Some?
        && p in packets.value
    case ForwardedUnicastData(_, _, _, f, t, _, packets) => f == feed && t == topic && packets.Some?
        && p in packets.value
    case _ => false
  }

  predicate Allows(info: Info, p: Packet<set<int>>) {
    !info.isAuthorizationRequired || Entitled(info.entitlements, p)
  }

  lemma AuthorizedDataIsAllowed(packets: Packets<set<int>>, info: Info, p: Packet<set<int>>)
    requires AuthorizedData(packets, info).Some? && p in AuthorizedData(packets, info).value
    ensures Allows(info, p)
  {
    if info.isAuthorizationRequired {
      FilterKeepsExactlyTheEntitled(info.entitlements, packets.value, p);
    }
  }

  lemma DataIsForSubscribers(cfg: Config, b: Broker, e: Event, s: Send, feed: Text, topic: Text, p: Packet<set<int>>)
    requires s in Sends(cfg, b, e).first + Sends(cfg, b, e).second && Carries(s.message, feed, topic, p)
    ensures Key(feed, topic, s.to) in b.subs && Allows(b.subs[Key(feed, topic, s.to)].info, p)
  {
    assert e.Received?;
    if e.message.MulticastData? {
      var m := e.message;
      var k :| k in b.subs && k.feed == m.feed && k.topic == m.topic
               && s == Send(k.client, ForwardedMulticastData(cfg.user(e.client), cfg.host(e.client), m.feed, m.topic,
                                                             m.contentType,
                                                             AuthorizedData(m.packets, b.subs[k].info)));
      assert k == Key(feed, topic, s.to);
      AuthorizedDataIsAllowed(m.packets, b.subs[k].info, p);
    } else {
      assert e.message.UnicastData?;
      AuthorizedDataIsAllowed(e.message.packets, b.subs[Key(feed, topic, s.to)].info, p);
    }
  }

  /** Entitlement safety: every packet that is ever addressed to a client on a topic is allowed by an
      authorization that was accepted earlier for that client, feed and topic. */
  lemma EntitlementSafety(cfg: Config, es: seq<Event>, i: nat, s: Send, feed: Text, topic: Text, p: Packet<set<int>>)
    returns (j: nat, info: Info)
    requires i < |es| && Carries(s.message, feed, topic, p)
    requires s in Sends(cfg, State(cfg, es[..i]), es[i]).first + Sends(cfg, State(cfg, es[..i]), es[i]).second
    ensures j < i && Accepted(cfg, State(cfg, es[..j]), es[j]) == Some(Grant(Key(feed, topic, s.to), info))
    ensures Allows(info, p)
  {
    var b := State(cfg, es[..i]);
    DataIsForSubscribers(cfg, b, es[i], s, feed, topic, p);
    AlwaysJustified(cfg, es[..i]);
    info := b.subs[Key(feed, topic, s.to)].info;
    var g := Grant(Key(feed, topic, s.to), info);
    j :| 0 <= j < i && g in AcceptedSet(cfg, State(cfg, es[..i][..j]), es[..i][j]);
    assert es[..i][..j] == es[..j];
  }

  /** A client is sent data of a multicast exactly if it is subscribed to the topic, in one message, which
      holds each packet as often as the publisher sent it if the packet is allowed, and not at all
      otherwise. */
  lemma MulticastIsDelivered(cfg: Config, b: Broker, c: Guid, feed: Text, topic: Text, contentType: Text,
                             ps: seq<Packet<set<int>>>, to: Guid, p: Packet<set<int>>)
    requires cfg.hasRole(c, feed, Publish)
    ensures var sends := Sends(cfg, b, Received(c, MulticastData(feed, topic, contentType, Some(ps)))).first;
            var k := Key(feed, topic, to);
            && ((exists s :: s in sends && s.to == to) <==> k in b.subs)
            && (forall s, t :: s in sends && t in sends && s.to == to == t.to ==> s == t)
            && (forall s :: s in sends && s.to == to ==>
                  && s.message.ForwardedMulticastData? && s.message.feed == feed && s.message.topic == topic
                       && s.message.packets.Some?
                  && multiset(s.message.packets.value)[p] == if Allows(b.subs[k].info, p) then multiset(ps)[p] else 0)
  {
    var sends := Sends(cfg, b, Received(c, MulticastData(feed, topic, contentType, Some(ps)))).first;
    var k := Key(feed, topic, to);
    if k in b.subs {
      var info := b.subs[k].info;
      FilterKeepsExactlyTheEntitled(info.entitlements, ps, p);
      var m := ForwardedMulticastData(cfg.user(c), cfg.host(c), feed, topic, contentType,
                                      AuthorizedData(Some(ps), info));
      assert Send(to, m) in sends;
    }
    forall s | s in sends && s.to == to
      ensures k in b.subs && s == Send(to, ForwardedMulticastData(cfg.user(c), cfg.host(c), feed, topic, contentType,
                                                                  AuthorizedData(Some(ps), b.subs[k].info)))
    {
      var l :| l in b.subs && l.feed == feed && l.topic == topic
               && s == Send(l.client, ForwardedMulticastData(cfg.user(c), cfg.host(c), feed, topic, contentType,
                                                             AuthorizedData(Some(ps), b.subs[l].info)));
      assert l == k;
    }
  }

  // ----- Disconnecting -----

  ghost predicate Mentions(b: Broker, c: Guid) {
    || c in b.live
    || (exists k :: k in b.subs && k.client == c)
    || (exists n :: n in b.notes && n.1 == c)
    || (exists p :: p in b.pubs && p.0 == c)
  }

  predicate Ends(e: Event, c: Guid) {
    (e.Closed? || e.Errored?) && e.client == c
  }

  /** The client alone has published to the topic. */
  ghost predicate LastPublisher(b: Broker, c: Guid, feed: Text, topic: Text) {
    (c, FeedTopic(feed, topic)) in b.pubs && forall q: Guid :: (q, FeedTopic(feed, topic)) in b.pubs ==> q == c
  }

  /** After a close or a fault no store mentions the client, and what the stores say about others is unchanged.
      Authorizations stay with their clients. */
  lemma EndForgetsTheClient(cfg: Config, b: Broker, e: Event, c: Guid)
    requires Ends(e, c)
    ensures !Mentions(After(cfg, b, e), c)
    ensures forall k: Key :: k.client != c ==>
              (k in After(cfg, b, e).subs <==> k in b.subs) && (k in b.subs ==> After(cfg, b, e).subs[k] == b.subs[k])
    ensures forall feed: Text, n: Guid :: n != c ==> ((feed, n) in After(cfg, b, e).notes <==> (feed, n) in b.notes)
    ensures forall q: Guid, t: FeedTopic :: q != c ==> ((q, t) in After(cfg, b, e).pubs <==> (q, t) in b.pubs)
    ensures forall q: Guid :: q != c ==> (q in After(cfg, b, e).live <==> q in b.live)
    ensures After(cfg, b, e).auths == b.auths
  {
  }

  /** Every other subscriber of a topic whose last publisher goes is told so, and nobody else. */
  lemma StaleMessagesAreExact(cfg: Config, b: Broker, e: Event, c: Guid, to: Guid, feed: Text, topic: Text)
    requires Ends(e, c)
    ensures Send(to, ForwardedMulticastData("", "", feed, topic, "", None)) in Sends(cfg, b, e).first <==>
            Key(feed, topic, to) in b.subs && LastPublisher(b, c, feed, topic)
  {
    var sends := Sends(cfg, b, e).first;
    if Send(to, NoData(feed, topic)) in sends {
      var k :| k in b.subs && FeedTopic(k.feed, k.topic) in StaleTopics(b.pubs, c)
          && Send(k.client, NoData(k.feed, k.topic)) == Send(to, NoData(feed, topic));
      assert k == Key(feed, topic, to);
    }
    if Key(feed, topic, to) in b.subs && LastPublisher(b, c, feed, topic) {
      assert FeedTopic(feed, topic) in StaleTopics(b.pubs, c) by {
        var p := (c, FeedTopic(feed, topic));
        assert p in b.pubs && forall q :: q in b.pubs && q.1 == p.1 ==> q.0 == c;
      }
    }
  }

  /** Whoever watches the feed of one of the client's subscriptions is told that it has ended, and nobody
      else; nothing but these two kinds of messages is sent. */
  lemma UnsubscriptionsAreExact(cfg: Config, b: Broker, e: Event, c: Guid, to: Guid, feed: Text, topic: Text)
    requires Ends(e, c)
    ensures Send(to, ForwardedSubscriptionRequest(cfg.user(c), cfg.host(c), c, feed, topic, false))
            in Sends(cfg, b, e).second <==>
              Key(feed, topic, c) in b.subs && (feed, to) in b.notes && to != c
    ensures forall s :: s in Sends(cfg, b, e).first ==> exists f, t :: s.message == NoData(f, t)
    ensures forall s :: s in Sends(cfg, b, e).second ==> exists f, t :: s.message == Forwarded(cfg, c, f, t, false)
  {
    if Send(to, Forwarded(cfg, c, feed, topic, false)) in Sends(cfg, b, e).second {
      var k, n :| k in b.subs && k.client == c && n in b.notes && n.1 != c && n.0 == k.feed
                  && Send(n.1, Forwarded(cfg, c, k.feed, k.topic, false))
                       == Send(to, Forwarded(cfg, c, feed, topic, false));
      assert k == Key(feed, topic, c) && n == (feed, to);
    }
  }

  /** A second close or fault of a client changes no store and sends nothing. */
  lemma EndingTwiceIsEndingOnce(cfg: Config, b: Broker, e: Event, e': Event, c: Guid)
    requires Ends(e, c) && Ends(e', c)
    ensures After(cfg, After(cfg, b, e), e') == After(cfg, b, e)
    ensures Sends(cfg, After(cfg, b, e), e') == Addressed({}, {})
  {
    var b' := After(cfg, b, e);
    assert Ended(b', c).subs == b'.subs;
    assert StaleTopics(b'.pubs, c) == {};
  }

  /** The event makes the stores mention a client that they do not mention: it is the client's own, and
      connects it, subscribes it under an authorization that it was given before, asks for notifications, or
      publishes to a subscriber. */
  predicate Revives(cfg: Config, b: Broker, e: Event, c: Guid) {
    && e.client == c
    && match e
       case Connected(_) => true
       case Received(_, SubscriptionRequest(feed, topic, isAdd)) =>
         isAdd && cfg.hasRole(c, feed, Subscribe) && Key(feed, topic, c) in b.auths
       case Received(_, NotificationRequest(_, isAdd)) => isAdd
       case Received(_, MulticastData(feed, topic, _, _)) => cfg.hasRole(c, feed, Publish)
           && Subscribers(b, feed, topic) != {}
       case Received(_, UnicastData(client, feed, topic, _, _)) => cfg.hasRole(c, feed, Publish)
           && Key(feed, topic, client) in b.subs
       case _ => false
  }

  lemma AddedIsMentioned(b: Broker, k: Key, info: Info, isUpdate: bool, c: Guid)
    requires !Mentions(b, c)
    ensures Mentions(b.(subs := WithSubscription(b.subs, k, info, isUpdate)), c) <==> k.client == c
  {
    assert k in WithSubscription(b.subs, k, info, isUpdate);
  }

  lemma AcceptMentionsNobody(b: Broker, k: Key, info: Info, c: Guid)
    requires !Mentions(b, c)
    ensures !Mentions(Accept(b, k, info), c)
  {
    hide WithSubscription;
    AddedIsMentioned(b, k, info, true, c);
  }

  lemma SubscribingMentions(cfg: Config, b: Broker, k: Key, c: Guid)
    requires !Mentions(b, c)
    ensures Mentions(Subscribed(cfg, b, k), c) <==> k.client == c && k in b.auths
  {
    hide Accept, WithSubscription;
    if k in b.auths {
      AddedIsMentioned(b, k, b.auths[k], false, c);
    } else {
      AcceptMentionsNobody(b, k, Granted(false, None), c);
    }
  }

  lemma PublishingMentions(b: Broker, p: Guid, t: FeedTopic, c: Guid)
    requires !Mentions(b, c)
    ensures Mentions(b.(pubs := b.pubs + {(p, t)}), c) <==> p == c
  {
    assert (p, t) in b.pubs + {(p, t)};
  }

  lemma NotifyingMentions(b: Broker, n: Guid, feed: Text, isAdd: bool, c: Guid)
    requires !Mentions(b, c)
    ensures var notes := if isAdd then b.notes + {(feed, n)} else b.notes - {(feed, n)};
            Mentions(b.(notes := notes), c) <==> isAdd && n == c
  {
    assert (feed, n) in b.notes + {(feed, n)};
  }

  lemma UnsubscribingMentionsNobody(b: Broker, k: Key, c: Guid)
    requires !Mentions(b, c)
    ensures !Mentions(b.(subs := WithoutSubscription(b.subs, k, false)), c)
  {
  }

  lemma MessageMentionsExactlyWhen(cfg: Config, b: Broker, p: Guid, m: Msg, c: Guid)
    requires !Mentions(b, c)
    ensures Mentions(AfterMessage(cfg, b, p, m), c) <==> Revives(cfg, b, Received(p, m), c)
  {
    hide Mentions, Accept, Subscribed, WithoutSubscription;
    match m
    case AuthorizationResponse(client, feed, topic, required, entitlements) =>
      AcceptMentionsNobody(b, Key(feed, topic, client), Granted(required, entitlements), c);
    case SubscriptionRequest(feed, topic, isAdd) =>
      SubscribingMentions(cfg, b, Key(feed, topic, p), c);
      UnsubscribingMentionsNobody(b, Key(feed, topic, p), c);
    case NotificationRequest(feed, isAdd) =>
      NotifyingMentions(b, p, feed, isAdd, c);
    case MulticastData(feed, topic, _, _) =>
      PublishingMentions(b, p, FeedTopic(feed, topic), c);
    case UnicastData(_, feed, topic, _, _) =>
      PublishingMentions(b, p, FeedTopic(feed, topic), c);
    case _ =>
  }

  lemma MentionedAgainExactlyWhen(cfg: Config, b: Broker, e: Event, c: Guid)
    requires !Mentions(b, c)
    ensures Mentions(After(cfg, b, e), c) <==> Revives(cfg, b, e, c)
  {
    if e.Received? {
      hide AfterMessage, Mentions;
      MessageMentionsExactlyWhen(cfg, b, e.client, e.message, c);
    }
  }

  ghost predicate RevivedBy(cfg: Config, es: seq<Event>, c: Guid, j: nat)
    requires j < |es|
  {
    Revives(cfg, State(cfg, es[..j]), es[j], c)
  }

  /** No state after the event mentions the client. */
  ghost predicate Forgotten(cfg: Config, es: seq<Event>, c: Guid, i: nat) {
    forall k :: i < k <= |es| ==> !MentionedAt(cfg, es, c, k)
  }

  ghost predicate MentionedAt(cfg: Config, es: seq<Event>, c: Guid, k: nat)
    requires k <= |es|
  {
    Mentions(State(cfg, es[..k]), c)
  }

  ghost predicate NeverRevived(cfg: Config, es: seq<Event>, c: Guid, i: nat) {
    forall j :: i < j < |es| ==> !RevivedBy(cfg, es, c, j)
  }

  lemma PrefixesAgree(cfg: Config, es: seq<Event>, c: Guid, n: nat, k: nat)
    requires k <= n <= |es|
    ensures MentionedAt(cfg, es[..n], c, k) <==> MentionedAt(cfg, es, c, k)
    ensures k < n ==> (RevivedBy(cfg, es[..n], c, k) <==> RevivedBy(cfg, es, c, k))
  {
    assert es[..n][..k] == es[..k];
  }

  lemma ForgottenSoFar(cfg: Config, es: seq<Event>, c: Guid, i: nat)
    requires i < |es| - 1
    ensures var n := |es| - 1;
            && (Forgotten(cfg, es, c, i) <==> Forgotten(cfg, es[..n], c, i) && !MentionedAt(cfg, es, c, n + 1))
            && (NeverRevived(cfg, es, c, i) <==> NeverRevived(cfg, es[..n], c, i) && !RevivedBy(cfg, es, c, n))
  {
    hide MentionedAt, RevivedBy;
    var n := |es| - 1;
    forall k | 0 <= k <= n ensures MentionedAt(cfg, es[..n], c, k) <==> MentionedAt(cfg, es, c, k) {
      PrefixesAgree(cfg, es, c, n, k);
    }
    forall k | 0 <= k < n ensures RevivedBy(cfg, es[..n], c, k) <==> RevivedBy(cfg, es, c, k) {
      PrefixesAgree(cfg, es, c, n, k);
    }
  }

  /** A client that has ended is mentioned in no later state exactly when none of the later events revives
      it. */
  lemma {:induction false} StaysForgottenExactlyWhen(cfg: Config, es: seq<Event>, c: Guid, i: nat)
    requires i < |es| && Ends(es[i], c)
    ensures Forgotten(cfg, es, c, i) <==> NeverRevived(cfg, es, c, i)
    decreases |es|
  {
    hide Mentions, Revives, After;
    var n := |es| - 1;
    var b := State(cfg, es[..n]);
    assert es[..n + 1] == es;
    if i == n {
      EndForgetsTheClient(cfg, b, es[n], c);
    } else {
      hide Forgotten, NeverRevived;
      StaysForgottenExactlyWhen(cfg, es[..n], c, i);
      ForgottenSoFar(cfg, es, c, i);
      if Forgotten(cfg, es[..n], c, i) {
        LastIsForgotten(cfg, es[..n], c, i);
        MentionedAgainExactlyWhen(cfg, b, es[n], c);
      }
    }
  }

  lemma LastIsForgotten(cfg: Config, es: seq<Event>, c: Guid, i: nat)
    requires i < |es| && Forgotten(cfg, es, c, i)
    ensures !Mentions(State(cfg, es), c)
  {
    assert es[..|es|] == es && !MentionedAt(cfg, es, c, |es|);
  }

  /** In particular, a client of which no event comes any more stays forgotten. */
  lemma EndedClientsStayForgotten(cfg: Config, es: seq<Event>, c: Guid, i: nat)
    requires i < |es| && Ends(es[i], c) && forall j :: i < j < |es| ==> es[j].client != c
    ensures !Mentions(State(cfg, es), c)
  {
    StaysForgottenExactlyWhen(cfg, es, c, i);
    LastIsForgotten(cfg, es, c, i);
  }

  // ----- Counting -----

  function Unsubscription(k: Key): Event {
    Received(k.client, SubscriptionRequest(k.feed, k.topic, false))
  }

  /** The state after a number of unsubscriptions in a row. */
  function Unsubscribed(cfg: Config, b: Broker, k: Key, n: nat): Broker
    decreases n
  {
    if n == 0 then b else Unsubscribed(cfg, After(cfg, b, Unsubscription(k)), k, n - 1)
  }

  /** A number of unsubscriptions removes a subscription exactly when its count is positive and no larger; a
      subscription whose count is zero or less survives all of them. */
  lemma {:induction false} UnsubscribedExactlyWhen(cfg: Config, b: Broker, k: Key, n: nat)
    requires cfg.hasRole(k.client, k.feed, Subscribe) && k in b.subs
    ensures k !in Unsubscribed(cfg, b, k, n).subs <==> 1 <= b.subs[k].count <= n
    decreases n
  {
    if n > 0 {
      var b' := After(cfg, b, Unsubscription(k));
      if k in b'.subs {
        UnsubscribedExactlyWhen(cfg, b', k, n - 1);
      } else {
        StaysUnsubscribed(cfg, b', k, n - 1);
      }
    }
  }

  lemma {:induction false} StaysUnsubscribed(cfg: Config, b: Broker, k: Key, n: nat)
    requires k !in b.subs
    ensures k !in Unsubscribed(cfg, b, k, n).subs
    decreases n
  {
    if n > 0 { StaysUnsubscribed(cfg, After(cfg, b, Unsubscription(k)), k, n - 1); }
  }

  /** A subscription that comes into being with an authorization, as every first one does, has count zero, so
      that no number of unsubscriptions removes it, whether or not authorization is required. */
  lemma FirstSubscriptionIsNeverRemoved(cfg: Config, b: Broker, e: Event, k: Key, info: Info, n: nat)
    requires Accepted(cfg, b, e) == Some(Grant(k, info)) && !Refused(info) && k !in b.subs
    requires cfg.hasRole(k.client, k.feed, Subscribe)
    ensures var b' := After(cfg, b, e);
            k in b'.subs && b'.subs[k] == SubState(0, info) && k in Unsubscribed(cfg, b', k, n).subs
  {
    UnsubscribedExactlyWhen(cfg, After(cfg, b, e), k, n);
  }
}
