/** The broker's managers over its stores (core/src/JetBlack.MessageBus.Distributor: Server.cs,
    Interactors/InteractorManager.cs, Subscribers/SubscriptionManager.cs, Publishers/PublisherManager.cs,
    Notifiers/NotificationManager.cs). Every handler does to the stores what the step function of `Broker`
    does to the flat state, and sends what it addresses. The events that the managers raise for one another
    are direct calls here, in the order in which the handlers are registered. */
module Servers {
  import opened Options
  import opened Messages
  import opened Broker
  import opened Roles
  import opened Interactors
  import opened Subscriptions
  import opened Notifications
  import opened TwoWaySets
  import opened Sequences
  import opened Sets
  import Safety

  /** The calls of `SendMessage`, in order. */
  class Outbox {
    var sent: seq<Send>

    constructor ()
      ensures sent == []
    {
      sent := [];
    }

    method Add(to: Guid, message: Msg)
      modifies this
      ensures sent == old(sent) + [Send(to, message)]
    {
      sent := sent + [Send(to, message)];
    }

    /** Sends one message to each of the clients, in any order. */
    method AddAll(targets: set<Guid>, message: Msg) returns (ghost out: seq<Send>)
      modifies this
      ensures sent == old(sent) + out && Lists(out, ToAll(targets, message))
    {
      out := [];
      var rest := targets;
      while rest != {}
        invariant rest <= targets && sent == old(sent) + out
        invariant Lists(out, ToAll(targets - rest, message))
        decreases |rest|
      {
        var target :| target in rest;
        Add(target, message);
        OneMore(out, targets - rest, target, message);
        OneTaken(targets, rest, target);
        out := out + [Send(target, message)];
        rest := rest - {target};
      }
      AllTaken(targets, rest);
    }
  }

  ghost function ToAll(targets: set<Guid>, message: Msg): set<Send> {
    set t | t in targets :: Send(t, message)
  }

  lemma OneMore(out: seq<Send>, done: set<Guid>, target: Guid, message: Msg)
    requires Lists(out, ToAll(done, message)) && target !in done
    ensures Lists(out + [Send(target, message)], ToAll(done + {target}, message))
  {
    assert Send(target, message) !in ToAll(done, message);
  }

  lemma ListsOne(x: Send)
    ensures Lists([x], {x})
  {
  }

  lemma ListsNone()
    ensures Lists<Send>([], {})
  {
  }

  lemma ListsConcat(a: seq<Send>, x: set<Send>, b: seq<Send>, y: set<Send>)
    requires Lists(a, x) && Lists(b, y) && x !! y
    ensures Lists(a + b, x + y)
  {
    forall i, j | 0 <= i < j < |a + b| ensures (a + b)[i] != (a + b)[j] {
      if i < |a| <= j { assert a[i] in x && b[j - |a|] in y; }
    }
  }

  // ----- What ties the objects to the flat state -----

  /** The configuration says of the client what its role manager says. */
  ghost predicate Described(cfg: Config, i: Interactor) {
    && (forall f, r :: cfg.hasRole(i.id, f, r) == i.roleManager.May(f, r))
    && cfg.feeds(i.id) == i.roleManager.feedPermissions.Keys
    && cfg.user(i.id) == i.roleManager.EffectiveUser() && cfg.host(i.id) == i.roleManager.EffectiveHost()
  }

  /** The clients that events have come from. */
  ghost predicate Clients(cfg: Config, known: set<Interactor>)
    reads set i | i in known :: i.roleManager
  {
    (forall i :: i in known ==> i.roleManager.Valid() && Described(cfg, i)) && DistinctIds(known)
  }

  ghost function GivenTo(known: set<Interactor>): map<Interactor, map<FeedTopic, Info>>
    reads known
  {
    map i | i in known :: i.Given()
  }

  lemma GivenHas(known: set<Interactor>)
    ensures GivenTo(known).Keys == known && forall i :: i in known ==> GivenTo(known)[i] == i.Given()
  {
  }

  lemma GivenIs(known: set<Interactor>, given: map<Interactor, map<FeedTopic, Info>>)
    requires given.Keys == known && forall i :: i in known ==> given[i] == i.Given()
    ensures GivenTo(known) == given
  {
  }

  /** The authorizations of the flat state are those that the clients hold. */
  ghost predicate Authorized(given: map<Interactor, map<FeedTopic, Info>>, auths: map<Key, Info>) {
    && (forall i, t :: i in given && t in given[i] ==>
          Key(t.feed, t.topic, i.id) in auths && auths[Key(t.feed, t.topic, i.id)] == given[i][t])
    && (forall k :: k in auths ==> exists i :: i in given && i.id == k.client && FeedTopic(k.feed, k.topic) in given[i])
  }

  ghost predicate DistinctIds(known: set<Interactor>) {
    forall i, j :: i in known && j in known && i.id == j.id ==> i == j
  }

  lemma NothingMoreAuthorized(given: map<Interactor, map<FeedTopic, Info>>, auths: map<Key, Info>, i: Interactor)
    requires Authorized(given, auths) && i !in given
    ensures Authorized(given[i := map[]], auths)
  {
  }

  lemma OneMoreClient(cfg: Config, known: set<Interactor>, clients: map<Guid, Interactor>, i: Interactor)
    requires Clients(cfg, known) && Directory(clients, known) && i.id !in clients
    requires i.roleManager.Valid() && Described(cfg, i)
    ensures Clients(cfg, known + {i}) && Directory(clients[i.id := i], known + {i})
  {
    hide Described, RoleManager.Valid;
    assert forall j :: j in known ==> j.id in clients;
  }

  lemma NothingAuthorized(i: Interactor)
    ensures Authorized(map[i := map[]], map[])
  {
  }

  lemma NothingGiven(i: Interactor)
    requires i.authorizations == map[]
    ensures i.Given() == map[]
  {
  }

  lemma ClientIsDescribed(cfg: Config, known: set<Interactor>, i: Interactor)
    requires Clients(cfg, known) && i in known
    ensures Described(cfg, i) && DistinctIds(known)
  {
  }

  lemma OneClient(cfg: Config, i: Interactor)
    requires i.roleManager.Valid() && Described(cfg, i)
    ensures Clients(cfg, {i})
  {
  }

  lemma AuthorizedLookup(given: map<Interactor, map<FeedTopic, Info>>, auths: map<Key, Info>, i: Interactor, feed: Text,
                         topic: Text)
    requires Authorized(given, auths) && DistinctIds(given.Keys) && i in given
    ensures Key(feed, topic, i.id) in auths <==> FeedTopic(feed, topic) in given[i]
    ensures FeedTopic(feed, topic) in given[i] ==> auths[Key(feed, topic, i.id)] == given[i][FeedTopic(feed, topic)]
  {
    var t := FeedTopic(feed, topic);
    assert t in given[i] ==> Key(t.feed, t.topic, i.id) in auths;
  }

  lemma AuthorizedAfterSet(given: map<Interactor, map<FeedTopic, Info>>, auths: map<Key, Info>, i: Interactor,
                           feed: Text, topic: Text, info: Info)
    requires Authorized(given, auths) && DistinctIds(given.Keys) && i in given
    ensures Authorized(given[i := given[i][FeedTopic(feed, topic) := info]], auths[Key(feed, topic, i.id) := info])
  {
    var given', auths' := given[i := given[i][FeedTopic(feed, topic) := info]], auths[Key(feed, topic, i.id) := info];
    forall k | k in auths'
      ensures exists j :: j in given' && j.id == k.client && FeedTopic(k.feed, k.topic) in given'[j]
    {
      if k == Key(feed, topic, i.id) {
        assert FeedTopic(k.feed, k.topic) in given'[i];
      } else {
        var j :| j in given && j.id == k.client && FeedTopic(k.feed, k.topic) in given[j];
        assert FeedTopic(k.feed, k.topic) in given'[j];
      }
    }
  }

  /** The clients by id. */
  ghost predicate Directory(clients: map<Guid, Interactor>, known: set<Interactor>) {
    && (forall c :: c in clients ==> clients[c].id == c && clients[c] in known)
    && (forall i :: i in known ==> i.id in clients && clients[i.id] == i)
  }

  ghost predicate SubscribersKnown(subs: map<Key, SubState>, clients: map<Guid, Interactor>) {
    forall k :: k in subs ==> k.client in clients
  }

  lemma SubscribersStayKnown(subs: map<Key, SubState>, k: Key, info: Info, flag: bool, clients: map<Guid, Interactor>)
    requires SubscribersKnown(subs, clients) && k.client in clients
    ensures SubscribersKnown(WithSubscription(subs, k, info, flag), clients)
    ensures SubscribersKnown(WithoutSubscription(subs, k, flag), clients)
  {
  }

  lemma SubscribersStayFewer(subs: map<Key, SubState>, k: Key, clients: map<Guid, Interactor>)
    requires SubscribersKnown(subs, clients)
    ensures SubscribersKnown(WithoutSubscription(subs, k, true), clients)
  {
  }

  lemma SwappedGrows<A, B>(pairs: set<(A, B)>, a: A, b: B)
    ensures Swapped(pairs + {(a, b)}) == Swapped(pairs) + {(b, a)}
  {
  }

  lemma ForwardedToAll(cfg: Config, notes: set<(Text, Guid)>, subscriber: Guid, feed: Text, topic: Text, isAdd: bool)
    ensures ToAll(Notifiables(notes, feed), Forwarded(cfg, subscriber, feed, topic, isAdd))
            == ForwardSends(cfg, notes, subscriber, feed, topic, isAdd)
    ensures Notifiables(notes, feed) == {} ==> ForwardSends(cfg, notes, subscriber, feed, topic, isAdd) == {}
  {
  }

  /** The messages of a multicast to some of its subscribers. */
  ghost function MulticastTo(cfg: Config, publisher: Guid, feed: Text, topic: Text, contentType: Text,
                             packets: Packets<set<int>>,
                             subscribers: map<Guid, Info>, done: set<Guid>): set<Send> {
    set s | s in done && s in subscribers ::
      Send(s, ForwardedMulticastData(cfg.user(publisher), cfg.host(publisher), feed, topic, contentType,
                                     AuthorizedData(packets, subscribers[s])))
  }

  lemma OneMoreMulticast(cfg: Config, publisher: Guid, feed: Text, topic: Text, contentType: Text,
                         packets: Packets<set<int>>,
                         subscribers: map<Guid, Info>, done: set<Guid>, s: Guid, out: seq<Send>)
    requires s in subscribers && s !in done
    requires Lists(out, MulticastTo(cfg, publisher, feed, topic, contentType, packets, subscribers, done))
    ensures var m := ForwardedMulticastData(cfg.user(publisher), cfg.host(publisher), feed, topic, contentType,
                                            AuthorizedData(packets, subscribers[s]));
            Lists(out + [Send(s, m)], MulticastTo(cfg, publisher, feed, topic, contentType, packets, subscribers,
                                                  done + {s}))
  {
    hide AuthorizedData;
    var m := ForwardedMulticastData(cfg.user(publisher), cfg.host(publisher), feed, topic, contentType,
                                    AuthorizedData(packets, subscribers[s]));
    assert Send(s, m) !in out;
  }

  lemma MulticastToNobody(cfg: Config, publisher: Guid, feed: Text, topic: Text, contentType: Text,
                          packets: Packets<set<int>>,
                          subscribers: map<Guid, Info>)
    ensures MulticastTo(cfg, publisher, feed, topic, contentType, packets, subscribers, {}) == {}
  {
  }

  lemma MulticastToAll(cfg: Config, b: Broker, publisher: Guid, feed: Text, topic: Text, contentType: Text,
                       packets: Packets<set<int>>,
                       subscribers: map<Guid, Info>)
    requires forall c: Guid :: c in subscribers <==> Key(feed, topic, c) in b.subs
    requires forall c: Guid :: c in subscribers ==> subscribers[c] == b.subs[Key(feed, topic, c)].info
    ensures MulticastTo(cfg, publisher, feed, topic, contentType, packets, subscribers, subscribers.Keys)
            == MulticastSends(cfg, b, publisher, feed, topic, contentType, packets)
    ensures subscribers.Keys == Subscribers(b, feed, topic)
  {
    hide AuthorizedData;
    forall k | k in b.subs && k.feed == feed && k.topic == topic
      ensures k == Key(feed, topic, k.client) && k.client in subscribers
    {
    }
  }

  /** What a client that asks to be notified is told about some subscribers of a topic, and about some
      topics of a feed. */
  ghost function TopicSends(cfg: Config, c: Guid, feed: Text, topic: Text, done: set<Guid>): set<Send> {
    set s | s in done :: Send(c, Forwarded(cfg, s, feed, topic, true))
  }

  ghost function FeedSends(cfg: Config, c: Guid, feed: Text, topics: map<Text, set<Guid>>, done: set<Text>): set<Send> {
    set t, s | t in done && t in topics && s in topics[t] :: Send(c, Forwarded(cfg, s, feed, t, true))
  }

  ghost predicate SubscribersOfTopic(subs: map<Key, SubState>, feed: Text, topic: Text, subscribers: set<Guid>) {
    forall s :: s in subscribers ==> Key(feed, topic, s) in subs
  }

  ghost predicate TopicsOf(subs: map<Key, SubState>, feed: Text, topics: map<Text, set<Guid>>) {
    forall t :: t in topics ==> SubscribersOfTopic(subs, feed, t, topics[t])
  }

  lemma NoTopics(cfg: Config, c: Guid, feed: Text, topics: map<Text, set<Guid>>)
    ensures FeedSends(cfg, c, feed, topics, {}) == {}
  {
  }

  lemma NoSubscribers(cfg: Config, c: Guid, feed: Text, topic: Text)
    ensures TopicSends(cfg, c, feed, topic, {}) == {}
  {
  }

  lemma OneMoreSubscriber(cfg: Config, c: Guid, feed: Text, topic: Text, done: set<Guid>, s: Guid, out: seq<Send>)
    requires Lists(out, TopicSends(cfg, c, feed, topic, done)) && s !in done
    ensures Lists(out + [Send(c, Forwarded(cfg, s, feed, topic, true))], TopicSends(cfg, c, feed, topic, done + {s}))
  {
    assert Send(c, Forwarded(cfg, s, feed, topic, true)) !in TopicSends(cfg, c, feed, topic, done);
  }

  lemma OneMoreTopic(cfg: Config, c: Guid, feed: Text, topics: map<Text, set<Guid>>, done: set<Text>, t: Text,
                     out: seq<Send>, more: seq<Send>)
    requires Lists(out, FeedSends(cfg, c, feed, topics, done)) && t in topics && t !in done
    requires Lists(more, TopicSends(cfg, c, feed, t, topics[t]))
    ensures Lists(out + more, FeedSends(cfg, c, feed, topics, done + {t}))
  {
    ListsConcat(out, FeedSends(cfg, c, feed, topics, done), more, TopicSends(cfg, c, feed, t, topics[t]));
    assert FeedSends(cfg, c, feed, topics, done + {t})
        == FeedSends(cfg, c, feed, topics, done) + TopicSends(cfg, c, feed, t, topics[t]);
  }

  /** Told about all topics of the feed, a client has been told what the step function says. */
  lemma AllTopicsAreTold(cfg: Config, b: Broker, c: Guid, feed: Text, topics: map<Text, set<Guid>>)
    requires forall t, s: Guid :: t in topics && s in topics[t] <==> Key(feed, t, s) in b.subs
    requires (feed, c) !in b.notes
    ensures FeedSends(cfg, c, feed, topics, topics.Keys) == MessageSends(cfg, b, c, NotificationRequest(feed, true))
  {
    forall k | k in b.subs && k.feed == feed ensures k.topic in topics && k.client in topics[k.topic] {
      assert Key(feed, k.topic, k.client) == k;
    }
  }

  // ----- Closing a client -----

  /** The messages about some stale topics. */
  ghost function StaleSends(subs: map<Key, SubState>, done: set<FeedTopic>): set<Send> {
    set k | k in subs && FeedTopic(k.feed, k.topic) in done :: Send(k.client, NoData(k.feed, k.topic))
  }

  lemma OneMoreStale(b: Broker, done: set<FeedTopic>, t: FeedTopic, subscribers: set<Guid>, out: seq<Send>,
                     more: seq<Send>)
    requires Lists(out, StaleSends(b.subs, done)) && t !in done
            && (forall c: Guid :: c in subscribers <==> Key(t.feed, t.topic, c) in b.subs)
    requires Lists(more, ToAll(subscribers, NoData(t.feed, t.topic)))
    ensures Lists(out + more, StaleSends(b.subs, done + {t}))
  {
    var told := ToAll(subscribers, NoData(t.feed, t.topic));
    ListsConcat(out, StaleSends(b.subs, done), more, told);
    forall k | k in b.subs && FeedTopic(k.feed, k.topic) == t ensures k.client in subscribers {
      assert k == Key(t.feed, t.topic, k.client);
    }
    assert StaleSends(b.subs, done + {t}) == StaleSends(b.subs, done) + told;
  }

  /** The messages about the end of a client's subscriptions to some topics. */
  ghost function UnsubscribedSends(cfg: Config, notes: set<(Text, Guid)>, c: Guid, done: set<FeedTopic>): set<Send> {
    set t, n | t in done && n in notes && n.0 == t.feed :: Send(n.1, Forwarded(cfg, c, t.feed, t.topic, false))
  }

  lemma OneMoreUnsubscribed(cfg: Config, notes: set<(Text, Guid)>, c: Guid, done: set<FeedTopic>, t: FeedTopic,
                            out: seq<Send>, more: seq<Send>)
    requires Lists(out, UnsubscribedSends(cfg, notes, c, done)) && t !in done
    requires Lists(more, ForwardSends(cfg, notes, c, t.feed, t.topic, false))
    ensures Lists(out + more, UnsubscribedSends(cfg, notes, c, done + {t}))
  {
    var told := ForwardSends(cfg, notes, c, t.feed, t.topic, false);
    ListsConcat(out, UnsubscribedSends(cfg, notes, c, done), more, told);
    assert UnsubscribedSends(cfg, notes, c, done + {t}) == UnsubscribedSends(cfg, notes, c, done) + told;
  }

  lemma NothingToTell(b: Broker, cfg: Config, c: Guid)
    ensures StaleSends(b.subs, {}) == {} && UnsubscribedSends(cfg, b.notes, c, {}) == {}
  {
  }

  /** What remains of the subscriptions when a client has left some topics. */
  ghost function WithoutTopics(subs: map<Key, SubState>, c: Guid, done: set<FeedTopic>): map<Key, SubState> {
    map k | k in subs && !(k.client == c && FeedTopic(k.feed, k.topic) in done) :: subs[k]
  }

  lemma OneLessTopic(subs: map<Key, SubState>, c: Guid, done: set<FeedTopic>, t: FeedTopic,
                     clients: map<Guid, Interactor>)
    ensures WithoutSubscription(WithoutTopics(subs, c, done), Key(t.feed, t.topic, c), true)
            == WithoutTopics(subs, c, done + {t})
    ensures WithoutTopics(subs, c, {}) == subs
    ensures SubscribersKnown(subs, clients) ==> SubscribersKnown(WithoutTopics(subs, c, done), clients)
  {
  }

  /** Leaving the stores one after the other is what the step function says. */
  lemma LeftIsEnded(cfg: Config, b: Broker, b': Broker, c: Guid, topics: set<FeedTopic>)
    requires forall f, t :: FeedTopic(f, t) in topics <==> Key(f, t, c) in b.subs
    requires b'.live == b.live - {c} && b'.subs == WithoutTopics(b.subs, c, topics) && b'.auths == b.auths
    requires b'.notes == (set n | n in b.notes && n.1 != c) && b'.pubs == (set p | p in b.pubs && p.0 != c)
    ensures b' == Ended(b, c)
    ensures StaleSends(b.subs, StaleTopics(b.pubs, c)) == EndedSends(cfg, b, c).first
    ensures UnsubscribedSends(cfg, b'.notes, c, topics) == EndedSends(cfg, b, c).second
  {
    assert b'.subs == Ended(b, c).subs by {
      assert forall k :: k in b.subs && k.client == c ==> k == Key(k.feed, k.topic, c);
    }
    forall x ensures x in UnsubscribedSends(cfg, b'.notes, c, topics) <==> x in EndedSends(cfg, b, c).second {
      if x in UnsubscribedSends(cfg, b'.notes, c, topics) {
        var t, n :| t in topics && n in b'.notes && n.0 == t.feed
            && x == Send(n.1, Forwarded(cfg, c, t.feed, t.topic, false));
        assert FeedTopic(t.feed, t.topic) in topics && Key(t.feed, t.topic, c) in b.subs;
      }
      if x in EndedSends(cfg, b, c).second {
        var k, n :| k in b.subs && k.client == c && n in b.notes && n.1 != c && n.0 == k.feed
            && x == Send(n.1, Forwarded(cfg, c, k.feed, k.topic, false));
        assert k == Key(k.feed, k.topic, c);
        assert FeedTopic(k.feed, k.topic) in topics;
      }
    }
  }

  lemma OrphansAreStale(b: Broker, c: Guid)
    ensures Orphans(b.pubs, c) == StaleTopics(b.pubs, c)
    ensures (forall p :: p in b.pubs ==> p.0 != c) ==> StaleTopics(b.pubs, c) == {}
  {
  }

  lemma SwappedShrinks(pairs: set<(FeedTopic, Guid)>, pairs': set<(FeedTopic, Guid)>, pubs': set<(Guid, FeedTopic)>,
                       c: Guid)
    requires pairs' == (set p | p in pairs && p.1 != c) && pubs' == (set p | p in Swapped(pairs) && p.0 != c)
    ensures pubs' == Swapped(pairs')
    ensures (exists p :: p in pairs && p.1 == c) <==> (exists p :: p in Swapped(pairs) && p.0 == c)
  {
    forall p | p in pairs && p.1 == c ensures (p.1, p.0) in Swapped(pairs) {
    }
    forall p | p in pubs' ensures p in Swapped(pairs') {
      assert (p.1, p.0) in pairs';
    }
  }

  /** An event with the object that it is about. */
  datatype InteractorEvent =
    | InteractorConnected(interactor: Interactor)
    | InteractorError(interactor: Interactor, error: Failure)
    | InteractorClosed(interactor: Interactor)
    | InteractorMessage(interactor: Interactor, message: Msg)

  function EventOf(e: InteractorEvent): Event {
    match e
    case InteractorConnected(i) => Connected(i.id)
    case InteractorError(i, error) => Errored(i.id, error)
    case InteractorClosed(i) => Closed(i.id)
    case InteractorMessage(i, m) => Received(i.id, m)
  }

  predicate IsCloseException(error: Failure) {
    error.EndOfStream? || error.ConnectionReset?
  }

  lemma EmitsBoth(a: Addressed, first: seq<Send>, second: seq<Send>)
    requires Lists(first, a.first) && Lists(second, a.second)
    ensures Emits(a, first + second)
  {
    assert (first + second)[..|first|] == first && (first + second)[|first|..] == second;
  }

  class Server {
    const isAuthorizationRequired: bool
    const interactors: InteractorRepository
    const subscriptions: SubscriptionRepository
    const publishers: TwoWaySet<FeedTopic, Guid>
    const notifications: NotificationRepository
    const outbox: Outbox
    var clients: map<Guid, Interactor>  // the stores hold ids where the program holds references
    ghost const cfg: Config
    ghost var known: set<Interactor>
    ghost var broker: Broker

    ghost predicate Stores()
      reads this, interactors, subscriptions, publishers, notifications
    {
      && interactors.Valid() && subscriptions.Valid() && publishers.Valid() && notifications.Valid()
      && broker.live == interactors.interactors.Keys && broker.subs == subscriptions.Contents()
      && broker.notes == notifications.Notes() && broker.pubs == Swapped(publishers.Pairs())
    }

    ghost predicate Valid()
      reads this, interactors, subscriptions, publishers, notifications, known, set i | i in known :: i.roleManager
    {
      && cfg.isAuthorizationRequired == isAuthorizationRequired
      && Stores() && Clients(cfg, known) && Authorized(GivenTo(known), broker.auths)
      && interactors.interactors.Values <= known
      && Directory(clients, known) && SubscribersKnown(broker.subs, clients)
    }

    /** Some dictionary of the stores, be it an index, has an entry of the client. */
    ghost predicate Names(c: Guid)
      reads interactors, subscriptions, publishers, notifications
    {
      || c in interactors.interactors || (exists f, r :: Listed(interactors.feedRoleInteractors, f, r, c))
      || (exists k :: Holds(subscriptions.cache, k) && k.client == c)
      || (exists f :: f in notifications.feedToNotifiables && c in notifications.feedToNotifiables[f])
      || (exists t :: t in publishers.firstToSeconds && c in publishers.firstToSeconds[t])
      || c in publishers.secondToFirsts
    }

    /** The dictionaries have entries of exactly those clients that the flat state mentions. */
    lemma NamedExactlyWhenMentioned(c: Guid)
      requires Valid()
      ensures Names(c) <==> Safety.Mentions(broker, c)
    {
      hide Clients, Authorized, Directory, SubscribersKnown, Holds, Flat;
      forall k ensures k in broker.subs <==> Holds(subscriptions.cache, k) {
        FlatHas(subscriptions.cache, k);
      }
      PublishersAreNamed(c);
      NotifiablesAreNamed(c);
      hide Inverse, NotesOf, PairsOf, Swapped;
      assert interactors.Valid();
    }

    lemma PublishersAreNamed(c: Guid)
      requires Valid()
      ensures c in publishers.secondToFirsts <==> exists t ::
              t in publishers.firstToSeconds && c in publishers.firstToSeconds[t]
      ensures c in publishers.secondToFirsts <==> exists p :: p in broker.pubs && p.0 == c
    {
      hide Clients, Authorized, Directory, SubscribersKnown, SubscriptionRepository.Valid, InteractorRepository.Valid;
      if c in publishers.secondToFirsts {
        var t :| t in publishers.secondToFirsts[c];
        assert (t, c) in publishers.Pairs() && (c, t) in broker.pubs;
      }
      if p :| p in broker.pubs && p.0 == c {
        var q :| q in publishers.Pairs() && p == (q.1, q.0);
        assert q.0 in publishers.firstToSeconds && c in publishers.firstToSeconds[q.0];
      }
    }

    lemma NotifiablesAreNamed(c: Guid)
      requires Valid()
      ensures (exists f :: f in notifications.feedToNotifiables && c in notifications.feedToNotifiables[f])
              <==> exists n :: n in broker.notes && n.1 == c
    {
      hide Clients, Authorized, Directory, SubscribersKnown, SubscriptionRepository.Valid, InteractorRepository.Valid;
      if f :| f in notifications.feedToNotifiables && c in notifications.feedToNotifiables[f] {
        assert (f, c) in broker.notes;
      }
    }

    constructor (isAuthorizationRequired: bool, heartbeat: Interactor, ghost cfg: Config)
      requires cfg.isAuthorizationRequired == isAuthorizationRequired
      requires heartbeat.roleManager.Valid() && Described(cfg, heartbeat) && heartbeat.authorizations == map[]
      ensures Valid() && broker == INITIAL && known == {heartbeat} && this.cfg == cfg && outbox.sent == []
      ensures fresh(interactors) && fresh(subscriptions) && fresh(publishers) && fresh(notifications) && fresh(outbox)
    {
      hide Server.Valid, Server.Stores, Described, GivenTo, GivenBy, Authorized, Clients, RoleManager.Valid;
      hide InteractorRepository.Valid, SubscriptionRepository.Valid, TwoWaySet.Valid, NotificationRepository.Valid;
      hide SubscriptionRepository.Contents, TwoWaySet.Pairs, NotificationRepository.Notes;
      this.isAuthorizationRequired := isAuthorizationRequired;
      interactors := new InteractorRepository();
      subscriptions := new SubscriptionRepository();
      publishers := new TwoWaySet();
      notifications := new NotificationRepository();
      outbox := new Outbox();
      this.cfg, known, broker := cfg, {heartbeat}, INITIAL;
      clients := map[heartbeat.id := heartbeat];
      new;
      EmptyIsValid(heartbeat);
    }

    lemma EmptyIsValid(heartbeat: Interactor)
      requires cfg.isAuthorizationRequired == isAuthorizationRequired
      requires heartbeat.roleManager.Valid() && Described(cfg, heartbeat) && heartbeat.authorizations == map[]
      requires interactors.Valid() && subscriptions.Valid() && publishers.Valid() && notifications.Valid()
      requires interactors.interactors == map[] && subscriptions.Contents() == map[]
      requires publishers.Pairs() == {} && notifications.Notes() == {}
      requires known == {heartbeat} && clients == map[heartbeat.id := heartbeat] && broker == INITIAL
      ensures Valid()
    {
      hide Described, GivenTo, GivenBy, Authorized, Clients, RoleManager.Valid;
      hide InteractorRepository.Valid, SubscriptionRepository.Valid, TwoWaySet.Valid, NotificationRepository.Valid;
      hide SubscriptionRepository.Contents, TwoWaySet.Pairs, NotificationRepository.Notes;
      NothingGiven(heartbeat);
      GivenIs({heartbeat}, map[heartbeat := map[]]);
      NothingAuthorized(heartbeat);
      OneClient(cfg, heartbeat);
    }

    // ----- Notifications -----

    /** Tells those who watch the feed. */
    method ForwardSubscription(subscriber: Interactor, feed: Text, topic: Text, isAdd: bool)
      returns (ghost out: seq<Send>)
      requires Valid() && subscriber in known
      modifies outbox
      ensures Valid() && outbox.sent == old(outbox.sent) + out
      ensures Lists(out, ForwardSends(cfg, broker.notes, subscriber.id, feed, topic, isAdd))
    {
      hide Clients, Authorized, GivenTo, GivenBy, Directory, SubscribersKnown, Lists, Decides;
      hide InteractorRepository.Valid, SubscriptionRepository.Valid, TwoWaySet.Valid, NotificationRepository.Valid;
      hide SubscriptionRepository.Contents, TwoWaySet.Pairs, NotificationRepository.Notes;
      out := [];
      ListsNone();
      ClientIsDescribed(cfg, known, subscriber);
      ForwardedToAll(cfg, broker.notes, subscriber.id, feed, topic, isAdd);
      var notifiables := notifications.FindNotifiables(feed);
      if notifiables.Some? {
        assert notifiables.value == Notifiables(broker.notes, feed);
        out := outbox.AddAll(notifiables.value,
          ForwardedSubscriptionRequest(subscriber.roleManager.EffectiveUser(), subscriber.roleManager.EffectiveHost(),
                                       subscriber.id, feed, topic, isAdd));
      } else {
        assert Notifiables(broker.notes, feed) == {};
      }
    }

    /** Whether a client has a role; the answer may come from a cache. */
    method HasRole(interactor: Interactor, feed: Text, role: Role) returns (hasRole: bool)
      requires Valid() && interactor in known
      modifies interactor.roleManager`feedDecision
      ensures Valid() && hasRole == cfg.hasRole(interactor.id, feed, role)
    {
      hide Authorized, GivenTo, GivenBy, Directory, SubscribersKnown, Stores, Decides;
      hasRole := interactor.roleManager.HasRole(feed, role);
    }

    // ----- Subscriptions and authorizations -----

    method AddSubscription(requester: Interactor, feed: Text, topic: Text, info: Info, isAuthorizationUpdate: bool)
      returns (ghost out: seq<Send>)
      requires Valid() && requester in known
      modifies subscriptions, outbox, this`broker
      ensures Valid() && outbox.sent == old(outbox.sent) + out
      ensures broker == old(broker).(subs := WithSubscription(old(broker.subs), Key(feed, topic, requester.id), info,
                                                              isAuthorizationUpdate))
      ensures Lists(out, ForwardSends(cfg, broker.notes, requester.id, feed, topic, true))
    {
      hide Clients, Authorized, GivenTo, GivenBy, SubscribersKnown, Lists, WithSubscription, ForwardSends;
      hide InteractorRepository.Valid, SubscriptionRepository.Valid, TwoWaySet.Valid, NotificationRepository.Valid;
      hide SubscriptionRepository.Contents, TwoWaySet.Pairs, NotificationRepository.Notes;
      SubscribersStayKnown(broker.subs, Key(feed, topic, requester.id), info, isAuthorizationUpdate, clients);
      subscriptions.AddSubscription(requester.id, feed, topic, info, isAuthorizationUpdate);
      broker := broker.(subs := WithSubscription(broker.subs, Key(feed, topic, requester.id), info,
                                                 isAuthorizationUpdate));
      out := ForwardSubscription(requester, feed, topic, true);
    }

    /** What follows when an authorization has been accepted for a live client. */
    method OnAuthorizationResponse(requester: Interactor, feed: Text, topic: Text, response: Response)
      returns (ghost out: seq<Send>)
      requires Valid() && requester in known
      modifies subscriptions, outbox, this`broker
      ensures Valid() && outbox.sent == old(outbox.sent) + out
      ensures var k, info := Key(feed, topic, requester.id),
              Granted(response.isAuthorizationRequired, response.entitlements);
              if Refused(info) then broker == old(broker) && Lists(out, {Send(requester.id, NoData(feed, topic))})
              else
                && broker == old(broker).(subs := WithSubscription(old(broker.subs), k, info, true))
                && Lists(out, ForwardSends(cfg, broker.notes, requester.id, feed, topic, true))
    {
      hide Clients, Authorized, GivenTo, GivenBy, Directory, SubscribersKnown, Lists, WithSubscription, ForwardSends;
      hide InteractorRepository.Valid, SubscriptionRepository.Valid, TwoWaySet.Valid, NotificationRepository.Valid;
      hide SubscriptionRepository.Contents, TwoWaySet.Pairs, NotificationRepository.Notes;
      ListsOne(Send(requester.id, NoData(feed, topic)));
      if response.isAuthorizationRequired && (response.entitlements.None? || response.entitlements.value == {}) {
        outbox.Add(requester.id, ForwardedMulticastData("", "", feed, topic, "", None));
        out := [Send(requester.id, NoData(feed, topic))];
        return;
      }
      out := AddSubscription(requester, feed, topic, Granted(response.isAuthorizationRequired, response.entitlements),
                             true);
    }

    /** Records an authorization of a known client. */
    method SetAuthorization(requester: Interactor, feed: Text, topic: Text, response: Response)
      requires Valid() && requester in known
      modifies requester`authorizations, this`broker
      ensures Valid()
      ensures var info := Granted(response.isAuthorizationRequired, response.entitlements);
              broker == old(broker).(auths := old(broker.auths)[Key(feed, topic, requester.id) := info])
    {
      hide Clients, Authorized, GivenTo, GivenBy, Directory, SubscribersKnown, Lists, Described, Decides;
      hide InteractorRepository.Valid, SubscriptionRepository.Valid, TwoWaySet.Valid, NotificationRepository.Valid;
      hide SubscriptionRepository.Contents, TwoWaySet.Pairs, NotificationRepository.Notes;
      ghost var given := GivenTo(known);
      GivenHas(known);
      ghost var info := Granted(response.isAuthorizationRequired, response.entitlements);
      ClientIsDescribed(cfg, known, requester);
      AuthorizedAfterSet(given, broker.auths, requester, feed, topic, info);
      requester.SetAuthorization(feed, topic, response);
      broker := broker.(auths := broker.auths[Key(feed, topic, requester.id) := info]);
      GivenIs(known, given[requester := given[requester][FeedTopic(feed, topic) := info]]);
    }

    method AcceptAuthorization(clientId: Guid, feed: Text, topic: Text, response: Response)
      returns (ghost out: seq<Send>)
      requires Valid()
      modifies subscriptions, outbox, this`broker, known`authorizations
      ensures Valid() && outbox.sent == old(outbox.sent) + out
      ensures var k, info := Key(feed, topic, clientId),
              Granted(response.isAuthorizationRequired, response.entitlements);
              broker == Accept(old(broker), k, info) && Lists(out, AcceptSends(cfg, old(broker), k, info))
    {
      hide Clients, Authorized, GivenTo, GivenBy, Directory, SubscribersKnown, Lists, Decides, WithSubscription,
           ForwardSends;
      hide InteractorRepository.Valid, SubscriptionRepository.Valid, TwoWaySet.Valid, NotificationRepository.Valid;
      hide SubscriptionRepository.Contents, TwoWaySet.Pairs, NotificationRepository.Notes;
      out := [];
      ListsNone();
      GivenHas(known);
      var requestor := interactors.FindInteractor(clientId);
      if requestor.None? {
        return;
      }
      assert requestor.value in interactors.interactors.Values;
      ClientIsDescribed(cfg, known, requestor.value);
      AuthorizedLookup(GivenTo(known), broker.auths, requestor.value, feed, feed);
      var hasAuthorization := requestor.value.HasAuthorization(feed, topic);
      if !hasAuthorization {
        SetAuthorization(requestor.value, feed, topic, response);
      }
      out := OnAuthorizationResponse(requestor.value, feed, topic, response);
    }

    /** Asks those who may authorize on the feed, or accepts at once where no authorization is required. */
    method RequestAuthorization(interactor: Interactor, feed: Text, topic: Text) returns (ghost out: seq<Send>)
      requires Valid() && interactor in known && Key(feed, topic, interactor.id) !in broker.auths
      modifies subscriptions, outbox, this`broker, known`authorizations
      ensures Valid() && outbox.sent == old(outbox.sent) + out
      ensures var k := Key(feed, topic, interactor.id);
              broker == Subscribed(cfg, old(broker), k) && Lists(out, SubscribedSends(cfg, old(broker), k))
    {
      hide Authorized, GivenTo, GivenBy, Lists, Accept, AcceptSends;
      hide SubscriptionRepository.Valid, TwoWaySet.Valid, NotificationRepository.Valid;
      hide SubscriptionRepository.Contents, TwoWaySet.Pairs, NotificationRepository.Notes;
      if !isAuthorizationRequired {
        out := AcceptAuthorization(interactor.id, feed, topic, Response(false, None));
        return;
      }
      var authorizers := interactors.Find(feed, Authorize);
      assert authorizers == Authorizers(cfg, broker, feed);
      out := outbox.AddAll(authorizers,
        AuthorizationRequest(interactor.id, interactor.roleManager.EffectiveHost(),
                             interactor.roleManager.EffectiveUser(), feed, topic));
    }

    method RemoveSubscription(subscriber: Interactor, feed: Text, topic: Text) returns (ghost out: seq<Send>)
      requires Valid() && subscriber in known
      modifies subscriptions, outbox, this`broker
      ensures Valid() && outbox.sent == old(outbox.sent) + out
      ensures broker == old(broker).(subs := WithoutSubscription(old(broker.subs), Key(feed, topic, subscriber.id),
                                                                 false))
      ensures Lists(out, ForwardSends(cfg, broker.notes, subscriber.id, feed, topic, false))
    {
      hide Clients, Authorized, GivenTo, GivenBy, SubscribersKnown, Lists, WithoutSubscription, ForwardSends;
      hide InteractorRepository.Valid, SubscriptionRepository.Valid, TwoWaySet.Valid, NotificationRepository.Valid;
      hide SubscriptionRepository.Contents, TwoWaySet.Pairs, NotificationRepository.Notes;
      SubscribersStayKnown(broker.subs, Key(feed, topic, subscriber.id), Info(false, {}), false, clients);
      subscriptions.RemoveSubscription(subscriber.id, feed, topic, false);
      broker := broker.(subs := WithoutSubscription(broker.subs, Key(feed, topic, subscriber.id), false));
      out := ForwardSubscription(subscriber, feed, topic, false);
    }

    method RequestSubscription(subscriber: Interactor, feed: Text, topic: Text, isAdd: bool)
      returns (ghost out: seq<Send>)
      requires Valid() && subscriber in known
      modifies subscriptions, outbox, this`broker, known`authorizations, subscriber.roleManager`feedDecision
      ensures Valid() && outbox.sent == old(outbox.sent) + out
      ensures var m := SubscriptionRequest(feed, topic, isAdd);
              && broker == AfterMessage(cfg, old(broker), subscriber.id, m)
              && Lists(out, MessageSends(cfg, old(broker), subscriber.id, m))
    {
      hide Clients, Authorized, GivenTo, GivenBy, Directory, SubscribersKnown, Lists, Accept, AcceptSends, ForwardSends,
           Decides, WithSubscription;
      hide InteractorRepository.Valid, SubscriptionRepository.Valid, TwoWaySet.Valid, NotificationRepository.Valid;
      hide SubscriptionRepository.Contents, TwoWaySet.Pairs, NotificationRepository.Notes;
      ClientIsDescribed(cfg, known, subscriber);
      out := [];
      ListsNone();
      GivenHas(known);
      var hasRole := HasRole(subscriber, feed, Subscribe);
      if !hasRole {
        return;
      }
      AuthorizedLookup(GivenTo(known), broker.auths, subscriber, feed, topic);
      if isAdd {
        var authorization := subscriber.TryGetAuthorization(feed, topic);
        if authorization.Some? {
          out := AddSubscription(subscriber, feed, topic,
                                 Granted(authorization.value.isAuthorizationRequired, authorization.value.entitlements),
                                 false);
        } else {
          out := RequestAuthorization(subscriber, feed, topic);
        }
      } else {
        out := RemoveSubscription(subscriber, feed, topic);
      }
    }

    // ----- Publishing -----

    method AddPublisher(publisher: Interactor, feed: Text, topic: Text)
      requires Valid() && publisher in known
      modifies publishers, this`broker
      ensures Valid() && broker == old(broker).(pubs := old(broker.pubs) + {(publisher.id, FeedTopic(feed, topic))})
    {
      hide Clients, Authorized, GivenTo, GivenBy, Directory, SubscribersKnown, Lists, Swapped;
      hide InteractorRepository.Valid, SubscriptionRepository.Valid, TwoWaySet.Valid, NotificationRepository.Valid;
      hide SubscriptionRepository.Contents, TwoWaySet.Pairs, NotificationRepository.Notes;
      SwappedGrows(publishers.Pairs(), FeedTopic(feed, topic), publisher.id);
      publishers.Add(FeedTopic(feed, topic), publisher.id);
      broker := broker.(pubs := broker.pubs + {(publisher.id, FeedTopic(feed, topic))});
    }

    method SendUnicastData(publisher: Interactor, clientId: Guid, feed: Text, topic: Text, contentType: Text,
                           packets: Packets<set<int>>)
      returns (ghost out: seq<Send>)
      requires Valid() && publisher in known
      modifies publishers, outbox, this`broker, publisher.roleManager`feedDecision
      ensures Valid() && outbox.sent == old(outbox.sent) + out
      ensures var m := UnicastData(clientId, feed, topic, contentType, packets);
              && broker == AfterMessage(cfg, old(broker), publisher.id, m)
              && Lists(out, MessageSends(cfg, old(broker), publisher.id, m))
    {
      hide Clients, Authorized, GivenTo, GivenBy, Directory, SubscribersKnown, Lists, Decides, AuthorizedData;
      hide InteractorRepository.Valid, SubscriptionRepository.Valid, TwoWaySet.Valid, NotificationRepository.Valid;
      hide SubscriptionRepository.Contents, TwoWaySet.Pairs, NotificationRepository.Notes;
      ClientIsDescribed(cfg, known, publisher);
      out := [];
      ListsNone();
      var subscribers := subscriptions.GetSubscribersToFeedAndTopic(feed, topic);
      if clientId !in subscribers {
        return;
      }
      var hasRole := HasRole(publisher, feed, Publish);
      if !hasRole {
        return;
      }
      var clientUnicastData := ForwardedUnicastData(publisher.roleManager.EffectiveUser(),
                                                    publisher.roleManager.EffectiveHost(),
        clientId, feed, topic, contentType, AuthorizedData(packets, subscribers[clientId]));
      AddPublisher(publisher, feed, topic);
      outbox.Add(clientId, clientUnicastData);
      out := [Send(clientId, clientUnicastData)];
      ListsOne(Send(clientId, clientUnicastData));
    }

    method SendMulticastData(publisher: Interactor, feed: Text, topic: Text, contentType: Text,
                             packets: Packets<set<int>>)
      returns (ghost out: seq<Send>)
      requires Valid() && publisher in known
      modifies publishers, outbox, this`broker, publisher.roleManager`feedDecision
      ensures Valid() && outbox.sent == old(outbox.sent) + out
      ensures var m := MulticastData(feed, topic, contentType, packets);
              && broker == AfterMessage(cfg, old(broker), publisher.id, m)
              && Lists(out, MessageSends(cfg, old(broker), publisher.id, m))
    {
      hide Clients, Authorized, GivenTo, GivenBy, Directory, SubscribersKnown, Lists, Decides, AuthorizedData,
           MulticastTo, MulticastSends, Subscribers;
      hide InteractorRepository.Valid, SubscriptionRepository.Valid, TwoWaySet.Valid, NotificationRepository.Valid;
      hide SubscriptionRepository.Contents, TwoWaySet.Pairs, NotificationRepository.Notes;
      out := [];
      ListsNone();
      var subscribers := subscriptions.GetSubscribersToFeedAndTopic(feed, topic);
      var hasRole := HasRole(publisher, feed, Publish);
      if !hasRole {
        return;
      }
      MulticastToAll(cfg, broker, publisher.id, feed, topic, contentType, packets, subscribers);
      out := Multicast(publisher, feed, topic, contentType, packets, subscribers);
    }

    method MulticastOne(publisher: Interactor, feed: Text, topic: Text, contentType: Text, packets: Packets<set<int>>,
                        subscriber: Guid, info: Info)
      returns (ghost sent: Send)
      requires Valid() && publisher in known
      modifies publishers, outbox, this`broker
      ensures Valid() && outbox.sent == old(outbox.sent) + [sent]
      ensures broker == old(broker).(pubs := old(broker.pubs) + {(publisher.id, FeedTopic(feed, topic))})
      ensures sent == Send(subscriber, ForwardedMulticastData(cfg.user(publisher.id), cfg.host(publisher.id), feed,
                                                              topic, contentType,
                                                              AuthorizedData(packets, info)))
    {
      hide Clients, Authorized, GivenTo, GivenBy, Directory, SubscribersKnown, Stores, AuthorizedData;
      ClientIsDescribed(cfg, known, publisher);
      var message := ForwardedMulticastData(publisher.roleManager.EffectiveUser(),
                                            publisher.roleManager.EffectiveHost(),
        feed, topic, contentType, AuthorizedData(packets, info));
      AddPublisher(publisher, feed, topic);
      outbox.Add(subscriber, message);
      sent := Send(subscriber, message);
    }

    /** Sends each of the subscribers what it is entitled to. */
    method Multicast(publisher: Interactor, feed: Text, topic: Text, contentType: Text, packets: Packets<set<int>>,
                     subscribers: map<Guid, Info>)
      returns (ghost out: seq<Send>)
      requires Valid() && publisher in known
      modifies publishers, outbox, this`broker
      ensures Valid() && outbox.sent == old(outbox.sent) + out
      ensures broker == if subscribers.Keys == {} then old(broker)
                        else old(broker).(pubs := old(broker.pubs) + {(publisher.id, FeedTopic(feed, topic))})
      ensures Lists(out, MulticastTo(cfg, publisher.id, feed, topic, contentType, packets, subscribers,
                                     subscribers.Keys))
    {
      hide Server.Valid, Lists, AuthorizedData, MulticastTo;
      out := [];
      ListsNone();
      MulticastToNobody(cfg, publisher.id, feed, topic, contentType, packets, subscribers);
      ghost var sent0, before := outbox.sent, broker;
      ghost var after := before.(pubs := before.pubs + {(publisher.id, FeedTopic(feed, topic))});
      var rest := subscribers.Keys;
      NoneTaken(subscribers.Keys);
      while rest != {}
        invariant Valid() && rest <= subscribers.Keys && outbox.sent == sent0 + out
        invariant broker == if rest == subscribers.Keys then before else after
        invariant Lists(out, MulticastTo(cfg, publisher.id, feed, topic, contentType, packets, subscribers,
                                         subscribers.Keys - rest))
        decreases |rest|
      {
        var subscriber :| subscriber in rest;
        OneMoreMulticast(cfg, publisher.id, feed, topic, contentType, packets, subscribers, subscribers.Keys - rest,
                         subscriber, out);
        ghost var sent := MulticastOne(publisher, feed, topic, contentType, packets, subscriber,
                                       subscribers[subscriber]);
        Grouped(sent0, out, [sent]);
        out := out + [sent];
        OneTaken(subscribers.Keys, rest, subscriber);
        rest := rest - {subscriber};
      }
      AllTaken(subscribers.Keys, rest);
    }

    // ----- Notification requests -----

    method RequestNotification(notifiable: Interactor, feed: Text, isAdd: bool) returns (ghost out: seq<Send>)
      requires Valid() && notifiable in known
      modifies notifications, outbox, this`broker
      ensures Valid() && outbox.sent == old(outbox.sent) + out
      ensures var m := NotificationRequest(feed, isAdd);
              && broker == AfterMessage(cfg, old(broker), notifiable.id, m)
              && Lists(out, MessageSends(cfg, old(broker), notifiable.id, m))
    {
      hide Clients, Authorized, GivenTo, GivenBy, Directory, SubscribersKnown, Lists, FeedSends;
      hide InteractorRepository.Valid, SubscriptionRepository.Valid, TwoWaySet.Valid, NotificationRepository.Valid;
      hide SubscriptionRepository.Contents, TwoWaySet.Pairs, NotificationRepository.Notes;
      out := [];
      ListsNone();
      if isAdd {
        ghost var before := broker;
        var isNew := notifications.AddRequest(notifiable.id, feed);
        broker := broker.(notes := broker.notes + {(feed, notifiable.id)});
        if isNew {
          var topics := subscriptions.GetSubscribersToFeed(feed);
          AllTopicsAreTold(cfg, before, notifiable.id, feed, topics);
          out := OnNewNotificationRequest(notifiable, feed, topics);
        }
      } else {
        notifications.RemoveRequest(notifiable.id, feed);
        broker := broker.(notes := broker.notes - {(feed, notifiable.id)});
      }
    }

    /** Tells the notifiable about the subscribers of all topics. */
    method OnNewNotificationRequest(notifiable: Interactor, feed: Text, topics: map<Text, set<Guid>>)
      returns (ghost out: seq<Send>)
      requires Valid() && TopicsOf(broker.subs, feed, topics)
      modifies outbox
      ensures outbox.sent == old(outbox.sent) + out
      ensures Lists(out, FeedSends(cfg, notifiable.id, feed, topics, topics.Keys))
    {
      hide Server.Valid, Lists, FeedSends, TopicSends, SubscribersOfTopic;
      out := [];
      ListsNone();
      NoTopics(cfg, notifiable.id, feed, topics);
      ghost var sent0 := outbox.sent;
      var all := topics.Keys;
      var rest := all;
      NoneTaken(all);
      while rest != {}
        invariant Valid() && rest <= all && outbox.sent == sent0 + out
        invariant Lists(out, FeedSends(cfg, notifiable.id, feed, topics, all - rest))
        decreases |rest|
      {
        var topic :| topic in rest;
        ghost var more := TellAboutTopic(notifiable, feed, topic, topics[topic]);
        OneMoreTopic(cfg, notifiable.id, feed, topics, all - rest, topic, out, more);
        Grouped(sent0, out, more);
        out := out + more;
        OneTaken(all, rest, topic);
        rest := rest - {topic};
      }
      AllTaken(all, rest);
    }

    method TellAboutTopic(notifiable: Interactor, feed: Text, topic: Text, subscribers: set<Guid>)
      returns (ghost out: seq<Send>)
      requires Valid() && SubscribersOfTopic(broker.subs, feed, topic, subscribers)
      modifies outbox
      ensures Valid() && outbox.sent == old(outbox.sent) + out
      ensures Lists(out, TopicSends(cfg, notifiable.id, feed, topic, subscribers))
    {
      hide Server.Valid, Lists, TopicSends, Forwarded;
      out := [];
      ListsNone();
      NoSubscribers(cfg, notifiable.id, feed, topic);
      ghost var sent0 := outbox.sent;
      var rest := subscribers;
      NoneTaken(subscribers);
      while rest != {}
        invariant Valid() && rest <= subscribers && outbox.sent == sent0 + out
        invariant Lists(out, TopicSends(cfg, notifiable.id, feed, topic, subscribers - rest))
        decreases |rest|
      {
        var s :| s in rest;
        OneMoreSubscriber(cfg, notifiable.id, feed, topic, subscribers - rest, s, out);
        ghost var sent := TellAboutSubscriber(notifiable, feed, topic, s);
        Grouped(sent0, out, [sent]);
        out := out + [sent];
        OneTaken(subscribers, rest, s);
        rest := rest - {s};
      }
      AllTaken(subscribers, rest);
    }

    method TellAboutSubscriber(notifiable: Interactor, feed: Text, topic: Text, s: Guid) returns (ghost sent: Send)
      requires Valid() && Key(feed, topic, s) in broker.subs
      modifies outbox
      ensures Valid() && outbox.sent == old(outbox.sent) + [sent]
      ensures sent == Send(notifiable.id, Forwarded(cfg, s, feed, topic, true))
    {
      hide Server.Valid;
      SubscriberIsDescribed(Key(feed, topic, s));
      var subscriber := clients[s];
      var message := ForwardedSubscriptionRequest(subscriber.roleManager.EffectiveUser(),
                                                  subscriber.roleManager.EffectiveHost(), s, feed, topic, true);
      sent := Send(notifiable.id, message);
      outbox.Add(notifiable.id, message);
    }

    lemma SubscriberIsDescribed(k: Key)
      requires Valid() && k in broker.subs
      ensures k.client in clients && clients[k.client] in known
      ensures cfg.user(k.client) == clients[k.client].roleManager.EffectiveUser()
      ensures cfg.host(k.client) == clients[k.client].roleManager.EffectiveHost()
    {
      ClientIsDescribed(cfg, known, clients[k.client]);
    }

    // ----- Closing -----

    /** The client leaves the store of live clients, and then every other store in the order in which their
        managers were registered. */
    method LeaveStores(interactor: Interactor) returns (ghost stale: seq<Send>, ghost unsubscribed: seq<Send>)
      requires Valid() && interactor in known
      modifies interactors, notifications, publishers, subscriptions, outbox, this`broker
      ensures Valid() && broker == Ended(old(broker), interactor.id) && !Names(interactor.id)
      ensures outbox.sent == old(outbox.sent) + stale + unsubscribed
      ensures Lists(stale, EndedSends(cfg, old(broker), interactor.id).first)
      ensures Lists(unsubscribed, EndedSends(cfg, old(broker), interactor.id).second)
    {
      hide Server.Valid, Server.Names, Lists, Ended, EndedSends, StaleTopics, StaleSends, UnsubscribedSends,
           WithoutTopics;
      ghost var before := broker;
      RemoveInteractor(interactor);
      RemoveNotifications(interactor);
      stale := ClosePublisher(interactor);
      ghost var topics;
      unsubscribed, topics := CloseSubscriptions(interactor);
      LeftIsEnded(cfg, before, broker, interactor.id, topics);
      assert !Names(interactor.id) by { EndedIsNotNamed(before, interactor.id); }
    }

    lemma EndedIsNotNamed(before: Broker, c: Guid)
      requires Valid() && broker == Ended(before, c)
      ensures !Names(c)
    {
      hide Server.Valid, Server.Names;
      NamedExactlyWhenMentioned(c);
    }

    method RemoveInteractor(interactor: Interactor)
      requires Valid()
      modifies interactors, this`broker
      ensures Valid() && broker == old(broker).(live := old(broker.live) - {interactor.id})
    {
      hide Clients, Authorized, GivenTo, GivenBy, Directory, SubscribersKnown;
      hide SubscriptionRepository.Valid, TwoWaySet.Valid, NotificationRepository.Valid, InteractorRepository.Valid;
      hide SubscriptionRepository.Contents, TwoWaySet.Pairs, NotificationRepository.Notes;
      ghost var was := interactors.interactors;
      var wasThere := interactors.Remove(interactor);
      broker := broker.(live := broker.live - {interactor.id});
      assert interactors.interactors.Values <= was.Values;
    }

    method RemoveNotifications(interactor: Interactor)
      requires Valid()
      modifies notifications, this`broker
      ensures Valid() && broker == old(broker).(notes := set n | n in old(broker.notes) && n.1 != interactor.id)
    {
      hide Clients, Authorized, GivenTo, GivenBy, Directory, SubscribersKnown;
      hide SubscriptionRepository.Valid, TwoWaySet.Valid, NotificationRepository.Valid, InteractorRepository.Valid;
      hide SubscriptionRepository.Contents, TwoWaySet.Pairs, NotificationRepository.Notes;
      notifications.RemoveInteractor(interactor.id);
      broker := broker.(notes := set n | n in broker.notes && n.1 != interactor.id);
    }

    /** The topics that are left without a publisher are announced to their subscribers. */
    method ClosePublisher(interactor: Interactor) returns (ghost out: seq<Send>)
      requires Valid()
      modifies publishers, outbox, this`broker
      ensures Valid() && outbox.sent == old(outbox.sent) + out
      ensures broker == old(broker).(pubs := set p | p in old(broker.pubs) && p.0 != interactor.id)
      ensures Lists(out, StaleSends(old(broker.subs), StaleTopics(old(broker.pubs), interactor.id)))
    {
      hide Clients, Authorized, GivenTo, GivenBy, Directory, SubscribersKnown, Lists, StaleSends, StaleTopics, Orphans,
           Swapped;
      hide SubscriptionRepository.Valid, TwoWaySet.Valid, NotificationRepository.Valid, InteractorRepository.Valid;
      hide SubscriptionRepository.Contents, TwoWaySet.Pairs, NotificationRepository.Notes;
      ghost var before := broker;
      OrphansAreStale(before, interactor.id);
      ghost var pairs := publishers.Pairs();
      NothingToTell(before, cfg, interactor.id);
      var topicsWithoutPublishers := publishers.RemoveSecond(interactor.id);
      broker := broker.(pubs := set p | p in broker.pubs && p.0 != interactor.id);
      SwappedShrinks(pairs, publishers.Pairs(), broker.pubs, interactor.id);
      out := [];
      ListsNone();
      if topicsWithoutPublishers.Some? {
        out := OnStalePublishers(topicsWithoutPublishers.value);
      }
    }

    method OnStalePublishers(feedsAndTopics: set<FeedTopic>) returns (ghost out: seq<Send>)
      requires Valid()
      modifies outbox
      ensures Valid() && outbox.sent == old(outbox.sent) + out && Lists(out, StaleSends(broker.subs, feedsAndTopics))
    {
      hide Server.Valid, Lists, StaleSends;
      out := [];
      ListsNone();
      NothingToTell(broker, cfg, seq(16, _ => 0));
      ghost var sent0 := outbox.sent;
      var rest := feedsAndTopics;
      NoneTaken(feedsAndTopics);
      while rest != {}
        invariant Valid() && rest <= feedsAndTopics && outbox.sent == sent0 + out
        invariant Lists(out, StaleSends(broker.subs, feedsAndTopics - rest))
        decreases |rest|
      {
        var t :| t in rest;
        ghost var subscribers, more := OnStaleTopic(t);
        OneMoreStale(broker, feedsAndTopics - rest, t, subscribers, out, more);
        Grouped(sent0, out, more);
        out := out + more;
        OneTaken(feedsAndTopics, rest, t);
        rest := rest - {t};
      }
      AllTaken(feedsAndTopics, rest);
    }

    method OnStaleTopic(t: FeedTopic) returns (ghost targets: set<Guid>, ghost out: seq<Send>)
      requires Valid()
      modifies outbox
      ensures Valid() && outbox.sent == old(outbox.sent) + out
      ensures forall c: Guid :: c in targets <==> Key(t.feed, t.topic, c) in broker.subs
      ensures Lists(out, ToAll(targets, NoData(t.feed, t.topic)))
    {
      hide Clients, Authorized, GivenTo, GivenBy, Directory, SubscribersKnown, Lists, ToAll;
      hide SubscriptionRepository.Valid, TwoWaySet.Valid, NotificationRepository.Valid, InteractorRepository.Valid;
      hide SubscriptionRepository.Contents, TwoWaySet.Pairs, NotificationRepository.Notes;
      var subscribers := subscriptions.GetSubscribersToFeedAndTopic(t.feed, t.topic);
      targets := subscribers.Keys;
      out := outbox.AddAll(subscribers.Keys, ForwardedMulticastData("", "", t.feed, t.topic, "", None));
    }

    /** All subscriptions of the client are removed, and then those who watch are told about each. */
    method CloseSubscriptions(interactor: Interactor) returns (ghost out: seq<Send>, ghost topics: set<FeedTopic>)
      requires Valid() && interactor in known
      modifies subscriptions, outbox, this`broker
      ensures Valid() && outbox.sent == old(outbox.sent) + out
      ensures forall f, t :: FeedTopic(f, t) in topics <==> Key(f, t, interactor.id) in old(broker.subs)
      ensures broker == old(broker).(subs := WithoutTopics(old(broker.subs), interactor.id, topics))
      ensures Lists(out, UnsubscribedSends(cfg, broker.notes, interactor.id, topics))
    {
      hide Clients, Authorized, GivenTo, GivenBy, Directory, SubscribersKnown, Lists, UnsubscribedSends, WithoutTopics;
      hide SubscriptionRepository.Valid, TwoWaySet.Valid, NotificationRepository.Valid, InteractorRepository.Valid;
      hide SubscriptionRepository.Contents, TwoWaySet.Pairs, NotificationRepository.Notes;
      var feedTopics := subscriptions.FindByInteractor(interactor.id);
      topics := feedTopics;
      RemoveAllSubscriptions(interactor, feedTopics);
      out := ForwardEnds(interactor, feedTopics);
    }

    method RemoveAllSubscriptions(interactor: Interactor, feedTopics: set<FeedTopic>)
      requires Valid()
      modifies subscriptions, this`broker
      ensures Valid() && broker == old(broker).(subs := WithoutTopics(old(broker.subs), interactor.id, feedTopics))
    {
      hide Server.Valid, WithoutTopics;
      ghost var before := broker;
      var rest := feedTopics;
      NoneTaken(feedTopics);
      OneLessTopic(before.subs, interactor.id, {}, FeedTopic("", ""), clients);
      while rest != {}
        invariant Valid() && rest <= feedTopics
        invariant broker == before.(subs := WithoutTopics(before.subs, interactor.id, feedTopics - rest))
        decreases |rest|
      {
        var t :| t in rest;
        OneLessTopic(before.subs, interactor.id, feedTopics - rest, t, clients);
        RemoveWholeSubscription(interactor, t);
        OneTaken(feedTopics, rest, t);
        rest := rest - {t};
      }
      AllTaken(feedTopics, rest);
    }

    method RemoveWholeSubscription(interactor: Interactor, t: FeedTopic)
      requires Valid()
      modifies subscriptions, this`broker
      ensures Valid() && broker == old(broker).(subs := WithoutSubscription(old(broker.subs),
              Key(t.feed, t.topic, interactor.id), true))
    {
      hide Clients, Authorized, GivenTo, GivenBy, Directory, SubscribersKnown, WithoutSubscription;
      hide SubscriptionRepository.Valid, TwoWaySet.Valid, NotificationRepository.Valid, InteractorRepository.Valid;
      hide SubscriptionRepository.Contents, TwoWaySet.Pairs, NotificationRepository.Notes;
      SubscribersStayFewer(broker.subs, Key(t.feed, t.topic, interactor.id), clients);
      subscriptions.RemoveSubscription(interactor.id, t.feed, t.topic, true);
      broker := broker.(subs := WithoutSubscription(broker.subs, Key(t.feed, t.topic, interactor.id), true));
    }

    method ForwardEnds(interactor: Interactor, feedTopics: set<FeedTopic>) returns (ghost out: seq<Send>)
      requires Valid() && interactor in known
      modifies outbox
      ensures Valid() && outbox.sent == old(outbox.sent) + out
      ensures Lists(out, UnsubscribedSends(cfg, broker.notes, interactor.id, feedTopics))
    {
      hide Server.Valid, Lists, UnsubscribedSends, ForwardSends;
      out := [];
      ListsNone();
      NothingToTell(broker, cfg, interactor.id);
      ghost var sent0 := outbox.sent;
      var rest := feedTopics;
      NoneTaken(feedTopics);
      while rest != {}
        invariant Valid() && rest <= feedTopics && outbox.sent == sent0 + out
        invariant Lists(out, UnsubscribedSends(cfg, broker.notes, interactor.id, feedTopics - rest))
        decreases |rest|
      {
        var t :| t in rest;
        ghost var more := ForwardSubscription(interactor, t.feed, t.topic, false);
        OneMoreUnsubscribed(cfg, broker.notes, interactor.id, feedTopics - rest, t, out, more);
        Grouped(sent0, out, more);
        out := out + more;
        OneTaken(feedTopics, rest, t);
        rest := rest - {t};
      }
      AllTaken(feedTopics, rest);
    }

    // ----- Dispatch -----

    /** The new client is entered into the store of live clients, which asks for its roles. */
    method Enter(interactor: Interactor)
      requires Clients(cfg, known) && interactors.Valid() && interactor.id !in interactors.interactors
      requires interactor.roleManager.Valid() && Described(cfg, interactor)
      modifies interactors, interactor.roleManager`feedDecision
      ensures Clients(cfg, known) && interactors.Valid() && interactor.roleManager.Valid()
      ensures interactors.interactors == old(interactors.interactors)[interactor.id := interactor]
    {
      hide Described, RoleManager.Valid, InteractorRepository.Valid;
      interactors.Add(interactor);
    }

    /** A client that has not been seen before becomes live. */
    method AddInteractor(interactor: Interactor)
      requires Valid() && interactor.id !in clients && interactor.authorizations == map[]
      requires interactor.roleManager.Valid() && Described(cfg, interactor)
      modifies interactors, interactor.roleManager`feedDecision, this`known, this`clients, this`broker
      ensures Valid() && known == old(known) + {interactor} && clients == old(clients)[interactor.id := interactor]
      ensures broker == old(broker).(live := old(broker.live) + {interactor.id})
    {
      hide Authorized, GivenTo, GivenBy, Described, Clients, Directory, SubscribersKnown, RoleManager.Valid;
      hide SubscriptionRepository.Valid, TwoWaySet.Valid, NotificationRepository.Valid, InteractorRepository.Valid;
      hide SubscriptionRepository.Contents, TwoWaySet.Pairs, NotificationRepository.Notes;
      LiveAreKnown();
      NewClientIsGivenNothing(interactor);
      Enter(interactor);
      OneMoreClient(cfg, known, clients, interactor);
      known := known + {interactor};
      clients := clients[interactor.id := interactor];
      broker := broker.(live := broker.live + {interactor.id});
      assert Stores();
      assert interactors.interactors.Values <= known;
    }

    method OnMessage(sender: Interactor, message: Msg) returns (ghost out: seq<Send>)
      requires Valid() && sender in known
      modifies subscriptions, publishers, notifications, outbox, this`broker, known`authorizations,
          sender.roleManager`feedDecision
      ensures Valid() && outbox.sent == old(outbox.sent) + out
      ensures broker == AfterMessage(cfg, old(broker), sender.id, message)
      ensures Lists(out, MessageSends(cfg, old(broker), sender.id, message))
    {
      hide Server.Valid, Lists, Accept, AcceptSends, MulticastSends, Subscribers, AuthorizedData;
      out := [];
      ListsNone();
      match message
      case AuthorizationResponse(clientId, feed, topic, required, entitlements) =>
        out := AcceptAuthorization(clientId, feed, topic, Response(required, entitlements));
      case SubscriptionRequest(feed, topic, isAdd) =>
        out := RequestSubscription(sender, feed, topic, isAdd);
      case MulticastData(feed, topic, contentType, packets) =>
        out := SendMulticastData(sender, feed, topic, contentType, packets);
      case UnicastData(clientId, feed, topic, contentType, packets) =>
        out := SendUnicastData(sender, clientId, feed, topic, contentType, packets);
      case NotificationRequest(feed, isAdd) =>
        out := RequestNotification(sender, feed, isAdd);
      case _ =>
    }

    /** Handling an event is a step of the broker. */
    method OnInteractorEvent(e: InteractorEvent) returns (ghost out: seq<Send>)
      requires Valid()
      requires if e.InteractorConnected? then
                 && e.interactor.id !in clients && e.interactor.authorizations == map[]
                 && e.interactor.roleManager.Valid() && Described(cfg, e.interactor)
               else e.interactor in known
      modifies this`known, this`clients, this`broker, interactors, subscriptions, publishers, notifications, outbox
      modifies known`authorizations, e.interactor.roleManager`feedDecision
      ensures Valid() && outbox.sent == old(outbox.sent) + out
      ensures broker == After(cfg, old(broker), EventOf(e)) && Emits(Sends(cfg, old(broker), EventOf(e)), out)
      ensures known == old(known) + {e.interactor}
      ensures clients == if e.InteractorConnected? then old(clients)[e.interactor.id := e.interactor] else old(clients)
    {
      hide Server.Valid, Lists, Emits, Ended, EndedSends, AfterMessage, MessageSends, Described, RoleManager.Valid;
      out := [];
      ListsNone();
      match e
      case InteractorConnected(interactor) =>
        AddInteractor(interactor);
        EmitsBoth(NOWHERE, out, []);
      case InteractorMessage(interactor, message) =>
        ghost var before := broker;
        out := OnMessage(interactor, message);
        EmitsBoth(Sends(cfg, before, EventOf(e)), out, []);
        assert out + [] == out;
      case InteractorError(interactor, error) =>
        out := OnInteractorError(interactor, error);
      case InteractorClosed(interactor) =>
        out := CloseInteractor(interactor);
    }

    /** A close and a fault differ in what is logged. */
    method OnInteractorError(interactor: Interactor, error: Failure) returns (ghost out: seq<Send>)
      requires Valid() && interactor in known
      modifies interactors, notifications, publishers, subscriptions, outbox, this`broker
      ensures Valid() && outbox.sent == old(outbox.sent) + out
      ensures broker == Ended(old(broker), interactor.id) && Emits(EndedSends(cfg, old(broker), interactor.id), out)
      ensures !Names(interactor.id)
    {
      hide Server.Valid, Server.Names, Emits, Ended, EndedSends;
      if IsCloseException(error) {
        out := CloseInteractor(interactor);
      } else {
        out := FaultInteractor(interactor);
      }
    }

    method FaultInteractor(interactor: Interactor) returns (ghost out: seq<Send>)
      requires Valid() && interactor in known
      modifies interactors, notifications, publishers, subscriptions, outbox, this`broker
      ensures Valid() && outbox.sent == old(outbox.sent) + out
      ensures broker == Ended(old(broker), interactor.id) && Emits(EndedSends(cfg, old(broker), interactor.id), out)
      ensures !Names(interactor.id)
    {
      out := CloseInteractor(interactor);
    }

    method CloseInteractor(interactor: Interactor) returns (ghost out: seq<Send>)
      requires Valid() && interactor in known
      modifies interactors, notifications, publishers, subscriptions, outbox, this`broker
      ensures Valid() && outbox.sent == old(outbox.sent) + out
      ensures broker == Ended(old(broker), interactor.id) && Emits(EndedSends(cfg, old(broker), interactor.id), out)
      ensures !Names(interactor.id)
    {
      hide Server.Valid, Server.Names, Lists, Emits, Ended, EndedSends;
      ghost var before, sent0 := broker, outbox.sent;
      ghost var stale, unsubscribed := LeaveStores(interactor);
      EmitsBoth(EndedSends(cfg, before, interactor.id), stale, unsubscribed);
      Grouped(sent0, stale, unsubscribed);
      out := stale + unsubscribed;
    }

    lemma ClientsById()
      requires Valid()
      ensures Directory(clients, known)
    {
    }

    lemma LiveAreKnown()
      requires Valid()
      ensures forall c :: c in interactors.interactors ==> c in clients
    {
      forall c | c in interactors.interactors ensures c in clients {
        assert interactors.interactors[c] in interactors.interactors.Values;
        LiveHasItsId(c);
      }
    }

    lemma LiveHasItsId(c: Guid)
      requires Valid() && c in interactors.interactors
      ensures interactors.interactors[c].id == c
    {
    }

    lemma NewClientIsGivenNothing(i: Interactor)
      requires Valid() && i.authorizations == map[] && i.id !in clients
      ensures Authorized(GivenTo(known + {i}), broker.auths) && SubscribersKnown(broker.subs, clients[i.id := i])
      ensures i !in known
    {
      hide GivenBy, GivenTo, Authorized, Clients, Stores;
      NothingGiven(i);
      GivenHas(known);
      GivenIs(known + {i}, GivenTo(known)[i := map[]]);
      NothingMoreAuthorized(GivenTo(known), broker.auths, i);
    }
  }
}
