/** The broker as a state machine over flat stores: what one event does to the state and which messages it
    addresses to whom (core/src/JetBlack.MessageBus.Distributor). The classes of `Server` refine this
    machine; `Runs` puts it between the threads that feed and drain it. */
module Broker {
  import opened Options
  import opened Messages

  type Text = string

  type Msg = Message<Text, set<int>>

  datatype Role = Subscribe | Publish | Notify | Authorize

  /** A subscription: who is interested in which topic of which feed. */
  datatype Key = Key(feed: Text, topic: Text, client: Guid)

  datatype FeedTopic = FeedTopic(feed: Text, topic: Text)

  datatype Info = Info(isAuthorizationRequired: bool, entitlements: set<int>)

  datatype SubState = SubState(count: int, info: Info)

  /** What is fixed while the broker runs. */
  datatype Config = Config(
    isAuthorizationRequired: bool,
    hasRole: (Guid, Text, Role) -> bool,
    feeds: Guid -> set<Text>,
    user: Guid -> Text,
    host: Guid -> Text)

  /** The live clients, the subscriptions, who is to be notified of subscriptions to which feed, who
      published to which topic, and the authorizations that the clients have been given. */
  datatype Broker = Broker(
    live: set<Guid>,
    subs: map<Key, SubState>,
    notes: set<(Text, Guid)>,
    pubs: set<(Guid, FeedTopic)>,
    auths: map<Key, Info>)

  datatype Failure = EndOfStream | ConnectionReset | Other

  datatype Event =
    | Connected(client: Guid)
    | Errored(client: Guid, failure: Failure)
    | Closed(client: Guid)
    | Received(client: Guid, message: Msg)

  datatype Send = Send(to: Guid, message: Msg)

  /** The messages of one event. All of `first` are sent before those of `second`; within each set the
      order is that of a hash table and not specified. */
  datatype Addressed = Addressed(first: set<Send>, second: set<Send>)

  // ----- Queries -----

  function Subscribers(b: Broker, feed: Text, topic: Text): set<Guid> {
    set k | k in b.subs && k.feed == feed && k.topic == topic :: k.client
  }

  function Notifiables(notes: set<(Text, Guid)>, feed: Text): set<Guid> {
    set n | n in notes && n.0 == feed :: n.1
  }

  function Authorizers(cfg: Config, b: Broker, feed: Text): set<Guid> {
    set c | c in b.live && feed in cfg.feeds(c) && cfg.hasRole(c, feed, Authorize)
  }

  /** The topics whose last publisher the client is. */
  function StaleTopics(pubs: set<(Guid, FeedTopic)>, client: Guid): set<FeedTopic> {
    set p | p in pubs && p.0 == client && (forall q :: q in pubs && q.1 == p.1 ==> q.0 == client) :: p.1
  }

  predicate Entitled(entitlements: set<int>, p: Packet<set<int>>) {
    p.entitlements.Some? && p.entitlements.value <= entitlements
  }

  function EntitledPackets(entitlements: set<int>, ps: seq<Packet<set<int>>>): seq<Packet<set<int>>> {
    if ps == [] then []
    else (if Entitled(entitlements, ps[0]) then [ps[0]] else []) + EntitledPackets(entitlements, ps[1..])
  }

  function AuthorizedData(packets: Packets<set<int>>, info: Info): Packets<set<int>> {
    if info.isAuthorizationRequired && packets.Some? then Some(EntitledPackets(info.entitlements, packets.value))
        else packets
  }

  // ----- Messages -----

  const NOWHERE: Addressed := Addressed({}, {})

  /** The image with no data that tells a subscriber about a stale topic or a refused authorization. */
  function NoData(feed: Text, topic: Text): Msg {
    ForwardedMulticastData("", "", feed, topic, "", None)
  }

  function Forwarded(cfg: Config, subscriber: Guid, feed: Text, topic: Text, isAdd: bool): Msg {
    ForwardedSubscriptionRequest(cfg.user(subscriber), cfg.host(subscriber), subscriber, feed, topic, isAdd)
  }

  function ForwardSends(cfg: Config, notes: set<(Text, Guid)>, subscriber: Guid, feed: Text, topic: Text,
                        isAdd: bool): set<Send> {
    set n | n in Notifiables(notes, feed) :: Send(n, Forwarded(cfg, subscriber, feed, topic, isAdd))
  }

  // ----- Subscriptions and authorizations -----

  /** An authorization update replaces the authorization, any other addition counts one more; a new
      entry has count 0 before that. */
  function WithSubscription(subs: map<Key, SubState>, k: Key, info: Info, isUpdate: bool): map<Key, SubState> {
    var state := if k in subs then subs[k] else SubState(0, info);
    subs[k := if isUpdate then state.(info := info) else state.(count := state.count + 1)]
  }

  function WithoutSubscription(subs: map<Key, SubState>, k: Key, removeAll: bool): map<Key, SubState> {
    if k !in subs then subs
    else if removeAll || subs[k].count - 1 == 0 then subs - {k}
    else subs[k := subs[k].(count := subs[k].count - 1)]
  }

  function Granted(isAuthorizationRequired: bool, entitlements: Option<set<int>>): Info {
    Info(isAuthorizationRequired, if entitlements.Some? then entitlements.value else {})
  }

  /** The client's authorizations are looked up under the feed where the topic is meant. */
  predicate HasAuthorization(b: Broker, client: Guid, feed: Text) {
    Key(feed, feed, client) in b.auths
  }

  predicate Refused(info: Info) {
    info.isAuthorizationRequired && info.entitlements == {}
  }

  /** An authorization for a live client is kept unless it seems to have one already. It adds the
      subscription or updates its authorization; a refusal is only passed on. */
  function Accept(b: Broker, k: Key, info: Info): Broker {
    if k.client !in b.live then b
    else
      var b' := if HasAuthorization(b, k.client, k.feed) then b else b.(auths := b.auths[k := info]);
      if Refused(info) then b' else b'.(subs := WithSubscription(b.subs, k, info, true))
  }

  function AcceptSends(cfg: Config, b: Broker, k: Key, info: Info): set<Send> {
    if k.client !in b.live then {}
    else if Refused(info) then {Send(k.client, NoData(k.feed, k.topic))}
    else ForwardSends(cfg, b.notes, k.client, k.feed, k.topic, true)
  }

  // ----- The step function -----

  function Subscribed(cfg: Config, b: Broker, k: Key): Broker {
    if k in b.auths then b.(subs := WithSubscription(b.subs, k, b.auths[k], false))
    else if cfg.isAuthorizationRequired then b
    else Accept(b, k, Granted(false, None))
  }

  function SubscribedSends(cfg: Config, b: Broker, k: Key): set<Send> {
    if k in b.auths then ForwardSends(cfg, b.notes, k.client, k.feed, k.topic, true)
    else if cfg.isAuthorizationRequired then
      set a | a in Authorizers(cfg, b, k.feed) ::
        Send(a, AuthorizationRequest(k.client, cfg.host(k.client), cfg.user(k.client), k.feed, k.topic))
    else AcceptSends(cfg, b, k, Granted(false, None))
  }

  /** The client leaves every store. Its authorizations stay with it, for a message of the client that is
      still in the event queue. */
  function Ended(b: Broker, client: Guid): Broker {
    b.(live := b.live - {client},
       subs := (map k | k in b.subs && k.client != client :: b.subs[k]),
       notes := (set n | n in b.notes && n.1 != client),
       pubs := (set p | p in b.pubs && p.0 != client))
  }

  /** First the subscribers of every topic whose last publisher has gone are told, while the client's own
      subscriptions are still there, then those who watch the feeds of its subscriptions. */
  function EndedSends(cfg: Config, b: Broker, client: Guid): Addressed {
    Addressed(
      set k | k in b.subs && FeedTopic(k.feed, k.topic) in StaleTopics(b.pubs, client) ::
      Send(k.client, NoData(k.feed, k.topic)),
      set k, n | k in b.subs && k.client == client && n in b.notes && n.1 != client && n.0 == k.feed ::
        Send(n.1, Forwarded(cfg, client, k.feed, k.topic, false)))
  }

  function MulticastSends(cfg: Config, b: Broker, client: Guid, feed: Text, topic: Text, contentType: Text,
                          packets: Packets<set<int>>): set<Send> {
    set k | k in b.subs && k.feed == feed && k.topic == topic ::
      Send(k.client, ForwardedMulticastData(cfg.user(client), cfg.host(client), feed, topic, contentType,
                                            AuthorizedData(packets, b.subs[k].info)))
  }

  function AfterMessage(cfg: Config, b: Broker, c: Guid, m: Msg): Broker {
    match m
    case AuthorizationResponse(client, feed, topic, required, entitlements) =>
      Accept(b, Key(feed, topic, client), Granted(required, entitlements))
    case SubscriptionRequest(feed, topic, isAdd) =>
      if !cfg.hasRole(c, feed, Subscribe) then b
      else if isAdd then Subscribed(cfg, b, Key(feed, topic, c))
      else b.(subs := WithoutSubscription(b.subs, Key(feed, topic, c), false))
    case MulticastData(feed, topic, contentType, packets) =>
      if cfg.hasRole(c, feed, Publish) && Subscribers(b, feed, topic) != {}
          then b.(pubs := b.pubs + {(c, FeedTopic(feed, topic))})
      else b
    case UnicastData(client, feed, topic, contentType, packets) =>
      if Key(feed, topic, client) in b.subs && cfg.hasRole(c, feed, Publish)
          then b.(pubs := b.pubs + {(c, FeedTopic(feed, topic))})
      else b
    case NotificationRequest(feed, isAdd) =>
      b.(notes := if isAdd then b.notes + {(feed, c)} else b.notes - {(feed, c)})
    case _ => b
  }

  function MessageSends(cfg: Config, b: Broker, c: Guid, m: Msg): set<Send> {
    match m
    case AuthorizationResponse(client, feed, topic, required, entitlements) =>
      AcceptSends(cfg, b, Key(feed, topic, client), Granted(required, entitlements))
    case SubscriptionRequest(feed, topic, isAdd) =>
      if !cfg.hasRole(c, feed, Subscribe) then {}
      else if isAdd then SubscribedSends(cfg, b, Key(feed, topic, c))
      else ForwardSends(cfg, b.notes, c, feed, topic, false)
    case MulticastData(feed, topic, contentType, packets) =>
      if cfg.hasRole(c, feed, Publish) then MulticastSends(cfg, b, c, feed, topic, contentType, packets) else {}
    case UnicastData(client, feed, topic, contentType, packets) =>
      var k := Key(feed, topic, client);
      if k in b.subs && cfg.hasRole(c, feed, Publish) then
        {Send(client, ForwardedUnicastData(cfg.user(c), cfg.host(c), client, feed, topic, contentType,
                                           AuthorizedData(packets, b.subs[k].info)))}
      else {}
    case NotificationRequest(feed, isAdd) =>
      if isAdd && (feed, c) !in b.notes then
        set k | k in b.subs && k.feed == feed :: Send(c, Forwarded(cfg, k.client, feed, k.topic, true))
      else {}
    case _ => {}
  }

  function After(cfg: Config, b: Broker, e: Event): Broker {
    match e
    case Connected(c) => b.(live := b.live + {c})
    case Received(c, m) => AfterMessage(cfg, b, c, m)
    case _ => Ended(b, e.client)
  }

  function Sends(cfg: Config, b: Broker, e: Event): Addressed {
    match e
    case Connected(c) => NOWHERE
    case Received(c, m) => Addressed(MessageSends(cfg, b, c, m), {})
    case _ => EndedSends(cfg, b, e.client)
  }

  /** The sequence holds exactly the elements of the set, each once. */
  predicate Lists<T(==)>(s: seq<T>, elements: set<T>) {
    && (forall x :: x in s ==> x in elements)
    && (forall x :: x in elements ==> x in s)
    && (forall i, j :: 0 <= i < j < |s| ==> s[i] != s[j])
  }

  ghost predicate Emits(a: Addressed, out: seq<Send>) {
    exists n :: 0 <= n <= |out| && Lists(out[..n], a.first) && Lists(out[n..], a.second)
  }

  // ----- Runs of the event loop alone -----

  const INITIAL: Broker := Broker({}, map[], {}, {}, map[])

  function State(cfg: Config, es: seq<Event>): Broker {
    if es == [] then INITIAL else After(cfg, State(cfg, es[..|es| - 1]), es[|es| - 1])
  }
}
