/** What the stores say, read off the events that the broker has handled: who is live, who watches a feed, who has
    published to a topic and who is subscribed to it, each by the last events that bear on it
    (core/src/JetBlack.MessageBus.Distributor). */
module Histories {
  import opened Options
  import opened Messages
  import opened Broker
  import Safety

  /** What is switched on at some times and off at others holds exactly since it was last switched on. */
  lemma {:induction false} HoldsSince(on: nat -> bool, off: nat -> bool, holds: nat -> bool, n: nat)
    requires !holds(0) && forall k: nat :: k < n ==> (holds(k + 1) <==> on(k) || (holds(k) && !off(k)))
    ensures holds(n) <==> exists i: nat :: i < n && on(i) && forall j: nat :: i < j < n ==> !off(j)
  {
    if n > 0 {
      HoldsSince(on, off, holds, n - 1);
      if on(n - 1) {
        assert holds(n);
      } else if holds(n) {
        var i: nat :| i < n - 1 && on(i) && forall j: nat :: i < j < n - 1 ==> !off(j);
        assert forall j: nat :: i < j < n ==> !off(j);
      }
    }
  }

  /** The state after the first events. */
  function At(cfg: Config, es: seq<Event>, k: nat): Broker {
    if k <= |es| then State(cfg, es[..k]) else INITIAL
  }

  lemma AtNext(cfg: Config, es: seq<Event>, k: nat)
    requires k < |es|
    ensures At(cfg, es, k + 1) == After(cfg, At(cfg, es, k), es[k])
  {
    assert es[..k + 1][..k] == es[..k];
  }

  lemma AtEnds(cfg: Config, es: seq<Event>)
    ensures At(cfg, es, 0) == INITIAL && At(cfg, es, |es|) == State(cfg, es)
  {
    assert es[..|es|] == es;
  }

  /** The client's close or fault. */
  predicate EndsAt(es: seq<Event>, j: nat, c: Guid) {
    j < |es| && Safety.Ends(es[j], c)
  }

  // ----- Who is live -----

  predicate ConnectsAt(es: seq<Event>, i: nat, c: Guid) {
    i < |es| && es[i] == Connected(c)
  }

  lemma LiveStep(cfg: Config, es: seq<Event>, k: nat, c: Guid)
    requires k < |es|
    ensures c in At(cfg, es, k + 1).live <==> ConnectsAt(es, k, c) || (c in At(cfg, es, k).live && !EndsAt(es, k, c))
  {
    hide State, At;
    AtNext(cfg, es, k);
  }

  /** The live clients are those that have connected and have not ended since. */
  lemma LiveExactlyWhen(cfg: Config, es: seq<Event>, c: Guid)
    ensures c in State(cfg, es).live <==>
            exists i: nat :: i < |es| && ConnectsAt(es, i, c) && forall j: nat :: i < j < |es| ==> !EndsAt(es, j, c)
  {
    hide State, At, After, ConnectsAt, EndsAt;
    var on, off := (i: nat) => ConnectsAt(es, i, c), (j: nat) => EndsAt(es, j, c);
    var holds := (k: nat) => c in At(cfg, es, k).live;
    forall k: nat | k < |es| ensures holds(k + 1) <==> on(k) || (holds(k) && !off(k)) {
      LiveStep(cfg, es, k, c);
    }
    AtEnds(cfg, es);
    HoldsSince(on, off, holds, |es|);
    forall i: nat ensures on(i) == ConnectsAt(es, i, c) && off(i) == EndsAt(es, i, c) { }
  }

  // ----- Who watches a feed -----

  predicate AsksAt(es: seq<Event>, i: nat, c: Guid, feed: Text) {
    i < |es| && es[i] == Received(c, NotificationRequest(feed, true))
  }

  predicate StopsWatchingAt(es: seq<Event>, j: nat, c: Guid, feed: Text) {
    j < |es| && (Safety.Ends(es[j], c) || es[j] == Received(c, NotificationRequest(feed, false)))
  }

  lemma WatchingStep(cfg: Config, es: seq<Event>, k: nat, c: Guid, feed: Text)
    requires k < |es|
    ensures (feed, c) in At(cfg, es, k + 1).notes <==>
            AsksAt(es, k, c, feed) || ((feed, c) in At(cfg, es, k).notes && !StopsWatchingAt(es, k, c, feed))
  {
    hide State, At;
    AtNext(cfg, es, k);
  }

  /** Those watch a feed who have asked for its notifications and have neither ended nor withdrawn since. */
  lemma WatchesExactlyWhen(cfg: Config, es: seq<Event>, c: Guid, feed: Text)
    ensures (feed, c) in State(cfg, es).notes <==>
            exists i: nat :: i < |es| && AsksAt(es, i, c, feed)
                             && forall j: nat :: i < j < |es| ==> !StopsWatchingAt(es, j, c, feed)
  {
    hide State, At, After, AsksAt, StopsWatchingAt;
    var on, off := (i: nat) => AsksAt(es, i, c, feed), (j: nat) => StopsWatchingAt(es, j, c, feed);
    var holds := (k: nat) => (feed, c) in At(cfg, es, k).notes;
    forall k: nat | k < |es| ensures holds(k + 1) <==> on(k) || (holds(k) && !off(k)) {
      WatchingStep(cfg, es, k, c, feed);
    }
    AtEnds(cfg, es);
    HoldsSince(on, off, holds, |es|);
    forall i: nat ensures on(i) == AsksAt(es, i, c, feed) && off(i) == StopsWatchingAt(es, i, c, feed) { }
  }

  // ----- Who has published to a topic -----

  /** The client publishes with the role and reaches a subscriber. */
  ghost predicate PublishesAt(cfg: Config, es: seq<Event>, i: nat, c: Guid, feed: Text, topic: Text) {
    && i < |es| && es[i].Received? && es[i].client == c && cfg.hasRole(c, feed, Publish)
    && var subs := At(cfg, es, i).subs;
       match es[i].message
       case MulticastData(f, t, _, _) => f == feed && t == topic && exists to: Guid :: Key(feed, topic, to) in subs
       case UnicastData(to, f, t, _, _) => f == feed && t == topic && Key(feed, topic, to) in subs
       case _ => false
  }

  lemma PublishingStep(cfg: Config, es: seq<Event>, k: nat, c: Guid, feed: Text, topic: Text)
    requires k < |es|
    ensures (c, FeedTopic(feed, topic)) in At(cfg, es, k + 1).pubs <==>
            PublishesAt(cfg, es, k, c, feed, topic)
            || ((c, FeedTopic(feed, topic)) in At(cfg, es, k).pubs && !EndsAt(es, k, c))
  {
    hide State, At;
    AtNext(cfg, es, k);
    var b := At(cfg, es, k);
    if es[k].Received? && es[k].message.MulticastData? {
      var f, t := es[k].message.feed, es[k].message.topic;
      assert Subscribers(b, f, t) != {} <==> exists to: Guid :: Key(f, t, to) in b.subs by {
        if to: Guid :| Key(f, t, to) in b.subs { assert to in Subscribers(b, f, t); }
        if Subscribers(b, f, t) != {} { var to :| to in Subscribers(b, f, t); assert Key(f, t, to) in b.subs; }
      }
    }
  }

  /** The publishers of a topic are those that have published to a subscriber of it and have not ended since. */
  lemma PublishesExactlyWhen(cfg: Config, es: seq<Event>, c: Guid, feed: Text, topic: Text)
    ensures (c, FeedTopic(feed, topic)) in State(cfg, es).pubs <==>
            exists i: nat :: i < |es| && PublishesAt(cfg, es, i, c, feed, topic)
                             && forall j: nat :: i < j < |es| ==> !EndsAt(es, j, c)
  {
    hide State, At, After, PublishesAt, EndsAt;
    var on, off := (i: nat) => PublishesAt(cfg, es, i, c, feed, topic), (j: nat) => EndsAt(es, j, c);
    var holds := (k: nat) => (c, FeedTopic(feed, topic)) in At(cfg, es, k).pubs;
    forall k: nat | k < |es| ensures holds(k + 1) <==> on(k) || (holds(k) && !off(k)) {
      PublishingStep(cfg, es, k, c, feed, topic);
    }
    AtEnds(cfg, es);
    HoldsSince(on, off, holds, |es|);
    forall i: nat ensures on(i) == PublishesAt(cfg, es, i, c, feed, topic) && off(i) == EndsAt(es, i, c) { }
  }

  // ----- Who is subscribed -----

  /** The client asks with the role and has an authorization or needs none, or a response for it takes effect. */
  ghost predicate SubscribesAt(cfg: Config, es: seq<Event>, i: nat, k: Key) {
    && i < |es| && es[i].Received?
    && var b := At(cfg, es, i);
       match es[i].message
       case SubscriptionRequest(f, t, true) =>
         && k == Key(f, t, es[i].client) && cfg.hasRole(k.client, f, Subscribe)
         && (k in b.auths || (!cfg.isAuthorizationRequired && k.client in b.live))
       case AuthorizationResponse(to, f, t, required, entitlements) =>
         && k == Key(f, t, to) && to in b.live
         && (!required || (entitlements.Some? && entitlements.value != {}))
       case _ => false
  }

  /** The client ends, or withdraws with the role where its count is one. */
  ghost predicate UnsubscribesAt(cfg: Config, es: seq<Event>, j: nat, k: Key) {
    && j < |es|
    && var subs := At(cfg, es, j).subs;
       || Safety.Ends(es[j], k.client)
       || (es[j] == Received(k.client, SubscriptionRequest(k.feed, k.topic, false))
           && cfg.hasRole(k.client, k.feed, Subscribe) && k in subs && subs[k].count == 1)
  }

  lemma SubscribingStep(cfg: Config, es: seq<Event>, i: nat, k: Key)
    requires i < |es|
    ensures k in At(cfg, es, i + 1).subs <==>
            SubscribesAt(cfg, es, i, k) || (k in At(cfg, es, i).subs && !UnsubscribesAt(cfg, es, i, k))
  {
    hide State, At;
    AtNext(cfg, es, i);
  }

  /** Those are subscribed who have subscribed and have neither ended nor counted down to nothing since. */
  lemma SubscribedExactlyWhen(cfg: Config, es: seq<Event>, k: Key)
    ensures k in State(cfg, es).subs <==>
            exists i: nat :: i < |es| && SubscribesAt(cfg, es, i, k)
                             && forall j: nat :: i < j < |es| ==> !UnsubscribesAt(cfg, es, j, k)
  {
    hide State, At, After, SubscribesAt, UnsubscribesAt;
    var on, off := (i: nat) => SubscribesAt(cfg, es, i, k), (j: nat) => UnsubscribesAt(cfg, es, j, k);
    var holds := (n: nat) => k in At(cfg, es, n).subs;
    forall n: nat | n < |es| ensures holds(n + 1) <==> on(n) || (holds(n) && !off(n)) {
      SubscribingStep(cfg, es, n, k);
    }
    AtEnds(cfg, es);
    HoldsSince(on, off, holds, |es|);
    forall i: nat ensures on(i) == SubscribesAt(cfg, es, i, k) && off(i) == UnsubscribesAt(cfg, es, i, k) { }
  }
}
