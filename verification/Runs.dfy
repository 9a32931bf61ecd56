/** The broker between its threads: readers put events on one queue, the event loop takes them one by one
    and addresses messages, and every client's messages wait in a queue of its own for a writer
    (core/src/JetBlack.MessageBus.Distributor/EventQueue.cs:29-54, Interactors/Interactor.cs:171-306). A
    run is any interleaving of these steps. */
module Runs {
  import opened Options
  import opened Messages
  import opened Broker
  import Safety

  /** A message together with the number of the event that gave rise to it. */
  datatype Tagged = Tagged(event: nat, message: Msg)

  /** What its reader has received from the client, the messages that wait for its writer, those the
      writer has taken, those it has written, and which of its threads are running. */
  datatype Client = Client(
    received: seq<Msg>,
    queue: seq<Tagged>,
    taken: seq<Tagged>,
    wire: seq<Tagged>,
    reader: Thread,
    writer: Thread,
    cancelled: bool)

  /** A thread is started once and does not come back when it has ended. */
  datatype Thread = Idle | Running | Over

  function Started(t: Thread): Thread {
    if t.Idle? then Running else t
  }

  /** `handled` are the events so far, `outs` what each of them made the loop send, and `pending` what
      remains to be sent of the last of these. */
  datatype System = System(
    broker: Broker,
    events: seq<Event>,
    handled: seq<Event>,
    outs: seq<seq<Send>>,
    pending: seq<Send>,
    clients: map<Guid, Client>)

  const NEW_CLIENT: Client := Client([], [], [], [], Idle, Idle, false)

  // ----- The steps -----

  /** An acceptor makes a client and announces it. */
  ghost predicate Connects(s: System, s': System, c: Guid) {
    && c !in s.clients
    && s' == s.(clients := s.clients[c := NEW_CLIENT], events := s.events + [Connected(c)])
  }

  ghost predicate Reads(s: System, s': System, c: Guid, m: Msg) {
    && c in s.clients && s.clients[c].reader.Running?
    && s' == s.(clients := s.clients[c := s.clients[c].(received := s.clients[c].received + [m])],
                events := s.events + [Received(c, m)])
  }

  /** The timer publishes through a client that has no threads. */
  ghost predicate Beats(s: System, s': System, heartbeat: Guid, m: Msg) {
    && heartbeat in s.clients && m.MulticastData?
    && s' == s.(clients := s.clients[heartbeat := s.clients[heartbeat].(received := s.clients[heartbeat].received
                                                                        + [m])],
                events := s.events + [Received(heartbeat, m)])
  }

  /** The reader announces its failure and ends; it cancels the client in a step of its own. */
  ghost predicate ReadFails(s: System, s': System, c: Guid, failure: Failure) {
    && c in s.clients && s.clients[c].reader.Running?
    && s' == s.(clients := s.clients[c := s.clients[c].(reader := Over)],
                events := s.events + [Errored(c, failure)])
  }

  ghost predicate ReadStops(s: System, s': System, c: Guid) {
    && c in s.clients && s.clients[c].cancelled
    && s' == s.(clients := s.clients[c := s.clients[c].(reader := Over)])
  }

  ghost predicate Writes(s: System, s': System, c: Guid) {
    && c in s.clients && s.clients[c].writer.Running? && s.clients[c].queue != []
    && var cl := s.clients[c];
       s' == s.(clients := s.clients[c := cl.(queue := cl.queue[1..], taken := cl.taken + [cl.queue[0]],
                                              wire := cl.wire + [cl.queue[0]])])
  }

  /** The message that was taken is lost, and the writer announces its failure and ends; it cancels the client
      in a step of its own. */
  ghost predicate WriteFails(s: System, s': System, c: Guid, failure: Failure) {
    && c in s.clients && s.clients[c].writer.Running? && s.clients[c].queue != []
    && var cl := s.clients[c];
       s' == s.(clients := s.clients[c := cl.(queue := cl.queue[1..], taken := cl.taken + [cl.queue[0]],
                                              writer := Over)],
                events := s.events + [Errored(c, failure)])
  }

  ghost predicate WriteStops(s: System, s': System, c: Guid) {
    && c in s.clients && s.clients[c].cancelled
    && s' == s.(clients := s.clients[c := s.clients[c].(writer := Over)])
  }

  ghost predicate Cancels(s: System, s': System, c: Guid) {
    && c in s.clients
    && s' == s.(clients := s.clients[c := s.clients[c].(cancelled := true)])
  }

  /** What handling an event does to the client's threads: connecting starts them, ending stops them. */
  function Handled(clients: map<Guid, Client>, e: Event): map<Guid, Client> {
    if e.client !in clients || e.Received? then clients
    else if e.Connected? then clients[e.client := clients[e.client].(reader := Started(clients[e.client].reader),
                                                                     writer := Started(clients[e.client].writer))]
    else clients[e.client := clients[e.client].(reader := Over, writer := Over, cancelled := true)]
  }

  /** The event loop takes the next event when it is done with the last one. */
  ghost predicate Dispatches(cfg: Config, s: System, s': System, out: seq<Send>) {
    && s.pending == [] && s.events != [] && Emits(Sends(cfg, s.broker, s.events[0]), out)
    && s' == s.(broker := After(cfg, s.broker, s.events[0]), events := s.events[1..],
                handled := s.handled + [s.events[0]],
                outs := s.outs + [out], pending := out, clients := Handled(s.clients, s.events[0]))
  }

  /** The loop adds its next message to the client's queue; a cancelled client's messages are dropped. */
  ghost predicate Delivers(s: System, s': System) {
    && s.pending != [] && s.handled != []
    && var c, m := s.pending[0].to, Tagged(|s.handled| - 1, s.pending[0].message);
       var clients := if c in s.clients && !s.clients[c].cancelled
                      then s.clients[c := s.clients[c].(queue := s.clients[c].queue + [m])] else s.clients;
       s' == s.(pending := s.pending[1..], clients := clients)
  }

  ghost predicate ClientStep(s: System, s': System, heartbeat: Guid, c: Guid) {
    || Connects(s, s', c) || (exists m :: Reads(s, s', c, m)) || (exists m :: Beats(s, s', heartbeat, m))
    || (exists f :: ReadFails(s, s', c, f)) || ReadStops(s, s', c)
    || Writes(s, s', c) || (exists f :: WriteFails(s, s', c, f)) || WriteStops(s, s', c) || Cancels(s, s', c)
  }

  ghost predicate Next(cfg: Config, heartbeat: Guid, s: System, s': System) {
    || (exists c :: ClientStep(s, s', heartbeat, c))
    || (exists out :: Dispatches(cfg, s, s', out))
    || Delivers(s, s')
  }

  ghost predicate Starts(s: System, heartbeat: Guid) {
    s == System(INITIAL, [], [], [], [], map[heartbeat := NEW_CLIENT])
  }

  ghost predicate IsRun(cfg: Config, heartbeat: Guid, run: seq<System>) {
    && run != [] && Starts(run[0], heartbeat)
    && forall i :: 0 <= i < |run| - 1 ==> Next(cfg, heartbeat, run[i], run[i + 1])
  }

  // ----- What every run keeps -----

  /** The client's share of what an event makes the loop send. */
  function Share(event: nat, out: seq<Send>, c: Guid): seq<Tagged> {
    if out == [] then []
    else (if out[0].to == c then [Tagged(event, out[0].message)] else []) + Share(event, out[1..], c)
  }

  /** All messages that have been addressed to the client, in the order in which the loop sends them. */
  function Stream(outs: seq<seq<Send>>, c: Guid): seq<Tagged> {
    if outs == [] then []
    else Stream(outs[..|outs| - 1], c) + Share(|outs| - 1, outs[|outs| - 1], c)
  }

  /** The messages of the client among the events. */
  function MessagesOf(events: seq<Event>, c: Guid): seq<Msg> {
    if events == [] then []
    else MessagesOf(events[..|events| - 1], c)
         + var e := events[|events| - 1]; if e.Received? && e.client == c then [e.message] else []
  }

  /** The loop has done what the broker's step function says, event by event. */
  ghost predicate Faithful(cfg: Config, s: System) {
    && s.broker == State(cfg, s.handled) && |s.outs| == |s.handled|
    && (s.handled == [] ==> s.pending == [])
    && forall k :: 0 <= k < |s.outs| ==> Emits(Sends(cfg, State(cfg, s.handled[..k]), s.handled[k]), s.outs[k])
  }

  /** Only clients that have connected are known to the broker or addressed by it. */
  ghost predicate Known(s: System) {
    && (forall e :: e in s.events ==> e.client in s.clients)
    && (forall c :: Safety.Mentions(s.broker, c) ==> c in s.clients)
    && (forall x :: x in s.pending ==> x.to in s.clients)
    && (forall k, x :: 0 <= k < |s.outs| && x in s.outs[k] ==> x.to in s.clients)
  }

  /** Nothing is lost, repeated or reordered on the way to the client, until it is cancelled. */
  ghost predicate Queued(s: System, c: Guid) {
    c in s.clients ==>
      var cl := s.clients[c];
      && cl.wire <= cl.taken && (!cl.writer.Over? ==> cl.wire == cl.taken)
      && cl.taken + cl.queue <= Stream(s.outs, c)
      && (!cl.cancelled && s.handled == [] ==> cl.taken + cl.queue == [])
      && (!cl.cancelled && s.handled != [] ==> cl.taken + cl.queue + Share(|s.handled| - 1, s.pending,
                                                                           c) == Stream(s.outs, c))
  }

  /** A client's messages are handled in the order in which they were received from it. */
  ghost predicate InOrder(s: System, c: Guid) {
    (if c in s.clients then s.clients[c].received else []) == MessagesOf(s.handled + s.events, c)
  }

  ghost predicate Kept(cfg: Config, s: System) {
    Faithful(cfg, s) && Known(s) && (forall c :: Queued(s, c)) && (forall c :: InOrder(s, c))
  }

  // ----- The steps keep it -----

  lemma {:induction false} MessagesConcat(a: seq<Event>, b: seq<Event>, c: Guid)
    ensures MessagesOf(a + b, c) == MessagesOf(a, c) + MessagesOf(b, c)
    decreases |b|
  {
    if b == [] {
      assert a + b == a;
    } else {
      var n := |b| - 1;
      assert (a + b)[..|a + b| - 1] == a + b[..n];
      MessagesConcat(a, b[..n], c);
    }
  }

  lemma MessagesAppend(events: seq<Event>, e: Event, c: Guid)
    ensures MessagesOf(events + [e], c) == MessagesOf(events, c)
            + (if e.Received? && e.client == c then [e.message] else [])
  {
    assert (events + [e])[..|events|] == events;
  }

  lemma StreamAppends(outs: seq<seq<Send>>, out: seq<Send>, c: Guid)
    ensures Stream(outs + [out], c) == Stream(outs, c) + Share(|outs|, out, c)
  {
    assert (outs + [out])[..|outs|] == outs;
  }

  lemma PrefixOfLonger(a: seq<Tagged>, b: seq<Tagged>, c: seq<Tagged>)
    requires a <= b
    ensures a <= b + c
  {
  }

  lemma StartsKept(cfg: Config, s: System, heartbeat: Guid)
    requires Starts(s, heartbeat)
    ensures Kept(cfg, s)
  {
    assert s.handled + s.events == [];
  }

  /** A step of a client's threads leaves the loop alone and adds at most one event of its own. */
  ghost predicate Outside(s: System, s': System, c: Guid) {
    && s'.broker == s.broker && s'.handled == s.handled && s'.outs == s.outs && s'.pending == s.pending
    && (forall d :: d in s.clients ==> d in s'.clients)
         && (forall d :: d in s'.clients && d != c ==> d in s.clients && s'.clients[d] == s.clients[d])
    && c in s'.clients && (s'.events == s.events || (|s'.events| == |s.events| + 1
                                                     && s'.events[..|s.events|] == s.events
                                                          && s'.events[|s.events|].client == c))
  }

  lemma OutsideFaithful(cfg: Config, s: System, s': System, c: Guid)
    requires Faithful(cfg, s) && Outside(s, s', c)
    ensures Faithful(cfg, s')
  {
    hide Emits, Sends, State;
  }

  lemma OutsideKnown(s: System, s': System, c: Guid)
    requires Known(s) && Outside(s, s', c)
    ensures Known(s')
  {
    hide Safety.Mentions;
    forall e | e in s'.events ensures e.client in s'.clients {
      if e !in s.events { assert e == s'.events[|s.events|]; }
    }
  }

  lemma OutsideInOrder(s: System, s': System, c: Guid, d: Guid)
    requires Outside(s, s', c) && d != c && InOrder(s, d)
    ensures InOrder(s', d)
  {
    hide MessagesOf;
    if s'.events != s.events {
      var e := s'.events[|s.events|];
      assert s'.events == s.events + [e];
      assert s'.handled + s'.events == (s.handled + s.events) + [e];
      MessagesAppend(s.handled + s.events, e, d);
      assert MessagesOf(s.handled + s.events, d) + [] == MessagesOf(s.handled + s.events, d);
    }
  }

  lemma OutsideQueued(s: System, s': System, c: Guid, d: Guid)
    requires Outside(s, s', c) && d != c && Queued(s, d)
    ensures Queued(s', d)
  {
  }

  lemma OutsideKept(cfg: Config, s: System, s': System, c: Guid)
    requires Kept(cfg, s) && Outside(s, s', c) && Queued(s', c) && InOrder(s', c)
    ensures Kept(cfg, s')
  {
    hide Faithful, Known, InOrder, Queued, Outside;
    OutsideFaithful(cfg, s, s', c);
    OutsideKnown(s, s', c);
    forall d ensures InOrder(s', d) && Queued(s', d) {
      if d != c {
        OutsideInOrder(s, s', c, d);
        OutsideQueued(s, s', c, d);
      }
    }
  }

  lemma NewEvent(s: System, s': System, e: Event, c: Guid)
    requires InOrder(s, c) && s'.events == s.events + [e] && s'.handled == s.handled && c in s'.clients
    requires s'.clients[c].received == (if c in s.clients then s.clients[c].received else [])
            + (if e.Received? && e.client == c then [e.message] else [])
    ensures InOrder(s', c)
  {
    assert s'.handled + s'.events == (s.handled + s.events) + [e];
    MessagesAppend(s.handled + s.events, e, c);
  }

  lemma ConnectsKept(cfg: Config, s: System, s': System, c: Guid)
    requires Kept(cfg, s) && Connects(s, s', c)
    ensures Kept(cfg, s')
  {
    hide Faithful, Known;
    NothingForStrangers(s, c);
    assert InOrder(s, c);
    NewEvent(s, s', Connected(c), c);
    assert Queued(s', c) by { hide InOrder; }
    OutsideKept(cfg, s, s', c);
  }

  lemma {:induction false} NothingShared(event: nat, out: seq<Send>, c: Guid)
    requires forall x :: x in out ==> x.to != c
    ensures Share(event, out, c) == []
  {
    if out != [] { NothingShared(event, out[1..], c); }
  }

  lemma {:induction false} NothingStreamed(outs: seq<seq<Send>>, c: Guid)
    requires forall k, x :: 0 <= k < |outs| && x in outs[k] ==> x.to != c
    ensures Stream(outs, c) == []
  {
    if outs != [] {
      NothingStreamed(outs[..|outs| - 1], c);
      NothingShared(|outs| - 1, outs[|outs| - 1], c);
    }
  }

  lemma NothingForStrangers(s: System, c: Guid)
    requires Known(s) && c !in s.clients
    ensures Stream(s.outs, c) == [] && forall event: nat :: Share(event, s.pending, c) == []
  {
    NothingStreamed(s.outs, c);
    forall event: nat ensures Share(event, s.pending, c) == [] { NothingShared(event, s.pending, c); }
  }

  lemma ReceivesKept(cfg: Config, s: System, s': System, c: Guid, m: Msg)
    requires Kept(cfg, s) && c in s.clients
    requires s' == s.(clients := s.clients[c := s.clients[c].(received := s.clients[c].received + [m])],
                      events := s.events + [Received(c, m)])
    ensures Kept(cfg, s')
  {
    NewEvent(s, s', Received(c, m), c);
    assert Queued(s, c);
    OutsideKept(cfg, s, s', c);
  }

  lemma ReadFailsKept(cfg: Config, s: System, s': System, c: Guid, failure: Failure)
    requires Kept(cfg, s) && ReadFails(s, s', c, failure)
    ensures Kept(cfg, s')
  {
    hide Faithful, Known;
    NewEvent(s, s', Errored(c, failure), c);
    assert Queued(s, c);
    OutsideKept(cfg, s, s', c);
  }

  lemma WritesKept(cfg: Config, s: System, s': System, c: Guid)
    requires Kept(cfg, s) && Writes(s, s', c)
    ensures Kept(cfg, s')
  {
    assert Queued(s, c) && InOrder(s, c);
    TakenMoves(s, s', c);
    OutsideKept(cfg, s, s', c);
  }

  /** Taking a message from the queue keeps what has been taken and what waits together. */
  lemma TakenMoves(s: System, s': System, c: Guid)
    requires c in s.clients && c in s'.clients && s.clients[c].queue != []
    requires s'.clients[c].queue == s.clients[c].queue[1..]
            && s'.clients[c].taken == s.clients[c].taken + [s.clients[c].queue[0]]
    ensures s'.clients[c].taken + s'.clients[c].queue == s.clients[c].taken + s.clients[c].queue
  {
  }

  lemma MemberKept(cfg: Config, s: System, c: Guid)
    requires Kept(cfg, s)
    ensures Queued(s, c) && InOrder(s, c)
  {
  }

  lemma WriteFailsQueued(s: System, s': System, c: Guid, failure: Failure)
    requires Queued(s, c) && WriteFails(s, s', c, failure)
    ensures Queued(s', c)
  {
    hide Share, Stream;
    TakenMoves(s, s', c);
  }

  lemma WriteFailsOutside(s: System, s': System, c: Guid, failure: Failure)
    requires WriteFails(s, s', c, failure)
    ensures Outside(s, s', c)
  {
  }

  lemma WriteFailsKept(cfg: Config, s: System, s': System, c: Guid, failure: Failure)
    requires Kept(cfg, s) && WriteFails(s, s', c, failure)
    ensures Kept(cfg, s')
  {
    hide Faithful, Known, InOrder, Queued, Outside, Kept;
    MemberKept(cfg, s, c);
    NewEvent(s, s', Errored(c, failure), c);
    TakenMoves(s, s', c);
    assert Queued(s', c) by { WriteFailsQueued(s, s', c, failure); }
    assert Outside(s, s', c) by { WriteFailsOutside(s, s', c, failure); }
    OutsideKept(cfg, s, s', c);
  }

  lemma StopsKept(cfg: Config, s: System, s': System, c: Guid)
    requires Kept(cfg, s) && (ReadStops(s, s', c) || WriteStops(s, s', c) || Cancels(s, s', c))
    ensures Kept(cfg, s')
  {
    assert Queued(s, c) && InOrder(s, c);
    OutsideKept(cfg, s, s', c);
  }

  lemma ClientStepKept(cfg: Config, heartbeat: Guid, s: System, s': System, c: Guid)
    requires Kept(cfg, s) && ClientStep(s, s', heartbeat, c)
    ensures Kept(cfg, s')
  {
    hide Faithful, Known, Kept, Queued, InOrder;
    if Connects(s, s', c) {
      ConnectsKept(cfg, s, s', c);
    } else if m :| Reads(s, s', c, m) {
      ReceivesKept(cfg, s, s', c, m);
    } else if m :| Beats(s, s', heartbeat, m) {
      ReceivesKept(cfg, s, s', heartbeat, m);
    } else if f :| ReadFails(s, s', c, f) {
      ReadFailsKept(cfg, s, s', c, f);
    } else if Writes(s, s', c) {
      WritesKept(cfg, s, s', c);
    } else if f :| WriteFails(s, s', c, f) {
      WriteFailsKept(cfg, s, s', c, f);
    } else {
      StopsKept(cfg, s, s', c);
    }
  }

  // ----- The event loop -----

  lemma DispatchFaithful(cfg: Config, s: System, s': System, out: seq<Send>)
    requires Faithful(cfg, s) && Dispatches(cfg, s, s', out)
    ensures Faithful(cfg, s')
  {
    hide Emits, Sends, After;
    var n, e := |s.handled|, s.events[0];
    assert s'.handled[..n] == s.handled;
    forall k | 0 <= k < |s'.outs| ensures Emits(Sends(cfg, State(cfg, s'.handled[..k]), s'.handled[k]), s'.outs[k]) {
      if k < n { assert s'.handled[..k] == s.handled[..k]; }
    }
  }

  /** Messages go to clients that the broker knows, or back to the sender. */
  lemma TargetsAreKnown(cfg: Config, b: Broker, e: Event, x: Send)
    requires x in Sends(cfg, b, e).first + Sends(cfg, b, e).second
    ensures Safety.Mentions(b, x.to) || x.to == e.client
  {
  }

  lemma EmittedAreSends(a: Addressed, out: seq<Send>, x: Send)
    requires Emits(a, out) && x in out
    ensures x in a.first + a.second
  {
    var n :| 0 <= n <= |out| && Lists(out[..n], a.first) && Lists(out[n..], a.second);
    assert out == out[..n] + out[n..];
  }

  lemma DispatchKnown(cfg: Config, s: System, s': System, out: seq<Send>)
    requires Known(s) && Dispatches(cfg, s, s', out)
    ensures Known(s')
  {
    hide Emits, Sends, After, Safety.Mentions;
    var e := s.events[0];
    assert e in s.events;
    assert s'.clients.Keys == s.clients.Keys;
    forall c | Safety.Mentions(s'.broker, c) ensures c in s'.clients {
      if c != e.client && !Safety.Mentions(s.broker, c) {
        Safety.MentionedAgainExactlyWhen(cfg, s.broker, e, c);
      }
    }
    forall x | x in out ensures x.to in s'.clients {
      EmittedAreSends(Sends(cfg, s.broker, e), out, x);
      TargetsAreKnown(cfg, s.broker, e, x);
    }
  }

  lemma DispatchQueued(cfg: Config, s: System, s': System, out: seq<Send>, c: Guid)
    requires Faithful(cfg, s) && Queued(s, c) && Dispatches(cfg, s, s', out)
    ensures Queued(s', c)
  {
    hide Emits, Sends, After, State;
    if c in s'.clients {
      StreamAppends(s.outs, out, c);
      PrefixOfLonger(s.clients[c].taken + s.clients[c].queue, Stream(s.outs, c), Share(|s.outs|, out, c));
      assert s.pending == [];
      assert forall t: seq<Tagged> :: t + [] == t;
    }
  }

  lemma DispatchInOrder(cfg: Config, s: System, s': System, out: seq<Send>, c: Guid)
    requires InOrder(s, c) && Dispatches(cfg, s, s', out)
    ensures InOrder(s', c)
  {
    hide Emits, Sends, After, MessagesOf;
    MovesOver(s.handled, s.events);
  }

  lemma MovesOver(a: seq<Event>, b: seq<Event>)
    requires b != []
    ensures a + [b[0]] + b[1..] == a + b
  {
  }

  lemma DispatchKept(cfg: Config, s: System, s': System, out: seq<Send>)
    requires Kept(cfg, s) && Dispatches(cfg, s, s', out)
    ensures Kept(cfg, s')
  {
    hide Faithful, Known, Queued, InOrder, Dispatches;
    DispatchFaithful(cfg, s, s', out);
    DispatchKnown(cfg, s, s', out);
    forall c ensures Queued(s', c) && InOrder(s', c) {
      DispatchQueued(cfg, s, s', out, c);
      DispatchInOrder(cfg, s, s', out, c);
    }
  }

  lemma DeliverQueued(s: System, s': System, c: Guid)
    requires Queued(s, c) && Delivers(s, s')
    ensures Queued(s', c)
  {
    if c in s.clients {
      var event, x := |s.handled| - 1, s.pending[0];
      var cl := s.clients[c];
      assert Share(event, s.pending, c) == (if x.to == c then [Tagged(event, x.message)] else [])
          + Share(event, s.pending[1..], c);
      if x.to == c && !cl.cancelled {
        assert cl.taken + (cl.queue + [Tagged(event, x.message)]) + Share(event, s.pending[1..], c)
            == cl.taken + cl.queue + Share(event, s.pending, c);
      }
    }
  }

  lemma DeliverKept(cfg: Config, s: System, s': System)
    requires Kept(cfg, s) && Delivers(s, s')
    ensures Kept(cfg, s')
  {
    assert Faithful(cfg, s') by { hide Emits, Sends, State; }
    assert Known(s') by { hide Safety.Mentions; }
    hide Faithful, Known, Queued;
    forall c ensures Queued(s', c) && InOrder(s', c) {
      DeliverQueued(s, s', c);
      assert InOrder(s, c);
    }
  }

  /** Every state of every run keeps the invariants. */
  lemma {:induction false} RunsKeep(cfg: Config, heartbeat: Guid, run: seq<System>, i: nat)
    requires IsRun(cfg, heartbeat, run) && i < |run|
    ensures Kept(cfg, run[i])
  {
    hide Kept;
    if i == 0 {
      StartsKept(cfg, run[0], heartbeat);
    } else {
      RunsKeep(cfg, heartbeat, run, i - 1);
      var s, s' := run[i - 1], run[i];
      assert Next(cfg, heartbeat, run[i - 1], run[i - 1 + 1]);
      if c :| ClientStep(s, s', heartbeat, c) {
        ClientStepKept(cfg, heartbeat, s, s', c);
      } else if out :| Dispatches(cfg, s, s', out) {
        DispatchKept(cfg, s, s', out);
      } else {
        DeliverKept(cfg, s, s');
      }
    }
  }

  // ----- Clients connect before anything else -----

  /** Every client connects once, and before its other events; the known ones have connected before. */
  ghost predicate InTurn(known: set<Guid>, es: seq<Event>)
    decreases |es|
  {
    es != [] ==>
      && (es[0].Connected? <==> es[0].client !in known)
      && InTurn(known + {es[0].client}, es[1..])
  }

  ghost function ClientsOf(es: seq<Event>): set<Guid> {
    set e | e in es :: e.client
  }

  lemma {:induction false} InTurnAppends(known: set<Guid>, es: seq<Event>, e: Event)
    ensures InTurn(known, es + [e]) <==> InTurn(known, es) && (e.Connected? <==> e.client !in known + ClientsOf(es))
    decreases |es|
  {
    if es == [] {
      assert es + [e] == [e] && known + ClientsOf([]) == known;
    } else {
      assert (es + [e])[0] == es[0] && (es + [e])[1..] == es[1..] + [e];
      InTurnAppends(known + {es[0].client}, es[1..], e);
      assert known + {es[0].client} + ClientsOf(es[1..]) == known + ClientsOf(es) by {
        assert forall x :: x in es <==> x == es[0] || x in es[1..];
      }
    }
  }

  /** A connection is the first event of its client, and no other connection of it follows. */
  lemma {:induction false} InTurnMeansOnceAndFirst(known: set<Guid>, es: seq<Event>, i: nat, j: nat)
    requires InTurn(known, es) && i < |es| && j < |es| && es[i].Connected? && es[j].client == es[i].client
    ensures es[i].client !in known && i <= j && (es[j].Connected? ==> i == j)
    decreases |es|
  {
    if i > 0 && j > 0 {
      InTurnMeansOnceAndFirst(known + {es[0].client}, es[1..], i - 1, j - 1);
    } else if i > 0 {
      InTurnMeansOnceAndFirst(known + {es[0].client}, es[1..], i - 1, i - 1);
    } else if j > 0 {
      StaysKnown(known + {es[0].client}, es[1..], j - 1);
    }
  }

  lemma {:induction false} StaysKnown(known: set<Guid>, es: seq<Event>, j: nat)
    requires InTurn(known, es) && j < |es| && es[j].client in known
    ensures !es[j].Connected?
    decreases |es|
  {
    if j > 0 { StaysKnown(known + {es[0].client}, es[1..], j - 1); }
  }

  lemma {:induction false} InTurnSplits(known: set<Guid>, a: seq<Event>, b: seq<Event>)
    requires InTurn(known, a + b)
    ensures InTurn(known, a) && InTurn(known + ClientsOf(a), b)
    decreases |a|
  {
    if a == [] {
      assert a + b == b && known + ClientsOf(a) == known;
    } else {
      assert (a + b)[0] == a[0] && (a + b)[1..] == a[1..] + b;
      InTurnSplits(known + {a[0].client}, a[1..], b);
      assert known + {a[0].client} + ClientsOf(a[1..]) == known + ClientsOf(a) by {
        assert forall x :: x in a <==> x == a[0] || x in a[1..];
      }
    }
  }

  /** All events so far are in turn after the heartbeat, and come from the clients that there are. */
  ghost predicate Introduced(s: System, heartbeat: Guid) {
    && InTurn({heartbeat}, s.handled + s.events)
    && {heartbeat} + ClientsOf(s.handled + s.events) == s.clients.Keys
  }

  lemma EventIntroduced(s: System, s': System, heartbeat: Guid, e: Event)
    requires Introduced(s, heartbeat) && s'.handled == s.handled && s'.events == s.events + [e]
    requires s'.clients.Keys == s.clients.Keys + {e.client} && (e.Connected? <==> e.client !in s.clients)
    ensures Introduced(s', heartbeat)
  {
    hide InTurn;
    var es := s.handled + s.events;
    assert s'.handled + s'.events == es + [e];
    InTurnAppends({heartbeat}, es, e);
    assert ClientsOf(es + [e]) == ClientsOf(es) + {e.client} by {
      assert forall x :: x in es + [e] <==> x in es || x == e;
    }
  }

  lemma ClientStepIntroduced(heartbeat: Guid, s: System, s': System, c: Guid)
    requires Introduced(s, heartbeat) && ClientStep(s, s', heartbeat, c)
    ensures Introduced(s', heartbeat)
  {
    hide InTurn, ClientsOf, Introduced;
    if s'.events != s.events {
      EventIntroduced(s, s', heartbeat, s'.events[|s.events|]);
    } else {
      StillIntroduced(s, s', heartbeat);
    }
  }

  lemma StillIntroduced(s: System, s': System, heartbeat: Guid)
    requires Introduced(s, heartbeat) && s'.clients.Keys == s.clients.Keys
    requires s'.handled + s'.events == s.handled + s.events
    ensures Introduced(s', heartbeat)
  {
  }

  lemma NextIntroduced(cfg: Config, heartbeat: Guid, s: System, s': System)
    requires Introduced(s, heartbeat) && Next(cfg, heartbeat, s, s')
    ensures Introduced(s', heartbeat)
  {
    hide Introduced, ClientStep, Emits, Sends, After;
    if c :| ClientStep(s, s', heartbeat, c) {
      ClientStepIntroduced(heartbeat, s, s', c);
    } else {
      if out :| Dispatches(cfg, s, s', out) {
        MovesOver(s.handled, s.events);
      }
      StillIntroduced(s, s', heartbeat);
    }
  }

  /** In every state of every run each client but the heartbeat has connected once and before all its other
      events, among the events that have been handled and those that wait. */
  lemma {:induction false} RunsIntroduce(cfg: Config, heartbeat: Guid, run: seq<System>, i: nat)
    requires IsRun(cfg, heartbeat, run) && i < |run|
    ensures Introduced(run[i], heartbeat)
  {
    hide Introduced;
    if i == 0 {
      StartIntroduced(run[0], heartbeat);
    } else {
      RunsIntroduce(cfg, heartbeat, run, i - 1);
      assert Next(cfg, heartbeat, run[i - 1], run[i - 1 + 1]);
      NextIntroduced(cfg, heartbeat, run[i - 1], run[i]);
    }
  }

  lemma StartIntroduced(s: System, heartbeat: Guid)
    requires Starts(s, heartbeat)
    ensures Introduced(s, heartbeat)
  {
    assert s.handled + s.events == [] && {heartbeat} + ClientsOf([]) == {heartbeat};
  }

  // ----- Order -----

  lemma {:induction false} ShareIs(event: nat, out: seq<Send>, c: Guid, p: nat)
    requires p < |Share(event, out, c)|
    ensures Share(event, out, c)[p].event == event && Send(c, Share(event, out, c)[p].message) in out
  {
    var first := if out[0].to == c then 1 else 0;
    if p >= first {
      ShareIs(event, out[1..], c, p - first);
    }
  }

  lemma {:induction false} StreamInOrder(outs: seq<seq<Send>>, c: Guid, p: nat, q: nat)
    requires p <= q < |Stream(outs, c)|
    ensures var x, y := Stream(outs, c)[p], Stream(outs, c)[q];
            && x.event <= y.event < |outs| && Send(c, y.message) in outs[y.event]
            && (p < q && x.event == y.event ==> |Share(y.event, outs[y.event], c)| > 1)
    decreases |outs|
  {
    var n := |outs| - 1;
    var before, share := Stream(outs[..n], c), Share(n, outs[n], c);
    assert Stream(outs, c) == before + share;
    if q < |before| {
      StreamInOrder(outs[..n], c, p, q);
    } else {
      ShareIs(n, outs[n], c, q - |before|);
      if p < |before| {
        StreamInOrder(outs[..n], c, p, p);
      } else {
        ShareIs(n, outs[n], c, p - |before|);
      }
    }
  }

  lemma {:induction false} SharedOnce(event: nat, out: seq<Send>, c: Guid)
    requires forall i, j :: 0 <= i < |out| && 0 <= j < |out| && out[i].to == c && out[j].to == c ==> i == j
    ensures |Share(event, out, c)| <= 1
  {
    if out != [] {
      if out[0].to == c {
        forall x | x in out[1..] ensures x.to != c {
          var i :| 0 <= i < |out[1..]| && out[1..][i] == x;
          assert out[i + 1] == x;
        }
        NothingShared(event, out[1..], c);
      } else {
        forall i, j | 0 <= i < |out[1..]| && 0 <= j < |out[1..]| && out[1..][i].to == c && out[1..][j].to == c
          ensures i == j
        {
          assert out[i + 1].to == c && out[j + 1].to == c;
        }
        SharedOnce(event, out[1..], c);
      }
    }
  }

  lemma {:induction false} ListsAll(s: seq<Send>, elements: set<Send>)
    requires Lists(s, elements)
    ensures |s| == |elements|
  {
    if s == [] {
      assert elements == {};
    } else {
      forall x | x in elements - {s[0]} ensures x in s[1..] { assert x in s; }
      ListsAll(s[1..], elements - {s[0]});
    }
  }

  predicate IsMulticast(e: Event) {
    e.Received? && e.message.MulticastData?
  }

  /** A multicast gives each client at most one message. */
  lemma MulticastIsSharedOnce(cfg: Config, b: Broker, e: Event, out: seq<Send>, event: nat, c: Guid)
    requires IsMulticast(e) && Emits(Sends(cfg, b, e), out)
    ensures |Share(event, out, c)| <= 1
  {
    var sends := Sends(cfg, b, e);
    var n :| 0 <= n <= |out| && Lists(out[..n], sends.first) && Lists(out[n..], sends.second);
    ListsAll(out[n..], sends.second);
    assert out[..n] == out;
    forall i, j | 0 <= i < |out| && 0 <= j < |out| && out[i].to == c && out[j].to == c ensures i == j {
      assert out[i] in sends.first && out[j] in sends.first;
      var m := e.message;
      assert out[i] == out[j];
    }
    SharedOnce(event, out, c);
  }

  /** The state in which the event with the given number was handled. */
  function Before(cfg: Config, s: System, event: nat): Broker
    requires event < |s.handled|
  {
    State(cfg, s.handled[..event])
  }

  /** Every message on a wire has been addressed to the client by the event that it is tagged with. */
  lemma WiredWasSent(cfg: Config, heartbeat: Guid, run: seq<System>, t: nat, c: Guid, p: nat)
    requires IsRun(cfg, heartbeat, run) && t < |run| && c in run[t].clients && p < |run[t].clients[c].wire|
    ensures var s := run[t];
            var x := s.clients[c].wire[p];
            && p < |Stream(s.outs, c)| && Stream(s.outs, c)[p] == x && x.event < |s.handled| == |s.outs|
            && (var sends := Sends(cfg, Before(cfg, s, x.event), s.handled[x.event]);
                Emits(sends, s.outs[x.event]) && Send(c, x.message) in sends.first + sends.second)
  {
    var s := run[t];
    RunsKeep(cfg, heartbeat, run, t);
    assert Queued(s, c);
    assert s.clients[c].wire <= Stream(s.outs, c);
    StreamInOrder(s.outs, c, p, p);
    var x := s.clients[c].wire[p];
    EmittedAreSends(Sends(cfg, State(cfg, s.handled[..x.event]), s.handled[x.event]), s.outs[x.event],
                    Send(c, x.message));
  }

  /** What is earlier on a wire comes from an earlier event, unless both come from one event that is no
      multicast. */
  lemma WiresFollowEvents(cfg: Config, heartbeat: Guid, run: seq<System>, t: nat, c: Guid, p: nat, q: nat)
    requires IsRun(cfg, heartbeat, run) && t < |run| && c in run[t].clients && p < q < |run[t].clients[c].wire|
    ensures var s := run[t];
            var i, j := s.clients[c].wire[p].event, s.clients[c].wire[q].event;
            i <= j < |s.handled| && (IsMulticast(s.handled[j]) ==> i < j)
  {
    var s := run[t];
    WiredWasSent(cfg, heartbeat, run, t, c, p);
    WiredWasSent(cfg, heartbeat, run, t, c, q);
    StreamInOrder(s.outs, c, p, q);
    var j := s.clients[c].wire[q].event;
    if IsMulticast(s.handled[j]) {
      MulticastIsSharedOnce(cfg, Before(cfg, s, j), s.handled[j], s.outs[j], j, c);
    }
  }

  /** Total order: two clients that both receive the same two multicasts see them in the same order. */
  lemma MulticastsAreTotallyOrdered(cfg: Config, heartbeat: Guid, run: seq<System>, t: nat, a: Guid, b: Guid,
                                    p: nat, q: nat, p': nat, q': nat)
    requires IsRun(cfg, heartbeat, run) && t < |run| && a in run[t].clients && b in run[t].clients
    requires var s := run[t];
             && p < q < |s.clients[a].wire| && p' < |s.clients[b].wire| && q' < |s.clients[b].wire|
             && s.clients[b].wire[p'].event == s.clients[a].wire[p].event
             && s.clients[b].wire[q'].event == s.clients[a].wire[q].event < |s.handled|
             && IsMulticast(s.handled[s.clients[a].wire[q].event])
    ensures p' < q'
  {
    WiresFollowEvents(cfg, heartbeat, run, t, a, p, q);
    if q' < p' {
      WiresFollowEvents(cfg, heartbeat, run, t, b, q', p');
    }
  }

  /** How many messages of the sender were handled before the event. */
  function Rank(events: seq<Event>, event: nat, c: Guid): nat
    requires event <= |events|
  {
    |MessagesOf(events[..event], c)|
  }

  lemma {:induction false} RankedMessages(events: seq<Event>, i: nat, c: Guid)
    requires i < |events| && events[i].Received? && events[i].client == c
    ensures Rank(events, i, c) < |MessagesOf(events, c)|
            && MessagesOf(events, c)[Rank(events, i, c)] == events[i].message
  {
    assert events == events[..i] + [events[i]] + events[i + 1..];
    MessagesConcat(events[..i] + [events[i]], events[i + 1..], c);
    MessagesAppend(events[..i], events[i], c);
  }

  lemma RanksFollowEvents(events: seq<Event>, i: nat, j: nat, c: Guid)
    requires i < j < |events| && events[i].Received? && events[i].client == c
    ensures Rank(events, i, c) < Rank(events, j, c)
  {
    assert events[..j][..i] == events[..i];
    RankedMessages(events[..j], i, c);
  }

  /** One publisher's multicasts reach every client in the order in which they were received from the
      publisher. */
  lemma PublishersOrderIsKept(cfg: Config, heartbeat: Guid, run: seq<System>, t: nat, publisher: Guid, c: Guid, p: nat,
                              q: nat)
    returns (m: nat, n: nat)
    requires IsRun(cfg, heartbeat, run) && t < |run| && c in run[t].clients && publisher in run[t].clients
    requires var s := run[t];
             && p < q < |s.clients[c].wire| && s.clients[c].wire[p].event < |s.handled|
                  && s.clients[c].wire[q].event < |s.handled|
             && (var e, e' := s.handled[s.clients[c].wire[p].event], s.handled[s.clients[c].wire[q].event];
                 IsMulticast(e) && IsMulticast(e') && e.client == publisher == e'.client)
    ensures var s := run[t];
            && m < n < |s.clients[publisher].received|
            && s.clients[publisher].received[m] == s.handled[s.clients[c].wire[p].event].message
            && s.clients[publisher].received[n] == s.handled[s.clients[c].wire[q].event].message
  {
    var s := run[t];
    var i, j := s.clients[c].wire[p].event, s.clients[c].wire[q].event;
    WiresFollowEvents(cfg, heartbeat, run, t, c, p, q);
    RunsKeep(cfg, heartbeat, run, t);
    assert InOrder(s, publisher);
    MessagesConcat(s.handled, s.events, publisher);
    RankedMessages(s.handled, i, publisher);
    RankedMessages(s.handled, j, publisher);
    RanksFollowEvents(s.handled, i, j, publisher);
    m, n := Rank(s.handled, i, publisher), Rank(s.handled, j, publisher);
  }

  // ----- Delivery and entitlements on the wire -----

  lemma {:induction false} SentIsShared(event: nat, out: seq<Send>, x: Send)
    requires x in out
    ensures Tagged(event, x.message) in Share(event, out, x.to)
  {
    if out[0] != x {
      SentIsShared(event, out[1..], x);
    }
  }

  lemma {:induction false} SharedIsStreamed(outs: seq<seq<Send>>, k: nat, x: Send)
    requires k < |outs| && x in outs[k]
    ensures Tagged(k, x.message) in Stream(outs, x.to)
    decreases |outs|
  {
    var n := |outs| - 1;
    if k == n {
      SentIsShared(n, outs[n], x);
    } else {
      SharedIsStreamed(outs[..n], k, x);
    }
  }

  lemma SendsAreEmitted(a: Addressed, out: seq<Send>, x: Send)
    requires Emits(a, out) && x in a.first + a.second
    ensures x in out
  {
    var n :| 0 <= n <= |out| && Lists(out[..n], a.first) && Lists(out[n..], a.second);
    assert x in out[..n] || x in out[n..];
  }

  /** Nothing is lost: while a client is not cancelled and the loop is done with its last event, every
      message that an event has addressed to the client is on its wire or waits in its queue, and these
      hold nothing else. */
  lemma NothingIsLost(cfg: Config, heartbeat: Guid, run: seq<System>, t: nat, c: Guid)
    requires IsRun(cfg, heartbeat, run) && t < |run| && c in run[t].clients && run[t].pending == []
    requires !run[t].clients[c].cancelled && !run[t].clients[c].writer.Over?
    ensures var s := run[t];
            var got := s.clients[c].wire + s.clients[c].queue;
            && got == Stream(s.outs, c)
            && forall k: nat, m :: k < |s.handled| ==>
                 (Tagged(k, m) in got <==>
                  Send(c, m) in Sends(cfg, Before(cfg, s, k), s.handled[k]).first
                  + Sends(cfg, Before(cfg, s, k), s.handled[k]).second)
  {
    var s := run[t];
    RunsKeep(cfg, heartbeat, run, t);
    assert Queued(s, c);
    var got := s.clients[c].wire + s.clients[c].queue;
    assert got + [] == got;
    assert s.handled == [] ==> s.outs == [];
    forall k: nat, m | k < |s.handled|
      ensures Tagged(k, m) in got <==>
              Send(c, m) in Sends(cfg, Before(cfg, s, k), s.handled[k]).first
                  + Sends(cfg, Before(cfg, s, k), s.handled[k]).second
    {
      var sends := Sends(cfg, State(cfg, s.handled[..k]), s.handled[k]);
      assert Emits(sends, s.outs[k]);
      if Tagged(k, m) in got {
        var p :| 0 <= p < |got| && got[p] == Tagged(k, m);
        StreamInOrder(s.outs, c, p, p);
        EmittedAreSends(sends, s.outs[k], Send(c, m));
      }
      if Send(c, m) in sends.first + sends.second {
        SendsAreEmitted(sends, s.outs[k], Send(c, m));
        SharedIsStreamed(s.outs, k, Send(c, m));
      }
    }
  }

  /** Entitlement safety on the wire: in every run, every packet that is written to a client on a topic is
      allowed by an authorization accepted, before that packet's event was handled, for that client, feed
      and topic. */
  lemma WiresAreEntitled(cfg: Config, heartbeat: Guid, run: seq<System>, t: nat, c: Guid, p: nat,
                         feed: Text, topic: Text, packet: Packet<set<int>>) returns (j: nat, info: Info)
    requires IsRun(cfg, heartbeat, run) && t < |run| && c in run[t].clients && p < |run[t].clients[c].wire|
    requires Safety.Carries(run[t].clients[c].wire[p].message, feed, topic, packet)
    ensures var s := run[t];
            && j < s.clients[c].wire[p].event && j < |s.handled|
            && Safety.Accepted(cfg, Before(cfg, s, j), s.handled[j]) == Some(Safety.Grant(Key(feed, topic, c), info))
            && Safety.Allows(info, packet)
  {
    var s := run[t];
    WiredWasSent(cfg, heartbeat, run, t, c, p);
    var x := s.clients[c].wire[p];
    j, info := Safety.EntitlementSafety(cfg, s.handled, x.event, Send(c, x.message), feed, topic, packet);
  }

  // ----- A request that comes late -----

  lemma Grows(cfg: Config, heartbeat: Guid, run: seq<System>, s: System)
    requires IsRun(cfg, heartbeat, run) && Next(cfg, heartbeat, run[|run| - 1], s)
    ensures IsRun(cfg, heartbeat, run + [s])
  {
    hide Next, Starts;
    var longer := run + [s];
    forall i | 0 <= i < |longer| - 1 ensures Next(cfg, heartbeat, longer[i], longer[i + 1]) {
      if i < |run| - 1 {
        assert longer[i] == run[i] && longer[i + 1] == run[i + 1];
      }
    }
  }

  lemma SendsNothing(a: Addressed)
    requires a == NOWHERE
    ensures Emits(a, [])
  {
    assert Lists([][..0], a.first) && Lists([][0..], a.second);
  }

  lemma SendsOne(a: Addressed, s: Send)
    requires a == Addressed({s}, {})
    ensures Emits(a, [s])
  {
    assert [s][..1] == [s] && [s][1..] == [] && s in [s];
    assert Lists([s][..1], a.first) && Lists([s][1..], a.second);
  }

  /** The loop takes the event that has just been read and has nothing to send. */
  lemma GrowsByRequest(cfg: Config, heartbeat: Guid, run: seq<System>, c: Guid, m: Msg) returns (longer: seq<System>)
    requires IsRun(cfg, heartbeat, run)
    requires var s := run[|run| - 1];
             && s.events == [] && s.pending == [] && c in s.clients && s.clients[c].reader.Running?
             && MessageSends(cfg, s.broker, c, m) == {}
    ensures longer != [] && IsRun(cfg, heartbeat, longer)
    ensures var s, s' := run[|run| - 1], longer[|longer| - 1];
            && s'.broker == AfterMessage(cfg, s.broker, c, m) && s'.events == [] && s'.pending == []
            && s'.handled == s.handled + [Received(c, m)]
            && s'.clients == s.clients[c := s.clients[c].(received := s.clients[c].received + [m])]
  {
    assert run != [];
    hide IsRun, AfterMessage, MessageSends;
    var s := run[|run| - 1];
    var read := s.(clients := s.clients[c := s.clients[c].(received := s.clients[c].received + [m])],
                   events := s.events + [Received(c, m)]);
    assert Reads(s, read, c, m) && ClientStep(s, read, heartbeat, c);
    Grows(cfg, heartbeat, run, read);
    SendsNothing(Sends(cfg, read.broker, read.events[0]));
    longer := GrowsByTurn(cfg, heartbeat, run + [read], []);
  }

  /** The loop takes its next event. */
  lemma GrowsByTurn(cfg: Config, heartbeat: Guid, run: seq<System>, out: seq<Send>) returns (longer: seq<System>)
    requires IsRun(cfg, heartbeat, run)
    requires var s := run[|run| - 1];
             s.pending == [] && s.events != [] && Emits(Sends(cfg, s.broker, s.events[0]), out)
    ensures longer != [] && IsRun(cfg, heartbeat, longer)
    ensures var s, s' := run[|run| - 1], longer[|longer| - 1];
            && s'.broker == After(cfg, s.broker, s.events[0]) && s'.events == s.events[1..] && s'.pending == out
            && s'.handled == s.handled + [s.events[0]] && s'.clients == Handled(s.clients, s.events[0])
  {
    assert run != [];
    hide IsRun, After, Sends, Emits, Handled;
    var s := run[|run| - 1];
    var s' := s.(broker := After(cfg, s.broker, s.events[0]), events := s.events[1..],
                 handled := s.handled + [s.events[0]], outs := s.outs + [out], pending := out,
                 clients := Handled(s.clients, s.events[0]));
    assert Dispatches(cfg, s, s', out);
    longer := run + [s'];
    Grows(cfg, heartbeat, run, s');
  }

  /** A client connects, and the loop starts its threads. */
  lemma ConnectedRun(cfg: Config, heartbeat: Guid, c: Guid) returns (run: seq<System>)
    requires c != heartbeat
    ensures run != [] && IsRun(cfg, heartbeat, run)
    ensures var s := run[|run| - 1];
            && s.broker == INITIAL.(live := {c}) && s.events == [] && s.pending == []
            && s.clients == map[heartbeat := NEW_CLIENT, c := NEW_CLIENT.(reader := Running, writer := Running)]
  {
    var s := System(INITIAL, [], [], [], [], map[heartbeat := NEW_CLIENT]);
    var s' := s.(clients := s.clients[c := NEW_CLIENT], events := s.events + [Connected(c)]);
    assert Connects(s, s', c) && ClientStep(s, s', heartbeat, c);
    Grows(cfg, heartbeat, [s], s');
    SendsNothing(Sends(cfg, s'.broker, s'.events[0]));
    run := GrowsByTurn(cfg, heartbeat, [s] + [s'], []);
  }

  /** A client subscribes and asks for notifications, so that a message waits for its writer. */
  lemma WaitingRun(cfg: Config, heartbeat: Guid, c: Guid, feed: Text, topic: Text) returns (run: seq<System>)
    requires c != heartbeat && !cfg.isAuthorizationRequired && cfg.hasRole(c, feed, Subscribe)
    ensures run != [] && IsRun(cfg, heartbeat, run)
    ensures var s, k := run[|run| - 1], Key(feed, topic, c);
            && s.broker == Broker({c}, map[k := SubState(0, Granted(false, None))], {(feed, c)}, {},
                                  map[k := Granted(false, None)])
            && s.events == [] && s.pending == [] && c in s.clients && s.clients[c].queue != []
            && s.clients[c].reader.Running? && s.clients[c].writer.Running?
  {
    hide IsRun;
    var k := Key(feed, topic, c);
    run := ConnectedRun(cfg, heartbeat, c);
    run := GrowsByRequest(cfg, heartbeat, run, c, SubscriptionRequest(feed, topic, true));
    var s := run[|run| - 1];
    var note := NotificationRequest(feed, true);
    var sent := Send(c, Forwarded(cfg, c, feed, topic, true));
    assert MessageSends(cfg, s.broker, c, note) == {sent} by {
      assert k in s.broker.subs;
    }
    var read := s.(clients := s.clients[c := s.clients[c].(received := s.clients[c].received + [note])],
                   events := s.events + [Received(c, note)]);
    assert Reads(s, read, c, note) && ClientStep(s, read, heartbeat, c);
    Grows(cfg, heartbeat, run, read);
    SendsOne(Sends(cfg, read.broker, read.events[0]), sent);
    run := GrowsByTurn(cfg, heartbeat, run + [read], [sent]);
    s := run[|run| - 1];
    var queued := s.clients[c].(queue := s.clients[c].queue + [Tagged(|s.handled| - 1, sent.message)]);
    var delivered := s.(pending := s.pending[1..], clients := s.clients[c := queued]);
    assert Delivers(s, delivered);
    Grows(cfg, heartbeat, run, delivered);
    run := run + [delivered];
  }

  /** Its writer fails, and its reader receives one more request before it is cancelled. */
  lemma FailingRun(cfg: Config, heartbeat: Guid, run: seq<System>, c: Guid, failure: Failure, m: Msg)
    returns (longer: seq<System>)
    requires IsRun(cfg, heartbeat, run)
    requires var s := run[|run| - 1];
             && s.events == [] && s.pending == [] && c in s.clients && s.clients[c].queue != []
             && s.clients[c].reader.Running? && s.clients[c].writer.Running?
    ensures longer != [] && IsRun(cfg, heartbeat, longer)
    ensures var s, s' := run[|run| - 1], longer[|longer| - 1];
            && s'.broker == s.broker && s'.pending == [] && s'.events == [Errored(c, failure), Received(c, m)]
  {
    assert run != [];
    hide IsRun;
    var s := run[|run| - 1];
    var cl := s.clients[c];
    var over := cl.(queue := cl.queue[1..], taken := cl.taken + [cl.queue[0]], writer := Over);
    var failed := s.(clients := s.clients[c := over], events := s.events + [Errored(c, failure)]);
    assert WriteFails(s, failed, c, failure) && ClientStep(s, failed, heartbeat, c);
    Grows(cfg, heartbeat, run, failed);
    var read := failed.(clients := failed.clients[c := over.(received := over.received + [m])],
                        events := failed.events + [Received(c, m)]);
    assert failed.clients[c] == over;
    assert Reads(failed, read, c, m) && ClientStep(failed, read, heartbeat, c);
    Grows(cfg, heartbeat, run + [failed], read);
    longer := run + [failed] + [read];
  }

  /** The end removes the client from the stores; its late request finds the authorization and subscribes it. */
  lemma LateRequestSubscribes(cfg: Config, b: Broker, c: Guid, feed: Text, topic: Text, failure: Failure)
    requires cfg.hasRole(c, feed, Subscribe) && Key(feed, topic, c) in b.auths && b.pubs == {} && b.notes == {(feed, c)}
    ensures var ended, late := Errored(c, failure), Received(c, SubscriptionRequest(feed, topic, true));
            var b' := After(cfg, b, ended);
            && Sends(cfg, b, ended) == NOWHERE && Sends(cfg, b', late) == NOWHERE
            && c !in After(cfg, b', late).live && Key(feed, topic, c) in After(cfg, b', late).subs
  {
    var b' := Ended(b, c);
    assert b'.notes == {} && Notifiables(b'.notes, feed) == {};
    assert StaleTopics(b.pubs, c) == {};
  }

  /** The source forgets a client that has ended only if no request of it comes late. Here the writer of a client
      fails, its reader receives one more subscription before it is cancelled, and the broker ends with a
      subscription of a client that is not live. `StaysForgottenExactlyWhen` of `Safety` has the condition. */
  lemma LateRequestIsKept(cfg: Config, heartbeat: Guid, c: Guid, feed: Text, topic: Text, failure: Failure)
    returns (run: seq<System>)
    requires c != heartbeat && !cfg.isAuthorizationRequired && cfg.hasRole(c, feed, Subscribe)
    ensures run != [] && IsRun(cfg, heartbeat, run)
    ensures var s := run[|run| - 1];
            && Errored(c, failure) in s.handled && c !in s.broker.live
            && s.events == [] && s.pending == [] && Key(feed, topic, c) in s.broker.subs
  {
    hide IsRun, After, Sends, Emits;
    run := WaitingRun(cfg, heartbeat, c, feed, topic);
    LateRequestSubscribes(cfg, run[|run| - 1].broker, c, feed, topic, failure);
    run := FailingRun(cfg, heartbeat, run, c, failure, SubscriptionRequest(feed, topic, true));
    SendsNothing(NOWHERE);
    run := GrowsByTurn(cfg, heartbeat, run, []);
    run := GrowsByTurn(cfg, heartbeat, run, []);
  }
}
