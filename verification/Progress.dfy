/** What the broker can always still do between its threads
    (core/src/JetBlack.MessageBus.Distributor/EventQueue.cs:41-69, Interactors/Interactor.cs:240-261): in whatever
    state a run stands, the loop can handle all events that wait, and the writers can write all that is addressed. */
module Progress {
  import opened Messages
  import opened Broker
  import opened Runs
  import Safety

  function Last(run: seq<System>): System
    requires run != []
  {
    run[|run| - 1]
  }

  ghost predicate Continues(cfg: Config, heartbeat: Guid, run: seq<System>, longer: seq<System>) {
    run != [] && run <= longer && IsRun(cfg, heartbeat, longer)
  }

  /** The same clients with the same threads. */
  ghost predicate SameThreads(s: System, s': System) {
    && s'.clients.Keys == s.clients.Keys
    && forall c :: c in s.clients ==>
         && s'.clients[c].writer == s.clients[c].writer && s'.clients[c].cancelled == s.clients[c].cancelled
         && s'.clients[c].reader == s.clients[c].reader && s'.clients[c].received == s.clients[c].received
  }

  /** The client's writer runs. */
  ghost predicate Served(s: System, c: Guid) {
    c in s.clients && s.clients[c].writer.Running? && !s.clients[c].cancelled
  }

  // ----- Any order will do -----

  lemma {:induction false} Enumerated(elements: set<Send>) returns (s: seq<Send>)
    ensures Lists(s, elements)
    decreases |elements|
  {
    s := [];
    if elements != {} {
      var x :| x in elements;
      var rest := Enumerated(elements - {x});
      s := [x] + rest;
      forall i, j | 0 <= i < j < |s| ensures s[i] != s[j] {
        assert s[j] == rest[j - 1] && rest[j - 1] in rest;
        if i > 0 { assert s[i] == rest[i - 1]; }
      }
    }
  }

  lemma SomeOrder(a: Addressed) returns (out: seq<Send>)
    ensures Emits(a, out)
  {
    var first := Enumerated(a.first);
    var second := Enumerated(a.second);
    out := first + second;
    assert out[..|first|] == first && out[|first|..] == second;
  }

  // ----- The loop empties what it has to send -----

  /** Every run can go on with one more step. */
  lemma OneMore(cfg: Config, heartbeat: Guid, run: seq<System>, s: System) returns (longer: seq<System>)
    requires run != [] && IsRun(cfg, heartbeat, run) && Next(cfg, heartbeat, Last(run), s)
    ensures Continues(cfg, heartbeat, run, longer) && Last(longer) == s
  {
    hide Next, IsRun;
    Grows(cfg, heartbeat, run, s);
    longer := run + [s];
  }

  /** What delivering leaves as it is. */
  ghost predicate OnlyDelivered(s: System, s': System) {
    s'.events == s.events && s'.handled == s.handled && s'.broker == s.broker && SameThreads(s, s')
  }

  lemma NextIsDelivered(s: System) returns (s': System)
    requires s.pending != [] && s.handled != []
    ensures Delivers(s, s') && OnlyDelivered(s, s') && |s'.pending| < |s.pending|
  {
    var c, m := s.pending[0].to, Tagged(|s.handled| - 1, s.pending[0].message);
    var clients := if c in s.clients && !s.clients[c].cancelled
                   then s.clients[c := s.clients[c].(queue := s.clients[c].queue + [m])] else s.clients;
    s' := s.(pending := s.pending[1..], clients := clients);
  }

  lemma {:induction false} PendingIsSent(cfg: Config, heartbeat: Guid, run: seq<System>) returns (longer: seq<System>)
    requires run != [] && IsRun(cfg, heartbeat, run)
    ensures Continues(cfg, heartbeat, run, longer)
    ensures Last(longer).pending == [] && OnlyDelivered(Last(run), Last(longer))
    decreases |Last(run).pending|
  {
    hide Next, Kept, IsRun, Delivers;
    var s := Last(run);
    longer := run;
    if s.pending != [] {
      RunsKeep(cfg, heartbeat, run, |run| - 1);
      HandledBeforePending(cfg, s);
      var s' := NextIsDelivered(s);
      DeliveryIsNext(cfg, heartbeat, s, s');
      var more := OneMore(cfg, heartbeat, run, s');
      longer := PendingIsSent(cfg, heartbeat, more);
    }
  }

  lemma HandledBeforePending(cfg: Config, s: System)
    requires Kept(cfg, s) && s.pending != []
    ensures s.handled != []
  {
  }

  lemma DeliveryIsNext(cfg: Config, heartbeat: Guid, s: System, s': System)
    requires Delivers(s, s')
    ensures Next(cfg, heartbeat, s, s')
  {
  }

  // ----- The loop handles what waits -----

  /** A client that is served stays so while no end of it is handled. */
  lemma StaysServed(s: System, s': System, e: Event, c: Guid)
    requires Served(s, c) && s'.clients == Handled(s.clients, e) && !Safety.Ends(e, c)
    ensures Served(s', c)
  {
  }

  lemma {:induction false} EventsAreHandled(cfg: Config, heartbeat: Guid, run: seq<System>)
    returns (longer: seq<System>)
    requires run != [] && IsRun(cfg, heartbeat, run)
    ensures Continues(cfg, heartbeat, run, longer)
    ensures var s, s' := Last(run), Last(longer);
            && s'.pending == [] && s'.events == [] && s'.handled == s.handled + s.events
            && s'.clients.Keys == s.clients.Keys
            && forall c :: Served(s, c) && (forall e :: e in s.events ==> !Safety.Ends(e, c)) ==> Served(s', c)
    decreases |Last(run).events|
  {
    hide Next, IsRun, Emits, After, Sends, Handled;
    var s0 := Last(run);
    var idle := PendingIsSent(cfg, heartbeat, run);
    var s := Last(idle);
    longer := idle;
    if s.events != [] {
      var e := s.events[0];
      var out := SomeOrder(Sends(cfg, s.broker, e));
      var turned := Turn(cfg, heartbeat, idle, out);
      var s1 := Last(turned);
      longer := EventsAreHandled(cfg, heartbeat, turned);
      var s' := Last(longer);
      assert s.handled + [e] + s.events[1..] == s.handled + s.events;
      forall c | Served(s0, c) && (forall e :: e in s0.events ==> !Safety.Ends(e, c)) ensures Served(s', c) {
        assert Served(s, c) && e in s.events;
        StaysServed(s, s1, e, c);
        assert forall e :: e in s1.events ==> e in s.events;
      }
    }
  }

  lemma Turn(cfg: Config, heartbeat: Guid, run: seq<System>, out: seq<Send>) returns (longer: seq<System>)
    requires run != [] && IsRun(cfg, heartbeat, run)
    requires var s := Last(run);
             s.pending == [] && s.events != [] && Emits(Sends(cfg, s.broker, s.events[0]), out)
    ensures Continues(cfg, heartbeat, run, longer)
    ensures var s, s' := Last(run), Last(longer);
            && s'.events == s.events[1..] && s'.handled == s.handled + [s.events[0]]
            && s'.clients == Handled(s.clients, s.events[0]) && s'.clients.Keys == s.clients.Keys
  {
    hide IsRun, After, Sends, Emits, Next;
    var s := Last(run);
    var s' := s.(broker := After(cfg, s.broker, s.events[0]), events := s.events[1..],
                 handled := s.handled + [s.events[0]], outs := s.outs + [out], pending := out,
                 clients := Handled(s.clients, s.events[0]));
    DispatchIsNext(cfg, heartbeat, s, s', out);
    longer := OneMore(cfg, heartbeat, run, s');
  }

  lemma DispatchIsNext(cfg: Config, heartbeat: Guid, s: System, s': System, out: seq<Send>)
    requires Dispatches(cfg, s, s', out)
    ensures Next(cfg, heartbeat, s, s')
  {
  }

  // ----- The writers empty their queues -----

  lemma WritingIsNext(cfg: Config, heartbeat: Guid, s: System, s': System, c: Guid)
    requires Writes(s, s', c)
    ensures Next(cfg, heartbeat, s, s')
  {
    assert ClientStep(s, s', heartbeat, c);
  }

  /** Nothing has changed but for what the clients' writers have done. */
  ghost predicate OnlyWritten(s: System, s': System) {
    s' == s.(clients := s'.clients) && SameThreads(s, s')
  }

  /** What the writer of one client leaves as it is. */
  ghost predicate OnlyWrittenTo(s: System, s': System, c: Guid) {
    OnlyWritten(s, s') && forall d :: d in s.clients && d != c ==> s'.clients[d] == s.clients[d]
  }

  lemma NextIsWritten(s: System, c: Guid) returns (s': System)
    requires Served(s, c) && s.clients[c].queue != []
    ensures Writes(s, s', c) && OnlyWrittenTo(s, s', c) && Served(s', c)
    ensures |s'.clients[c].queue| < |s.clients[c].queue|
  {
    var cl := s.clients[c];
    s' := s.(clients := s.clients[c := cl.(queue := cl.queue[1..], taken := cl.taken + [cl.queue[0]],
                                           wire := cl.wire + [cl.queue[0]])]);
  }

  lemma {:induction false} QueueIsWritten(cfg: Config, heartbeat: Guid, run: seq<System>, c: Guid)
    returns (longer: seq<System>)
    requires run != [] && IsRun(cfg, heartbeat, run) && Served(Last(run), c)
    ensures Continues(cfg, heartbeat, run, longer)
    ensures OnlyWrittenTo(Last(run), Last(longer), c) && Last(longer).clients[c].queue == []
    decreases |Last(run).clients[c].queue|
  {
    hide Next, IsRun, Writes;
    var s := Last(run);
    longer := run;
    if s.clients[c].queue != [] {
      var s' := NextIsWritten(s, c);
      WritingIsNext(cfg, heartbeat, s, s', c);
      var more := OneMore(cfg, heartbeat, run, s');
      longer := QueueIsWritten(cfg, heartbeat, more, c);
    }
  }

  lemma {:induction false} QueuesAreWritten(cfg: Config, heartbeat: Guid, run: seq<System>, cs: set<Guid>)
    returns (longer: seq<System>)
    requires run != [] && IsRun(cfg, heartbeat, run) && cs <= Last(run).clients.Keys
    ensures Continues(cfg, heartbeat, run, longer)
    ensures var s, s' := Last(run), Last(longer);
            && OnlyWritten(s, s')
            && (forall c :: c in cs && Served(s, c) ==> s'.clients[c].queue == [])
            && (forall d :: d in s.clients && s.clients[d].queue == [] ==> s'.clients[d].queue == [])
    decreases |cs|
  {
    hide Next, IsRun;
    longer := run;
    if cs != {} {
      var c :| c in cs;
      var shorter := run;
      if Served(Last(run), c) {
        shorter := QueueIsWritten(cfg, heartbeat, run, c);
      }
      longer := QueuesAreWritten(cfg, heartbeat, shorter, cs - {c});
    }
  }

  // ----- Everything is delivered -----

  /** Every run can go on, without any further event, to a state in which the loop has handled all events that
      waited, in order, and every client whose writer runs, and of which no end waited, has on its wire exactly the
      messages that the events have addressed to it. */
  lemma RunsCanSettle(cfg: Config, heartbeat: Guid, run: seq<System>) returns (longer: seq<System>)
    requires run != [] && IsRun(cfg, heartbeat, run)
    ensures Continues(cfg, heartbeat, run, longer)
    ensures var s, s' := Last(run), Last(longer);
            && s'.events == [] && s'.pending == [] && s'.handled == s.handled + s.events
            && s'.clients.Keys == s.clients.Keys
            && forall c :: Served(s, c) && (forall e :: e in s.events ==> !Safety.Ends(e, c)) ==>
                 Served(s', c) && Delivered(cfg, s', c)
  {
    hide IsRun, Delivered;
    var handled := EventsAreHandled(cfg, heartbeat, run);
    var s1 := Last(handled);
    longer := QueuesAreWritten(cfg, heartbeat, handled, s1.clients.Keys);
    var s, s' := Last(run), Last(longer);
    forall c | Served(s, c) && (forall e :: e in s.events ==> !Safety.Ends(e, c)) ensures Served(s', c)
        && Delivered(cfg, s', c)
    {
      assert Served(s1, c);
      EmptyQueueIsDelivered(cfg, heartbeat, longer, c);
    }
  }

  /** The client's wire holds the messages that the events so far have addressed to it and no others. */
  ghost predicate Delivered(cfg: Config, s: System, c: Guid)
    requires c in s.clients
  {
    forall k: nat, m :: k < |s.handled| ==>
      (Tagged(k, m) in s.clients[c].wire <==>
       Send(c, m) in Sends(cfg, Before(cfg, s, k), s.handled[k]).first
       + Sends(cfg, Before(cfg, s, k), s.handled[k]).second)
  }

  lemma EmptyQueueIsDelivered(cfg: Config, heartbeat: Guid, run: seq<System>, c: Guid)
    requires run != [] && IsRun(cfg, heartbeat, run)
    requires var s := Last(run); Served(s, c) && s.pending == [] && s.clients[c].queue == []
    ensures Delivered(cfg, Last(run), c)
  {
    hide IsRun, Sends, Before;
    var s := Last(run);
    NothingIsLost(cfg, heartbeat, run, |run| - 1, c);
    assert s.clients[c].wire + [] == s.clients[c].wire;
  }
}
