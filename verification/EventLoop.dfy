/** The event queue and its loop (core/src/JetBlack.MessageBus.Distributor/EventQueue.cs:29-69): events are
    handled one by one in the order in which they were added. */
module EventLoop {
  import opened Messages
  import opened Broker
  import Runs
  import opened Sequences
  import opened Interactors
  import opened Roles
  import opened Servers

  class EventQueue {
    var items: seq<InteractorEvent>

    constructor ()
      ensures items == []
    {
      items := [];
    }

    method Enqueue(item: InteractorEvent)
      modifies this
      ensures items == old(items) + [item]
    {
      items := items + [item];
    }

    method Take() returns (item: InteractorEvent)
      requires items != []
      modifies this
      ensures [item] + items == old(items)
    {
      item := items[0];
      items := items[1..];
    }
  }

  ghost function ClientsOf(items: seq<InteractorEvent>): set<Interactor> {
    set e | e in items :: e.interactor
  }

  ghost function ManagersOf(items: seq<InteractorEvent>): set<RoleManager> {
    set e | e in items :: e.interactor.roleManager
  }

  /** A client connects once, before its other events. */
  ghost predicate InTurn(known: set<Interactor>, items: seq<InteractorEvent>)
    decreases |items|
  {
    items != [] ==>
      var i := items[0].interactor;
      && (if items[0].InteractorConnected? then forall j :: j in known ==> j.id != i.id else i in known)
      && InTurn(known + {i}, items[1..])
  }

  /** The clients that are still to connect are as they were made, and share nothing with others. */
  ghost predicate Unused(cfg: Config, known: set<Interactor>, items: seq<InteractorEvent>)
    reads ClientsOf(items), ManagersOf(items)
  {
    forall e :: e in items && e.InteractorConnected? ==>
      && e.interactor.authorizations == map[] && e.interactor.roleManager.Valid() && Described(cfg, e.interactor)
      && (forall i :: i in known && i != e.interactor ==> i.roleManager != e.interactor.roleManager)
      && (forall f :: f in items && f.interactor != e.interactor ==>
            f.interactor.roleManager != e.interactor.roleManager)
  }

  lemma {:induction false} ConnectLater(known: set<Interactor>, items: seq<InteractorEvent>, e: InteractorEvent)
    requires InTurn(known, items) && e in items && e.InteractorConnected?
    ensures e.interactor !in known
    decreases |items|
  {
    if e != items[0] {
      ConnectLater(known + {items[0].interactor}, items[1..], e);
    }
  }

  function EventsOf(items: seq<InteractorEvent>): (es: seq<Event>)
    ensures |es| == |items|
  {
    seq(|items|, k requires 0 <= k < |items| => EventOf(items[k]))
  }

  function AllSends(outs: seq<seq<Send>>): seq<Send> {
    if outs == [] then [] else AllSends(outs[..|outs| - 1]) + outs[|outs| - 1]
  }

  /** The events after `past` have led to these sends. */
  ghost predicate Handled(cfg: Config, past: seq<Event>, es: seq<Event>, outs: seq<seq<Send>>) {
    && |outs| == |es|
    && forall k :: 0 <= k < |es| ==> Emits(Sends(cfg, State(cfg, past + es[..k]), es[k]), outs[k])
  }

  lemma HandledOneMore(cfg: Config, past: seq<Event>, es: seq<Event>, outs: seq<seq<Send>>, e: Event, out: seq<Send>)
    requires Handled(cfg, past, es, outs) && Emits(Sends(cfg, State(cfg, past + es), e), out)
    ensures Handled(cfg, past, es + [e], outs + [out])
    ensures State(cfg, past + (es + [e])) == After(cfg, State(cfg, past + es), e)
    ensures AllSends(outs + [out]) == AllSends(outs) + out
  {
    hide Emits, Sends, After;
    var es' := es + [e];
    assert (outs + [out])[..|outs|] == outs;
    assert (past + es')[..|past + es|] == past + es && (past + es')[|past + es|] == e;
    forall k | 0 <= k < |es'| ensures Emits(Sends(cfg, State(cfg, past + es'[..k]), es'[k]), (outs + [out])[k]) {
      assert es'[..k] == if k < |es| then es[..k] else es;
    }
  }

  lemma NextInTurn(cfg: Config, known: set<Interactor>, items: seq<InteractorEvent>)
    requires InTurn(known, items) && items != []
    ensures InTurn(known + {items[0].interactor}, items[1..])
    ensures items[0].InteractorConnected? ==> forall j :: j in known ==> j.id != items[0].interactor.id
    ensures !items[0].InteractorConnected? ==> items[0].interactor in known
  {
  }

  /** Handling one event keeps the waiting clients unused. */
  method HandleNext(server: Server, item: InteractorEvent, ghost rest: seq<InteractorEvent>)
    returns (ghost out: seq<Send>)
    requires server.Valid() && InTurn(server.known, [item] + rest) && Unused(server.cfg, server.known, [item] + rest)
    modifies server`known, server`clients, server`broker, server.interactors, server.subscriptions, server.publishers
    modifies server.notifications, server.outbox
    modifies server.known`authorizations, item.interactor.roleManager`feedDecision
    ensures server.Valid() && server.outbox.sent == old(server.outbox.sent) + out
    ensures server.broker == After(server.cfg, old(server.broker), EventOf(item))
    ensures Emits(Sends(server.cfg, old(server.broker), EventOf(item)), out)
    ensures server.known == old(server.known) + {item.interactor}
    ensures InTurn(server.known, rest) && Unused(server.cfg, server.known, rest)
  {
    hide Server.Valid, Emits, Sends, After, Described, RoleManager.Valid;
    ghost var items := [item] + rest;
    assert items[0] == item && items[1..] == rest && item in items;
    NextInTurn(server.cfg, server.known, items);
    forall e | e in rest && e.InteractorConnected?
      ensures e in items && e.interactor !in server.known + {item.interactor}
    {
      ConnectLater(server.known + {item.interactor}, rest, e);
    }
    server.ClientsById();
    out := server.OnInteractorEvent(item);
  }

  /** Takes and handles the events that are in the queue, until it is empty: the broker is then in the state
      to which all events so far lead, and for each of them the messages that it addresses have been sent. */
  method ProcessQueue(queue: EventQueue, server: Server, ghost past: seq<Event>) returns (ghost outs: seq<seq<Send>>)
    requires server.Valid() && InTurn(server.known, queue.items) && Unused(server.cfg, server.known, queue.items)
    requires server.broker == State(server.cfg, past)
    modifies queue, server`known, server`clients, server`broker, server.interactors, server.subscriptions,
        server.publishers
    modifies server.notifications, server.outbox
    modifies server.known`authorizations, ClientsOf(queue.items)`authorizations, ManagersOf(queue.items)`feedDecision
    ensures server.Valid() && queue.items == []
    ensures server.broker == State(server.cfg, past + EventsOf(old(queue.items)))
    ensures Handled(server.cfg, past, EventsOf(old(queue.items)), outs)
    ensures server.outbox.sent == old(server.outbox.sent) + AllSends(outs)
  {
    hide Server.Valid, Emits, Sends, After, State, InTurn, AllSends, Handled, Described, RoleManager.Valid;
    outs := [];
    ghost var all, sent0, known0 := queue.items, server.outbox.sent, server.known;
    ghost var done := 0;
    NothingHandled(server.cfg, past);
    assert sent0 + [] == sent0 && past + [] == past && EventsOf(all[..0]) == [];
    while queue.items != []
      invariant done <= |all| && queue.items == all[done..]
      invariant server.Valid() && InTurn(server.known, queue.items) && Unused(server.cfg, server.known, queue.items)
      invariant server.known <= known0 + ClientsOf(all)
      invariant server.broker == State(server.cfg, past + EventsOf(all[..done]))
      invariant Handled(server.cfg, past, EventsOf(all[..done]), outs)
      invariant server.outbox.sent == sent0 + AllSends(outs)
      decreases |queue.items|
    {
      var item := queue.Take();
      assert item == all[done] && item in all && [item] + queue.items == all[done..];
      ghost var out := HandleNext(server, item, queue.items);
      HandledOneMore(server.cfg, past, EventsOf(all[..done]), outs, EventOf(item), out);
      assert EventsOf(all[..done + 1]) == EventsOf(all[..done]) + [EventOf(item)];
      Grouped(sent0, AllSends(outs), out);
      outs := outs + [out];
      done := done + 1;
    }
    assert all[..done] == all;
  }

  // ----- The queues of runs -----

  ghost function IdsOf(known: set<Interactor>): set<Guid> {
    set i | i in known :: i.id
  }

  /** Where every id has one object, events are in turn if their ids are. */
  lemma {:induction false} InTurnById(known: set<Interactor>, items: seq<InteractorEvent>)
    requires Runs.InTurn(IdsOf(known), EventsOf(items)) && DistinctIds(known + ClientsOf(items))
    ensures InTurn(known, items)
    decreases |items|
  {
    if items != [] {
      var es, i := EventsOf(items), items[0].interactor;
      assert items[0] in items && i in known + ClientsOf(items);
      assert es[1..] == EventsOf(items[1..]);
      assert IdsOf(known + {i}) == IdsOf(known) + {i.id};
      assert ClientsOf(items) == {i} + ClientsOf(items[1..]) by {
        assert forall x :: x in items <==> x == items[0] || x in items[1..];
      }
      assert es[0].client == i.id && (es[0].Connected? <==> items[0].InteractorConnected?);
      if !es[0].Connected? {
        var j :| j in known && j.id == i.id;
        assert j in known + ClientsOf(items);
      }
      InTurnById(known + {i}, items[1..]);
    }
  }

  /** The events that wait in a state of a run are in turn for the objects of the clients whose events have
      been handled, so the loop may process them. */
  lemma QueuesOfRunsAreInTurn(cfg: Config, heartbeat: Guid, run: seq<Runs.System>, t: nat, known: set<Interactor>,
                              items: seq<InteractorEvent>)
    requires Runs.IsRun(cfg, heartbeat, run) && t < |run| && EventsOf(items) == run[t].events
    requires IdsOf(known) == {heartbeat} + Runs.ClientsOf(run[t].handled) && DistinctIds(known + ClientsOf(items))
    ensures InTurn(known, items)
  {
    Runs.RunsIntroduce(cfg, heartbeat, run, t);
    Runs.InTurnSplits({heartbeat}, run[t].handled, run[t].events);
    InTurnById(known, items);
  }

  lemma NothingHandled(cfg: Config, past: seq<Event>)
    ensures Handled(cfg, past, [], []) && AllSends([]) == []
  {
  }
}
