/** Who is to be told of subscriptions to which feed
    (core/src/JetBlack.MessageBus.Distributor/Notifiers/NotificationRepository.cs). */
module Notifications {
  import opened Options
  import opened Messages
  import opened Broker
  import opened Sets

  type FeedNotifiables = map<Text, set<Guid>>

  ghost function NotesOf(feeds: FeedNotifiables): set<(Text, Guid)> {
    set f, c | f in feeds && c in feeds[f] :: (f, c)
  }

  ghost predicate NoEmptyFeeds(feeds: FeedNotifiables) {
    forall f :: f in feeds ==> feeds[f] != {}
  }

  lemma NotesAfterPut(feeds: FeedNotifiables, feed: Text, clients: set<Guid>)
    ensures NotesOf(feeds[feed := clients]) == (set n | n in NotesOf(feeds) && n.0 != feed)
            + (set c | c in clients :: (feed, c))
  {
  }

  lemma NotesAfterDrop(feeds: FeedNotifiables, drop: set<Text>)
    ensures NotesOf(feeds - drop) == set n | n in NotesOf(feeds) && n.0 !in drop
  {
  }

  /** Those of the feeds that only this client watches. */
  ghost function OnlyOf(before: FeedNotifiables, feeds: set<Text>, interactor: Guid): set<Text> {
    set f | f in feeds && f in before && before[f] == {interactor}
  }

  /** The requests after the client has been taken out of some of the feeds. */
  ghost function Struck(before: FeedNotifiables, feeds: set<Text>, interactor: Guid): FeedNotifiables {
    map f | f in before :: if f in feeds then before[f] - {interactor} else before[f]
  }

  lemma OneMoreFeed(before: FeedNotifiables, feeds: set<Text>, interactor: Guid, feed: Text)
    requires feed in before && interactor in before[feed] && feed !in feeds
    ensures feed in Struck(before, feeds, interactor) && Struck(before, feeds, interactor)[feed] == before[feed]
    ensures Struck(before, feeds + {feed}, interactor)
            == Struck(before, feeds, interactor)[feed := before[feed] - {interactor}]
    ensures OnlyOf(before, feeds + {feed}, interactor)
            == OnlyOf(before, feeds, interactor) + if before[feed] - {interactor} == {} then {feed} else {}
  {
    assert before[feed] - {interactor} == {} <==> before[feed] == {interactor};
  }

  lemma NoFeeds(before: FeedNotifiables, interactor: Guid)
    ensures Struck(before, {}, interactor) == before && OnlyOf(before, {}, interactor) == {}
  {
  }

  lemma AllFeeds(before: FeedNotifiables, feeds: set<Text>, interactor: Guid)
    requires NoEmptyFeeds(before) && feeds == set f | f in before && interactor in before[f]
    ensures var after := Struck(before, feeds, interactor) - OnlyOf(before, feeds, interactor);
            NoEmptyFeeds(after) && NotesOf(after) == set n | n in NotesOf(before) && n.1 != interactor
  {
    var struck := Struck(before, feeds, interactor);
    forall f | f in before ensures f in OnlyOf(before, feeds, interactor) <==> struck[f] == {} {
      if f in feeds { assert before[f] - {interactor} == {} <==> before[f] == {interactor}; }
    }
    NotesAfterDrop(struck, OnlyOf(before, feeds, interactor));
    assert NotesOf(struck) == set n | n in NotesOf(before) && n.1 != interactor;
  }

  class NotificationRepository {
    var feedToNotifiables: FeedNotifiables

    ghost predicate Valid()
      reads this
    {
      NoEmptyFeeds(feedToNotifiables)
    }

    ghost function Notes(): set<(Text, Guid)>
      reads this
    {
      NotesOf(feedToNotifiables)
    }

    constructor ()
      ensures Valid() && Notes() == {}
    {
      feedToNotifiables := map[];
    }

    /** Removes the interactor where it is notifiable, and then the feeds that are left without any. */
    method RemoveInteractor(interactor: Guid)
      requires Valid()
      modifies this
      ensures Valid() && Notes() == set n | n in old(Notes()) && n.1 != interactor
    {
      hide NotesOf, NoEmptyFeeds, Struck, OnlyOf;
      var feedsWithoutInteractors := {};
      var rest := set f | f in feedToNotifiables && interactor in feedToNotifiables[f];
      ghost var all, before := rest, feedToNotifiables;
      NoFeeds(before, interactor);
      NoneTaken(all);
      while rest != {}
        invariant rest <= all && feedToNotifiables == Struck(before, all - rest, interactor)
        invariant feedsWithoutInteractors == OnlyOf(before, all - rest, interactor)
        decreases |rest|
      {
        var feed :| feed in rest;
        OneMoreFeed(before, all - rest, interactor, feed);
        OneTaken(all, rest, feed);
        var feedInteractors := feedToNotifiables[feed] - {interactor};
        feedToNotifiables := feedToNotifiables[feed := feedInteractors];
        if feedInteractors == {} {
          feedsWithoutInteractors := feedsWithoutInteractors + {feed};
        }
        rest := rest - {feed};
      }
      AllTaken(all, rest);
      AllFeeds(before, all, interactor);
      feedToNotifiables := feedToNotifiables - feedsWithoutInteractors;
    }

    /** Whether the request is new. */
    method AddRequest(notifiable: Guid, feed: Text) returns (isNew: bool)
      requires Valid()
      modifies this
      ensures Valid() && Notes() == old(Notes()) + {(feed, notifiable)}
      ensures isNew <==> (feed, notifiable) !in old(Notes())
    {
      var notifiables := {};
      if feed in feedToNotifiables {
        notifiables := feedToNotifiables[feed];
        if notifiable in notifiables {
          return false;
        }
      }
      feedToNotifiables := feedToNotifiables[feed := notifiables + {notifiable}];
      assert notifiable in feedToNotifiables[feed];
      isNew := true;
    }

    method RemoveRequest(notifiable: Guid, feed: Text)
      requires Valid()
      modifies this
      ensures Valid() && Notes() == old(Notes()) - {(feed, notifiable)}
    {
      if feed !in feedToNotifiables {
        return;
      }
      var notifiables := feedToNotifiables[feed];
      if notifiable !in notifiables {
        return;
      }
      notifiables := notifiables - {notifiable};
      NotesAfterPut(feedToNotifiables, feed, notifiables);
      NotesAfterDrop(feedToNotifiables, {feed});
      if notifiables != {} {
        feedToNotifiables := feedToNotifiables[feed := notifiables];
      } else {
        feedToNotifiables := feedToNotifiables - {feed};
      }
    }

    function FindNotifiables(feed: Text): (r: Option<set<Guid>>)
      requires Valid()
      reads this
      ensures r.Some? ==> r.value != {} && forall c: Guid :: c in r.value <==> (feed, c) in Notes()
      ensures r.None? ==> forall c: Guid :: (feed, c) !in Notes()
    {
      if feed in feedToNotifiables then Some(feedToNotifiables[feed]) else None
    }
  }
}
