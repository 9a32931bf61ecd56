/** The connected clients: what each has been authorized for
    (core/src/JetBlack.MessageBus.Distributor/Interactors/Interactor.cs:191-211), and the store of the live
    ones with its index by feed and role (Interactors/InteractorRepository.cs). */
module Interactors {
  import opened Options
  import opened Messages
  import opened Broker
  import opened Roles
  import opened Sets

  /** The part of an authorization response that is used later. */
  datatype Response = Response(isAuthorizationRequired: bool, entitlements: Option<set<int>>)

  type Authorizations = map<Text, map<Text, Response>>

  /** An interactor is compared by its id. */
  class Interactor {
    const id: Guid
    const roleManager: RoleManager
    var authorizations: Authorizations

    constructor (id: Guid, roleManager: RoleManager)
      ensures this.id == id && this.roleManager == roleManager && authorizations == map[]
    {
      this.id, this.roleManager, authorizations := id, roleManager, map[];
    }

    /** The authorizations by feed and topic. */
    ghost function Given(): map<FeedTopic, Info>
      reads this
    {
      GivenBy(authorizations)
    }

    method SetAuthorization(feed: Text, topic: Text, authorization: Response)
      modifies this`authorizations
      ensures Given() == old(Given())[FeedTopic(feed, topic) := Granted(authorization.isAuthorizationRequired,
                                                                        authorization.entitlements)]
    {
      var topicAuthorizations := map[];
      if feed in authorizations {
        topicAuthorizations := authorizations[feed];
      }
      authorizations := authorizations[feed := topicAuthorizations[topic := authorization]];
      GivenAfterSet(old(authorizations), feed, topic, authorization);
    }

    function TryGetAuthorization(feed: Text, topic: Text): (r: Option<Response>)
      reads this
      ensures r.Some? <==> FeedTopic(feed, topic) in Given()
      ensures r.Some? ==> Given()[FeedTopic(feed, topic)] == Granted(r.value.isAuthorizationRequired,
                                                                     r.value.entitlements)
    {
      if feed in authorizations && topic in authorizations[feed] then
        assert FeedTopic(feed, topic) in Given();
        Some(authorizations[feed][topic])
      else
        None
    }

    /** Looks up the feed where the topic is meant. */
    predicate HasAuthorization(feed: Text, topic: Text)
      reads this
      ensures HasAuthorization(feed, topic) <==> FeedTopic(feed, feed) in Given()
    {
      var r := feed in authorizations && feed in authorizations[feed];
      assert r ==> FeedTopic(feed, feed) in Given();
      r
    }
  }

  ghost function GivenBy(authorizations: Authorizations): map<FeedTopic, Info> {
    var keys := set f, t | f in authorizations && t in authorizations[f] :: FeedTopic(f, t);
    map k | k in keys :: Granted(authorizations[k.feed][k.topic].isAuthorizationRequired,
                                 authorizations[k.feed][k.topic].entitlements)
  }

  lemma GivenAfterSet(authorizations: Authorizations, feed: Text, topic: Text, response: Response)
    ensures var topics := if feed in authorizations then authorizations[feed] else map[];
            GivenBy(authorizations[feed := topics[topic := response]]) ==
            GivenBy(authorizations)[FeedTopic(feed, topic) := Granted(response.isAuthorizationRequired,
                                                                      response.entitlements)]
  {
    var topics := if feed in authorizations then authorizations[feed] else map[];
    var after := authorizations[feed := topics[topic := response]];
    forall k ensures k in GivenBy(after) <==> k in GivenBy(authorizations) || k == FeedTopic(feed, topic) {
      assert k == FeedTopic(k.feed, k.topic);
    }
  }

  // ----- The index by feed and role -----

  type RoleIndex = map<Role, set<Guid>>

  type FeedIndex = map<Text, RoleIndex>

  predicate Listed(index: FeedIndex, feed: Text, role: Role, c: Guid) {
    feed in index && role in index[feed] && c in index[feed][role]
  }

  ghost predicate NoEmptyRoles(index: FeedIndex) {
    forall f, r :: f in index && r in index[f] ==> index[f][r] != {}
  }

  /** The client lists the feed and has the role on it. */
  predicate Serves(i: Interactor, feed: Text, role: Role) {
    feed in i.roleManager.feedPermissions && i.roleManager.May(feed, role)
  }

  /** The index holds exactly the live clients with the role on a feed that they list. */
  ghost predicate Indexes(index: FeedIndex, live: map<Guid, Interactor>) {
    && NoEmptyRoles(index)
    && (forall c :: c in live ==> live[c].id == c)
    && (forall f, r, c: Guid :: Listed(index, f, r, c) <==> c in live && Serves(live[c], f, r))
  }

  predicate Has(roles: RoleIndex, role: Role, c: Guid) {
    role in roles && c in roles[role]
  }

  ghost predicate NoEmptySets(roles: RoleIndex) {
    forall r :: r in roles ==> roles[r] != {}
  }

  function RolesWith(roles: RoleIndex, role: Role, c: Guid): RoleIndex {
    roles[role := (if role in roles then roles[role] else {}) + {c}]
  }

  lemma RolesWithHas(roles: RoleIndex, role: Role, c: Guid)
    ensures forall r, d: Guid :: Has(RolesWith(roles, role, c), r, d) <==> Has(roles, r, d) || (r == role && d == c)
    ensures NoEmptySets(roles) ==> NoEmptySets(RolesWith(roles, role, c))
  {
    assert c in RolesWith(roles, role, c)[role];
  }

  const ALL_ROLES: seq<Role> := [Publish, Subscribe, Notify, Authorize]

  lemma AllRolesAreAll(r: Role)
    ensures r in ALL_ROLES
  {
    assert r == ALL_ROLES[0] || r == ALL_ROLES[1] || r == ALL_ROLES[2] || r == ALL_ROLES[3];
  }

  /** Enters the client under the roles that it has on a feed. */
  method AddRoles(roles: RoleIndex, i: Interactor, feed: Text) returns (after: RoleIndex)
    requires i.roleManager.Valid() && NoEmptySets(roles)
    modifies i.roleManager`feedDecision
    ensures i.roleManager.Valid() && NoEmptySets(after)
    ensures forall r, c: Guid :: Has(after, r, c) <==> Has(roles, r, c) || (c == i.id && i.roleManager.May(feed, r))
  {
    hide Has, NoEmptySets, RolesWith, Decides;
    after := roles;
    for k := 0 to |ALL_ROLES|
      invariant i.roleManager.Valid() && NoEmptySets(after)
      invariant forall r, c: Guid :: Has(after, r, c) <==>
              Has(roles, r, c) || (c == i.id && r in ALL_ROLES[..k] && i.roleManager.May(feed, r))
    {
      var role := ALL_ROLES[k];
      assert ALL_ROLES[..k + 1] == ALL_ROLES[..k] + [role];
      var hasRole := i.roleManager.HasRole(feed, role);
      if hasRole {
        RolesWithHas(after, role, i.id);
        after := RolesWith(after, role, i.id);
      }
    }
    assert ALL_ROLES[..|ALL_ROLES|] == ALL_ROLES;
    forall r: Role ensures r in ALL_ROLES { AllRolesAreAll(r); }
  }

  /** The roles of one feed after a client has left: roles without clients are gone. */
  function RolesWithout(roles: RoleIndex, c: Guid): RoleIndex {
    map r | r in roles && roles[r] != {c} :: roles[r] - {c}
  }

  /** Takes the client out of all sets and reports which sets have changed. */
  method Strike(roles: RoleIndex, c: Guid) returns (after: RoleIndex, rolesModified: set<Role>)
    ensures after == map r | r in roles :: roles[r] - {c}
    ensures rolesModified == set r | r in roles && c in roles[r]
  {
    after, rolesModified := roles, {};
    var rest := roles.Keys;
    while rest != {}
      invariant rest <= roles.Keys && after.Keys == roles.Keys
      invariant forall r :: r in roles ==> after[r] == if r in rest then roles[r] else roles[r] - {c}
      invariant rolesModified == set r | r in roles && r !in rest && c in roles[r]
      decreases |rest|
    {
      var role :| role in rest;
      if c in after[role] {
        after := after[role := after[role] - {c}];
        rolesModified := rolesModified + {role};
      } else {
        assert roles[role] - {c} == roles[role];
      }
      rest := rest - {role};
    }
  }

  /** Removes those of the given roles that have no clients. */
  method Prune(roles: RoleIndex, rolesModified: set<Role>) returns (after: RoleIndex, isModified: bool)
    requires rolesModified <= roles.Keys
    ensures after == map r | r in roles && !(r in rolesModified && roles[r] == {}) :: roles[r]
    ensures isModified <==> exists r :: r in rolesModified && roles[r] == {}
  {
    after, isModified := roles, false;
    var rest := rolesModified;
    while rest != {}
      invariant rest <= rolesModified
      invariant after == map r | r in roles && !(r in rolesModified - rest && roles[r] == {}) :: roles[r]
      invariant isModified <==> exists r :: r in rolesModified - rest && roles[r] == {}
      decreases |rest|
    {
      var role :| role in rest;
      assert role in after && after[role] == roles[role];
      if after[role] == {} {
        after := after - {role};
        isModified := true;
        assert role in rolesModified - (rest - {role});
      }
      rest := rest - {role};
    }
  }

  method RemoveRoles(roles: RoleIndex, c: Guid) returns (after: RoleIndex, isModified: bool)
    requires NoEmptySets(roles)
    ensures after == RolesWithout(roles, c)
    ensures isModified <==> after.Keys != roles.Keys
  {
    var struck, rolesModified := Strike(roles, c);
    after, isModified := Prune(struck, rolesModified);
    forall r | r in roles ensures r in rolesModified && struck[r] == {} <==> roles[r] == {c} {
      assert struck[r] == roles[r] - {c};
      if struck[r] == {} { assert roles[r] <= {c}; }
    }
    assert forall r :: r in roles && roles[r] == {c} ==> r !in after;
  }

  /** The index after a client has left: feeds that lose their last role are gone. */
  function IndexWithout(index: FeedIndex, c: Guid): FeedIndex {
    map f | f in index && !(RolesWithout(index[f], c) == map[] && index[f] != map[]) :: RolesWithout(index[f], c)
  }

  lemma IndexWithoutLists(index: FeedIndex, c: Guid, feed: Text, role: Role, d: Guid)
    ensures Listed(IndexWithout(index, c), feed, role, d) <==> Listed(index, feed, role, d) && d != c
  {
    if Listed(index, feed, role, d) && d != c {
      assert role in RolesWithout(index[feed], c);
    }
  }

  ghost predicate Entered(before: FeedIndex, index: FeedIndex, i: Interactor, feeds: set<Text>) {
    && NoEmptyRoles(index)
    && forall f, r, c: Guid :: Listed(index, f, r, c) <==>
         Listed(before, f, r, c) || (c == i.id && f in feeds && i.roleManager.May(f, r))
  }

  lemma EntersFeed(before: FeedIndex, index: FeedIndex, i: Interactor, feeds: set<Text>, feed: Text, roles: RoleIndex,
                   after: RoleIndex)
    requires Entered(before, index, i, feeds) && feed !in feeds && NoEmptySets(after)
    requires roles == if feed in index then index[feed] else map[]
    requires forall r, c: Guid :: Has(after, r, c) <==> Has(roles, r, c) || (c == i.id && i.roleManager.May(feed, r))
    ensures Entered(before, index[feed := after], i, feeds + {feed})
  {
    hide Decides;
    forall f, r, c: Guid
      ensures Listed(index[feed := after], f, r, c) <==>
              Listed(before, f, r, c) || (c == i.id && f in feeds + {feed} && i.roleManager.May(f, r))
    {
      assert Listed(index[feed := after], feed, r, c) <==> Has(after, r, c);
      assert Listed(index, feed, r, c) <==> Has(roles, r, c);
      assert Listed(index, f, r, c) <==> Listed(before, f, r, c) || (c == i.id && f in feeds
                                                                     && i.roleManager.May(f, r));
    }
  }

  // ----- The repository -----

  /** Those of the feeds whose roles change when the client leaves. */
  ghost function ModifiedFeeds(was: FeedIndex, c: Guid, feeds: set<Text>): set<Text> {
    set f | f in feeds && f in was && RolesWithout(was[f], c).Keys != was[f].Keys
  }

  /** The index after the client has left some of the feeds. */
  ghost function LeftFeeds(was: FeedIndex, c: Guid, feeds: set<Text>): FeedIndex {
    map f | f in was :: if f in feeds then RolesWithout(was[f], c) else was[f]
  }

  lemma NoFeeds(was: FeedIndex, c: Guid)
    ensures ModifiedFeeds(was, c, {}) == {} && LeftFeeds(was, c, {}) == was
  {
  }

  lemma AllFeedsLeft(was: FeedIndex, c: Guid)
    ensures LeftFeeds(was, c, was.Keys) == map f | f in was :: RolesWithout(was[f], c)
  {
  }

  lemma OneMoreFeed(was: FeedIndex, c: Guid, feeds: set<Text>, feed: Text)
    requires feed in was && feed !in feeds
    ensures feed in LeftFeeds(was, c, feeds) && LeftFeeds(was, c, feeds)[feed] == was[feed]
    ensures LeftFeeds(was, c, feeds + {feed}) == LeftFeeds(was, c, feeds)[feed := RolesWithout(was[feed], c)]
    ensures ModifiedFeeds(was, c, feeds + {feed})
            == ModifiedFeeds(was, c, feeds) + if RolesWithout(was[feed], c).Keys != was[feed].Keys then {feed} else {}
  {
    hide RolesWithout;
  }

  class InteractorRepository {
    var interactors: map<Guid, Interactor>
    var feedRoleInteractors: FeedIndex

    ghost predicate Valid()
      reads this
    {
      Indexes(feedRoleInteractors, interactors)
    }

    constructor ()
      ensures Valid() && interactors == map[]
    {
      interactors, feedRoleInteractors := map[], map[];
    }

    method Add(interactor: Interactor)
      requires Valid() && interactor.roleManager.Valid() && interactor.id !in interactors
      modifies this, interactor.roleManager`feedDecision
      ensures Valid() && interactor.roleManager.Valid()
      ensures interactors == old(interactors)[interactor.id := interactor]
    {
      interactors := interactors[interactor.id := interactor];
      AddFeedRoles(interactor, old(interactors));
    }

    method AddFeedRoles(interactor: Interactor, ghost before: map<Guid, Interactor>)
      requires Indexes(feedRoleInteractors, before) && interactor.roleManager.Valid()
      requires interactor.id !in before && interactors == before[interactor.id := interactor]
      modifies this`feedRoleInteractors, interactor.roleManager`feedDecision
      ensures Valid() && interactor.roleManager.Valid()
    {
      hide Indexes, Entered, Has, NoEmptySets, Decides;
      ghost var was := feedRoleInteractors;
      var feeds := interactor.roleManager.feedPermissions.Keys;
      var rest := feeds;
      EntersNothing(was, before, interactor);
      NoneTaken(feeds);
      while rest != {}
        invariant rest <= feeds && interactor.roleManager.Valid()
        invariant Entered(was, feedRoleInteractors, interactor, feeds - rest)
        decreases |rest|
      {
        var feed :| feed in rest;
        var roleInteractor: RoleIndex := map[];
        if feed in feedRoleInteractors {
          roleInteractor := feedRoleInteractors[feed];
        }
        RolesAreNotEmpty(was, feedRoleInteractors, interactor, feeds - rest, feed);
        var after := AddRoles(roleInteractor, interactor, feed);
        EntersFeed(was, feedRoleInteractors, interactor, feeds - rest, feed, roleInteractor, after);
        OneTaken(feeds, rest, feed);
        feedRoleInteractors := feedRoleInteractors[feed := after];
        rest := rest - {feed};
      }
      AllTaken(feeds, rest);
      EnteredIsIndexed(was, feedRoleInteractors, before, interactor);
    }

    method Remove(interactor: Interactor) returns (wasThere: bool)
      requires Valid()
      modifies this
      ensures Valid() && interactors == old(interactors) - {interactor.id}
      ensures wasThere <==> interactor.id in old(interactors)
    {
      RemoveFeedRoles(interactor);
      RemovedIsIndexed(old(feedRoleInteractors), interactors, interactor.id);
      wasThere := interactor.id in interactors;
      interactors := interactors - {interactor.id};
    }

    method RemoveFeedRoles(interactor: Interactor)
      requires Valid()
      modifies this`feedRoleInteractors
      ensures feedRoleInteractors == IndexWithout(old(feedRoleInteractors), interactor.id)
    {
      hide RolesWithout, ModifiedFeeds, LeftFeeds, IndexWithout;
      ghost var was := feedRoleInteractors;
      var c := interactor.id;
      var feedsModified := {};
      var rest := feedRoleInteractors.Keys;
      NoFeeds(was, c);
      NoneTaken(was.Keys);
      while rest != {}
        invariant rest <= was.Keys && feedRoleInteractors == LeftFeeds(was, c, was.Keys - rest)
        invariant feedsModified == ModifiedFeeds(was, c, was.Keys - rest)
        decreases |rest|
      {
        var feed :| feed in rest;
        OneMoreFeed(was, c, was.Keys - rest, feed);
        var roles, isModified := RemoveRoles(feedRoleInteractors[feed], c);
        feedRoleInteractors := feedRoleInteractors[feed := roles];
        if isModified {
          feedsModified := feedsModified + {feed};
        }
        OneTaken(was.Keys, rest, feed);
        rest := rest - {feed};
      }
      AllTaken(was.Keys, rest);
      AllFeedsLeft(was, c);
      DropFeeds(was, c, feedsModified);
    }

    /** Removes those of the given feeds that have no roles left. */
    method DropFeeds(ghost was: FeedIndex, c: Guid, feedsModified: set<Text>)
      requires feedRoleInteractors == map f | f in was :: RolesWithout(was[f], c)
      requires feedsModified == ModifiedFeeds(was, c, was.Keys)
      modifies this`feedRoleInteractors
      ensures feedRoleInteractors == IndexWithout(was, c)
    {
      hide RolesWithout;
      var rest := feedsModified;
      while rest != {}
        invariant rest <= feedsModified
        invariant feedRoleInteractors ==
                  map f | f in was && !(f in feedsModified - rest && RolesWithout(was[f], c) == map[]) ::
                      RolesWithout(was[f], c)
        decreases |rest|
      {
        var feed :| feed in rest;
        assert feed in feedRoleInteractors;
        if feedRoleInteractors[feed] == map[] {
          feedRoleInteractors := feedRoleInteractors - {feed};
        }
        rest := rest - {feed};
      }
      forall f | f in was && RolesWithout(was[f], c) == map[] ensures f in feedsModified <==> was[f] != map[] {
        assert was[f].Keys == {} <==> was[f] == map[];
      }
    }

    function FindInteractor(id: Guid): (r: Option<Interactor>)
      requires Valid()
      reads this
      ensures r.Some? <==> id in interactors
      ensures r.Some? ==> r.value == interactors[id] && r.value.id == id
    {
      if id in interactors then Some(interactors[id]) else None
    }

    /** The live clients that list the feed and have the role on it. */
    function Find(feed: Text, role: Role): (r: set<Guid>)
      requires Valid()
      reads this
      ensures r == set c | c in interactors && Serves(interactors[c], feed, role)
    {
      var r := if feed in feedRoleInteractors && role in feedRoleInteractors[feed] then feedRoleInteractors[feed][role]
          else {};
      assert forall c: Guid :: c in r <==> Listed(feedRoleInteractors, feed, role, c);
      r
    }
  }

  lemma EntersNothing(index: FeedIndex, live: map<Guid, Interactor>, i: Interactor)
    requires Indexes(index, live)
    ensures Entered(index, index, i, {})
  {
  }

  lemma RolesAreNotEmpty(before: FeedIndex, index: FeedIndex, i: Interactor, feeds: set<Text>, feed: Text)
    requires Entered(before, index, i, feeds)
    ensures NoEmptySets(if feed in index then index[feed] else map[])
  {
  }

  lemma EnteredIsIndexed(before: FeedIndex, index: FeedIndex, live: map<Guid, Interactor>, i: Interactor)
    requires Indexes(before, live) && i.id !in live && Entered(before, index, i, i.roleManager.feedPermissions.Keys)
    ensures Indexes(index, live[i.id := i])
  {
    hide Decides;
  }

  lemma RemovedIsIndexed(index: FeedIndex, live: map<Guid, Interactor>, c: Guid)
    requires Indexes(index, live)
    ensures Indexes(IndexWithout(index, c), live - {c})
  {
    hide Decides;
    forall f, r, d: Guid ensures Listed(IndexWithout(index, c), f, r, d) <==> Listed(index, f, r, d) && d != c {
      IndexWithoutLists(index, c, f, r, d);
    }
    assert NoEmptyRoles(IndexWithout(index, c));
  }
}
