/** Which client may do what on which feed
    (core/src/JetBlack.MessageBus.Distributor/Roles/RoleManager.cs). */
module Roles {
  import opened Options
  import opened Broker
  import opened Globs

  /** A role flag stands as the set of its single roles. */
  datatype DistributorRole = DistributorRole(
    allow: set<Role>,
    deny: set<Role>,
    isAuthorizationRequired: bool,
    isImpersonationAllowed: bool,
    isProxyAllowed: bool)

  datatype Permission = Permission(allow: set<Role>, deny: set<Role>)

  const NOBODY: Permission := Permission({}, {Subscribe, Publish, Notify, Authorize})

  type Permissions = map<Text, Permission>

  /** The feed's word goes before the distributor's, and to deny goes before to allow. */
  predicate Decides(d: DistributorRole, permissions: Permissions, feed: Text, role: Role) {
    if feed in permissions && role in permissions[feed].deny then false
    else if feed in permissions && role in permissions[feed].allow then true
    else role in d.allow && role !in d.deny
  }

  // ----- The permission of a host -----

  datatype Rule = Rule(pattern: string, permission: Permission)

  datatype Choice = Chosen(permission: Permission) | Failed

  /** The permission of the first rule whose pattern fits the host, unless a match before it fails. */
  function Choose(up: char -> char, host: string, rules: seq<Rule>): Choice {
    if rules == [] then Chosen(NOBODY)
    else
      match Run(up, host, rules[0].pattern, 0)
      case Returned(true) => Chosen(rules[0].permission)
      case Returned(false) => Choose(up, host, rules[1..])
      case OutOfRange => Failed
  }

  ghost predicate Fits(up: char -> char, host: string, rules: seq<Rule>, i: nat) {
    i < |rules| && Match(up, rules[i].pattern, host)
  }

  /** The first rule that fits decides, and nothing is allowed where none fits. */
  lemma {:induction false} FirstFittingRuleDecides(up: char -> char, host: string, rules: seq<Rule>)
    requires Choose(up, host, rules).Chosen?
    ensures var p := Choose(up, host, rules).permission;
            || (p == NOBODY && forall i: nat :: !Fits(up, host, rules, i))
            || (exists i: nat :: Fits(up, host, rules, i) && p == rules[i].permission && forall j: nat :: j < i ==>
                  !Fits(up, host, rules, j))
    decreases |rules|
  {
    if rules != [] {
      AnswersAreRight(up, host, rules[0].pattern);
      if Run(up, host, rules[0].pattern, 0) == Returned(false) {
        FirstFittingRuleDecides(up, host, rules[1..]);
        assert forall i: nat :: Fits(up, host, rules, i + 1) <==> Fits(up, host, rules[1..], i);
        assert forall i: nat :: i > 0 && Fits(up, host, rules, i) ==> Fits(up, host, rules[1..], i - 1);
        if i: nat :| Fits(up, host, rules[1..], i) && Choose(up, host, rules).permission == rules[1..][i].permission
                     && forall j: nat :: j < i ==> !Fits(up, host, rules[1..], j) {
          assert Fits(up, host, rules, i + 1);
          assert forall j: nat :: j < i + 1 ==> !Fits(up, host, rules, j);
        }
      } else {
        assert Fits(up, host, rules, 0);
      }
    }
  }

  lemma {:induction false} SafePatternsNeverFail(up: char -> char, host: string, rules: seq<Rule>)
    requires forall r :: r in rules ==> NoGap(r.pattern)
    ensures Choose(up, host, rules).Chosen?
    decreases |rules|
  {
    if rules != [] {
      assert rules[0] in rules;
      AlwaysAnswersExactlyWhen(up, rules[0].pattern);
      assert Run(up, host, rules[0].pattern, 0).Returned?;
      SafePatternsNeverFail(up, host, rules[1..]);
    }
  }

  method FindPermission(up: char -> char, host: string, rules: seq<Rule>) returns (r: Choice)
    ensures r == Choose(up, host, rules)
  {
    for i := 0 to |rules|
      invariant Choose(up, host, rules) == Choose(up, host, rules[i..])
    {
      var outcome := Glob(up, host, rules[i].pattern);
      assert rules[i..][0] == rules[i] && rules[i..][1..] == rules[i + 1..];
      match outcome
      case OutOfRange => return Failed;
      case Returned(matches) =>
        if matches {
          return Chosen(rules[i].permission);
        }
    }
    r := Chosen(NOBODY);
  }

  // ----- The role manager -----

  type Decisions = map<Text, map<Role, bool>>

  class RoleManager {
    const distributorRole: DistributorRole
    const host: Text
    const user: Text
    const impersonating: Option<Text>
    const forwardedFor: Option<Text>
    const feedPermissions: Permissions
    var feedDecision: Decisions

    /** The cache holds decisions. */
    ghost predicate Valid()
      reads this
    {
      forall f, r :: f in feedDecision && r in feedDecision[f] ==> feedDecision[f][r] == May(f, r)
    }

    predicate May(feed: Text, role: Role) {
      Decides(distributorRole, feedPermissions, feed, role)
    }

    constructor (distributorRole: DistributorRole, host: Text, user: Text, impersonating: Option<Text>,
                 forwardedFor: Option<Text>,
                 feedPermissions: Permissions)
      ensures Valid() && this.feedPermissions == feedPermissions && this.distributorRole == distributorRole
      ensures this.host == host && this.user == user && this.impersonating == impersonating
              && this.forwardedFor == forwardedFor
    {
      this.distributorRole, this.host, this.user := distributorRole, host, user;
      this.impersonating, this.forwardedFor := impersonating, forwardedFor;
      this.feedPermissions, feedDecision := feedPermissions, map[];
    }

    /** The user that is impersonated, where there is one and the distributor allows it. */
    function EffectiveUser(): (effective: Text)
      ensures distributorRole.isImpersonationAllowed && impersonating.Some? ==> effective == impersonating.value
      ensures !distributorRole.isImpersonationAllowed || impersonating.None? ==> effective == user
    {
      if distributorRole.isImpersonationAllowed && impersonating.Some? then impersonating.value else user
    }

    function EffectiveHost(): Text {
      EffectiveHostOf(distributorRole, host, forwardedFor)
    }

    /** The cached answer is the decision, whatever was asked before. */
    method HasRole(feed: Text, role: Role) returns (decision: bool)
      requires Valid()
      modifies this`feedDecision
      ensures Valid() && decision == May(feed, role)
    {
      if feed !in feedDecision {
        feedDecision := feedDecision[feed := map[]];
      }
      var roleDecision := feedDecision[feed];
      if role in roleDecision {
        return roleDecision[role];
      }
      decision := false;
      if role in distributorRole.allow {
        decision := true;
      }
      if role in distributorRole.deny {
        decision := false;
      }
      if feed in feedPermissions {
        var permission := feedPermissions[feed];
        if role in permission.allow {
          decision := true;
        }
        if role in permission.deny {
          decision := false;
        }
      }
      feedDecision := feedDecision[feed := roleDecision[role := decision]];
    }
  }

  function EffectiveHostOf(d: DistributorRole, host: Text, forwardedFor: Option<Text>): Text {
    if d.isProxyAllowed && forwardedFor.Some? then forwardedFor.value else host
  }

  /** The permissions of the feeds for a host, if every choice succeeds. */
  ghost predicate ChosenFor(up: char -> char, host: string, rules: map<Text, seq<Rule>>, permissions: Permissions) {
    permissions.Keys == rules.Keys && forall f :: f in rules ==> Choose(up, host, rules[f]) == Chosen(permissions[f])
  }

  /** Makes the role manager of a client. A pattern that cannot be matched makes this fail. */
  method CreateRoleManager(up: char -> char, d: DistributorRole, host: Text, user: Text, impersonating: Option<Text>,
                           forwardedFor: Option<Text>,
                           rules: Option<map<Text, seq<Rule>>>) returns (r: Option<RoleManager>)
    ensures r.Some? ==>
              && fresh(r.value) && r.value.Valid() && r.value.distributorRole == d
              && (if rules.None? then r.value.feedPermissions == map[]
                  else ChosenFor(up, EffectiveHostOf(d, host, forwardedFor), rules.value, r.value.feedPermissions))
    ensures r.None? <==> rules.Some? && exists f ::
            f in rules.value && Choose(up, EffectiveHostOf(d, host, forwardedFor), rules.value[f]).Failed?
  {
    var permissions: Permissions := map[];
    if rules.Some? {
      var effectiveHost := EffectiveHostOf(d, host, forwardedFor);
      var rest := rules.value.Keys;
      while rest != {}
        invariant rest <= rules.value.Keys && permissions.Keys == rules.value.Keys - rest
        invariant forall f :: f in permissions ==> Choose(up, effectiveHost, rules.value[f]) == Chosen(permissions[f])
        decreases |rest|
      {
        var feed :| feed in rest;
        var choice := FindPermission(up, effectiveHost, rules.value[feed]);
        if choice.Failed? {
          return None;
        }
        permissions := permissions[feed := choice.permission];
        rest := rest - {feed};
      }
    }
    var manager := new RoleManager(d, host, user, impersonating, forwardedFor, permissions);
    r := Some(manager);
  }

  // ----- What the permissions come to -----

  /** Where the feed is listed, what it denies is never held, what it allows and does not deny always is, and about
      what it does not speak of the distributor decides, as it does about feeds that are not listed. */
  lemma FeedGoesFirst(d: DistributorRole, permissions: Permissions, feed: Text, role: Role)
    ensures feed in permissions && role in permissions[feed].deny ==> !Decides(d, permissions, feed, role)
    ensures feed in permissions && role !in permissions[feed].deny && role in permissions[feed].allow ==>
              Decides(d, permissions, feed, role)
    ensures feed !in permissions || role !in permissions[feed].deny + permissions[feed].allow ==>
              (Decides(d, permissions, feed, role) <==> role in d.allow - d.deny)
  {
  }

  /** A host that no rule of a listed feed fits has no role on it, whatever the distributor allows. */
  lemma UnfittingHostHasNoRole(up: char -> char, d: DistributorRole, host: string, rules: map<Text, seq<Rule>>,
                               permissions: Permissions, feed: Text, role: Role)
    requires ChosenFor(up, host, rules, permissions) && feed in rules
    requires forall i :: 0 <= i < |rules[feed]| ==> !Match(up, rules[feed][i].pattern, host)
    ensures !Decides(d, permissions, feed, role)
  {
    FirstFittingRuleDecides(up, host, rules[feed]);
    assert forall i: nat :: !Fits(up, host, rules[feed], i);
  }

  /** A host has on a listed feed just what the first rule that fits it says, or else the distributor. */
  lemma FittingHostHasItsRole(up: char -> char, d: DistributorRole, host: string, rules: map<Text, seq<Rule>>,
                              permissions: Permissions, feed: Text, i: nat, role: Role)
    requires ChosenFor(up, host, rules, permissions) && feed in rules && i < |rules[feed]|
    requires Match(up, rules[feed][i].pattern, host)
    requires forall j :: 0 <= j < i ==> !Match(up, rules[feed][j].pattern, host)
    ensures var p := rules[feed][i].permission;
            Decides(d, permissions, feed, role) <==>
              role !in p.deny && (role in p.allow || (role in d.allow && role !in d.deny))
  {
    FirstFittingRuleDecides(up, host, rules[feed]);
    assert Fits(up, host, rules[feed], i);
    assert forall j: nat :: j < i ==> !Fits(up, host, rules[feed], j);
  }

  /** A client that speaks for another host is believed exactly where the distributor allows proxies. */
  lemma ProxyIsBelievedExactlyWhen(d: DistributorRole, host: Text, other: Text)
    ensures EffectiveHostOf(d, host, None) == host
    ensures EffectiveHostOf(d, host, Some(other)) == other <==> d.isProxyAllowed || other == host
  {
  }
}
