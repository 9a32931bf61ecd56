/** A relation that is looked up from both sides
    (core/src/JetBlack.MessageBus.Common/Collections/Generic/TwoWaySet.cs): two dictionaries of sets that
    are inverse to each other. */
module TwoWaySets {
  import opened Options

  ghost function PairsOf<A, B>(index: map<A, set<B>>): set<(A, B)> {
    set a, b | a in index && b in index[a] :: (a, b)
  }

  ghost predicate NoEmptySets<A, B>(index: map<A, set<B>>) {
    forall a :: a in index ==> index[a] != {}
  }

  /** The two indexes hold the same pairs. */
  ghost predicate Inverse<A, B>(there: map<A, set<B>>, back: map<B, set<A>>) {
    && (forall a, b :: a in there && b in there[a] ==> b in back && a in back[b])
    && (forall a, b :: b in back && a in back[b] ==> a in there && b in there[a])
  }

  /** The partners of `x` that have no other partner. */
  ghost function Orphans<A, B>(pairs: set<(A, B)>, x: A): set<B> {
    set p | p in pairs && p.0 == x && (forall q :: q in pairs && q.1 == p.1 ==> q.0 == x) :: p.1
  }

  ghost function Swapped<A, B>(pairs: set<(A, B)>): set<(B, A)> {
    set p | p in pairs :: (p.1, p.0)
  }

  /** The state of the loop of `Remove`: the pairs of `first` with the values that have been looked at are
      gone from the second index, and those values that had no other partner are gone with them. */
  ghost predicate Removing<A, B>(was: map<B, set<A>>, back: map<B, set<A>>, first: A, done: set<B>, orphans: set<B>) {
    && NoEmptySets(back)
    && (forall b :: b in done ==> b in was)
    && orphans == (set b | b in done && was[b] == {first})
    && back.Keys == was.Keys - orphans
    && (forall b :: b in back ==> back[b] == if b in done then was[b] - {first} else was[b])
  }

  lemma RemovesOne<A, B>(was: map<B, set<A>>, back: map<B, set<A>>, first: A, done: set<B>, orphans: set<B>, b: B)
    requires Removing(was, back, first, done, orphans) && b in was && first in was[b] && b !in done
    ensures b in back && back[b] == was[b]
    ensures was[b] - {first} == {} ==> Removing(was, back - {b}, first, done + {b}, orphans + {b})
    ensures was[b] - {first} != {} ==> Removing(was, back[b := was[b] - {first}], first, done + {b}, orphans)
  {
    assert was[b] - {first} == {} <==> was[b] == {first};
  }

  lemma RemovesNothing<A, B>(was: map<B, set<A>>, first: A)
    requires NoEmptySets(was)
    ensures Removing(was, was, first, {}, {})
  {
  }

  /** Takes a value out of the second index entirely, and says which of its partners remain alone. */
  method Unlink<A(==), B(==)>(there: map<A, set<B>>, was: map<B, set<A>>, first: A)
    returns (back: map<B, set<A>>, orphans: set<B>)
    requires first in there && Inverse(there, was) && NoEmptySets(was)
    ensures Removing(was, back, first, there[first], orphans)
  {
    back, orphans := was, {};
    RemovesNothing(was, first);
    hide Removing;
    var rest := there[first];
    while rest != {}
      invariant rest <= there[first]
      invariant Removing(was, back, first, there[first] - rest, orphans)
      decreases |rest|
    {
      var second :| second in rest;
      RemovesOne(was, back, first, there[first] - rest, orphans, second);
      assert there[first] - (rest - {second}) == there[first] - rest + {second};
      var firsts := back[second] - {first};
      if firsts == {} {
        back, orphans := back - {second}, orphans + {second};
      } else {
        back := back[second := firsts];
      }
      rest := rest - {second};
    }
    assert there[first] - rest == there[first];
  }

  lemma RemovedPairs<A, B>(there: map<A, set<B>>, was: map<B, set<A>>, back: map<B, set<A>>, first: A, orphans: set<B>)
    requires first in there && Inverse(there, was) && NoEmptySets(was) && NoEmptySets(there)
    requires Removing(was, back, first, there[first], orphans)
    ensures Inverse(there - {first}, back) && NoEmptySets(there - {first}) && NoEmptySets(back)
    ensures orphans == Orphans(PairsOf(there), first)
    ensures PairsOf(there - {first}) == set p | p in PairsOf(there) && p.0 != first
  {
    var pairs := PairsOf(there);
    forall b | b in orphans ensures b in Orphans(pairs, first) {
      var p := (first, b);
      assert p in pairs && forall q :: q in pairs && q.1 == p.1 ==> q.0 == first;
    }
    forall b | b in Orphans(pairs, first) ensures b in orphans {
      var p :| p in pairs && p.0 == first && (forall q :: q in pairs && q.1 == p.1 ==> q.0 == first) && p.1 == b;
      forall a | a in was[b] ensures a == first { assert (a, b) in pairs; }
      assert was[b] == {first};
    }
  }

  lemma PairsOfInverse<A, B>(there: map<A, set<B>>, back: map<B, set<A>>)
    requires Inverse(there, back)
    ensures Inverse(back, there) && PairsOf(back) == Swapped(PairsOf(there))
  {
    forall a, b | a in there && b in there[a] ensures (b, a) in Swapped(PairsOf(there)) {
      assert (a, b) in PairsOf(there);
    }
  }

  lemma RemovedPairsBack<A, B>(there: map<A, set<B>>, back: map<B, set<A>>, there': map<A, set<B>>, second: B,
                               orphans: set<A>)
    requires second in back && Inverse(there, back) && NoEmptySets(there) && NoEmptySets(back)
    requires Removing(there, there', second, back[second], orphans)
    ensures Inverse(there', back - {second}) && NoEmptySets(there') && NoEmptySets(back - {second})
    ensures orphans == Orphans(Swapped(PairsOf(there)), second)
    ensures PairsOf(there') == set p | p in PairsOf(there) && p.1 != second
  {
    hide Removing, NoEmptySets, Orphans;
    PairsOfInverse(there, back);
    RemovedPairs(back, there, there', second, orphans);
    PairsOfInverse(back - {second}, there');
    assert forall p :: p in PairsOf(there') <==> (p.1, p.0) in PairsOf(back - {second});
  }

  class TwoWaySet<A(==), B(==)> {
    var firstToSeconds: map<A, set<B>>
    var secondToFirsts: map<B, set<A>>

    ghost predicate Valid()
      reads this
    {
      Inverse(firstToSeconds, secondToFirsts) && NoEmptySets(firstToSeconds) && NoEmptySets(secondToFirsts)
    }

    ghost function Pairs(): set<(A, B)>
      reads this
    {
      PairsOf(firstToSeconds)
    }

    constructor ()
      ensures Valid() && Pairs() == {}
    {
      firstToSeconds, secondToFirsts := map[], map[];
    }

    method Add(first: A, second: B)
      requires Valid()
      modifies this
      ensures Valid() && Pairs() == old(Pairs()) + {(first, second)}
    {
      var seconds := {};
      if first in firstToSeconds {
        seconds := firstToSeconds[first];
      }
      firstToSeconds := firstToSeconds[first := seconds + {second}];
      var firsts := {};
      if second in secondToFirsts {
        firsts := secondToFirsts[second];
      }
      secondToFirsts := secondToFirsts[second := firsts + {first}];
      assert second in firstToSeconds[first] && first in secondToFirsts[second];
    }

    /** Removes a first value with all its pairs and returns the second values that it alone was paired
        with, or none if it is not there. */
    method RemoveFirst(first: A) returns (r: Option<set<B>>)
      requires Valid()
      modifies this
      ensures Valid() && Pairs() == set p | p in old(Pairs()) && p.0 != first
      ensures r.Some? <==> exists p :: p in old(Pairs()) && p.0 == first
      ensures r.Some? ==> r.value == Orphans(old(Pairs()), first)
    {
      if first !in firstToSeconds {
        return None;
      }
      ghost var second :| second in firstToSeconds[first];
      assert (first, second) in Pairs();
      var back, secondsWithoutFirsts := Unlink(firstToSeconds, secondToFirsts, first);
      RemovedPairs(firstToSeconds, secondToFirsts, back, first, secondsWithoutFirsts);
      secondToFirsts := back;
      firstToSeconds := firstToSeconds - {first};
      r := Some(secondsWithoutFirsts);
    }

    /** The same from the other side. */
    method RemoveSecond(second: B) returns (r: Option<set<A>>)
      requires Valid()
      modifies this
      ensures Valid() && Pairs() == set p | p in old(Pairs()) && p.1 != second
      ensures r.Some? <==> exists p :: p in old(Pairs()) && p.1 == second
      ensures r.Some? ==> r.value == Orphans(Swapped(old(Pairs())), second)
    {
      if second !in secondToFirsts {
        return None;
      }
      ghost var first :| first in secondToFirsts[second];
      assert (first, second) in Pairs();
      hide Inverse, PairsOf, Orphans, NoEmptySets, Removing;
      PairsOfInverse(firstToSeconds, secondToFirsts);
      var back, firstsWithoutSeconds := Unlink(secondToFirsts, firstToSeconds, second);
      RemovedPairsBack(firstToSeconds, secondToFirsts, back, second, firstsWithoutSeconds);
      firstToSeconds := back;
      secondToFirsts := secondToFirsts - {second};
      r := Some(firstsWithoutSeconds);
    }
  }
}
