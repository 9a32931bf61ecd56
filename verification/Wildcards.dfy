/** Query automata for words with wildcards (docs/styles/lunr.js:1376-1413). In a query automaton an edge
    labelled `*` can be taken on any character. */
module Wildcards {
  import opened Automaton
  import opened TokenSets

  /** Some run of the query automaton from `n` along `w` ends in a final node. */
  ghost predicate QAccepts<N>(q: Graph<N>, n: N, w: string)
    decreases |w|
  {
    n in q &&
    if w == "" then q[n].final
    else (w[0] in q[n].edges && QAccepts(q, q[n].edges[w[0]], w[1..]))
         || ('*' in q[n].edges && QAccepts(q, q[n].edges['*'], w[1..]))
  }

  /** The word is of the form of the pattern, in which `*` stands for any sequence of characters. */
  ghost predicate Matches(p: string, w: string)
    decreases |p|
  {
    if p == "" then w == ""
    else if p[0] == '*' then exists k :: 0 <= k <= |w| && Matches(p[1..], w[k..])
    else w != "" && w[0] == p[0] && Matches(p[1..], w[1..])
  }

  // ----- Patterns -----

  lemma {:induction false} MatchesJoin(a: string, b: string, u: string, w: string)
    requires Matches(a, u) && Matches(b, w)
    ensures Matches(a + b, u + w)
    decreases |a|
  {
    if a == "" {
      assert a + b == b && u + w == w;
    } else {
      assert (a + b)[1..] == a[1..] + b;
      if a[0] == '*' {
        var k :| 0 <= k <= |u| && Matches(a[1..], u[k..]);
        MatchesJoin(a[1..], b, u[k..], w);
        assert (u + w)[k..] == u[k..] + w;
      } else {
        MatchesJoin(a[1..], b, u[1..], w);
        assert (u + w)[1..] == u[1..] + w;
      }
    }
  }

  lemma {:induction false} MatchesSplits(a: string, b: string, w: string) returns (k: nat)
    requires Matches(a + b, w)
    ensures k <= |w| && Matches(a, w[..k]) && Matches(b, w[k..])
    decreases |a|
  {
    if a == "" {
      assert a + b == b;
      k := 0;
    } else {
      assert (a + b)[1..] == a[1..] + b;
      if a[0] == '*' {
        var l :| 0 <= l <= |w| && Matches((a + b)[1..], w[l..]);
        var m := MatchesSplits(a[1..], b, w[l..]);
        k := l + m;
        assert w[..k][l..] == w[l..][..m] && w[l..][m..] == w[k..];
      } else {
        var m := MatchesSplits(a[1..], b, w[1..]);
        k := m + 1;
        assert w[..k][1..] == w[1..][..m] && w[1..][m..] == w[k..];
      }
    }
  }

  lemma StarMatches(w: string)
    ensures Matches("*", w)
  {
    assert "*"[1..] == "";
    assert Matches("", w[|w|..]);
  }

  lemma LetterMatches(c: char)
    requires c != '*'
    ensures Matches([c], [c])
  {
    assert [c][1..] == "";
  }

  ghost predicate AllStars(p: string, i: nat, j: nat) {
    forall k :: i <= k < j && k < |p| ==> p[k] == '*'
  }

  /** A prefix that is prolonged by wildcards matches every prolongation of what it matched. */
  lemma {:induction false} StarsAbsorb(p: string, i: nat, j: nat, u: string, v: string)
    requires i <= j <= |p| && AllStars(p, i, j) && Matches(p[..i], u) && (v == "" || i < j)
    ensures Matches(p[..j], u + v)
    decreases j
  {
    if i < j {
      StarsAbsorb(p, i, j - 1, u, "");
      assert u + "" == u;
      StarMatches(v);
      MatchesJoin(p[..j - 1], "*", u, v);
      assert p[..j - 1] + "*" == p[..j];
    } else {
      assert u + v == u;
    }
  }

  /** Anything between a match of a prefix with a wildcard and a match of the pattern is absorbed. */
  lemma WildcardAbsorbs(p: string, j: nat, i: nat, u: string, x: string, w: string)
    requires i < j <= |p| && p[i] == '*' && Matches(p[..j], u) && Matches(p, w)
    ensures Matches(p, u + x + w)
  {
    hide Matches;
    assert p[..j] == p[..i] + p[i..j] && p == p[..i + 1] + p[i + 1..] && p[..i + 1] == p[..i] + "*";
    var a := MatchesSplits(p[..i], p[i..j], u);
    var b := MatchesSplits(p[..i + 1], p[i + 1..], w);
    var between := u[a..] + x + w[..b];
    StarMatches(between);
    MatchesJoin(p[..i], "*", u[..a], between);
    MatchesJoin(p[..i + 1], p[i + 1..], u[..a] + between, w[b..]);
    assert u[..a] + between + w[b..] == u + x + w;
  }

  // ----- The graph that `fromString` builds -----

  /** `at[k]` is the node that was current after the first `k` characters of the pattern. */
  ghost predicate Built<N>(g: Graph<N>, at: seq<N>, p: string) {
    && Closed(g) && |at| == |p| + 1 && (forall j :: 0 <= j <= |p| ==> at[j] in g)
    && (forall j :: 0 <= j < |p| ==> Step(g, at, p, j))
    && (forall i, j :: 0 <= i < j <= |p| && at[i] == at[j] ==> AllStars(p, i, j))
    && (forall j, c :: 0 <= j <= |p| && c in g[at[j]].edges ==> Origin(g, at, p, j, c))
  }

  ghost predicate Step<N>(g: Graph<N>, at: seq<N>, p: string, j: nat)
    requires |at| == |p| + 1 && j < |p| && at[j] in g
  {
    if p[j] == '*' then at[j + 1] == at[j] && Leads(g, at[j], '*', at[j])
    else Leads(g, at[j], p[j], at[j + 1])
  }

  ghost predicate Leads<N>(g: Graph<N>, n: N, c: char, m: N)
    requires n in g
  {
    c in g[n].edges && g[n].edges[c] == m
  }

  /** Every edge spells a character of the pattern, stays at a wildcard, or goes back to the root from
      behind a wildcard. */
  ghost predicate Origin<N>(g: Graph<N>, at: seq<N>, p: string, j: nat, c: char)
    requires |at| == |p| + 1 && j <= |p| && at[j] in g
  {
    || (exists i: nat :: Advances(g, at, p, j, c, i))
    || (exists i: nat :: Returns(g, at, p, j, c, i))
  }

  ghost predicate Advances<N>(g: Graph<N>, at: seq<N>, p: string, j: nat, c: char, i: nat)
    requires |at| == |p| + 1 && j <= |p| && at[j] in g
  {
    i < |p| && at[i] == at[j] && p[i] == c && Leads(g, at[j], c, at[i + 1])
  }

  ghost predicate Returns<N>(g: Graph<N>, at: seq<N>, p: string, j: nat, c: char, i: nat)
    requires |at| == |p| + 1 && j <= |p| && at[j] in g
  {
    i < j && p[i] == '*' && c == '*' && Leads(g, at[j], c, at[0])
  }

  ghost predicate FinalIs<N>(g: Graph<N>, at: seq<N>, final: bool)
    requires at != []
  {
    forall j :: 0 <= j < |at| && at[j] in g ==> (g[at[j]].final <==> final && at[j] == at[|at| - 1])
  }

  lemma {:induction false} LoopsAccept<N>(g: Graph<N>, n: N, w: string, k: nat)
    requires k <= |w| && n in g && Leads(g, n, '*', n) && QAccepts(g, n, w[k..])
    ensures QAccepts(g, n, w)
    decreases k
  {
    if k == 0 {
      assert w[0..] == w;
    } else {
      assert w[1..][k - 1..] == w[k..];
      LoopsAccept(g, n, w[1..], k - 1);
    }
  }

  /** Every word of the form of the pattern is accepted. */
  lemma {:induction false} AcceptsMatches<N>(g: Graph<N>, at: seq<N>, p: string, j: nat, w: string)
    requires Built(g, at, p) && FinalIs(g, at, true) && j <= |p| && Matches(p[j..], w)
    ensures QAccepts(g, at[j], w)
    decreases |p| - j
  {
    if j < |p| {
      assert Step(g, at, p, j) && p[j..][1..] == p[j + 1..];
      if p[j] == '*' {
        var k :| 0 <= k <= |w| && Matches(p[j..][1..], w[k..]);
        AcceptsMatches(g, at, p, j + 1, w[k..]);
        LoopsAccept(g, at[j], w, k);
      } else {
        AcceptsMatches(g, at, p, j + 1, w[1..]);
      }
    }
  }

  /** A prefix that ends in a wildcard matches one character more. */
  lemma StarTakesOne(p: string, j: nat, u: string, x: char)
    requires 0 < j <= |p| && p[j - 1] == '*' && Matches(p[..j], u)
    ensures Matches(p[..j], u + [x])
  {
    hide Matches;
    assert p[..j] == p[..j - 1] + "*";
    var m := MatchesSplits(p[..j - 1], "*", u);
    StarMatches(u[m..] + [x]);
    MatchesJoin(p[..j - 1], "*", u[..m], u[m..] + [x]);
    assert u[..m] + (u[m..] + [x]) == u + [x];
  }

  /** From a node at index `j` on, character `p[k]` of the same node can be taken. */
  lemma TakeCharacter(p: string, j: nat, k: nat, u: string, x: char) returns (i: nat)
    requires j <= |p| && k < |p| && Matches(p[..j], u) && (p[k] == '*' || p[k] == x)
    requires (k < j ==> AllStars(p, k, j)) && (j < k ==> AllStars(p, j, k))
    ensures i <= |p| && Matches(p[..i], u + [x])
    ensures i == k + 1 || (k < j && i == j)
  {
    hide Matches;
    if k < j {
      i := j;
      StarTakesOne(p, j, u, x);
    } else {
      i := k + 1;
      StarsAbsorb(p, j, k, u, "");
      assert u + "" == u && p[..k] + [p[k]] == p[..k + 1];
      if p[k] == '*' { StarMatches([x]); } else { LetterMatches(x); }
      MatchesJoin(p[..k], [p[k]], u, [x]);
    }
  }

  lemma OneNode<N>(g: Graph<N>, at: seq<N>, p: string, j: nat, k: nat)
    requires Built(g, at, p) && j <= |p| && k < |p| && at[k] == at[j]
    ensures (k < j ==> AllStars(p, k, j) && p[k] == '*') && (j < k ==> AllStars(p, j, k))
    ensures p[k] == '*' ==> at[k + 1] == at[j]
  {
    assert Step(g, at, p, k);
    assert k < j ==> AllStars(p, k, j);
  }

  lemma NothingMatchesNothing()
    ensures Matches("", "")
  {
  }

  lemma MoveOver(u: string, w: string)
    requires w != ""
    ensures u + [w[0]] + w[1..] == u + w
  {
  }

  lemma NothingBefore(p: string, w: string)
    ensures p[..0] == "" && "" + w == w
  {
  }

  lemma AdvanceMatches<N>(g: Graph<N>, at: seq<N>, p: string, j: nat, c: char, k: nat, u: string, w: string)
    returns (i: nat)
    requires Built(g, at, p) && j <= |p| && Advances(g, at, p, j, c, k) && Matches(p[..j], u)
    requires w != "" && (c == '*' || c == w[0])
    ensures i <= |p| && g[at[j]].edges[c] == at[i] && Matches(p[..i], u + [w[0]])
  {
    hide Matches, Built;
    OneNode(g, at, p, j, k);
    i := TakeCharacter(p, j, k, u, w[0]);
  }

  lemma ReturnMatches(p: string, j: nat, k: nat, u: string, w: string)
    requires k < j <= |p| && p[k] == '*' && Matches(p[..j], u) && w != "" && Matches(p, w[1..])
    ensures Matches(p, u + w)
  {
    hide Matches;
    WildcardAbsorbs(p, j, k, u, [w[0]], w[1..]);
    MoveOver(u, w);
  }

  /** Every accepted word is of the form of the pattern. */
  lemma {:induction false} AcceptedMatches<N>(g: Graph<N>, at: seq<N>, p: string, j: nat, u: string, w: string)
    requires Built(g, at, p) && FinalIs(g, at, true) && j <= |p|
    requires Matches(p[..j], u) && QAccepts(g, at[j], w)
    ensures Matches(p, u + w)
    decreases |w|
  {
    if w == "" {
      assert j < |p| ==> AllStars(p, j, |p|);
      StarsAbsorb(p, j, |p|, u, "");
      assert p[..|p|] == p;
    } else {
      var c := if w[0] in g[at[j]].edges && QAccepts(g, g[at[j]].edges[w[0]], w[1..]) then w[0] else '*';
      assert Origin(g, at, p, j, c);
      hide Matches, Built, FinalIs, Origin;
      if k: nat :| Advances(g, at, p, j, c, k) {
        var i := AdvanceMatches(g, at, p, j, c, k, u, w);
        MoveOver(u, w);
        AcceptedMatches(g, at, p, i, u + [w[0]], w[1..]);
      } else {
        var k: nat :| Returns(g, at, p, j, c, k);
        NothingMatchesNothing();
        NothingBefore(p, w[1..]);
        AcceptedMatches(g, at, p, 0, "", w[1..]);
        ReturnMatches(p, j, k, u, w);
      }
    }
  }

  /** The wildcard's node gets an edge to itself. */
  lemma BuiltStar<N>(g: Graph<N>, at: seq<N>, p: string, final: bool)
    requires Built(g, at, p) && FinalIs(g, at, false)
    ensures var n := at[|p|];
            var g' := g[n := Shape(final, g[n].edges['*' := n])];
            Built(g', at + [n], p + "*") && FinalIs(g', at + [n], final)
  {
    var n, p', at' := at[|p|], p + "*", at + [at[|p|]];
    var g' := g[n := Shape(final, g[n].edges['*' := n])];
    forall j | 0 <= j < |p'| ensures Step(g', at', p', j) {
      if j < |p| { assert Step(g, at, p, j); }
    }
    forall i, j | 0 <= i < j <= |p'| && at'[i] == at'[j] ensures AllStars(p', i, j) {
      var k := if j <= |p| then j else |p|;
      assert i < k ==> AllStars(p, i, k);
    }
    forall j, c | 0 <= j <= |p'| && c in g'[at'[j]].edges ensures Origin(g', at', p', j, c) {
      var k := if j <= |p| then j else |p|;
      if at'[j] == n && c == '*' {
        assert Advances(g', at', p', j, c, |p|);
      } else {
        assert Origin(g, at, p, k, c);
        if i: nat :| Advances(g, at, p, k, c, i) {
          assert Advances(g', at', p', j, c, i);
        } else {
          var i: nat :| Returns(g, at, p, k, c, i);
          assert Returns(g', at', p', j, c, i);
        }
      }
    }
  }

  /** A letter's edge leads to a new node, which goes back to the root once there was a wildcard. */
  lemma BuiltLetter<N>(g: Graph<N>, at: seq<N>, p: string, c: char, x: N, wildcardFound: bool, final: bool)
    requires Built(g, at, p) && FinalIs(g, at, false) && x !in g && c != '*'
    requires wildcardFound ==> exists i :: 0 <= i < |p| && p[i] == '*'
    ensures var n := at[|p|];
            var back := if wildcardFound then map['*' := at[0]] else map[];
            var g' := g[x := Shape(final, back)][n := Shape(g[n].final, g[n].edges[c := x])];
            Built(g', at + [x], p + [c]) && FinalIs(g', at + [x], final)
  {
    var n, p', at' := at[|p|], p + [c], at + [x];
    var back := if wildcardFound then map['*' := at[0]] else map[];
    var g' := g[x := Shape(final, back)][n := Shape(g[n].final, g[n].edges[c := x])];
    forall j | 0 <= j < |p'| ensures Step(g', at', p', j) {
      if j < |p| {
        assert Step(g, at, p, j);
        if at[j] == n {
          assert AllStars(p, j, |p|);
          assert p[j] == '*';
        }
      }
    }
    forall i, j | 0 <= i < j <= |p'| && at'[i] == at'[j] ensures AllStars(p', i, j) {
      assert j <= |p| && AllStars(p, i, j);
    }
    forall j, d | 0 <= j <= |p'| && d in g'[at'[j]].edges ensures Origin(g', at', p', j, d) {
      if j == |p'| {
        var i :| 0 <= i < |p| && p[i] == '*';
        assert Returns(g', at', p', j, d, i);
      } else if at'[j] == n && d == c {
        assert Advances(g', at', p', j, d, |p|);
      } else {
        assert Origin(g, at, p, j, d);
        if i: nat :| Advances(g, at, p, j, d, i) {
          assert Advances(g', at', p', j, d, i);
        } else {
          var i: nat :| Returns(g, at, p, j, d, i);
          assert Returns(g', at', p', j, d, i);
        }
      }
    }
  }

  /** The query automaton of a pattern accepts exactly the words of its form, except that the empty
      pattern accepts nothing. */
  method FromString(str: string, ids: IdSource) returns (root: TokenSet, ghost nodes: set<TokenSet>)
    modifies ids
    ensures fresh(nodes) && root in nodes && Closed(Snapshot(nodes))
    ensures forall w: string :: QAccepts(Snapshot(nodes), root, w) <==> str != "" && Matches(str, w)
  {
    hide Built, FinalIs, Matches, QAccepts, Snapshot, Closed;
    var node := new TokenSet(ids);
    root, nodes := node, {node};
    var wildcardFound := false;
    ghost var at := [node];
    SnapshotOfOne(node);
    assert str[..0] == "";
    BuiltStart(Snapshot(nodes), node);
    for i := 0 to |str|
      invariant fresh(nodes) && root in nodes && node in nodes
      invariant |at| == i + 1 && at[0] == root && at[i] == node
      invariant Built(Snapshot(nodes), at, str[..i]) && FinalIs(Snapshot(nodes), at, i > 0 && i == |str|)
      invariant wildcardFound ==> exists j :: 0 <= j < i && str[j] == '*'
    {
      var letter, final := str[i], i == |str| - 1;
      ghost var g := Snapshot(nodes);
      SnapshotHas(nodes);
      assert str[..i + 1] == str[..i] + [letter];
      if letter == '*' {
        wildcardFound := true;
        node.edges := node.edges[letter := node];
        node.final := final;
        SnapshotIs(nodes, g[node := Shape(final, g[node].edges['*' := node])]);
        BuiltStar(g, at, str[..i], final);
      } else {
        var next := new TokenSet(ids);
        next.final := final;
        BuiltLetter(g, at, str[..i], letter, next, wildcardFound, final);
        node.edges := node.edges[letter := next];
        if wildcardFound {
          next.edges := next.edges['*' := root];
        }
        SnapshotAdds(nodes, g, node, next);
        node, nodes := next, nodes + {next};
      }
      at := at + [node];
    }
    assert str[..|str|] == str;
    FromStringIsExact(Snapshot(nodes), at, str);
    BuiltIsClosed(Snapshot(nodes), at, str);
  }

  lemma BuiltIsClosed<N>(g: Graph<N>, at: seq<N>, p: string)
    requires Built(g, at, p)
    ensures Closed(g)
  {
  }

  lemma BuiltStart<N>(g: Graph<N>, n: N)
    requires g == map[n := Shape(false, map[])]
    ensures Built(g, [n], "") && FinalIs(g, [n], false)
  {
  }

  lemma FromStringIsExact<N>(g: Graph<N>, at: seq<N>, p: string)
    requires Built(g, at, p) && FinalIs(g, at, p != "")
    ensures forall w: string :: QAccepts(g, at[0], w) <==> p != "" && Matches(p, w)
  {
    forall w: string ensures QAccepts(g, at[0], w) <==> p != "" && Matches(p, w) {
      if p == "" {
        assert w != "" ==> !(w[0] in g[at[0]].edges) && !('*' in g[at[0]].edges) by {
          assert forall c :: c in g[at[0]].edges ==> Origin(g, at, p, 0, c);
        }
      } else {
        assert p[0..] == p && p[..0] == "" && "" + w == w;
        if Matches(p, w) { AcceptsMatches(g, at, p, 0, w); }
        if QAccepts(g, at[0], w) { AcceptedMatches(g, at, p, 0, "", w); }
      }
    }
  }
}
