/** Token sets that are trees: what intersecting (docs/styles/lunr.js:1498-1559) and building a fuzzy set
    (docs/styles/lunr.js:1227-1364) grow node by node below one root. */
module Tries {
  import opened Options
  import opened Automaton
  import opened BuilderState
  import opened TokenSets
  import opened Enumeration

  /** Every node is reached by the path that is recorded for it and by no other one. */
  ghost predicate Trie<N>(out: Graph<N>, root: N, path: map<N, string>) {
    && out.Keys == path.Keys && root in out && path[root] == ""
    && EdgesSpell(out, path)
    && (forall o :: o in out ==> Walk(out, root, path[o]) == Some(o))
  }

  ghost predicate EdgesSpell<N>(out: Graph<N>, path: map<N, string>)
    requires out.Keys == path.Keys
  {
    forall o, c :: o in out && c in out[o].edges ==> out[o].edges[c] in path && path[out[o].edges[c]] == path[o] + [c]
  }

  lemma TrieEdges<N>(out: Graph<N>, root: N, path: map<N, string>, n: N)
    requires Trie(out, root, path) && n in out
    ensures n in path && forall c :: c in out[n].edges ==>
              var m := out[n].edges[c]; m in out && m in path && path[m] == path[n] + [c]
  {
  }

  lemma {:induction false} WalkSpellsPath<N>(out: Graph<N>, root: N, path: map<N, string>, n: N, w: string)
    requires Trie(out, root, path) && n in out && Walk(out, n, w).Some?
    ensures Walk(out, n, w).value in path && path[Walk(out, n, w).value] == path[n] + w
    decreases |w|
  {
    TrieEdges(out, root, path, n);
    hide Trie;
    if w == "" {
      assert path[n] + w == path[n];
    } else {
      WalkSpellsPath(out, root, path, out[n].edges[w[0]], w[1..]);
      assert path[n] + [w[0]] + w[1..] == path[n] + w;
    }
  }

  lemma {:induction false} GrowingKeepsWalks<N>(g: Graph<N>, v: N, c: char, x: N, n: N, w: string)
    requires v in g && x !in g && c !in g[v].edges && Walk(g, n, w).Some?
    ensures Walk(Grown(g, v, c, x), n, w) == Walk(g, n, w)
    decreases |w|
  {
    if w != "" {
      GrowingKeepsWalks(g, v, c, x, g[n].edges[w[0]], w[1..]);
    }
  }

  lemma {:induction false} MarkingKeepsWalks<N>(g: Graph<N>, v: N, n: N, w: string)
    requires v in g
    ensures Walk(WithFinal(g, v), n, w) == Walk(g, n, w)
    decreases |w|
  {
    if n in g && w != "" && w[0] in g[n].edges {
      MarkingKeepsWalks(g, v, g[n].edges[w[0]], w[1..]);
    }
  }

  lemma TrieGrows<N>(out: Graph<N>, root: N, path: map<N, string>, o: N, c: char, x: N)
    requires Trie(out, root, path) && o in out && x !in out && c !in out[o].edges
    ensures Trie(Grown(out, o, c, x), root, path[x := path[o] + [c]])
    ensures forall w: string :: Accepts(Grown(out, o, c, x), root, w) <==> Accepts(out, root, w)
  {
    var out', path' := Grown(out, o, c, x), path[x := path[o] + [c]];
    assert EdgesSpell(out', path');
    hide EdgesSpell;
    ClosedTrie(out, root, path);
    forall w: string ensures Accepts(out', root, w) <==> Accepts(out, root, w) {
      DeadLeafKeepsLanguage(out, o, c, x, root, w);
    }
    forall n | n in out' ensures Walk(out', root, path'[n]) == Some(n) {
      if n == x {
        WalkToLeaf(out, root, o, c, x, path[o]);
      } else {
        GrowingKeepsWalks(out, o, c, x, root, path[n]);
      }
    }
  }

  lemma ClosedTrie<N>(out: Graph<N>, root: N, path: map<N, string>)
    requires Trie(out, root, path)
    ensures Closed(out)
  {
  }

  lemma WalkToLeaf<N>(out: Graph<N>, root: N, o: N, c: char, x: N, w: string)
    requires o in out && x !in out && c !in out[o].edges && Walk(out, root, w) == Some(o)
    ensures Walk(Grown(out, o, c, x), root, w + [c]) == Some(x)
  {
    GrowingKeepsWalks(out, o, c, x, root, w);
    WalkConcat(Grown(out, o, c, x), root, w, [c]);
    assert [c][1..] == "";
  }

  lemma TrieMarks<N>(out: Graph<N>, root: N, path: map<N, string>, x: N)
    requires Trie(out, root, path) && x in out
    ensures Trie(WithFinal(out, x), root, path)
    ensures forall w: string :: Accepts(WithFinal(out, x), root, w) <==> Accepts(out, root, w) || w == path[x]
  {
    forall n | n in out ensures Walk(WithFinal(out, x), root, path[n]) == Some(n) {
      MarkingKeepsWalks(out, x, root, path[n]);
    }
    forall w: string ensures Accepts(WithFinal(out, x), root, w) <==> Accepts(out, root, w) || w == path[x] {
      FinalAddsItsWords(out, x, root, w);
      if Walk(out, root, w) == Some(x) {
        WalkSpellsPath(out, root, path, root, w);
        assert "" + w == w;
      }
    }
  }

  lemma {:induction false} LongestPath<N>(path: map<N, string>, nodes: set<N>) returns (bound: nat)
    requires nodes <= path.Keys
    ensures forall n :: n in nodes ==> |path[n]| <= bound
    decreases nodes
  {
    bound := 0;
    if nodes != {} {
      var n :| n in nodes;
      var b := LongestPath(path, nodes - {n});
      bound := if b < |path[n]| then |path[n]| else b;
    }
  }

  lemma TrieIsRanked<N>(out: Graph<N>, root: N, path: map<N, string>) returns (rank: map<N, nat>)
    requires Trie(out, root, path)
    ensures root in rank && rank.Keys == out.Keys && Ranked(out, rank)
  {
    var bound := LongestPath(path, out.Keys);
    rank := map n | n in out :: (bound - |path[n]|) as nat;
    forall n, c | n in rank && c in out[n].edges ensures out[n].edges[c] in rank && rank[out[n].edges[c]] < rank[n] {
      assert path[out[n].edges[c]] == path[n] + [c];
    }
  }

  /** The output node behind an edge, which is made if it is not there, and becomes final if asked for. */
  method Link(output: TokenSet, nEdge: char, final: bool, ids: IdSource,
              ghost root: TokenSet, ghost nodes: set<TokenSet>, ghost path: map<TokenSet, string>)
    returns (next: TokenSet, ghost nodes': set<TokenSet>, ghost path': map<TokenSet, string>)
    requires Trie(Snapshot(nodes), root, path) && output in nodes
    modifies nodes, ids
    ensures Trie(Snapshot(nodes'), root, path') && next in path' && path'[next] == path[output] + [nEdge]
    ensures nodes <= nodes' && fresh(nodes' - nodes)
    ensures forall o :: o in path ==> o in path' && path'[o] == path[o]
    ensures forall w: string :: Accepts(Snapshot(nodes'), root, w) <==>
            Accepts(old(Snapshot(nodes)), root, w) || (w == path'[next] && final)
  {
    hide Trie, Accepts, Snapshot;
    ghost var out := Snapshot(nodes);
    SnapshotHas(nodes);
    nodes', path' := nodes, path;
    TrieNodes(out, root, path);
    if nEdge in output.edges {
      next := output.edges[nEdge];
      TrieEdge(out, root, path, output, nEdge);
    } else {
      next := new TokenSet(ids);
      TrieGrows(out, root, path, output, nEdge, next);
      output.edges := output.edges[nEdge := next];
      SnapshotAdds(nodes, out, output, next);
      nodes', path' := nodes + {next}, path[next := path[output] + [nEdge]];
    }
    ghost var grown := Snapshot(nodes');
    SnapshotHas(nodes');
    if final {
      TrieMarks(grown, root, path', next);
      next.final := true;
      SnapshotIs(nodes', WithFinal(grown, next));
    }
  }

  lemma TrieNodes<N>(out: Graph<N>, root: N, path: map<N, string>)
    requires Trie(out, root, path)
    ensures out.Keys == path.Keys && root in out
  {
  }

  lemma TrieEdge<N>(out: Graph<N>, root: N, path: map<N, string>, o: N, c: char)
    requires Trie(out, root, path) && o in out && c in out[o].edges
    ensures out[o].edges[c] in path && path[out[o].edges[c]] == path[o] + [c]
  {
  }
}
