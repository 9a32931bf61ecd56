/** Intersecting an index with a query automaton (docs/styles/lunr.js:1498-1559). The query graph may be
    cyclic and nondeterministic; the result is a tree with one path for every word found so far. */
module Intersection {
  import opened Automaton
  import opened BuilderState
  import opened TokenSets
  import opened Enumeration
  import opened Tries
  import opened Wildcards
  import opened Sequences

  // ----- What is still to be visited -----

  datatype Visit<N> = Visit(qNode: N, output: N, node: N)

  ghost predicate Matched<N>(g: Graph<N>, node: N, q: Graph<N>, qNode: N, w: string) {
    Accepts(g, node, w) && QAccepts(q, qNode, w)
  }

  /** The word is found below the output node by going on from the two other nodes. */
  ghost predicate Below<N>(g: Graph<N>, q: Graph<N>, path: map<N, string>, v: Visit<N>, w: string) {
    v.output in path && path[v.output] < w && Matched(g, v.node, q, v.qNode, w[|path[v.output]|..])
  }

  /** The same, where the first step takes the given pair of edges. */
  ghost predicate BelowVia<N>(g: Graph<N>, q: Graph<N>, path: map<N, string>, v: Visit<N>, qEdge: char, nEdge: char,
                              w: string) {
    && v.output in path && path[v.output] < w && v.node in g && v.qNode in q
    && w[|path[v.output]|] == nEdge && (qEdge == nEdge || qEdge == '*')
    && nEdge in g[v.node].edges && qEdge in q[v.qNode].edges
    && Matched(g, g[v.node].edges[nEdge], q, q[v.qNode].edges[qEdge], w[|path[v.output]| + 1..])
  }

  ghost predicate ToVisit<N>(g: Graph<N>, q: Graph<N>, path: map<N, string>, stack: seq<Visit<N>>, w: string) {
    exists i :: 0 <= i < |stack| && Below(g, q, path, stack[i], w)
  }

  /** The pairs of edges from position `i` of the query's and `j` of the index's edges on. */
  ghost predicate Later(qEdges: seq<char>, nEdges: seq<char>, i: nat, j: nat, k: nat, l: nat) {
    k < |qEdges| && l < |nEdges| && (i < k || (i == k && j <= l))
  }

  ghost predicate Remaining<N>(g: Graph<N>, q: Graph<N>, path: map<N, string>, v: Visit<N>,
                               qEdges: seq<char>, nEdges: seq<char>, i: nat, j: nat, w: string) {
    exists k: nat, l: nat :: Later(qEdges, nEdges, i, j, k, l) && BelowVia(g, q, path, v, qEdges[k], nEdges[l], w)
  }

  lemma BelowSplits<N>(g: Graph<N>, q: Graph<N>, path: map<N, string>, v: Visit<N>, qEdges: seq<char>,
                       nEdges: seq<char>, w: string)
    requires v.node in g && v.qNode in q && IsKeys(qEdges, q[v.qNode].edges) && IsKeys(nEdges, g[v.node].edges)
    ensures Below(g, q, path, v, w) <==> Remaining(g, q, path, v, qEdges, nEdges, 0, 0, w)
  {
    if v.output in path && path[v.output] < w {
      var d := |path[v.output]|;
      var rest := w[d..];
      assert rest[0] == w[d] && rest[1..] == w[d + 1..];
      if Below(g, q, path, v, w) {
        var c := if w[d] in q[v.qNode].edges && QAccepts(q, q[v.qNode].edges[w[d]], rest[1..]) then w[d] else '*';
        var k: nat :| k < |qEdges| && qEdges[k] == c;
        var l: nat :| l < |nEdges| && nEdges[l] == w[d];
        assert Later(qEdges, nEdges, 0, 0, k, l) && BelowVia(g, q, path, v, qEdges[k], nEdges[l], w);
      }
    }
  }

  // ----- The invariant of the search -----

  /** Every word that both automata accept is in the output, below a visit on the stack, or beyond a
      pair of edges of the current visit that has not been looked at. */
  ghost predicate Searching<N>(g: Graph<N>, root: N, q: Graph<N>, qRoot: N, out: Graph<N>, output: N,
                               path: map<N, string>,
                               stack: seq<Visit<N>>, v: Visit<N>, qEdges: seq<char>, nEdges: seq<char>, i: nat,
                               j: nat) {
    && Trie(out, output, path)
    && (forall k :: 0 <= k < |stack| ==> stack[k].output in path)
    && (forall w: string :: w != "" && Matched(g, root, q, qRoot, w) <==>
          Accepts(out, output, w) || ToVisit(g, q, path, stack, w) || Remaining(g, q, path, v, qEdges, nEdges, i, j, w))
  }

  /** The same between two visits. */
  ghost predicate Searched<N>(g: Graph<N>, root: N, q: Graph<N>, qRoot: N, out: Graph<N>, output: N,
                              path: map<N, string>,
                              stack: seq<Visit<N>>) {
    && Trie(out, output, path)
    && (forall k :: 0 <= k < |stack| ==> stack[k].output in path)
    && (forall w: string :: w != "" && Matched(g, root, q, qRoot, w) <==>
          Accepts(out, output, w) || ToVisit(g, q, path, stack, w))
  }

  lemma SearchStarts<N>(g: Graph<N>, root: N, q: Graph<N>, qRoot: N, output: N)
    ensures Searched(g, root, q, qRoot, map[output := Shape(false, map[])], output, map[output := ""],
                     [Visit(qRoot, output, root)])
  {
    var path, v := map[output := ""], Visit(qRoot, output, root);
    forall w: string ensures w != "" && Matched(g, root, q, qRoot, w) <==> ToVisit(g, q, path, [v], w) {
      assert w[0..] == w;
      assert Below(g, q, path, v, w) <==> Below(g, q, path, [v][0], w);
    }
  }

  lemma ToVisitConcat<N>(g: Graph<N>, q: Graph<N>, path: map<N, string>, rest: seq<Visit<N>>, v: Visit<N>, w: string)
    ensures ToVisit(g, q, path, rest + [v], w) <==> ToVisit(g, q, path, rest, w) || Below(g, q, path, v, w)
  {
    var stack := rest + [v];
    if ToVisit(g, q, path, rest, w) {
      var k :| 0 <= k < |rest| && Below(g, q, path, rest[k], w);
      assert Below(g, q, path, stack[k], w);
    }
    assert stack[|rest|] == v;
  }

  lemma VisitOpens<N>(g: Graph<N>, root: N, q: Graph<N>, qRoot: N, out: Graph<N>, output: N, path: map<N, string>,
                      rest: seq<Visit<N>>, v: Visit<N>, qEdges: seq<char>, nEdges: seq<char>)
    requires Searched(g, root, q, qRoot, out, output, path, rest + [v])
    requires v.node in g && v.qNode in q && IsKeys(qEdges, q[v.qNode].edges) && IsKeys(nEdges, g[v.node].edges)
    ensures Searching(g, root, q, qRoot, out, output, path, rest, v, qEdges, nEdges, 0, 0) && v.output in path
  {
    var stack := rest + [v];
    assert stack[|rest|] == v && forall k :: 0 <= k < |rest| ==> stack[k] == rest[k];
    forall w: string
      ensures ToVisit(g, q, path, stack, w) <==> ToVisit(g, q, path, rest, w) || Remaining(g, q, path, v, qEdges,
              nEdges, 0, 0, w)
    {
      ToVisitConcat(g, q, path, rest, v, w);
      BelowSplits(g, q, path, v, qEdges, nEdges, w);
    }
  }

  lemma RemainingSteps<N>(g: Graph<N>, q: Graph<N>, path: map<N, string>, v: Visit<N>, qEdges: seq<char>,
                          nEdges: seq<char>,
                          i: nat, j: nat, w: string)
    requires i < |qEdges| && j < |nEdges|
    ensures Remaining(g, q, path, v, qEdges, nEdges, i, j, w) <==>
            BelowVia(g, q, path, v, qEdges[i], nEdges[j], w) || Remaining(g, q, path, v, qEdges, nEdges, i, j + 1, w)
  {
    if Remaining(g, q, path, v, qEdges, nEdges, i, j, w) {
      var k: nat, l: nat :| Later(qEdges, nEdges, i, j, k, l) && BelowVia(g, q, path, v, qEdges[k], nEdges[l], w);
      assert (k == i && l == j) || Later(qEdges, nEdges, i, j + 1, k, l);
    }
    if BelowVia(g, q, path, v, qEdges[i], nEdges[j], w) {
      assert Later(qEdges, nEdges, i, j, i, j);
    }
    if Remaining(g, q, path, v, qEdges, nEdges, i, j + 1, w) {
      var k: nat, l: nat :| Later(qEdges, nEdges, i, j + 1, k, l) && BelowVia(g, q, path, v, qEdges[k], nEdges[l], w);
      assert Later(qEdges, nEdges, i, j, k, l);
    }
  }

  lemma RowEnds<N>(g: Graph<N>, root: N, q: Graph<N>, qRoot: N, out: Graph<N>, output: N, path: map<N, string>,
                   stack: seq<Visit<N>>, v: Visit<N>, qEdges: seq<char>, nEdges: seq<char>, i: nat)
    requires Searching(g, root, q, qRoot, out, output, path, stack, v, qEdges, nEdges, i, |nEdges|)
    ensures Searching(g, root, q, qRoot, out, output, path, stack, v, qEdges, nEdges, i + 1, 0)
  {
    forall w: string
      ensures Remaining(g, q, path, v, qEdges, nEdges, i, |nEdges|, w) <==>
              Remaining(g, q, path, v, qEdges, nEdges, i + 1, 0, w)
    {
      assert forall k: nat, l: nat :: Later(qEdges, nEdges, i, |nEdges|, k, l) <==>
          Later(qEdges, nEdges, i + 1, 0, k, l);
    }
  }

  lemma VisitCloses<N>(g: Graph<N>, root: N, q: Graph<N>, qRoot: N, out: Graph<N>, output: N, path: map<N, string>,
                       stack: seq<Visit<N>>, v: Visit<N>, qEdges: seq<char>, nEdges: seq<char>)
    requires Searching(g, root, q, qRoot, out, output, path, stack, v, qEdges, nEdges, |qEdges|, 0)
    ensures Searched(g, root, q, qRoot, out, output, path, stack)
  {
  }

  /** Edges that do not fit together lead to no word. */
  lemma PairSkipped<N>(g: Graph<N>, root: N, q: Graph<N>, qRoot: N, out: Graph<N>, output: N, path: map<N, string>,
                       stack: seq<Visit<N>>, v: Visit<N>, qEdges: seq<char>, nEdges: seq<char>, i: nat, j: nat)
    requires Searching(g, root, q, qRoot, out, output, path, stack, v, qEdges, nEdges, i, j)
    requires i < |qEdges| && j < |nEdges| && !(nEdges[j] == qEdges[i] || qEdges[i] == '*')
    ensures Searching(g, root, q, qRoot, out, output, path, stack, v, qEdges, nEdges, i, j + 1)
  {
    forall w: string
      ensures Remaining(g, q, path, v, qEdges, nEdges, i, j, w) <==>
              Remaining(g, q, path, v, qEdges, nEdges, i, j + 1, w)
    {
      RemainingSteps(g, q, path, v, qEdges, nEdges, i, j, w);
    }
  }

  /** The words beyond a pair of edges: the path to the next node, if both ends are final, and those
      below the next visit. */
  lemma PairSplits<N>(g: Graph<N>, q: Graph<N>, path: map<N, string>, v: Visit<N>, qEdge: char, nEdge: char, next: N,
                      w: string)
    requires v.output in path && next in path && path[next] == path[v.output] + [nEdge]
    requires v.node in g && nEdge in g[v.node].edges && g[v.node].edges[nEdge] in g
    requires v.qNode in q && qEdge in q[v.qNode].edges && q[v.qNode].edges[qEdge] in q
    requires qEdge == nEdge || qEdge == '*'
    ensures var n, m := g[v.node].edges[nEdge], q[v.qNode].edges[qEdge];
            BelowVia(g, q, path, v, qEdge, nEdge, w) <==>
            (w == path[next] && g[n].final && q[m].final) || Below(g, q, path, Visit(m, next, n), w)
  {
    var d := |path[v.output]|;
    if path[v.output] < w && w[d] == nEdge {
      assert w[..d + 1] == path[next];
      assert w == w[..d + 1] + w[d + 1..];
    }
    if Below(g, q, path, Visit(q[v.qNode].edges[qEdge], next, g[v.node].edges[nEdge]), w) {
      assert path[next][..d] == path[v.output] && w[..d + 1][..d] == w[..d];
    }
  }

  /** A fitting pair of edges: the next output node is there with its path, is final if both ends are,
      and the visit that goes on from it is on the stack. */
  lemma PairTaken<N>(g: Graph<N>, root: N, q: Graph<N>, qRoot: N, out: Graph<N>, output: N, path: map<N, string>,
                     stack: seq<Visit<N>>, v: Visit<N>, qEdges: seq<char>, nEdges: seq<char>, i: nat, j: nat,
                     out': Graph<N>, path': map<N, string>, next: N)
    requires Searching(g, root, q, qRoot, out, output, path, stack, v, qEdges, nEdges, i, j)
    requires i < |qEdges| && j < |nEdges| && (nEdges[j] == qEdges[i] || qEdges[i] == '*')
    requires v.output in path && v.node in g && nEdges[j] in g[v.node].edges && g[v.node].edges[nEdges[j]] in g
    requires v.qNode in q && qEdges[i] in q[v.qNode].edges && q[v.qNode].edges[qEdges[i]] in q
    requires Trie(out', output, path') && next in path' && path'[next] == path[v.output] + [nEdges[j]]
    requires forall o :: o in path ==> o in path' && path'[o] == path[o]
    requires var final := g[g[v.node].edges[nEdges[j]]].final && q[q[v.qNode].edges[qEdges[i]]].final;
             forall w: string :: Accepts(out', output, w) <==> Accepts(out, output, w) || (w == path'[next] && final)
    ensures var taken := Visit(q[v.qNode].edges[qEdges[i]], next, g[v.node].edges[nEdges[j]]);
            Searching(g, root, q, qRoot, out', output, path', stack + [taken], v, qEdges, nEdges, i, j + 1)
  {
    hide Trie, Matched, Below, BelowVia, Remaining, ToVisit;
    var taken := Visit(q[v.qNode].edges[qEdges[i]], next, g[v.node].edges[nEdges[j]]);
    forall w: string
      ensures w != "" && Matched(g, root, q, qRoot, w) <==>
              || Accepts(out', output, w) || ToVisit(g, q, path', stack + [taken], w)
              || Remaining(g, q, path', v, qEdges, nEdges, i, j + 1, w)
    {
      RemainingSteps(g, q, path, v, qEdges, nEdges, i, j, w);
      PathsAgree(g, q, path, path', stack, v, qEdges, nEdges, i, j + 1, w);
      PathAgrees(g, q, path, path', v, qEdges[i], nEdges[j], w);
      PairSplits(g, q, path', v, qEdges[i], nEdges[j], next, w);
      ToVisitConcat(g, q, path', stack, taken, w);
    }
  }

  lemma PathAgrees<N>(g: Graph<N>, q: Graph<N>, path: map<N, string>, path': map<N, string>, v: Visit<N>, c: char,
                      d: char, w: string)
    requires v.output in path && v.output in path' && path'[v.output] == path[v.output]
    ensures BelowVia(g, q, path, v, c, d, w) <==> BelowVia(g, q, path', v, c, d, w)
  {
  }

  lemma PathsAgree<N>(g: Graph<N>, q: Graph<N>, path: map<N, string>, path': map<N, string>, stack: seq<Visit<N>>,
                      v: Visit<N>, qEdges: seq<char>, nEdges: seq<char>, i: nat, j: nat, w: string)
    requires forall o :: o in path ==> o in path' && path'[o] == path[o]
    requires v.output in path && forall k :: 0 <= k < |stack| ==> stack[k].output in path
    ensures ToVisit(g, q, path, stack, w) <==> ToVisit(g, q, path', stack, w)
    ensures Remaining(g, q, path, v, qEdges, nEdges, i, j, w) <==> Remaining(g, q, path', v, qEdges, nEdges, i, j, w)
  {
    forall k | 0 <= k < |stack| ensures Below(g, q, path, stack[k], w) <==> Below(g, q, path', stack[k], w) {
    }
    forall c: char, d: char ensures BelowVia(g, q, path, v, c, d, w) <==> BelowVia(g, q, path', v, c, d, w) {
    }
  }

  // ----- The search -----

  /** The two automata that are intersected. */
  datatype Task = Task(index: TokenSet, indexNodes: set<TokenSet>, rank: map<TokenSet, nat>, query: TokenSet,
                       queryNodes: set<TokenSet>)

  ghost predicate Ready(t: Task, nodes: set<TokenSet>)
    reads t.indexNodes, t.queryNodes
  {
    && nodes !! (t.indexNodes + t.queryNodes)
    && t.rank.Keys <= t.indexNodes && Ranked(Snapshot(t.indexNodes), t.rank) && Closed(Snapshot(t.queryNodes))
  }

  ghost predicate During(t: Task, out: Graph<TokenSet>, output: TokenSet, path: map<TokenSet, string>,
                         stack: seq<Visit<TokenSet>>,
                         v: Visit<TokenSet>, qEdges: seq<char>, nEdges: seq<char>, i: nat, j: nat)
    reads t.indexNodes, t.queryNodes
  {
    v.output in path && Searching(Snapshot(t.indexNodes), t.index, Snapshot(t.queryNodes), t.query, out, output, path,
                                  stack, v, qEdges, nEdges, i, j)
  }

  ghost predicate Between(t: Task, out: Graph<TokenSet>, output: TokenSet, path: map<TokenSet, string>,
                          stack: seq<Visit<TokenSet>>)
    reads t.indexNodes, t.queryNodes
  {
    Searched(Snapshot(t.indexNodes), t.index, Snapshot(t.queryNodes), t.query, out, output, path, stack)
  }

  /** A visit to nodes of the two automata. */
  ghost predicate Inside(t: Task, v: Visit<TokenSet>) {
    v.node in t.rank && v.qNode in t.queryNodes
  }

  /** New visits lead to nodes of lower rank. */
  ghost predicate Lower(t: Task, added: seq<Visit<TokenSet>>, v: Visit<TokenSet>)
    requires v.node in t.rank
  {
    forall k :: 0 <= k < |added| ==> Inside(t, added[k]) && t.rank[added[k].node] < t.rank[v.node]
  }

  lemma SearchingTree<N>(g: Graph<N>, root: N, q: Graph<N>, qRoot: N, out: Graph<N>, output: N, path: map<N, string>,
                         stack: seq<Visit<N>>, v: Visit<N>, qEdges: seq<char>, nEdges: seq<char>, i: nat, j: nat)
    requires Searching(g, root, q, qRoot, out, output, path, stack, v, qEdges, nEdges, i, j)
    ensures Trie(out, output, path) && out.Keys == path.Keys
  {
  }

  lemma ChildrenInside(t: Task, v: Visit<TokenSet>, qEdge: char, nEdge: char)
    requires Ready(t, {}) && Inside(t, v) && qEdge in v.qNode.edges && nEdge in v.node.edges
    ensures var n, m := v.node.edges[nEdge], v.qNode.edges[qEdge];
            && n in t.rank && t.rank[n] < t.rank[v.node] && m in t.queryNodes
            && v.node in Snapshot(t.indexNodes) && Snapshot(t.indexNodes)[v.node].edges == v.node.edges
            && v.qNode in Snapshot(t.queryNodes) && Snapshot(t.queryNodes)[v.qNode].edges == v.qNode.edges
            && n in Snapshot(t.indexNodes) && Snapshot(t.indexNodes)[n].final == n.final
            && m in Snapshot(t.queryNodes) && Snapshot(t.queryNodes)[m].final == m.final
  {
    assert Snapshot(t.indexNodes)[v.node] == v.node.Shape();
    assert Snapshot(t.queryNodes)[v.qNode] == v.qNode.Shape();
  }

  /** Looks at one pair of edges that fit together. */
  method VisitPair(frame: Visit<TokenSet>, qEdges: seq<char>, nEdges: seq<char>, i: nat, j: nat,
                   stack: seq<Visit<TokenSet>>, ids: IdSource,
                   ghost t: Task, ghost output: TokenSet, ghost nodes: set<TokenSet>, ghost path: map<TokenSet, string>)
    returns (visit: Visit<TokenSet>, ghost nodes': set<TokenSet>, ghost path': map<TokenSet, string>)
    requires Ready(t, nodes) && Inside(t, frame) && i < |qEdges| && j < |nEdges|
    requires qEdges[i] in frame.qNode.edges && nEdges[j] in frame.node.edges
            && (nEdges[j] == qEdges[i] || qEdges[i] == '*')
    requires During(t, Snapshot(nodes), output, path, stack, frame, qEdges, nEdges, i, j)
    modifies nodes, ids
    ensures Ready(t, nodes') && nodes <= nodes' && fresh(nodes' - nodes)
    ensures During(t, Snapshot(nodes'), output, path', stack + [visit], frame, qEdges, nEdges, i, j + 1)
    ensures Inside(t, visit) && t.rank[visit.node] < t.rank[frame.node]
  {
    hide Searching, Snapshot, Ranked, Closed, Accepts, Trie;
    var qEdge, nEdge := qEdges[i], nEdges[j];
    ghost var g, q, out := Snapshot(t.indexNodes), Snapshot(t.queryNodes), Snapshot(nodes);
    SearchingTree(g, t.index, q, t.query, out, output, path, stack, frame, qEdges, nEdges, i, j);
    SnapshotHas(nodes);
    ChildrenInside(t, frame, qEdge, nEdge);
    var node, qNode := frame.node.edges[nEdge], frame.qNode.edges[qEdge];
    var next;
    next, nodes', path' := Link(frame.output, nEdge, node.final && qNode.final, ids, output, nodes, path);
    PairTaken(g, t.index, q, t.query, out, output, path, stack, frame, qEdges, nEdges, i, j, Snapshot(nodes'), path',
              next);
    visit := Visit(qNode, next, node);
  }

  /** Looks at all edges of the index node for one edge of the query node. */
  method VisitRow(frame: Visit<TokenSet>, qEdges: seq<char>, nEdges: seq<char>, i: nat, before: seq<Visit<TokenSet>>,
                  ids: IdSource,
                  ghost t: Task, ghost output: TokenSet, ghost nodes: set<TokenSet>, ghost path: map<TokenSet, string>)
    returns (stack: seq<Visit<TokenSet>>, ghost added: seq<Visit<TokenSet>>, ghost nodes': set<TokenSet>,
             ghost path': map<TokenSet, string>)
    requires Ready(t, nodes) && Inside(t, frame) && i < |qEdges|
    requires IsKeys(qEdges, frame.qNode.edges) && IsKeys(nEdges, frame.node.edges)
    requires During(t, Snapshot(nodes), output, path, before, frame, qEdges, nEdges, i, 0)
    modifies nodes, ids
    ensures Ready(t, nodes') && nodes <= nodes' && fresh(nodes' - nodes)
    ensures stack == before + added && During(t, Snapshot(nodes'), output, path', stack, frame, qEdges, nEdges, i + 1,
                                              0)
    ensures Lower(t, added, frame) && |added| <= |nEdges|
  {
    hide Searching, Snapshot, Ranked, Closed, IsKeys;
    ghost var g, q := Snapshot(t.indexNodes), Snapshot(t.queryNodes);
    stack, added, nodes', path' := before, [], nodes, path;
    for j := 0 to |nEdges|
      invariant Ready(t, nodes') && nodes <= nodes' && fresh(nodes' - nodes)
      invariant stack == before + added && During(t, Snapshot(nodes'), output, path', stack, frame, qEdges, nEdges, i,
                                                  j)
      invariant Lower(t, added, frame) && |added| <= j
    {
      if nEdges[j] == qEdges[i] || qEdges[i] == '*' {
        KeyIsThere(qEdges, frame.qNode.edges, i);
        KeyIsThere(nEdges, frame.node.edges, j);
        var visit;
        visit, nodes', path' := VisitPair(frame, qEdges, nEdges, i, j, stack, ids, t, output, nodes', path');
        stack, added := stack + [visit], added + [visit];
      } else {
        PairSkipped(g, t.index, q, t.query, Snapshot(nodes'), output, path', stack, frame, qEdges, nEdges, i, j);
      }
    }
    RowEnds(g, t.index, q, t.query, Snapshot(nodes'), output, path', stack, frame, qEdges, nEdges, i);
  }

  lemma KeyIsThere<V>(keys: seq<char>, edges: map<char, V>, i: nat)
    requires IsKeys(keys, edges) && i < |keys|
    ensures keys[i] in edges
  {
    assert keys[i] in keys;
  }

  lemma VisitBegins(t: Task, out: Graph<TokenSet>, output: TokenSet, path: map<TokenSet, string>,
                    rest: seq<Visit<TokenSet>>, v: Visit<TokenSet>, qEdges: seq<char>, nEdges: seq<char>)
    requires Ready(t, {}) && Inside(t, v) && Between(t, out, output, path, rest + [v])
    requires IsKeys(qEdges, v.qNode.edges) && IsKeys(nEdges, v.node.edges)
    ensures During(t, out, output, path, rest, v, qEdges, nEdges, 0, 0) && Lower(t, [], v)
  {
    hide Searched, Searching, Snapshot, Ranked, Closed;
    SnapshotHas(t.indexNodes);
    SnapshotHas(t.queryNodes);
    VisitOpens(Snapshot(t.indexNodes), t.index, Snapshot(t.queryNodes), t.query, out, output, path, rest, v, qEdges,
               nEdges);
  }

  lemma VisitFinishes(t: Task, out: Graph<TokenSet>, output: TokenSet, path: map<TokenSet, string>,
                      stack: seq<Visit<TokenSet>>, v: Visit<TokenSet>, qEdges: seq<char>, nEdges: seq<char>)
    requires During(t, out, output, path, stack, v, qEdges, nEdges, |qEdges|, 0)
    ensures Between(t, out, output, path, stack)
  {
    VisitCloses(Snapshot(t.indexNodes), t.index, Snapshot(t.queryNodes), t.query, out, output, path, stack, v, qEdges,
                nEdges);
  }

  /** Looks at every pair of edges of the two nodes of a visit. */
  method VisitPairs(frame: Visit<TokenSet>, rest: seq<Visit<TokenSet>>, ids: IdSource,
                    ghost t: Task, ghost output: TokenSet, ghost nodes: set<TokenSet>,
                    ghost path: map<TokenSet, string>)
    returns (stack: seq<Visit<TokenSet>>, ghost added: seq<Visit<TokenSet>>, ghost nodes': set<TokenSet>,
             ghost path': map<TokenSet, string>)
    requires Ready(t, nodes) && Inside(t, frame)
    requires Between(t, Snapshot(nodes), output, path, rest + [frame])
    modifies nodes, ids
    ensures Ready(t, nodes') && nodes <= nodes' && fresh(nodes' - nodes)
    ensures stack == rest + added && Between(t, Snapshot(nodes'), output, path', stack)
    ensures Lower(t, added, frame) && |added| <= |frame.qNode.edges| * |frame.node.edges|
  {
    hide Between, During, Snapshot, Ranked, Closed, IsKeys, Lower;
    var qEdges := Keys(frame.qNode.edges);
    var nEdges := Keys(frame.node.edges);
    KeysAreFew(qEdges, frame.qNode.edges);
    KeysAreFew(nEdges, frame.node.edges);
    VisitBegins(t, Snapshot(nodes), output, path, rest, frame, qEdges, nEdges);
    stack, added, nodes', path' := rest, [], nodes, path;
    for i := 0 to |qEdges|
      invariant Ready(t, nodes') && nodes <= nodes' && fresh(nodes' - nodes)
      invariant stack == rest + added && During(t, Snapshot(nodes'), output, path', stack, frame, qEdges, nEdges, i, 0)
      invariant Lower(t, added, frame) && |added| <= i * |nEdges|
    {
      ghost var more;
      stack, more, nodes', path' := VisitRow(frame, qEdges, nEdges, i, stack, ids, t, output, nodes', path');
      LowerConcat(t, added, more, frame);
      added := added + more;
    }
    VisitFinishes(t, Snapshot(nodes'), output, path', stack, frame, qEdges, nEdges);
  }

  lemma LowerConcat(t: Task, a: seq<Visit<TokenSet>>, b: seq<Visit<TokenSet>>, v: Visit<TokenSet>)
    requires v.node in t.rank && Lower(t, a, v) && Lower(t, b, v)
    ensures Lower(t, a + b, v)
  {
  }

  // ----- The search ends -----

  ghost predicate AllInside(t: Task, stack: seq<Visit<TokenSet>>) {
    forall k :: 0 <= k < |stack| ==> Inside(t, stack[k])
  }

  ghost function VisitRanks(t: Task, stack: seq<Visit<TokenSet>>): (ranks: seq<nat>)
    requires AllInside(t, stack)
    ensures |ranks| == |stack|
  {
    seq(|stack|, k requires 0 <= k < |stack| => t.rank[stack[k].node])
  }

  /** More pairs of edges than any two nodes of the automata have. */
  ghost predicate ManyPairs(t: Task, b: nat)
    reads t.indexNodes, t.queryNodes
  {
    forall m, n :: m in t.queryNodes && n in t.rank && n in t.indexNodes ==> |m.edges| * |n.edges| < b
  }

  lemma SmallerProduct(k: nat, l: nat, c: nat, d: nat)
    requires k < c && l < d
    ensures k * l < c * d
  {
    MultiplesGrow(k, c, l);
    assert c * d == c * l + c * (d - l);
    MultiplesGrow(1, d - l, c);
  }

  lemma PairsAreBounded(t: Task) returns (b: nat)
    requires Ready(t, {})
    ensures ManyPairs(t, b)
  {
    hide Snapshot, Ranked, Closed;
    var g, q := Snapshot(t.indexNodes), Snapshot(t.queryNodes);
    SnapshotHas(t.indexNodes);
    SnapshotHas(t.queryNodes);
    var c := DegreeBound(q, t.queryNodes);
    var d := DegreeBound(g, t.rank.Keys);
    b := c * d;
    forall m, n | m in t.queryNodes && n in t.rank && n in t.indexNodes ensures |m.edges| * |n.edges| < b {
      SmallerProduct(|m.edges|, |n.edges|, c, d);
    }
  }

  /** A visit makes way for fewer than `b` visits to nodes of lower rank. */
  lemma VisitsGoDown(t: Task, b: nat, rest: seq<Visit<TokenSet>>, frame: Visit<TokenSet>, added: seq<Visit<TokenSet>>)
    requires AllInside(t, rest + [frame]) && frame.node in t.rank && Lower(t, added, frame) && |added| < b
    ensures AllInside(t, rest + added)
    ensures Weight(b, VisitRanks(t, rest + added)) < Weight(b, VisitRanks(t, rest + [frame]))
  {
    var stack := rest + [frame];
    assert stack[|rest|] == frame;
    assert AllInside(t, rest) by {
      forall k | 0 <= k < |rest| ensures Inside(t, rest[k]) { assert stack[k] == rest[k]; }
    }
    assert AllInside(t, added);
    assert VisitRanks(t, stack) == VisitRanks(t, rest) + [t.rank[frame.node]];
    assert VisitRanks(t, rest + added) == VisitRanks(t, rest) + VisitRanks(t, added);
    WeightFalls(b, VisitRanks(t, rest), t.rank[frame.node], VisitRanks(t, added));
  }

  lemma SearchEnds<N>(g: Graph<N>, root: N, q: Graph<N>, qRoot: N, out: Graph<N>, output: N, path: map<N, string>)
    requires Searched(g, root, q, qRoot, out, output, path, [])
    ensures Trie(out, output, path)
    ensures forall w: string :: Accepts(out, output, w) <==> w != "" && Matched(g, root, q, qRoot, w)
  {
  }

  /** The intersection accepts exactly the non-empty words that the index accepts and some run of the
      query automaton accepts. The search ends, whether or not the query graph has cycles. */
  method Intersect(index: TokenSet, b: TokenSet, ids: IdSource, ghost t: Task)
    returns (output: TokenSet, ghost nodes: set<TokenSet>, ghost rank: map<TokenSet, nat>)
    requires Ready(t, {}) && index == t.index && index in t.rank && b == t.query && b in t.queryNodes
    modifies ids
    ensures fresh(nodes) && output in rank && rank.Keys == nodes && Ranked(Snapshot(nodes), rank)
    ensures forall w: string :: Accepts(Snapshot(nodes), output, w) <==>
              w != "" && Matched(Snapshot(t.indexNodes), index, Snapshot(t.queryNodes), b, w)
  {
    hide Searched, Snapshot, Ranked, Closed, Accepts, Matched, Trie, Lower, ManyPairs;
    ghost var g, q := Snapshot(t.indexNodes), Snapshot(t.queryNodes);
    ghost var most := PairsAreBounded(t);
    output := new TokenSet(ids);
    nodes := {output};
    ghost var path: map<TokenSet, string> := map[output := ""];
    SnapshotOfOne(output);
    SearchStarts(g, index, q, b, output);
    var stack := [Visit(b, output, index)];
    while stack != []
      invariant Ready(t, nodes) && fresh(nodes) && AllInside(t, stack)
      invariant Between(t, Snapshot(nodes), output, path, stack)
      invariant ManyPairs(t, most)
      decreases Weight(most, VisitRanks(t, stack))
    {
      var frame, rest := stack[|stack| - 1], stack[..|stack| - 1];
      LastSplits(stack);
      PairsOf(t, most, frame);
      ghost var added;
      stack, added, nodes, path := VisitPairs(frame, rest, ids, t, output, nodes, path);
      VisitsGoDown(t, most, rest, frame, added);
    }
    SearchEnds(g, index, q, b, Snapshot(nodes), output, path);
    rank := TrieIsRanked(Snapshot(nodes), output, path);
    SnapshotHas(nodes);
  }

  lemma PairsOf(t: Task, b: nat, v: Visit<TokenSet>)
    requires Ready(t, {}) && ManyPairs(t, b) && Inside(t, v)
    ensures |v.qNode.edges| * |v.node.edges| < b
  {
    assert v.node in t.indexNodes;
  }
}
