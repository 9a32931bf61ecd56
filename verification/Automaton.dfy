/** Finite automata whose edges are labelled with single characters, as immutable values.

    A graph records, for every node, whether the node is final and where its edges lead. The heap
    objects of `TokenSets` are described by a snapshot of this form, so that everything that is proved
    here about graphs can be used between any two heap updates. */
module Automaton {

  import opened Options

  datatype Shape<N> = Shape(final: bool, edges: map<char, N>)

  type Graph<N(==)> = map<N, Shape<N>>

  ghost predicate Closed<N>(g: Graph<N>) {
    forall n, c :: n in g && c in g[n].edges ==> g[n].edges[c] in g
  }

  /** The word `w` leads from `n` to a final node. */
  ghost predicate Accepts<N>(g: Graph<N>, n: N, w: string)
    decreases |w|
  {
    n in g &&
    if w == "" then g[n].final
    else w[0] in g[n].edges && Accepts(g, g[n].edges[w[0]], w[1..])
  }

  /** The node to which the word `w` leads from `n`, if there is one. */
  ghost function Walk<N>(g: Graph<N>, n: N, w: string): Option<N>
    decreases |w|
  {
    if n !in g then None
    else if w == "" then Some(n)
    else if w[0] !in g[n].edges then None
    else Walk(g, g[n].edges[w[0]], w[1..])
  }

  ghost predicate SameLanguage<N>(g: Graph<N>, a: N, b: N) {
    forall w: string :: Accepts(g, a, w) <==> Accepts(g, b, w)
  }

  lemma {:induction false} WalkConcat<N>(g: Graph<N>, n: N, u: string, w: string)
    ensures Walk(g, n, u + w) ==
            if Walk(g, n, u).None? then None else Walk(g, Walk(g, n, u).value, w)
    decreases |u|
  {
    if u == "" {
      assert u + w == w;
    } else if n in g && u[0] in g[n].edges {
      assert (u + w)[1..] == u[1..] + w;
      WalkConcat(g, g[n].edges[u[0]], u[1..], w);
    }
  }

  lemma {:induction false} AcceptsConcat<N>(g: Graph<N>, n: N, u: string, w: string)
    ensures Accepts(g, n, u + w) <==> Walk(g, n, u).Some? && Accepts(g, Walk(g, n, u).value, w)
    decreases |u|
  {
    if u == "" {
      assert u + w == w;
    } else if n in g && u[0] in g[n].edges {
      assert (u + w)[1..] == u[1..] + w;
      AcceptsConcat(g, g[n].edges[u[0]], u[1..], w);
    }
  }

  lemma {:induction false} WalkStaysInside<N>(g: Graph<N>, n: N, u: string)
    ensures Walk(g, n, u).Some? ==> Walk(g, n, u).value in g
    decreases |u|
  {
    if n in g && u != "" && u[0] in g[n].edges {
      WalkStaysInside(g, g[n].edges[u[0]], u[1..]);
    }
  }

  // ----- What the heap updates of the builder do to the accepted words -----

  /** Sending an edge to a node of the same shape changes no node's language. */
  lemma {:induction false} RedirectKeepsLanguage<N>(g: Graph<N>, v: N, c: char, b: N, n: N, w: string)
    requires v in g && c in g[v].edges && g[v].edges[c] in g && b in g
    requires g[g[v].edges[c]] == g[b]
    ensures Accepts(g[v := Shape(g[v].final, g[v].edges[c := b])], n, w) <==> Accepts(g, n, w)
    decreases |w|
  {
    var g' := g[v := Shape(g[v].final, g[v].edges[c := b])];
    if n in g && w != "" && w[0] in g[n].edges {
      RedirectKeepsLanguage(g, v, c, b, g'[n].edges[w[0]], w[1..]);
    }
  }

  /** An edge to a new node that is neither final nor has edges changes no old node's language. */
  lemma {:induction false} DeadLeafKeepsLanguage<N>(g: Graph<N>, v: N, c: char, x: N, n: N, w: string)
    requires Closed(g) && v in g && x !in g && c !in g[v].edges && n in g
    ensures Accepts(g[x := Shape(false, map[])][v := Shape(g[v].final, g[v].edges[c := x])], n, w) <==> Accepts(g, n, w)
    decreases |w|
  {
    if w != "" && w[0] in g[n].edges {
      DeadLeafKeepsLanguage(g, v, c, x, g[n].edges[w[0]], w[1..]);
    }
  }

  /** Making a node final adds exactly the words that lead to it. */
  lemma {:induction false} FinalAddsItsWords<N>(g: Graph<N>, v: N, n: N, w: string)
    requires v in g
    ensures Accepts(g[v := Shape(true, g[v].edges)], n, w) <==> Accepts(g, n, w) || Walk(g, n, w) == Some(v)
    decreases |w|
  {
    if n in g && w != "" && w[0] in g[n].edges {
      FinalAddsItsWords(g, v, g[n].edges[w[0]], w[1..]);
    }
  }

  // ----- Minimality -----

  ghost predicate Reached<N>(g: Graph<N>, root: N, n: N) {
    exists u: string :: Walk(g, root, u) == Some(n)
  }

  /** Every node that is reached from the root accepts some word. */
  ghost predicate Trim<N>(g: Graph<N>, root: N) {
    forall n :: n in g && Reached(g, root, n) ==> exists w: string :: Accepts(g, n, w)
  }

  ghost predicate Acyclic<N>(g: Graph<N>, root: N) {
    forall n, u: string :: n in g && Reached(g, root, n) && Walk(g, n, u) == Some(n) ==> u == ""
  }

  /** Different reached nodes accept different sets of words. */
  ghost predicate Distinguished<N>(g: Graph<N>, root: N) {
    forall a, b :: a in g && b in g && Reached(g, root, a) && Reached(g, root, b) && SameLanguage(g, a, b) ==> a == b
  }

  ghost predicate Minimal<N>(g: Graph<N>, root: N) {
    Trim(g, root) && Acyclic(g, root) && Distinguished(g, root)
  }

  ghost predicate Bounded<N>(g: Graph<N>, n: N, bound: nat) {
    forall w: string :: Accepts(g, n, w) ==> |w| <= bound
  }

  /** In a trim automaton with finitely many words no node is on a cycle. */
  lemma {:induction false} NoCycle<N>(g: Graph<N>, n: N, u: string, w: string, bound: nat)
    requires Bounded(g, n, bound) && Accepts(g, n, w) && Walk(g, n, u) == Some(n)
    ensures u == ""
    decreases bound - |w|
  {
    if u != "" {
      AcceptsConcat(g, n, u, w);
      NoCycle(g, n, u, u + w, bound);
    }
  }

  /** Two words that another automaton for the same words does not tell apart lead to the same node
      of a minimal one. */
  lemma {:induction false} MergedWordsLeadToOneNode<N, M>(g: Graph<N>, root: N, h: Graph<M>, r: M, u: string, v: string)
    requires Minimal(g, root) && (forall w: string :: Accepts(g, root, w) <==> Accepts(h, r, w))
    requires Walk(g, root, u).Some? && Walk(g, root, v).Some?
    ensures Walk(h, r, u).Some?
    ensures Walk(h, r, u) == Walk(h, r, v) ==> Walk(g, root, u) == Walk(g, root, v)
  {
    WalkStaysInside(g, root, u);
    WalkStaysInside(g, root, v);
    var a, b := Walk(g, root, u).value, Walk(g, root, v).value;
    assert Reached(g, root, a) && Reached(g, root, b);
    var w: string :| Accepts(g, a, w);
    AcceptsConcat(g, root, u, w);
    AcceptsConcat(h, r, u, w);
    if Walk(h, r, u) == Walk(h, r, v) {
      forall x: string ensures Accepts(g, a, x) <==> Accepts(g, b, x) {
        AcceptsConcat(g, root, u, x);
        AcceptsConcat(g, root, v, x);
        AcceptsConcat(h, r, u, x);
        AcceptsConcat(h, r, v, x);
      }
      assert SameLanguage(g, a, b);
    }
  }

  /** The node of `h` to which a chosen word for the node `n` of `g` leads. */
  ghost predicate Image<N, M>(g: Graph<N>, root: N, h: Graph<M>, r: M, n: N, m: M) {
    exists u: string :: Walk(g, root, u) == Some(n) && Walk(h, r, u) == Some(m)
  }

  /** No other node of `g` shares the image. */
  ghost predicate OnlyImage<N, M>(g: Graph<N>, root: N, h: Graph<M>, r: M, n: N, m: M) {
    forall o :: o in g && Image(g, root, h, r, o, m) ==> o == n
  }

  lemma {:induction false} ImagesDiffer<N, M>(g: Graph<N>, root: N, h: Graph<M>, r: M, s: set<N>) returns (t: set<M>)
    requires s <= g.Keys && forall n :: n in s ==> exists m :: m in h && Image(g, root, h, r, n, m)
    requires forall n, m :: n in g && m in h && Image(g, root, h, r, n, m) ==> OnlyImage(g, root, h, r, n, m)
    ensures t <= h.Keys && |t| == |s|
    ensures forall m :: m in t ==> exists n :: n in s && Image(g, root, h, r, n, m)
    decreases |s|
  {
    t := {};
    if s != {} {
      var n :| n in s;
      var m :| m in h && Image(g, root, h, r, n, m);
      var t' := ImagesDiffer(g, root, h, r, s - {n});
      t := t' + {m};
    }
  }

  /** No automaton for the same words has fewer nodes than a minimal one has reached nodes. */
  lemma {:induction false} NoSmallerAutomaton<N, M>(g: Graph<N>, root: N, h: Graph<M>, r: M, s: set<N>)
    requires Minimal(g, root) && (forall w: string :: Accepts(g, root, w) <==> Accepts(h, r, w))
    requires s <= g.Keys && forall n :: n in s ==> Reached(g, root, n)
    ensures |s| <= |h|
  {
    forall n | n in s ensures exists m :: m in h && Image(g, root, h, r, n, m) {
      var u: string :| Walk(g, root, u) == Some(n);
      MergedWordsLeadToOneNode(g, root, h, r, u, u);
      WalkStaysInside(h, r, u);
      assert Image(g, root, h, r, n, Walk(h, r, u).value);
    }
    forall n, m | n in g && m in h && Image(g, root, h, r, n, m) ensures OnlyImage(g, root, h, r, n, m) {
      var u: string :| Walk(g, root, u) == Some(n) && Walk(h, r, u) == Some(m);
      forall o | o in g && Image(g, root, h, r, o, m) ensures o == n {
        var v: string :| Walk(g, root, v) == Some(o) && Walk(h, r, v) == Some(m);
        MergedWordsLeadToOneNode(g, root, h, r, u, v);
      }
    }
    var t := ImagesDiffer(g, root, h, r, s);
    CardinalityOfSubset(t, h.Keys);
  }

  lemma {:induction false} CardinalityOfSubset<T>(a: set<T>, b: set<T>)
    requires a <= b
    ensures |a| <= |b|
  {
    assert b == a + (b - a);
  }
}
