/** What the incremental construction of a token set (docs/styles/lunr.js:1560-1628) keeps true, stated
    on snapshots of the nodes. The nodes are generic; `key` names the text under which a shape is
    registered. */
module BuilderState {
  import opened Options
  import opened Automaton

  /** The `spine` is the path that spells the last word and has not been minimized yet. Its nodes lead
      to the next one or to registered nodes, and registered nodes lead to registered nodes only. No
      label on the spine is past the word's character at that depth. */
  ghost predicate Layered<N>(g: Graph<N>, spine: seq<N>, word: string, registered: set<N>) {
    && Closed(g) && registered <= g.Keys && 1 <= |spine| <= |word| + 1
    && (forall i :: 0 <= i < |spine| ==> spine[i] in g && spine[i] !in registered)
    && (forall i, j :: 0 <= i < j < |spine| ==> spine[i] != spine[j])
    && (forall i :: 0 <= i < |spine| - 1 ==> word[i] in g[spine[i]].edges && g[spine[i]].edges[word[i]] == spine[i + 1])
    && (forall i, c :: 0 <= i < |spine| && c in g[spine[i]].edges ==>
          i < |word| && c <= word[i] && ((i + 1 < |spine| && c == word[i]) || g[spine[i]].edges[c] in registered))
    && Sealed(g, registered)
  }

  ghost predicate Sealed<N>(g: Graph<N>, registered: set<N>)
    requires registered <= g.Keys
  {
    forall m, c :: m in registered && c in g[m].edges ==> g[m].edges[c] in registered
  }

  lemma LayeredNodes<N>(g: Graph<N>, spine: seq<N>, word: string, registered: set<N>)
    requires Layered(g, spine, word, registered)
    ensures 1 <= |spine| <= |word| + 1
    ensures Closed(g) && registered <= g.Keys && forall i :: 0 <= i < |spine| ==> spine[i] in g
  {
  }

  ghost predicate Useful<N>(g: Graph<N>, nodes: set<N>) {
    forall m :: m in nodes ==> exists w: string :: Accepts(g, m, w)
  }

  /** Every node of the spine accepts what is left of the word at its depth. */
  ghost predicate Completes<N>(g: Graph<N>, spine: seq<N>, word: string)
    requires |spine| <= |word| + 1
  {
    forall i :: 0 <= i < |spine| ==> Accepts(g, spine[i], word[i..])
  }

  ghost predicate Language<N>(g: Graph<N>, root: N, words: set<string>) {
    forall w: string :: Accepts(g, root, w) <==> w in words
  }

  // ----- One round of `minimize` -----

  /** The last node of the spine joins the registered nodes. */
  lemma RegisterLast<N>(g: Graph<N>, spine: seq<N>, word: string, registered: set<N>)
    requires Layered(g, spine, word, registered) && |spine| > 1
    ensures Layered(g, spine[..|spine| - 1], word, registered + {spine[|spine| - 1]})
  {
    var k, x := |spine| - 1, spine[|spine| - 1];
    forall c | c in g[x].edges ensures g[x].edges[c] in registered { }
    assert Sealed(g, registered + {x});
    assert forall i :: 0 <= i < k ==> spine[..k][i] == spine[i] && spine[i] != x;
  }

  lemma LastIsUseful<N>(g: Graph<N>, spine: seq<N>, word: string, registered: set<N>)
    requires 1 < |spine| <= |word| + 1 && Useful(g, registered) && Completes(g, spine, word)
    ensures Useful(g, registered + {spine[|spine| - 1]}) && Completes(g, spine[..|spine| - 1], word)
  {
    assert Accepts(g, spine[|spine| - 1], word[|spine| - 1..]);
  }

  ghost function Redirected<N>(g: Graph<N>, v: N, c: char, b: N): Graph<N>
    requires v in g
  {
    g[v := Shape(g[v].final, g[v].edges[c := b])]
  }

  /** Sending the edge to the last node of the spine to any registered node keeps the nodes in order. */
  lemma RedirectLast<N>(g: Graph<N>, spine: seq<N>, word: string, registered: set<N>, b: N)
    requires Layered(g, spine, word, registered) && |spine| > 1 && b in registered
    ensures var g' := Redirected(g, spine[|spine| - 2], word[|spine| - 2], b);
            Layered(g', spine[..|spine| - 1], word, registered) && spine[|spine| - 2] !in registered
  {
  }

  /** If that node has the shape of the last one, no node's words change. */
  lemma ReplaceLast<N>(g: Graph<N>, spine: seq<N>, word: string, registered: set<N>, b: N)
    requires Layered(g, spine, word, registered) && |spine| > 1
    requires b in registered && g[b] == g[spine[|spine| - 1]]
    ensures SameWords(g, Redirected(g, spine[|spine| - 2], word[|spine| - 2], b))
  {
    var k := |spine| - 2;
    var v, c := spine[k], word[k];
    forall n, w: string | n in g ensures Accepts(Redirected(g, v, c, b), n, w) <==> Accepts(g, n, w) {
      RedirectKeepsLanguage(g, v, c, b, n, w);
    }
  }

  /** Every node of `g` accepts the same words in `h`. */
  ghost predicate SameWords<N>(g: Graph<N>, h: Graph<N>) {
    forall n, w: string :: n in g ==> (Accepts(h, n, w) <==> Accepts(g, n, w))
  }

  lemma SameWordsStayUseful<N>(g: Graph<N>, h: Graph<N>, nodes: set<N>)
    requires SameWords(g, h) && Useful(g, nodes) && nodes <= g.Keys
    ensures Useful(h, nodes)
  {
    forall m | m in nodes ensures exists w: string :: Accepts(h, m, w) {
      var w: string :| Accepts(g, m, w);
      assert Accepts(h, m, w);
    }
  }

  lemma SameWordsSameLanguage<N>(g: Graph<N>, h: Graph<N>, root: N, words: set<string>)
    requires SameWords(g, h) && Language(g, root, words) && root in g
    ensures Language(h, root, words)
  {
  }

  lemma SameWordsStillComplete<N>(g: Graph<N>, h: Graph<N>, spine: seq<N>, word: string)
    requires SameWords(g, h) && 1 < |spine| <= |word| + 1 && Completes(g, spine, word)
    requires forall i :: 0 <= i < |spine| ==> spine[i] in g
    ensures Completes(h, spine[..|spine| - 1], word)
  {
  }

  // ----- The three steps of `insert` -----

  predicate Less(a: string, b: string) {
    b != "" && (a == "" || a[0] < b[0] || (a[0] == b[0] && Less(a[1..], b[1..])))
  }

  /** A word comes before another if it is a proper prefix of it or has the lower character where they first differ. */
  lemma {:induction false} LessExactlyWhen(a: string, b: string)
    ensures Less(a, b) <==> exists k: nat :: PartsBelow(a, b, k)
    decreases |a|
  {
    if a != "" && b != "" && a[0] == b[0] {
      LessExactlyWhen(a[1..], b[1..]);
      if k: nat :| PartsBelow(a[1..], b[1..], k) {
        assert a == [a[0]] + a[1..] && b == [b[0]] + b[1..];
        assert a[..k + 1] == [a[0]] + a[1..][..k] && b[..k + 1] == [b[0]] + b[1..][..k];
        assert PartsBelow(a, b, k + 1);
      }
      if k: nat :| PartsBelow(a, b, k) {
        assert a[1..][..k - 1] == a[..k][1..] && b[1..][..k - 1] == b[..k][1..];
        assert PartsBelow(a[1..], b[1..], k - 1);
      }
    } else {
      if Less(a, b) { assert PartsBelow(a, b, 0); }
      if k: nat :| PartsBelow(a, b, k) {
        if k > 0 { SameFirst(a, b, k); }
      }
    }
  }

  lemma SameFirst(a: string, b: string, k: nat)
    requires 0 < k <= |a| && k <= |b| && a[..k] == b[..k]
    ensures a[0] == b[0]
  {
    assert a[..k][0] == a[0] && b[..k][0] == b[0];
  }

  predicate PartsBelow(a: string, b: string, k: nat) {
    k <= |a| && k < |b| && a[..k] == b[..k] && (k == |a| || a[k] < b[k])
  }

  lemma {:induction false} LeavesAbove(word: string, previous: string, k: nat)
    requires !Less(word, previous) && k <= |word| && k <= |previous| && word[..k] == previous[..k]
    requires k < |word| && k < |previous| ==> word[k] != previous[k]
    ensures k == |word| ==> word == previous
    ensures k < |word| && k < |previous| ==> previous[k] < word[k]
    decreases k
  {
    if k > 0 {
      assert word[0] == word[..k][0] == previous[..k][0] == previous[0];
      assert word[1..][..k - 1] == word[..k][1..] && previous[1..][..k - 1] == previous[..k][1..];
      LeavesAbove(word[1..], previous[1..], k - 1);
      assert word == [word[0]] + word[1..] && previous == [previous[0]] + previous[1..];
    }
  }

  /** Once the spine has been cut back to the common prefix it can be read along the new word. */
  lemma SwitchWord<N>(g: Graph<N>, spine: seq<N>, previous: string, word: string, registered: set<N>)
    requires Layered(g, spine, previous, registered)
    requires var k := |spine| - 1;
             && !Less(word, previous) && k <= |word| && word[..k] == previous[..k]
             && (k < |word| && k < |previous| ==> word[k] != previous[k])
    ensures Layered(g, spine, word, registered)
    ensures |spine| <= |word| ==> word[|spine| - 1] !in g[spine[|spine| - 1]].edges
  {
    var k := |spine| - 1;
    LeavesAbove(word, previous, k);
    assert forall i :: 0 <= i < k ==> word[i] == word[..k][i] == previous[..k][i] == previous[i];
  }

  ghost function Grown<N>(g: Graph<N>, v: N, c: char, x: N): Graph<N>
    requires v in g
  {
    g[x := Shape(false, map[])][v := Shape(g[v].final, g[v].edges[c := x])]
  }

  /** A new node is hung below the last node of the spine. */
  lemma GrowSpine<N>(g: Graph<N>, spine: seq<N>, word: string, registered: set<N>, x: N)
    requires Layered(g, spine, word, registered) && |spine| <= |word|
    requires x !in g && word[|spine| - 1] !in g[spine[|spine| - 1]].edges
    ensures var g' := Grown(g, spine[|spine| - 1], word[|spine| - 1], x);
            && Layered(g', spine + [x], word, registered) && g'[x].edges == map[]
            && SameWords(g, g') && x !in registered && spine[|spine| - 1] !in registered
  {
    var v, c := spine[|spine| - 1], word[|spine| - 1];
    var g' := Grown(g, v, c, x);
    forall n, w: string | n in g ensures Accepts(g', n, w) <==> Accepts(g, n, w) {
      DeadLeafKeepsLanguage(g, v, c, x, n, w);
    }
  }

  lemma {:induction false} WalkAlongSpine<N>(g: Graph<N>, spine: seq<N>, word: string, registered: set<N>, i: nat)
    requires Layered(g, spine, word, registered) && i < |spine|
    ensures Walk(g, spine[i], word[i..|spine| - 1]) == Some(spine[|spine| - 1])
    decreases |spine| - i
  {
    var rest := word[i..|spine| - 1];
    if i < |spine| - 1 {
      assert rest[0] == word[i] && rest[1..] == word[i + 1..|spine| - 1];
      WalkAlongSpine(g, spine, word, registered, i + 1);
    }
  }

  lemma {:induction false} RegisteredNeverLeave<N>(g: Graph<N>, registered: set<N>, m: N, w: string)
    requires registered <= g.Keys && m in registered && Sealed(g, registered)
    ensures Walk(g, m, w).Some? ==> Walk(g, m, w).value in registered
    decreases |w|
  {
    if w != "" && w[0] in g[m].edges {
      RegisteredNeverLeave(g, registered, g[m].edges[w[0]], w[1..]);
    }
  }

  /** Only the spelled word leads to the last node of the spine. */
  lemma {:induction false} OnlyWayAlongSpine<N>(g: Graph<N>, spine: seq<N>, word: string, registered: set<N>, i: nat,
                                                w: string)
    requires Layered(g, spine, word, registered) && i < |spine|
    requires Walk(g, spine[i], w) == Some(spine[|spine| - 1])
    ensures w == word[i..|spine| - 1]
    decreases |w|
  {
    if w != "" {
      var next := g[spine[i]].edges[w[0]];
      if next in registered {
        RegisteredNeverLeave(g, registered, next, w[1..]);
      } else {
        OnlyWayAlongSpine(g, spine, word, registered, i + 1, w[1..]);
        assert word[i..|spine| - 1] == [word[i]] + word[i + 1..|spine| - 1];
        assert w == [w[0]] + w[1..];
      }
    }
  }

  ghost function WithFinal<N>(g: Graph<N>, v: N): Graph<N>
    requires v in g
  {
    g[v := Shape(true, g[v].edges)]
  }

  lemma FinishLast<N>(g: Graph<N>, spine: seq<N>, word: string, registered: set<N>)
    requires Layered(g, spine, word, registered) && |spine| == |word| + 1
    ensures Layered(WithFinal(g, spine[|word|]), spine, word, registered) && spine[|word|] !in registered
  {
  }

  /** When the spine spells the whole word, making its last node final adds exactly that word. */
  lemma FinishWord<N>(g: Graph<N>, spine: seq<N>, word: string, registered: set<N>, words: set<string>)
    requires Layered(g, spine, word, registered) && |spine| == |word| + 1
    requires Language(g, spine[0], words)
    ensures var g' := WithFinal(g, spine[|word|]);
            && Layered(g', spine, word, registered) && spine[|word|] !in registered
            && Completes(g', spine, word)
            && Language(g', spine[0], words + {word})
  {
    var v := spine[|word|];
    var g' := WithFinal(g, v);
    forall w: string ensures Accepts(g', spine[0], w) <==> w in words + {word} {
      FinalAddsItsWords(g, v, spine[0], w);
      WalkAlongSpine(g, spine, word, registered, 0);
      assert word[0..|word|] == word;
      if Walk(g, spine[0], w) == Some(v) {
        OnlyWayAlongSpine(g, spine, word, registered, 0, w);
      }
    }
    forall i | 0 <= i < |spine| ensures Accepts(g', spine[i], word[i..]) {
      WalkAlongSpine(g, spine, word, registered, i);
      assert word[i..|word|] == word[i..];
      FinalAddsItsWords(g, v, spine[i], word[i..]);
    }
  }

  lemma FinalKeepsUseful<N>(g: Graph<N>, v: N, nodes: set<N>)
    requires v in g && Useful(g, nodes)
    ensures Useful(WithFinal(g, v), nodes)
  {
    forall m | m in nodes ensures exists w: string :: Accepts(WithFinal(g, v), m, w) {
      var w: string :| Accepts(g, m, w);
      FinalAddsItsWords(g, v, m, w);
      assert Accepts(WithFinal(g, v), m, w);
    }
  }

  // ----- The nodes are ranked in the order in which they are registered -----

  /** Every edge of a ranked node leads to a ranked node of lower rank. */
  ghost predicate Ranked<N>(g: Graph<N>, rank: map<N, nat>) {
    && rank.Keys <= g.Keys
    && forall n, c :: n in rank && c in g[n].edges ==> g[n].edges[c] in rank && rank[g[n].edges[c]] < rank[n]
  }

  /** The registered nodes are ranked below their number. */
  ghost predicate Descending<N>(g: Graph<N>, rank: map<N, nat>, registered: set<N>) {
    rank.Keys == registered && Ranked(g, rank) && forall n :: n in rank ==> rank[n] < |registered|
  }

  lemma RegisteredLastDescends<N>(g: Graph<N>, spine: seq<N>, word: string, registered: set<N>, rank: map<N, nat>)
    requires Layered(g, spine, word, registered) && |spine| > 1 && Descending(g, rank, registered)
    ensures var x := spine[|spine| - 1];
            Descending(g, rank[x := |registered|], registered + {x})
  {
    var x := spine[|spine| - 1];
    assert |registered + {x}| == |registered| + 1;
    forall c | c in g[x].edges ensures g[x].edges[c] in registered { }
  }

  /** When only the root is left, it comes before all registered nodes. */
  lemma RootDescends<N>(g: Graph<N>, root: N, word: string, registered: set<N>, rank: map<N, nat>)
    requires Layered(g, [root], word, registered) && Descending(g, rank, registered)
    ensures Ranked(g, rank[root := |registered|])
  {
    assert [root][0] == root;
    forall c | c in g[root].edges ensures g[root].edges[c] in registered { }
  }

  // ----- The finished automaton is minimal -----

  lemma {:induction false} ReachedIsRegistered<N>(g: Graph<N>, root: N, word: string, registered: set<N>, u: string)
    requires Layered(g, [root], word, registered) && Walk(g, root, u).Some?
    ensures u == "" || Walk(g, root, u).value in registered
  {
    if u != "" {
      assert [root][0] == root;
      RegisteredNeverLeave(g, registered, g[root].edges[u[0]], u[1..]);
    }
  }

  lemma StepAccepts<N>(g: Graph<N>, n: N, c: char, w: string)
    requires n in g
    ensures Accepts(g, n, [c] + w) <==> c in g[n].edges && Accepts(g, g[n].edges[c], w)
  {
    assert ([c] + w)[1..] == w;
  }

  /** Nodes with the same words have their edges under the same labels, and to nodes with the same
      words again. */
  lemma SameLanguageSameEdge<N>(g: Graph<N>, a: N, b: N, c: char, bound: nat)
    requires a in g && b in g && SameLanguage(g, a, b) && Bounded(g, a, bound)
    requires c in g[a].edges && exists w: string :: Accepts(g, g[a].edges[c], w)
    ensures c in g[b].edges && SameLanguage(g, g[a].edges[c], g[b].edges[c])
    ensures bound > 0 && Bounded(g, g[a].edges[c], bound - 1)
  {
    var x := g[a].edges[c];
    var w0: string :| Accepts(g, x, w0);
    StepAccepts(g, a, c, w0);
    StepAccepts(g, b, c, w0);
    assert |[c] + w0| <= bound;
    forall w: string
      ensures (Accepts(g, x, w) <==> Accepts(g, g[b].edges[c], w)) && (Accepts(g, x, w) ==> |w| <= bound - 1)
    {
      StepAccepts(g, a, c, w);
      StepAccepts(g, b, c, w);
      assert Accepts(g, a, [c] + w) <==> Accepts(g, b, [c] + w);
    }
  }

  lemma SameLanguageSameEnd<N>(g: Graph<N>, a: N, b: N, bound: nat)
    requires a in g && b in g && SameLanguage(g, a, b) && Bounded(g, a, bound)
    ensures g[a].final == g[b].final && SameLanguage(g, b, a) && Bounded(g, b, bound)
  {
    assert Accepts(g, a, "") <==> Accepts(g, b, "");
    forall w: string | Accepts(g, b, w) ensures |w| <= bound { assert Accepts(g, a, w); }
  }

  /** Registered nodes with the same words are one node. */
  lemma {:induction false} SameLanguageSameNode<N>(g: Graph<N>, registered: set<N>, a: N, b: N, bound: nat)
    requires registered <= g.Keys && a in registered && b in registered && Useful(g, registered)
    requires Sealed(g, registered)
    requires forall m, n :: m in registered && n in registered && g[m] == g[n] ==> m == n
    requires SameLanguage(g, a, b) && Bounded(g, a, bound)
    ensures a == b
    decreases bound
  {
    hide Accepts, SameLanguage, Bounded;
    SameLanguageSameEnd(g, a, b, bound);
    forall c | c in g[a].edges ensures c in g[b].edges && g[a].edges[c] == g[b].edges[c] {
      SameLanguageSameEdge(g, a, b, c, bound);
      SameLanguageSameNode(g, registered, g[a].edges[c], g[b].edges[c], bound - 1);
    }
    forall c | c in g[b].edges ensures c in g[a].edges {
      SameLanguageSameEdge(g, b, a, c, bound);
    }
    assert g[a].edges == g[b].edges;
  }

  /** A node below the root does not accept the root's words, for they could be prolonged for ever. */
  lemma {:induction false} RootDiffersBelow<N>(g: Graph<N>, root: N, n: N, u: string, w: string, bound: nat)
    requires Walk(g, root, u) == Some(n) && SameLanguage(g, root, n) && Accepts(g, root, w) && Bounded(g, root, bound)
    ensures u == ""
    decreases bound - |w|
  {
    if u != "" {
      assert Accepts(g, n, w);
      AcceptsConcat(g, root, u, w);
      RootDiffersBelow(g, root, n, u, u + w, bound);
    }
  }

  lemma {:induction false} LongestWord(words: set<string>) returns (bound: nat)
    ensures forall w: string :: w in words ==> |w| <= bound
    decreases |words|
  {
    bound := 0;
    if words != {} {
      var w :| w in words;
      var b := LongestWord(words - {w});
      bound := if b < |w| then |w| else b;
      forall v: string | v in words ensures |v| <= bound { assert v == w || v in words - {w}; }
    }
  }

  lemma ReachedIsBounded<N>(g: Graph<N>, root: N, words: set<string>, u: string, n: N, bound: nat)
    requires Language(g, root, words) && Walk(g, root, u) == Some(n)
    requires forall w: string :: w in words ==> |w| <= bound
    ensures Bounded(g, n, bound)
  {
    forall w: string | Accepts(g, n, w) ensures |w| <= bound {
      AcceptsConcat(g, root, u, w);
      assert u + w in words;
    }
  }

  /** An automaton with at least one word, all of whose nodes below the root are registered under
      distinct shapes, is minimal. */
  lemma FinishedIsMinimal<N>(g: Graph<N>, root: N, word: string, registered: set<N>, words: set<string>)
    requires Layered(g, [root], word, registered) && Useful(g, registered) && Language(g, root, words)
    requires forall m, n :: m in registered && n in registered && g[m] == g[n] ==> m == n
    requires words != {}
    ensures Minimal(g, root)
  {
    var bound := LongestWord(words);
    var w0 :| w0 in words;
    assert Accepts(g, root, w0);
    forall n | n in g && Reached(g, root, n) ensures exists w: string :: Accepts(g, n, w) {
      var u: string :| Walk(g, root, u) == Some(n);
      ReachedIsRegistered(g, root, word, registered, u);
      if n !in registered { assert Accepts(g, n, w0); }
    }
    forall n, u: string | n in g && Reached(g, root, n) && Walk(g, n, u) == Some(n) ensures u == "" {
      var v: string :| Walk(g, root, v) == Some(n);
      ReachedIsBounded(g, root, words, v, n, bound);
      var w: string :| Accepts(g, n, w);
      NoCycle(g, n, u, w, bound);
    }
    forall a, b | a in g && b in g && Reached(g, root, a) && Reached(g, root, b) && SameLanguage(g, a, b)
      ensures a == b
    {
      var u: string :| Walk(g, root, u) == Some(a);
      var v: string :| Walk(g, root, v) == Some(b);
      ReachedIsRegistered(g, root, word, registered, u);
      ReachedIsRegistered(g, root, word, registered, v);
      ReachedIsBounded(g, root, words, u, a, bound);
      ReachedIsBounded(g, root, words, v, b, bound);
      if a in registered && b in registered {
        SameLanguageSameNode(g, registered, a, b, bound);
      } else if a !in registered {
        RootDiffersBelow(g, root, b, v, w0, bound);
      } else {
        RootDiffersBelow(g, root, a, u, w0, bound);
      }
    }
  }

  // ----- Sending an edge to a node of another shape changes the words -----

  lemma {:induction false} SealedKeepsWords<N>(g: Graph<N>, h: Graph<N>, registered: set<N>, n: N, w: string)
    requires registered <= g.Keys && Sealed(g, registered) && n in registered
    requires forall m :: m in registered ==> m in h && h[m] == g[m]
    ensures Accepts(h, n, w) <==> Accepts(g, n, w)
    decreases |w|
  {
    if w != "" && w[0] in g[n].edges {
      SealedKeepsWords(g, h, registered, g[n].edges[w[0]], w[1..]);
    }
  }

  /** What the root accepts behind the spelled prefix is what the last node of the spine accepts. */
  lemma BehindSpine<N>(g: Graph<N>, spine: seq<N>, word: string, registered: set<N>, w: string)
    requires Layered(g, spine, word, registered)
    ensures Accepts(g, spine[0], word[..|spine| - 1] + w) <==> Accepts(g, spine[|spine| - 1], w)
  {
    hide Accepts;
    WalkAlongSpine(g, spine, word, registered, 0);
    assert word[0..|spine| - 1] == word[..|spine| - 1];
    AcceptsConcat(g, spine[0], word[..|spine| - 1], w);
  }

  lemma BehindRedirected<N>(g: Graph<N>, spine: seq<N>, word: string, registered: set<N>, b: N, w: string)
    requires Layered(g, spine, word, registered) && |spine| > 1 && b in registered
    ensures spine[|spine| - 2] in g
    ensures var g' := Redirected(g, spine[|spine| - 2], word[|spine| - 2], b);
            Accepts(g', spine[0], word[..|spine| - 1] + w) <==> Accepts(g, b, w)
  {
    hide Accepts;
    var k := |spine| - 1;
    var v, c := spine[k - 1], word[k - 1];
    RedirectLast(g, spine, word, registered, b);
    var g' := Redirected(g, v, c, b);
    SplitBefore(word, k, w);
    BehindSpine(g', spine[..k], word, registered, [c] + w);
    StepAccepts(g', v, c, w);
    SealedKeepsWords(g, g', registered, b, w);
  }

  lemma SplitBefore(word: string, k: nat, w: string)
    requires 0 < k <= |word|
    ensures word[..k] + w == word[..k - 1] + ([word[k - 1]] + w)
  {
  }

  lemma SameRootSameNode<N>(g: Graph<N>, spine: seq<N>, word: string, registered: set<N>, b: N, words: set<string>)
    requires Layered(g, spine, word, registered) && |spine| > 1 && b in registered && spine[|spine| - 2] in g
    requires Language(g, spine[0], words)
    requires Language(Redirected(g, spine[|spine| - 2], word[|spine| - 2], b), spine[0], words)
    ensures SameLanguage(g, spine[|spine| - 1], b)
  {
    hide Accepts, Layered;
    LayeredNodes(g, spine, word, registered);
    forall w: string ensures Accepts(g, spine[|spine| - 1], w) <==> Accepts(g, b, w) {
      BehindSpine(g, spine, word, registered, w);
      BehindRedirected(g, spine, word, registered, b, w);
      var u := word[..|spine| - 1] + w;
      assert Accepts(g, spine[0], u) <==> u in words;
      assert Accepts(Redirected(g, spine[|spine| - 2], word[|spine| - 2], b), spine[0], u) <==> u in words;
    }
  }

  lemma LastDiffers<N>(g: Graph<N>, spine: seq<N>, word: string, registered: set<N>, b: N, words: set<string>)
    requires Layered(g, spine, word, registered) && |spine| > 1 && b in registered
    requires Useful(g, registered) && Completes(g, spine, word) && Language(g, spine[0], words)
    requires forall m, n :: m in registered && n in registered && g[m] == g[n] ==> m == n
    requires forall m :: m in registered ==> g[m] != g[spine[|spine| - 1]]
    ensures !SameLanguage(g, spine[|spine| - 1], b)
  {
    hide Useful, Completes, Language, SameLanguage, Accepts;
    var x := spine[|spine| - 1];
    if SameLanguage(g, x, b) {
      RegisterLast(g, spine, word, registered);
      LastIsUseful(g, spine, word, registered);
      WalkAlongSpine(g, spine, word, registered, 0);
      var bound := LongestWord(words);
      ReachedIsBounded(g, spine[0], words, word[0..|spine| - 1], x, bound);
      DistinctShapes(g, registered, x);
      SameLanguageSameNode(g, registered + {x}, x, b, bound);
    }
  }

  lemma DistinctShapes<N>(g: Graph<N>, registered: set<N>, x: N)
    requires registered <= g.Keys && x in g
    requires forall m, n :: m in registered && n in registered && g[m] == g[n] ==> m == n
    requires forall m :: m in registered ==> g[m] != g[x]
    ensures forall m, n :: m in registered + {x} && n in registered + {x} && g[m] == g[n] ==> m == n
  {
  }

  /** The edge to the last node of the spine can be sent to a registered node without a change of the words exactly
      when that node has the same shape. */
  lemma ReplacingKeepsWordsExactlyWhen<N>(g: Graph<N>, spine: seq<N>, word: string, registered: set<N>, b: N,
                                          words: set<string>)
    requires Layered(g, spine, word, registered) && |spine| > 1 && b in registered
    requires Useful(g, registered) && Completes(g, spine, word) && Language(g, spine[0], words)
    requires forall m, n :: m in registered && n in registered && g[m] == g[n] ==> m == n
    requires forall m :: m in registered && g[m] == g[spine[|spine| - 1]] ==> m == b
    ensures spine[|spine| - 2] in g
    ensures Language(Redirected(g, spine[|spine| - 2], word[|spine| - 2], b), spine[0], words)
            <==> g[b] == g[spine[|spine| - 1]]
  {
    hide Layered, Useful, Completes, Language, SameWords, Redirected, Sealed, SameLanguage;
    LayeredNodes(g, spine, word, registered);
    var g' := Redirected(g, spine[|spine| - 2], word[|spine| - 2], b);
    if g[b] == g[spine[|spine| - 1]] {
      ReplaceLast(g, spine, word, registered, b);
      SameWordsSameLanguage(g, g', spine[0], words);
    } else if Language(g', spine[0], words) {
      SameRootSameNode(g, spine, word, registered, b, words);
      LastDiffers(g, spine, word, registered, b, words);
    }
  }
}
