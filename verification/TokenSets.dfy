/** Token sets and their incremental construction from sorted words (docs/styles/lunr.js:1160-1175,
    1184-1193, 1461-1486, 1560-1628). Nodes are heap objects whose edges are rewired in place. */
module TokenSets {
  import opened Options
  import opened Automaton
  import opened Digits
  import opened Signature
  import opened BuilderState

  /** The counter behind `lunr.TokenSet._nextId`. */
  class IdSource {
    var next: nat

    constructor ()
      ensures next == 1
    {
      next := 1;
    }
  }

  class TokenSet {
    var final: bool
    var edges: map<char, TokenSet>
    const id: nat
    var str: string  // the cached signature, empty while there is none

    constructor (ids: IdSource)
      modifies ids
      ensures !final && edges == map[] && str == "" && id == old(ids.next) && ids.next == id + 1
    {
      final, edges, id, str := false, map[], ids.next, "";
      new;
      ids.next := ids.next + 1;
    }

    ghost function Shape(): Shape<TokenSet>
      reads this
    {
      Automaton.Shape(final, edges)
    }

    method ToString() returns (s: string)
      ensures s == if str != "" then str else Key(Shape())
    {
      if str != "" {
        return str;
      }
      s := if final then "1" else "0";
      var labels := SortKeys(edges.Keys);
      ghost var bit, ids := s, IdEdges(edges);
      for i := 0 to |labels|
        invariant s == bit + EdgeText(ids, labels[..i])
      {
        EdgeTextAppends(bit, ids, labels, i);
        s := s + [labels[i]] + Decimal(edges[labels[i]].id);
      }
      assert labels[..|labels|] == labels;
      KeyText(Shape(), labels);
    }
  }

  lemma KeyText(s: Shape<TokenSet>, labels: seq<char>)
    requires labels == SortedLabels(s.edges.Keys)
    ensures Key(s) == (if s.final then "1" else "0") + EdgeText(IdEdges(s.edges), labels)
  {
    assert IdEdges(s.edges).Keys == s.edges.Keys;
  }

  method SortKeys(labels: set<char>) returns (r: seq<char>)
    ensures r == SortedLabels(labels)
  {
    r := [];
    var rest := labels;
    while rest != {}
      invariant rest <= labels && Ascending(r)
      invariant forall c :: c in r <==> c in labels - rest
      invariant forall c, d :: c in r && d in rest ==> c < d
      decreases |rest|
    {
      LeastExists(rest);
      var c :| c in rest && forall d :: d in rest ==> c <= d;
      forall i | 0 <= i < |r| ensures r[i] < c { assert r[i] in r; }
      r, rest := r + [c], rest - {c};
    }
    AscendingIsUnique(r, SortedLabels(labels));
  }

  lemma {:induction false} EdgeTextAppends(bit: string, edges: map<char, nat>, labels: seq<char>, i: nat)
    requires i < |labels| && forall l :: l in labels ==> l in edges
    ensures bit + EdgeText(edges, labels[..i + 1])
            == bit + EdgeText(edges, labels[..i]) + [labels[i]] + Decimal(edges[labels[i]])
    decreases i
  {
    var d := Decimal(edges[labels[i]]);
    if i == 0 {
      assert labels[..1] == [labels[0]] && labels[..1][1..] == [] && labels[..0] == [];
      assert EdgeText(edges, [labels[0]]) == [labels[0]] + d;
    } else {
      assert labels[..i + 1][1..] == labels[1..][..i] && labels[..i][1..] == labels[1..][..i - 1];
      EdgeTextAppends(bit + ([labels[0]] + Decimal(edges[labels[0]])), edges, labels[1..], i - 1);
      SplitFirst(bit, edges, labels[..i + 1]);
      SplitFirst(bit, edges, labels[..i]);
    }
  }

  lemma SplitFirst(bit: string, edges: map<char, nat>, labels: seq<char>)
    requires labels != [] && forall l :: l in labels ==> l in edges
    ensures bit + EdgeText(edges, labels) == bit + ([labels[0]] + Decimal(edges[labels[0]]))
            + EdgeText(edges, labels[1..])
  {
  }

  ghost function IdEdges(edges: map<char, TokenSet>): map<char, nat> {
    map c | c in edges :: edges[c].id
  }

  /** The signature under which a node of the given shape is registered. */
  ghost function Key(s: Shape<TokenSet>): string {
    Text(Shape(s.final, IdEdges(s.edges)))
  }

  ghost function Snapshot(nodes: set<TokenSet>): Graph<TokenSet>
    reads nodes
  {
    map n | n in nodes :: n.Shape()
  }

  lemma SnapshotOfOne(n: TokenSet)
    ensures Snapshot({n}) == map[n := n.Shape()]
  {
  }

  lemma SnapshotHas(nodes: set<TokenSet>)
    ensures Snapshot(nodes).Keys == nodes && forall n :: n in nodes ==> Snapshot(nodes)[n] == n.Shape()
  {
  }

  lemma SnapshotIs(nodes: set<TokenSet>, g: Graph<TokenSet>)
    requires g.Keys == nodes && forall n :: n in nodes ==> g[n] == n.Shape()
    ensures Snapshot(nodes) == g
  {
  }

  /** The snapshot after one node was changed and another one added. */
  lemma SnapshotAdds(nodes: set<TokenSet>, g: Graph<TokenSet>, n: TokenSet, x: TokenSet)
    requires g.Keys == nodes && n in nodes && x !in nodes
    requires forall m :: m in nodes && m != n ==> m.Shape() == g[m]
    ensures Snapshot(nodes + {x}) == g[x := x.Shape()][n := n.Shape()]
  {
  }

  ghost predicate DistinctIds(nodes: set<TokenSet>) {
    forall m, n :: m in nodes && n in nodes && m.id == n.id ==> m == n
  }

  /** The labels of every node can be told from the ids. */
  ghost predicate Readable(g: Graph<TokenSet>) {
    forall n :: n in g ==> Unambiguous(g[n].edges.Keys)
  }

  lemma KeyIsInjective(g: Graph<TokenSet>, m: TokenSet, n: TokenSet)
    requires Closed(g) && DistinctIds(g.Keys) && m in g && n in g
    requires Unambiguous(g[m].edges.Keys) && Unambiguous(g[n].edges.Keys) && Key(g[m]) == Key(g[n])
    ensures g[m] == g[n]
  {
    assert IdEdges(g[m].edges).Keys == g[m].edges.Keys && IdEdges(g[n].edges).Keys == g[n].edges.Keys;
    TextIsInjective(Shape(g[m].final, IdEdges(g[m].edges)), Shape(g[n].final, IdEdges(g[n].edges)));
    assert g[m].edges.Keys == IdEdges(g[m].edges).Keys == IdEdges(g[n].edges).Keys == g[n].edges.Keys;
    forall c | c in g[m].edges ensures g[m].edges[c] == g[n].edges[c] {
      assert IdEdges(g[m].edges)[c] == IdEdges(g[n].edges)[c];
    }
    assert g[m].edges == g[n].edges;
  }

  /** An entry of `uncheckedNodes`. */
  datatype Unchecked = Unchecked(parent: TokenSet, letter: char, child: TokenSet)

  datatype Insertion = Inserted | OutOfOrder

  /** The entries name consecutive nodes of the spine and the characters of the word between them. */
  ghost predicate Linked(spine: seq<TokenSet>, unchecked: seq<Unchecked>, word: string) {
    && |spine| == |unchecked| + 1 && |unchecked| <= |word|
    && forall i :: 0 <= i < |unchecked| ==>
         unchecked[i].parent == spine[i] && unchecked[i].letter == word[i] && unchecked[i].child == spine[i + 1]
  }

  /** The minimized nodes are exactly the nodes of `closed`, each registered under its signature. */
  ghost predicate Keyed(g: Graph<TokenSet>, minimized: map<string, TokenSet>, closed: set<TokenSet>) {
    && (forall n :: n in closed ==> n in g && Key(g[n]) in minimized && minimized[Key(g[n])] == n)
    && (forall key :: key in minimized ==> minimized[key] in closed && Key(g[minimized[key]]) == key)
  }

  /** Registered nodes stay registered and keep their shape. */
  ghost predicate KeepsRegistered(before: map<string, TokenSet>, g: Graph<TokenSet>, after: map<string, TokenSet>,
                                  h: Graph<TokenSet>) {
    forall key :: key in before ==>
      && key in after && after[key] == before[key]
      && before[key] in g && before[key] in h && g[before[key]] == h[before[key]]
  }

  lemma KeepingComposes(m0: map<string, TokenSet>, g0: Graph<TokenSet>, m1: map<string, TokenSet>, g1: Graph<TokenSet>,
                        m2: map<string, TokenSet>, g2: Graph<TokenSet>)
    requires KeepsRegistered(m0, g0, m1, g1) && KeepsRegistered(m1, g1, m2, g2)
    ensures KeepsRegistered(m0, g0, m2, g2)
  {
  }

  // ----- Where the words part -----

  /** Some word goes on with `c` behind the prefix. */
  ghost predicate Leads(words: set<string>, prefix: string, c: char) {
    exists w :: w in words && |prefix| < |w| && w[..|prefix|] == prefix && w[|prefix|] == c
  }

  /** Wherever words part, a digit comes before all other characters. */
  ghost predicate Unforked(words: set<string>) {
    forall prefix: string, d, c :: Leads(words, prefix, d) && Leads(words, prefix, c) && IsDigit(d) ==> d <= c
  }

  lemma LeadsToo(less: set<string>, more: set<string>, prefix: string, c: char)
    requires Leads(less, prefix, c) && forall w :: w in less ==> w == "" || w in more
    ensures Leads(more, prefix, c)
  {
  }

  lemma FewerAreUnforked(less: set<string>, more: set<string>)
    requires Unforked(more) && forall w :: w in less ==> w == "" || w in more
    ensures Unforked(less)
  {
    hide Leads;
    forall prefix: string, d, c | Leads(less, prefix, d) && Leads(less, prefix, c) && IsDigit(d) ensures d <= c {
      LeadsToo(less, more, prefix, d);
      LeadsToo(less, more, prefix, c);
    }
  }

  /** The labels on the spine are those with which some word goes on. */
  ghost predicate Sprung(g: Graph<TokenSet>, spine: seq<TokenSet>, word: string, words: set<string>) {
    forall i, c :: 0 <= i < |spine| && i <= |word| && spine[i] in g && c in g[spine[i]].edges ==>
      Leads(words, word[..i], c)
  }

  /** The last word. */
  ghost predicate IsLast(word: string, words: set<string>) {
    if words == {} then word == "" else word in words
  }

  /** What the builder keeps true of its nodes whatever the words are: the unchecked ones spell a prefix of
      `word`, the minimized ones are registered under their signatures, and labels can be told from ids if digits
      come first where words part. */
  ghost predicate Structured(g: Graph<TokenSet>, spine: seq<TokenSet>, unchecked: seq<Unchecked>, word: string,
                             minimized: map<string, TokenSet>, closed: set<TokenSet>, words: set<string>) {
    && DistinctIds(g.Keys) && Sprung(g, spine, word, words + {word})
    && (Unforked(words + {word}) ==> Readable(g))
    && Linked(spine, unchecked, word)
    && Layered(g, spine, word, closed)
    && Keyed(g, minimized, closed)
  }

  /** If every node that made way had the shape of the registered one, which is what `right` says, the root accepts
      the words so far, and every minimized node is of use. */
  ghost predicate Good(g: Graph<TokenSet>, spine: seq<TokenSet>, unchecked: seq<Unchecked>, word: string,
                       minimized: map<string, TokenSet>, closed: set<TokenSet>, right: bool,
                       words: set<string>) {
    && Structured(g, spine, unchecked, word, minimized, closed, words)
    && (Unforked(words + {word}) ==> right)
    && (right ==> Useful(g, closed) && Language(g, spine[0], words))
  }

  ghost predicate Completed(g: Graph<TokenSet>, spine: seq<TokenSet>, word: string, right: bool,
                            words: set<string>) {
    && IsLast(word, words)
    && (right && words != {} ==> |spine| <= |word| + 1 && Completes(g, spine, word))
  }

  lemma RegisteredAreKept(g: Graph<TokenSet>, spine: seq<TokenSet>, unchecked: seq<Unchecked>, word: string,
                          minimized: map<string, TokenSet>, closed: set<TokenSet>, right: bool,
                          words: set<string>)
    requires Good(g, spine, unchecked, word, minimized, closed, right, words)
    ensures KeepsRegistered(minimized, g, minimized, g)
  {
  }

  /** The ranks of registered nodes stay with them. */
  lemma StillDescending(g: Graph<TokenSet>, spine: seq<TokenSet>, unchecked: seq<Unchecked>, word: string,
                        minimized: map<string, TokenSet>, closed: set<TokenSet>, right: bool,
                        words: set<string>,
                        rank: map<TokenSet, nat>, h: Graph<TokenSet>)
    requires Good(g, spine, unchecked, word, minimized, closed, right, words)
    requires Descending(g, rank, closed) && KeepsRegistered(minimized, g, minimized, h)
    ensures Descending(h, rank, closed)
  {
    hide Useful, Language, Layered;
    forall n | n in closed ensures n in h && h[n] == g[n] {
      assert minimized[Key(g[n])] == n;
    }
  }

  lemma RegisteredDescends(g: Graph<TokenSet>, spine: seq<TokenSet>, unchecked: seq<Unchecked>, word: string,
                           minimized: map<string, TokenSet>, closed: set<TokenSet>, right: bool,
                           words: set<string>,
                           rank: map<TokenSet, nat>)
    requires Good(g, spine, unchecked, word, minimized, closed, right, words) && Descending(g, rank, closed)
    requires |spine| > 1
    ensures Descending(g, rank[spine[|spine| - 1] := |closed|], closed + {spine[|spine| - 1]})
  {
    RegisteredLastDescends(g, spine, word, closed, rank);
  }

  lemma LastEntry(g: Graph<TokenSet>, spine: seq<TokenSet>, unchecked: seq<Unchecked>, word: string,
                  minimized: map<string, TokenSet>, closed: set<TokenSet>, right: bool, words: set<string>)
    requires Good(g, spine, unchecked, word, minimized, closed, right, words)
    ensures |spine| == |unchecked| + 1 <= |word| + 1
    ensures var n := spine[|unchecked|]; n in g && n !in closed
    ensures unchecked != [] ==>
              var k := |unchecked| - 1;
              && unchecked[k] == Unchecked(spine[k], word[k], spine[k + 1])
              && spine[k] in g && spine[k] !in closed && spine[k] != spine[k + 1]
  {
  }

  lemma HungMore(s: Progress, root: TokenSet, word: string, xs: seq<TokenSet>, x: TokenSet)
    ensures Hung(s, root, word, xs + [x]) == HungOne(Hung(s, root, word, xs), root, word, x)
  {
    assert (xs + [x])[..|xs|] == xs;
  }

  /** Nodes outside the registered ones may change their shape. */
  lemma OthersMayChange(g: Graph<TokenSet>, minimized: map<string, TokenSet>, closed: set<TokenSet>, h: Graph<TokenSet>)
    requires Keyed(g, minimized, closed)
    requires forall n :: n in closed && n in g ==> n in h && h[n] == g[n]
    ensures Keyed(h, minimized, closed) && KeepsRegistered(minimized, g, minimized, h)
  {
  }

  lemma RegisterStep(g: Graph<TokenSet>, spine: seq<TokenSet>, unchecked: seq<Unchecked>, word: string,
                     minimized: map<string, TokenSet>, closed: set<TokenSet>, right: bool, words: set<string>,
                     key: string)
    requires Good(g, spine, unchecked, word, minimized, closed, right, words)
            && Completed(g, spine, word, right, words)
    requires |spine| > 1 && spine[|spine| - 1] in g
    requires key !in minimized && key == Key(g[spine[|spine| - 1]])
    ensures var k, x := |spine| - 1, spine[|spine| - 1];
            && Good(g, spine[..k], unchecked[..|unchecked| - 1], word, minimized[key := x], closed + {x}, right,
                    words)
            && Completed(g, spine[..k], word, right, words)
            && KeepsRegistered(minimized, g, minimized[key := x], g)
  {
    hide Layered, Useful, Language, Completes, Key, Readable, Unforked, Leads, Sprung;
    ShorterIsSprung(g, spine, word, words + {word});
    RegisteredAreKept(g, spine, unchecked, word, minimized, closed, right, words);
    RegisterLast(g, spine, word, closed);
    if right && words != {} {
      LastIsUseful(g, spine, word, closed);
    }
  }

  lemma ReplaceStep(g: Graph<TokenSet>, spine: seq<TokenSet>, unchecked: seq<Unchecked>, word: string,
                    minimized: map<string, TokenSet>, closed: set<TokenSet>, right: bool, words: set<string>,
                    key: string)
    requires Good(g, spine, unchecked, word, minimized, closed, right, words)
            && Completed(g, spine, word, right, words)
    requires |spine| > 1 && spine[|spine| - 1] in g && spine[|spine| - 2] in g
    requires key in minimized && key == Key(g[spine[|spine| - 1]])
    ensures |spine| <= |word| + 1
    ensures var k := |spine| - 1;
            var g' := Redirected(g, spine[k - 1], word[k - 1], minimized[key]);
            var right' := right && minimized[key] in g && g[minimized[key]] == g[spine[k]];
            && Good(g', spine[..k], unchecked[..|unchecked| - 1], word, minimized, closed, right', words)
            && Completed(g', spine[..k], word, right', words)
            && KeepsRegistered(minimized, g, minimized, g')
  {
    hide Layered, Useful, Language, Completes, Key, SameWords, KeepsRegistered, Readable, Unforked, Leads, IsLast,
         Sprung;
    var k := |spine| - 1;
    var g' := Redirected(g, spine[k - 1], word[k - 1], minimized[key]);
    LayeredNodes(g, spine, word, closed);
    RedirectLast(g, spine, word, closed, minimized[key]);
    OthersMayChange(g, minimized, closed, g');
    LabelsStay(g, spine, word, words, closed, minimized[key]);
    if Unforked(words + {word}) {
      BothAreReadable(g, minimized[key], spine[k]);
      KeyIsInjective(g, minimized[key], spine[k]);
    }
    if right && g[minimized[key]] == g[spine[k]] {
      ReplaceLast(g, spine, word, closed, minimized[key]);
      SameWordsStayUseful(g, g', closed);
      SameWordsSameLanguage(g, g', spine[0], words);
      if words != {} { SameWordsStillComplete(g, g', spine, word); }
    }
    assert g'.Keys == g.Keys;
  }

  lemma ShorterIsSprung(g: Graph<TokenSet>, spine: seq<TokenSet>, word: string, words: set<string>)
    requires Sprung(g, spine, word, words) && spine != []
    ensures Sprung(g, spine[..|spine| - 1], word, words)
  {
    hide Leads;
  }

  lemma BothAreReadable(g: Graph<TokenSet>, m: TokenSet, n: TokenSet)
    requires Readable(g) && m in g && n in g
    ensures Unambiguous(g[m].edges.Keys) && Unambiguous(g[n].edges.Keys)
  {
  }

  /** Sending the edge to the last node of the spine elsewhere leaves all labels as they are. */
  lemma LabelsStay(g: Graph<TokenSet>, spine: seq<TokenSet>, word: string, words: set<string>, closed: set<TokenSet>,
                   b: TokenSet)
    requires Layered(g, spine, word, closed) && |spine| > 1 && Sprung(g, spine, word, words + {word})
    ensures var k := |spine| - 1;
            spine[k - 1] in g && (Readable(g) ==> Readable(Redirected(g, spine[k - 1], word[k - 1], b)))
            && Sprung(Redirected(g, spine[k - 1], word[k - 1], b), spine[..k], word, words + {word})
  {
    hide Leads, Unambiguous;
    var k := |spine| - 1;
    var v, c := spine[k - 1], word[k - 1];
    var g' := Redirected(g, v, c, b);
    assert c in g[v].edges && g'[v].edges.Keys == g[v].edges.Keys;
    assert forall n :: n in g ==> n in g' && g'[n].edges.Keys == g[n].edges.Keys;
    forall i, e | 0 <= i < k && i <= |word| && spine[..k][i] in g' && e in g'[spine[..k][i]].edges
      ensures Leads(words + {word}, word[..i], e)
    {
      assert spine[..k][i] == spine[i] && e in g[spine[i]].edges;
    }
  }

  lemma SwitchStep(g: Graph<TokenSet>, spine: seq<TokenSet>, unchecked: seq<Unchecked>, previous: string, word: string,
                   minimized: map<string, TokenSet>, closed: set<TokenSet>, right: bool, words: set<string>)
    requires Good(g, spine, unchecked, previous, minimized, closed, right, words) && IsLast(previous, words)
    requires var k := |unchecked|;
             && !Less(word, previous) && k <= |word| && k <= |previous| && word[..k] == previous[..k]
             && (k < |word| && k < |previous| ==> word[k] != previous[k])
    ensures Good(g, spine, unchecked, word, minimized, closed, right, words)
    ensures Growable(g, spine, word)
  {
    hide Layered, Useful, Language, Keyed, Sprung, Unforked, Leads, Readable;
    LayeredNodes(g, spine, previous, closed);
    SwitchWord(g, spine, previous, word, closed);
    SwitchSprung(g, spine, previous, word, words);
    assert forall i :: 0 <= i < |unchecked| ==>
        word[i] == word[..|unchecked|][i] == previous[..|unchecked|][i] == previous[i];
  }

  lemma SwitchSprung(g: Graph<TokenSet>, spine: seq<TokenSet>, previous: string, word: string, words: set<string>)
    requires Sprung(g, spine, previous, words + {previous}) && IsLast(previous, words)
    requires var k := |spine| - 1; 0 <= k <= |word| && k <= |previous| && word[..k] == previous[..k]
    ensures Sprung(g, spine, word, words + {word})
    ensures Unforked(words + {word}) ==> Unforked(words + {previous})
  {
    hide Leads, Unforked;
    var k := |spine| - 1;
    forall i, c | 0 <= i < |spine| && i <= |word| && spine[i] in g && c in g[spine[i]].edges
      ensures Leads(words + {word}, word[..i], c)
    {
      assert word[..i] == word[..k][..i] == previous[..k][..i] == previous[..i];
      LeadsToo(words + {previous}, words + {word}, previous[..i], c);
    }
    if Unforked(words + {word}) {
      FewerAreUnforked(words + {previous}, words + {word});
    }
  }

  /** The last node of the spine has no edge for the next character yet. */
  ghost predicate Growable(g: Graph<TokenSet>, spine: seq<TokenSet>, word: string) {
    1 <= |spine| <= |word| ==> spine[|spine| - 1] in g && word[|spine| - 1] !in g[spine[|spine| - 1]].edges
  }

  lemma GrowStep(g: Graph<TokenSet>, spine: seq<TokenSet>, unchecked: seq<Unchecked>, word: string,
                 minimized: map<string, TokenSet>, closed: set<TokenSet>, right: bool, words: set<string>,
                 x: TokenSet)
    requires Good(g, spine, unchecked, word, minimized, closed, right, words) && Growable(g, spine, word)
    requires 1 <= |spine| == |unchecked| + 1 <= |word| && x !in g && forall n :: n in g ==> n.id < x.id
    ensures var v, c := spine[|spine| - 1], word[|spine| - 1];
            var g' := Grown(g, v, c, x);
            && Good(g', spine + [x], unchecked + [Unchecked(v, c, x)], word, minimized, closed, right, words)
            && Growable(g', spine + [x], word)
            && KeepsRegistered(minimized, g, minimized, g')
  {
    hide Layered, Useful, Language, Completes, Keyed, SameWords, KeepsRegistered, Linked, Sprung, Readable, Unforked;
    var v, c := spine[|spine| - 1], word[|spine| - 1];
    var g' := Grown(g, v, c, x);
    LayeredNodes(g, spine, word, closed);
    GrowSpine(g, spine, word, closed, x);
    OthersMayChange(g, minimized, closed, g');
    if right {
      SameWordsStayUseful(g, g', closed);
      SameWordsSameLanguage(g, g', spine[0], words);
    }
    assert g'.Keys == g.Keys + {x};
    LabelsGrow(g, spine, word, words, closed, x);
    LinkedGrows(spine, unchecked, word, x);
  }

  lemma LinkedGrows(spine: seq<TokenSet>, unchecked: seq<Unchecked>, word: string, x: TokenSet)
    requires Linked(spine, unchecked, word) && |spine| <= |word|
    ensures Linked(spine + [x], unchecked + [Unchecked(spine[|spine| - 1], word[|spine| - 1], x)], word)
  {
  }

  /** The new label is one with which the word itself goes on. */
  lemma LabelsGrow(g: Graph<TokenSet>, spine: seq<TokenSet>, word: string, words: set<string>, closed: set<TokenSet>,
                   x: TokenSet)
    requires Layered(g, spine, word, closed) && |spine| <= |word| && x !in g
    requires Sprung(g, spine, word, words + {word}) && (Unforked(words + {word}) ==> Readable(g))
    ensures spine[|spine| - 1] in g
    ensures var g' := Grown(g, spine[|spine| - 1], word[|spine| - 1], x);
            Sprung(g', spine + [x], word, words + {word}) && (Unforked(words + {word}) ==> Readable(g'))
  {
    hide Leads, Unambiguous;
    var k := |spine| - 1;
    var v, c := spine[k], word[k];
    var g' := Grown(g, v, c, x);
    GoesOn(words, word, k);
    forall i, e | 0 <= i < |spine + [x]| && i <= |word| && (spine + [x])[i] in g' && e in g'[(spine + [x])[i]].edges
      ensures Leads(words + {word}, word[..i], e)
    {
      if i <= k {
        assert (spine + [x])[i] == spine[i] && (i < k ==> spine[i] != v);
        assert e in g[spine[i]].edges || (i == k && e == c);
      }
    }
    if Unforked(words + {word}) {
      LabelsOfSpine(g', spine + [x], word, words + {word}, k);
      assert g'[x].edges.Keys == {};
      NothingIsAmbiguous();
      forall n | n in g' ensures Unambiguous(g'[n].edges.Keys) {
        assert n == v || n == x || g'[n] == g[n];
      }
    }
  }

  lemma NothingIsAmbiguous()
    ensures Unambiguous({})
  {
  }

  lemma GoesOn(words: set<string>, word: string, k: nat)
    requires k < |word|
    ensures Leads(words + {word}, word[..k], word[k])
  {
    assert word in words + {word};
  }

  lemma LabelsOfSpine(g: Graph<TokenSet>, spine: seq<TokenSet>, word: string, words: set<string>, i: nat)
    requires Sprung(g, spine, word, words) && Unforked(words) && i < |spine| && i <= |word| && spine[i] in g
    ensures Unambiguous(g[spine[i]].edges.Keys)
  {
    hide Leads;
    forall d, c | d in g[spine[i]].edges.Keys && c in g[spine[i]].edges.Keys && IsDigit(d) ensures d <= c {
      assert Leads(words, word[..i], d) && Leads(words, word[..i], c);
    }
  }

  lemma FinishStep(g: Graph<TokenSet>, spine: seq<TokenSet>, unchecked: seq<Unchecked>, word: string,
                   minimized: map<string, TokenSet>, closed: set<TokenSet>, right: bool, words: set<string>)
    requires Good(g, spine, unchecked, word, minimized, closed, right, words) && |spine| == |word| + 1
            && spine[|word|] in g
    ensures var g' := WithFinal(g, spine[|word|]);
            && Good(g', spine, unchecked, word, minimized, closed, right, words + {word})
            && Completed(g', spine, word, right, words + {word})
            && KeepsRegistered(minimized, g, minimized, g')
  {
    hide Layered, Useful, Language, Completes, Key, KeepsRegistered, Unforked, Leads, Unambiguous;
    var g' := WithFinal(g, spine[|word|]);
    assert words + {word} + {word} == words + {word};
    LayeredNodes(g, spine, word, closed);
    FinishLast(g, spine, word, closed);
    OthersMayChange(g, minimized, closed, g');
    if right {
      FinishWord(g, spine, word, closed, words);
      FinalKeepsUseful(g, spine[|word|], closed);
    }
    assert g'.Keys == g.Keys;
  }

  lemma MinimalStep(g: Graph<TokenSet>, root: TokenSet, word: string,
                    minimized: map<string, TokenSet>, closed: set<TokenSet>, right: bool, words: set<string>)
    requires Good(g, [root], [], word, minimized, closed, right, words) && right && words != {}
    ensures Minimal(g, root)
  {
    assert forall m, n :: m in closed && n in closed && g[m] == g[n] ==> Key(g[m]) == Key(g[n]);
    FinishedIsMinimal(g, root, word, closed, words);
  }

  function CommonLength(word: string, previous: string): (k: nat)
    ensures k <= |word|
  {
    if word == "" || previous == "" || word[0] != previous[0] then 0 else 1 + CommonLength(word[1..], previous[1..])
  }

  method CommonPrefix(word: string, previous: string) returns (k: nat)
    ensures k == CommonLength(word, previous)
    ensures k <= |word| && k <= |previous| && word[..k] == previous[..k]
    ensures k < |word| && k < |previous| ==> word[k] != previous[k]
  {
    k := 0;
    while k < |word| && k < |previous| && word[k] == previous[k]
      invariant k <= |word| && k <= |previous| && word[..k] == previous[..k]
      invariant CommonLength(word, previous) == k + CommonLength(word[k..], previous[k..])
    {
      assert word[k..][1..] == word[k + 1..] && previous[k..][1..] == previous[k + 1..];
      k := k + 1;
    }
  }

  // ----- What the builder does, step by step -----

  /** The nodes with their edges, and the two collections of the builder. */
  datatype Progress = Progress(g: Graph<TokenSet>, unchecked: seq<Unchecked>, minimized: map<string, TokenSet>)

  /** The last unchecked node makes way for the node that is registered under its signature, or is registered. */
  ghost function Round(s: Progress): Progress
    requires s.unchecked != []
  {
    var k := |s.unchecked| - 1;
    var node := s.unchecked[k];
    if node.child !in s.g || node.parent !in s.g then Progress(s.g, s.unchecked[..k], s.minimized)
    else if Key(s.g[node.child]) in s.minimized then
      Progress(Redirected(s.g, node.parent, node.letter, s.minimized[Key(s.g[node.child])]), s.unchecked[..k],
               s.minimized)
    else Progress(s.g, s.unchecked[..k], s.minimized[Key(s.g[node.child]) := node.child])
  }

  ghost function Rounds(s: Progress, downTo: nat): Progress
    decreases |s.unchecked|
  {
    if |s.unchecked| <= downTo then s else Rounds(Round(s), downTo)
  }

  lemma RoundIs(s: Progress, key: string)
    requires s.unchecked != []
    requires var node := s.unchecked[|s.unchecked| - 1];
             node.child in s.g && node.parent in s.g && key == Key(s.g[node.child])
    ensures var node, rest := s.unchecked[|s.unchecked| - 1], s.unchecked[..|s.unchecked| - 1];
            Round(s) == if key in s.minimized
                        then Progress(Redirected(s.g, node.parent, node.letter, s.minimized[key]), rest, s.minimized)
                        else Progress(s.g, rest, s.minimized[key := node.child])
  {
  }

  lemma RoundsEnd(s: Progress, downTo: nat)
    requires |s.unchecked| <= downTo
    ensures Rounds(s, downTo) == s
  {
  }

  lemma RoundsGoOn(s: Progress, downTo: nat)
    requires |s.unchecked| > downTo
    ensures Rounds(s, downTo) == Rounds(Round(s), downTo)
  {
  }

  /** A node that makes way has the shape of the registered one. */
  ghost predicate RoundIsRight(s: Progress)
    requires s.unchecked != []
  {
    var x := s.unchecked[|s.unchecked| - 1].child;
    x in s.g && Key(s.g[x]) in s.minimized ==>
      var y := s.minimized[Key(s.g[x])];
      y in s.g && s.g[y] == s.g[x]
  }

  ghost predicate RoundsAreRight(s: Progress, downTo: nat)
    decreases |s.unchecked|
  {
    |s.unchecked| <= downTo || (RoundIsRight(s) && RoundsAreRight(Round(s), downTo))
  }

  lemma RightRoundsGoOn(s: Progress, downTo: nat)
    requires |s.unchecked| > downTo
    ensures RoundsAreRight(s, downTo) <==> RoundIsRight(s) && RoundsAreRight(Round(s), downTo)
  {
  }

  lemma RightRoundsEnd(s: Progress, downTo: nat)
    requires |s.unchecked| <= downTo
    ensures RoundsAreRight(s, downTo)
  {
  }

  lemma RoundIsRightWhen(s: Progress, key: string)
    requires s.unchecked != [] && s.unchecked[|s.unchecked| - 1].child in s.g
    requires key == Key(s.g[s.unchecked[|s.unchecked| - 1].child])
    ensures RoundIsRight(s) <==>
            (key in s.minimized ==>
               s.minimized[key] in s.g && s.g[s.minimized[key]] == s.g[s.unchecked[|s.unchecked| - 1].child])
  {
  }

  /** The node at which the unchecked ones end. */
  ghost function Tip(s: Progress, root: TokenSet): TokenSet {
    if s.unchecked == [] then root else s.unchecked[|s.unchecked| - 1].child
  }

  /** A new node is hung below the tip for the next character of the word. */
  ghost function HungOne(s: Progress, root: TokenSet, word: string, x: TokenSet): Progress {
    var v, k := Tip(s, root), |s.unchecked|;
    if v !in s.g || k >= |word| then s
    else Progress(Grown(s.g, v, word[k], x), s.unchecked + [Unchecked(v, word[k], x)], s.minimized)
  }

  ghost function Hung(s: Progress, root: TokenSet, word: string, xs: seq<TokenSet>): Progress {
    if xs == [] then s else HungOne(Hung(s, root, word, xs[..|xs| - 1]), root, word, xs[|xs| - 1])
  }

  ghost function Marked(s: Progress, root: TokenSet): Progress {
    if Tip(s, root) in s.g then s.(g := WithFinal(s.g, Tip(s, root))) else s
  }

  /** A word is added; `xs` are the new nodes for its characters behind the common prefix. */
  ghost function Added(s: Progress, root: TokenSet, previous: string, word: string, xs: seq<TokenSet>): Progress {
    Marked(Hung(Rounds(s, CommonLength(word, previous)), root, word, xs), root)
  }

  /** The nodes were made one after the other. */
  ghost predicate Numbered(xs: seq<TokenSet>, first: nat) {
    forall i :: 0 <= i < |xs| ==> xs[i].id == first + i
  }

  /** The words of an array are added; `xs` are all new nodes below the root. */
  ghost function Built(arr: seq<string>, root: TokenSet, xs: seq<TokenSet>): Progress
    requires |xs| == NodeCount(arr)
  {
    if arr == [] then Progress(map[root := Shape(false, map[])], [], map[])
    else
      var n := |arr| - 1;
      var k := NodeCount(arr[..n]);
      Added(Built(arr[..n], root, xs[..k]), root, Before(arr, n), arr[n], xs[k..])
  }

  /** How many nodes are made for the words of an array: one for each character behind a common prefix. */
  function NodeCount(arr: seq<string>): nat {
    if arr == [] then 0
    else var n := |arr| - 1; NodeCount(arr[..n]) + |arr[n]| - CommonLength(arr[n], Before(arr, n))
  }

  /** While the words are added and at the end, every node that makes way has the shape of the registered one. */
  ghost predicate BuiltRightly(arr: seq<string>, root: TokenSet, xs: seq<TokenSet>)
    requires |xs| == NodeCount(arr)
  {
    AddedRightly(arr, root, xs) && RoundsAreRight(Built(arr, root, xs), 0)
  }

  ghost predicate AddedRightly(arr: seq<string>, root: TokenSet, xs: seq<TokenSet>)
    requires |xs| == NodeCount(arr)
  {
    arr == [] ||
    var n := |arr| - 1;
    var k := NodeCount(arr[..n]);
    && AddedRightly(arr[..n], root, xs[..k])
    && RoundsAreRight(Built(arr[..n], root, xs[..k]), CommonLength(arr[n], Before(arr, n)))
  }

  function Before(arr: seq<string>, i: nat): string
    requires i <= |arr|
  {
    if i == 0 then "" else arr[i - 1]
  }

  /** New nodes have been hung one after the other. */
  ghost predicate Extended(s0: Progress, s: Progress, root: TokenSet, word: string, xs: seq<TokenSet>, first: nat,
                           next: nat) {
    && s == Hung(s0, root, word, xs) && |s.unchecked| == |s0.unchecked| + |xs| && s.minimized == s0.minimized
    && Numbered(xs, first) && next == first + |xs|
    && KeepsRegistered(s0.minimized, s0.g, s.minimized, s.g)
  }

  lemma ExtendedMore(s0: Progress, s: Progress, s': Progress, root: TokenSet, word: string, xs: seq<TokenSet>,
                     first: nat, next: nat, x: TokenSet)
    requires Extended(s0, s, root, word, xs, first, next) && s' == HungOne(s, root, word, x) && x.id == next
    requires |s'.unchecked| == |s.unchecked| + 1 && s'.minimized == s.minimized
    requires KeepsRegistered(s.minimized, s.g, s'.minimized, s'.g)
    ensures Extended(s0, s', root, word, xs + [x], first, next + 1)
  {
    HungMore(s0, root, word, xs, x);
  }

  /** What the builder keeps true between the words, as values. */
  ghost predicate Steady(s: Progress, root: TokenSet, spine: seq<TokenSet>, word: string, closed: set<TokenSet>,
                         rank: map<TokenSet, nat>, right: bool, words: set<string>) {
    && |spine| == |s.unchecked| + 1 <= |word| + 1 && spine[0] == root
    && Good(s.g, spine, s.unchecked, word, s.minimized, closed, right, words)
    && Descending(s.g, rank, closed)
  }

  lemma LastIsInside(s: Progress, root: TokenSet, spine: seq<TokenSet>, word: string, closed: set<TokenSet>,
                     rank: map<TokenSet, nat>, right: bool, words: set<string>)
    requires Steady(s, root, spine, word, closed, rank, right, words) && s.unchecked != []
    ensures s.unchecked[|s.unchecked| - 1].child in s.g && s.unchecked[|s.unchecked| - 1].parent in s.g
  {
    LastEntry(s.g, spine, s.unchecked, word, s.minimized, closed, right, words);
  }

  lemma SteadyRegisters(s: Progress, root: TokenSet, spine: seq<TokenSet>, word: string, closed: set<TokenSet>,
                        rank: map<TokenSet, nat>, right: bool, words: set<string>, key: string)
    requires Steady(s, root, spine, word, closed, rank, right, words) && Completed(s.g, spine, word, right, words)
    requires s.unchecked != [] && s.unchecked[|s.unchecked| - 1].child in s.g
    requires key !in s.minimized && key == Key(s.g[s.unchecked[|s.unchecked| - 1].child])
    ensures var x, rest := s.unchecked[|s.unchecked| - 1].child, s.unchecked[..|s.unchecked| - 1];
            && Round(s) == Progress(s.g, rest, s.minimized[key := x])
            && |spine| > 1
            && Steady(Round(s), root, spine[..|spine| - 1], word, closed + {x}, rank[x := |closed|], right, words)
            && Completed(s.g, spine[..|spine| - 1], word, right, words)
            && KeepsRegistered(s.minimized, s.g, s.minimized[key := x], s.g)
  {
    hide Good, Completed, Descending, KeepsRegistered, Key, Round;
    LastEntry(s.g, spine, s.unchecked, word, s.minimized, closed, right, words);
    RoundIs(s, key);
    RegisterStep(s.g, spine, s.unchecked, word, s.minimized, closed, right, words, key);
    RegisteredDescends(s.g, spine, s.unchecked, word, s.minimized, closed, right, words, rank);
  }

  /** A round leaves the words as they are exactly when the node that makes way has the shape of the registered one;
      only then do the words so far stay those that the root accepts. */
  lemma RoundKeepsWordsExactlyWhen(s: Progress, root: TokenSet, spine: seq<TokenSet>, word: string,
                                   closed: set<TokenSet>, rank: map<TokenSet, nat>, words: set<string>)
    requires Steady(s, root, spine, word, closed, rank, true, words) && Completed(s.g, spine, word, true, words)
    requires s.unchecked != []
    ensures Language(Round(s).g, root, words) <==> RoundIsRight(s)
  {
    hide Layered, Useful, Language, Completes, Key, Descending, Redirected, Readable, Unforked, Leads, Sprung,
         RoundIsRight, Round;
    LastEntry(s.g, spine, s.unchecked, word, s.minimized, closed, true, words);
    var k, x := |spine| - 1, spine[|spine| - 1];
    var key := Key(s.g[x]);
    RoundIs(s, key);
    RoundIsRightWhen(s, key);
    if key in s.minimized {
      LayeredNodes(s.g, spine, word, closed);
      assert forall m :: m in closed && s.g[m] == s.g[x] ==> m == s.minimized[key];
      ReplacingKeepsWordsExactlyWhen(s.g, spine, word, closed, s.minimized[key], words);
    }
  }

  class Builder {
    var previousWord: string
    const root: TokenSet
    var uncheckedNodes: seq<Unchecked>
    var minimizedNodes: map<string, TokenSet>
    const ids: IdSource

    ghost var nodes: set<TokenSet>
    ghost var spine: seq<TokenSet>  // the root followed by the unchecked nodes
    ghost var closed: set<TokenSet>  // the minimized nodes
    ghost var rank: map<TokenSet, nat>  // the order in which they were minimized
    ghost var words: set<string>
    ghost var right: bool  // whether every node that made way had the shape of the registered one

    ghost function Graph(): Graph<TokenSet>
      reads this`nodes, nodes
    {
      Snapshot(nodes)
    }

    ghost function Now(): Progress
      reads this, nodes
    {
      Progress(Graph(), uncheckedNodes, minimizedNodes)
    }

    /** Only the signatures of minimized nodes are cached. */
    ghost predicate Cached()
      reads this`nodes, this`closed, ids`next, nodes`str
    {
      forall n :: n in nodes ==> n.id < ids.next && (n.str == "" || n in closed)
    }

    /** The nodes are those of the words so far and the unchecked ones spell a prefix of `word`. */
    ghost predicate Consistent(word: string)
      reads this, ids, nodes
    {
      && Cached()
      && |spine| == |uncheckedNodes| + 1
      && Steady(Now(), root, spine, word, closed, rank, right, words)
    }

    ghost predicate Valid()
      reads this, ids, nodes
    {
      Consistent(previousWord) && Completed(Graph(), spine, previousWord, right, words)
    }

    /** No node of the last word has been minimized yet, as it is between insertions. */
    ghost predicate Open()
      reads this
    {
      |uncheckedNodes| == |previousWord|
    }

    constructor (ids: IdSource)
      modifies ids
      ensures Valid() && Open() && words == {} && right && this.ids == ids && fresh(nodes)
      ensures Now() == Progress(map[root := Shape(false, map[])], [], map[]) && previousWord == ""
      ensures root.id == old(ids.next) && ids.next == root.id + 1
    {
      var r := new TokenSet(ids);
      previousWord, root, uncheckedNodes, minimizedNodes, this.ids := "", r, [], map[], ids;
      nodes, spine, closed, rank, words, right := {r}, [r], {}, map[], {}, true;
      new;
      assert Graph()[root] == Shape(false, map[]);
    }

    /** The last unchecked node is replaced by the registered node of the same shape. */
    method Replace(node: Unchecked, childKey: string)
      requires Valid() && uncheckedNodes != [] && node == uncheckedNodes[|uncheckedNodes| - 1]
      requires childKey in minimizedNodes && childKey == Key(node.child.Shape())
      modifies this`uncheckedNodes, this`spine, this`right, nodes
      ensures Valid() && Now() == Round(old(Now())) && uncheckedNodes == old(uncheckedNodes[..|uncheckedNodes| - 1])
      ensures right == (old(right) && RoundIsRight(old(Now())))
      ensures KeepsRegistered(minimizedNodes, old(Graph()), minimizedNodes, Graph())
    {
      hide Good, Completed, Descending, KeepsRegistered, Key, Round, RoundIsRight, Snapshot, Builder.Cached;
      ghost var g, path, unchecked, were := Graph(), spine, uncheckedNodes, right;
      SnapshotHas(nodes);
      LastEntry(g, path, unchecked, previousWord, minimizedNodes, closed, right, words);
      RoundIs(Now(), childKey);
      RoundIsRightWhen(Now(), childKey);
      ghost var shapesAgree := RoundIsRight(Now());
      ReplaceStep(g, path, unchecked, previousWord, minimizedNodes, closed, right, words, childKey);
      node.parent.edges := node.parent.edges[node.letter := minimizedNodes[childKey]];
      uncheckedNodes, spine, right := uncheckedNodes[..|uncheckedNodes| - 1], spine[..|spine| - 1], right
          && shapesAgree;
      SnapshotIs(nodes, Redirected(g, node.parent, node.letter, minimizedNodes[childKey]));
      StillDescending(g, path, unchecked, previousWord, minimizedNodes, closed, were, words, rank, Graph());
    }

    /** Caches the signature of a node; its edges stay as they are. */
    method Cache(node: TokenSet, childKey: string)
      requires node in nodes && Cached()
      modifies node`str
      ensures Graph() == old(Graph())
      ensures forall n :: n in nodes ==> n.id < ids.next && (n.str == "" || n in closed + {node})
    {
      ghost var g := Graph();
      SnapshotHas(nodes);
      node.str := childKey;
      SnapshotIs(nodes, g);
    }

    /** The last unchecked node is registered under its signature, which is cached. */
    method Register(node: Unchecked, childKey: string)
      requires Valid() && uncheckedNodes != [] && node == uncheckedNodes[|uncheckedNodes| - 1]
      requires childKey !in minimizedNodes && childKey == Key(node.child.Shape())
      modifies this`uncheckedNodes, this`minimizedNodes, this`closed, this`rank, this`spine, nodes
      ensures Valid() && Now() == Round(old(Now())) && uncheckedNodes == old(uncheckedNodes[..|uncheckedNodes| - 1])
      ensures RoundIsRight(old(Now()))
      ensures KeepsRegistered(old(minimizedNodes), old(Graph()), minimizedNodes, Graph())
    {
      hide *;
      Parts();
      ghost var s, shorter := Now(), spine[..|spine| - 1];
      var rest := uncheckedNodes[..|uncheckedNodes| - 1];
      LastIsInside(s, root, spine, previousWord, closed, rank, right, words);
      ChildHasShape(node);
      RoundIsRightWhen(s, childKey);
      SteadyRegisters(s, root, spine, previousWord, closed, rank, right, words, childKey);
      Cache(node.child, childKey);
      minimizedNodes := minimizedNodes[childKey := node.child];
      closed, rank := closed + {node.child}, rank[node.child := |closed|];
      uncheckedNodes, spine := rest, shorter;
      assert Progress(Graph(), uncheckedNodes, minimizedNodes) == Round(s);
      Whole(previousWord);
    }

    /** What the invariant is made of, and how it is put together. */
    lemma Parts()
      requires Valid()
      ensures Now() == Progress(Graph(), uncheckedNodes, minimizedNodes) && Graph().Keys == nodes
              && |spine| == |uncheckedNodes| + 1
      ensures Cached() && Steady(Now(), root, spine, previousWord, closed, rank, right, words)
      ensures Completed(Graph(), spine, previousWord, right, words)
    {
      hide Steady, Completed;
    }

    lemma Whole(word: string)
      requires (forall n :: n in nodes ==> n.id < ids.next && (n.str == "" || n in closed))
              && |spine| == |uncheckedNodes| + 1
      requires Steady(Progress(Graph(), uncheckedNodes, minimizedNodes), root, spine, word, closed, rank, right,
                      words)
      ensures Consistent(word) && Now() == Progress(Graph(), uncheckedNodes, minimizedNodes)
      ensures word == previousWord && Completed(Graph(), spine, word, right, words) ==> Valid()
    {
      hide Steady, Completed;
    }

    lemma ChildHasShape(node: Unchecked)
      requires node.child in nodes
      ensures Graph()[node.child] == node.child.Shape()
    {
    }

    /** No signature of an unchecked node is cached. */
    lemma LastHasNoText()
      requires Valid() && uncheckedNodes != []
      ensures uncheckedNodes[|uncheckedNodes| - 1].child.str == ""
    {
      hide Good, Completed, Descending, Key;
      LastEntry(Graph(), spine, uncheckedNodes, previousWord, minimizedNodes, closed, right, words);
    }

    lemma AllAreKept()
      requires Valid()
      ensures KeepsRegistered(minimizedNodes, Graph(), minimizedNodes, Graph())
    {
      hide Good, Completed, Descending, Key, KeepsRegistered;
      RegisteredAreKept(Graph(), spine, uncheckedNodes, previousWord, minimizedNodes, closed, right, words);
    }

    method Minimize(downTo: nat)
      requires Valid() && downTo <= |uncheckedNodes|
      modifies this`uncheckedNodes, this`minimizedNodes, this`closed, this`rank, this`spine, this`right, nodes
      ensures right == (old(right) && RoundsAreRight(old(Now()), downTo))
      ensures Valid() && Now() == Rounds(old(Now()), downTo) && uncheckedNodes == old(uncheckedNodes[..downTo])
      ensures KeepsRegistered(old(minimizedNodes), old(Graph()), minimizedNodes, Graph())
    {
      hide Builder.Valid, Builder.Graph, KeepsRegistered, Round, Rounds, Key, RoundIsRight, RoundsAreRight;
      AllAreKept();
      while |uncheckedNodes| > downTo
        invariant Valid() && downTo <= |uncheckedNodes| <= old(|uncheckedNodes|)
        invariant Rounds(Now(), downTo) == Rounds(old(Now()), downTo)
        invariant right && RoundsAreRight(Now(), downTo) <==> old(right) && RoundsAreRight(old(Now()), downTo)
        invariant uncheckedNodes == old(uncheckedNodes)[..|uncheckedNodes|]
        invariant KeepsRegistered(old(minimizedNodes), old(Graph()), minimizedNodes, Graph())
      {
        ghost var m, g := minimizedNodes, Graph();
        RoundsGoOn(Now(), downTo);
        RightRoundsGoOn(Now(), downTo);
        var node := uncheckedNodes[|uncheckedNodes| - 1];
        LastHasNoText();
        var childKey := node.child.ToString();
        if childKey in minimizedNodes {
          Replace(node, childKey);
        } else {
          Register(node, childKey);
        }
        KeepingComposes(old(minimizedNodes), old(Graph()), m, g, minimizedNodes, Graph());
      }
      assert Rounds(Now(), downTo) == Now() by { RoundsEnd(Now(), downTo); }
      RightRoundsEnd(Now(), downTo);
    }

    /** The nodes left over from the last word are those of the common prefix with the next one. */
    lemma TurnTo(word: string)
      requires Valid() && !Less(word, previousWord)
      requires var k := |uncheckedNodes|;
               && k <= |word| && k <= |previousWord| && word[..k] == previousWord[..k]
               && (k < |word| && k < |previousWord| ==> word[k] != previousWord[k])
      ensures Consistent(word) && Growable(Graph(), spine, word)
    {
      hide Good, Descending, Growable;
      SwitchStep(Graph(), spine, uncheckedNodes, previousWord, word, minimizedNodes, closed, right, words);
    }

    lemma KnowsLast()
      requires Valid()
      ensures IsLast(previousWord, words)
    {
    }

    lemma TipIsLast(word: string)
      requires Consistent(word)
      ensures |spine| == |uncheckedNodes| + 1 && Tip(Now(), root) == spine[|uncheckedNodes|]
              && Tip(Now(), root) in nodes
    {
    }

    /** Hangs a new node for the next character of the word below the last unchecked node. */
    method Append(word: string, node: TokenSet, nextNode: TokenSet)
      requires Consistent(word) && Growable(Graph(), spine, word)
      requires |uncheckedNodes| < |word| && node == Tip(Now(), root)
      requires nextNode !in nodes && nextNode.Shape() == Shape(false, map[]) && nextNode.str == ""
      requires nextNode.id < ids.next && forall n :: n in nodes ==> n.id < nextNode.id
      modifies this`uncheckedNodes, this`spine, this`nodes, nodes
      ensures Consistent(word) && Growable(Graph(), spine, word)
      ensures Now() == HungOne(old(Now()), root, word, nextNode)
      ensures |uncheckedNodes| == old(|uncheckedNodes|) + 1 && nextNode == Tip(Now(), root)
      ensures nodes == old(nodes) + {nextNode}
      ensures KeepsRegistered(minimizedNodes, old(Graph()), minimizedNodes, Graph())
    {
      hide Good, Descending, KeepsRegistered, Growable, Snapshot;
      ghost var g, path, unchecked := Graph(), spine, uncheckedNodes;
      SnapshotHas(nodes);
      var letter := word[|uncheckedNodes|];
      TipIsLast(word);
      GrowStep(g, spine, uncheckedNodes, word, minimizedNodes, closed, right, words, nextNode);
      node.edges := node.edges[letter := nextNode];
      uncheckedNodes := uncheckedNodes + [Unchecked(node, letter, nextNode)];
      nodes, spine := nodes + {nextNode}, spine + [nextNode];
      SnapshotIs(nodes, Grown(g, node, letter, nextNode));
      StillDescending(g, path, unchecked, word, minimizedNodes, closed, right, words, rank, Graph());
    }

    /** Makes the next node and hangs it there. */
    method Grow(word: string, node: TokenSet) returns (nextNode: TokenSet)
      requires Consistent(word) && Growable(Graph(), spine, word)
      requires |uncheckedNodes| < |word| && node == Tip(Now(), root)
      modifies this`uncheckedNodes, this`spine, this`nodes, nodes, ids
      ensures Consistent(word) && Growable(Graph(), spine, word)
      ensures Now() == HungOne(old(Now()), root, word, nextNode) && nextNode.id == old(ids.next)
              && ids.next == nextNode.id + 1
      ensures |uncheckedNodes| == old(|uncheckedNodes|) + 1 && nextNode == Tip(Now(), root)
      ensures nodes == old(nodes) + {nextNode} && fresh(nextNode)
      ensures KeepsRegistered(minimizedNodes, old(Graph()), minimizedNodes, Graph())
    {
      hide Good, Descending, KeepsRegistered, Growable, HungOne;
      nextNode := new TokenSet(ids);
      assert Now() == old(Now());
      Append(word, node, nextNode);
    }

    /** Hangs nodes for the rest of the word below the last unchecked node and returns the last one. */
    method Extend(word: string) returns (node: TokenSet, ghost xs: seq<TokenSet>)
      requires Consistent(word) && Growable(Graph(), spine, word)
      modifies this`uncheckedNodes, this`spine, this`nodes, nodes, ids
      ensures Consistent(word) && |uncheckedNodes| == |word| && node == Tip(Now(), root)
      ensures Extended(old(Now()), Now(), root, word, xs, old(ids.next), ids.next)
      ensures fresh(nodes - old(nodes)) && old(nodes) <= nodes
    {
      hide Good, Descending, KeepsRegistered, Growable, HungOne, Snapshot, Extended, Builder.Consistent;
      ghost var s0, first, known := Now(), ids.next, nodes;
      NothingExtended(word);
      node, xs := if |uncheckedNodes| == 0 then root else uncheckedNodes[|uncheckedNodes| - 1].child, [];
      for i := |uncheckedNodes| to |word|
        invariant Consistent(word) && Growable(Graph(), spine, word) && |uncheckedNodes| == i
                && node == Tip(Now(), root)
        invariant Extended(s0, Now(), root, word, xs, first, ids.next)
        invariant fresh(nodes - known) && known <= nodes
      {
        ghost var s, next := Now(), ids.next;
        var nextNode := Grow(word, node);
        ExtendedMore(s0, s, Now(), root, word, xs, first, next, nextNode);
        node, xs := nextNode, xs + [nextNode];
      }
    }

    lemma NothingExtended(word: string)
      requires Consistent(word)
      ensures |uncheckedNodes| <= |word| && Extended(Now(), Now(), root, word, [], ids.next, ids.next)
    {
      RegisteredAreKept(Graph(), spine, uncheckedNodes, word, minimizedNodes, closed, right, words);
    }

    /** The last unchecked node becomes final, which completes the word. */
    method Complete(word: string, node: TokenSet)
      requires Consistent(word) && |uncheckedNodes| == |word| && node == Tip(Now(), root)
      modifies this`previousWord, this`words, nodes
      ensures Valid() && previousWord == word && words == old(words) + {word}
      ensures Now() == Marked(old(Now()), root)
      ensures KeepsRegistered(minimizedNodes, old(Graph()), minimizedNodes, Graph())
    {
      hide Good, Completed, Descending, KeepsRegistered, Snapshot, Builder.Cached;
      ghost var g, known := Graph(), words;
      SnapshotHas(nodes);
      TipIsLast(word);
      LastEntry(g, spine, uncheckedNodes, word, minimizedNodes, closed, right, known);
      node.final := true;
      previousWord := word;
      words := words + {word};
      SnapshotIs(nodes, WithFinal(g, node));
      FinishStep(g, spine, uncheckedNodes, word, minimizedNodes, closed, right, known);
      StillDescending(g, spine, uncheckedNodes, word, minimizedNodes, closed, right, known, rank, Graph());
    }

    /** Adds a word, or reports that it comes before the last one. */
    method Insert(word: string) returns (r: Insertion, ghost xs: seq<TokenSet>)
      requires Valid() && Open()
      modifies this, nodes, ids
      ensures Valid() && Open() && fresh(nodes - old(nodes)) && old(nodes) <= nodes
      ensures r.OutOfOrder? <==> Less(word, old(previousWord))
      ensures Now() == if r.OutOfOrder? then old(Now()) else Added(old(Now()), root, old(previousWord), word, xs)
      ensures |xs| == if r.OutOfOrder? then 0 else |word| - CommonLength(word, old(previousWord))
      ensures Numbered(xs, old(ids.next)) && ids.next == old(ids.next) + |xs|
      ensures words == if r.OutOfOrder? then old(words) else old(words) + {word}
      ensures previousWord == if r.OutOfOrder? then old(previousWord) else word
      ensures right == (old(right)
              && (r.OutOfOrder? || RoundsAreRight(old(Now()), CommonLength(word, old(previousWord)))))
      ensures KeepsRegistered(old(minimizedNodes), old(Graph()), minimizedNodes, Graph())
    {
      hide Good, Completed, Descending, KeepsRegistered, Growable, Less, Snapshot;
      hide CommonLength, Rounds, RoundsAreRight, Hung, Marked;
      RegisteredAreKept(Graph(), spine, uncheckedNodes, previousWord, minimizedNodes, closed, right, words);
      if Less(word, previousWord) {
        return OutOfOrder, [];
      }
      var commonPrefix := CommonPrefix(word, previousWord);
      Minimize(commonPrefix);
      ghost var g, m := Graph(), minimizedNodes;
      TurnTo(word);
      var node;
      node, xs := Extend(word);
      KeepingComposes(old(minimizedNodes), old(Graph()), m, g, m, Graph());
      g := Graph();
      Complete(word, node);
      KeepingComposes(old(minimizedNodes), old(Graph()), m, g, m, Graph());
      r := Inserted;
    }

    method Finish()
      requires Valid()
      modifies this`uncheckedNodes, this`minimizedNodes, this`closed, this`rank, this`spine, this`right, nodes
      ensures Valid() && Now() == Rounds(old(Now()), 0) && uncheckedNodes == []
      ensures right == (old(right) && RoundsAreRight(old(Now()), 0))
      ensures right && words != {} ==> Minimal(Graph(), root)
      ensures KeepsRegistered(old(minimizedNodes), old(Graph()), minimizedNodes, Graph())
    {
      hide Good, Completed, Descending, KeepsRegistered;
      Minimize(0);
      if right && words != {} {
        assert spine == [root];
        MinimalStep(Graph(), root, previousWord, minimizedNodes, closed, right, words);
      }
    }
  }

  predicate NonDecreasing(arr: seq<string>) {
    forall i :: 0 < i < |arr| ==> !Less(arr[i], arr[i - 1])
  }

  ghost function Elements(arr: seq<string>): set<string> {
    set w | w in arr
  }

  ghost function AllCharacters(arr: seq<string>): set<char> {
    set i, c | 0 <= i < |arr| && c in arr[i] :: c
  }

  lemma {:induction false} UnambiguousIsUnforked(arr: seq<string>)
    requires Unambiguous(AllCharacters(arr))
    ensures Unforked(Elements(arr))
  {
    forall prefix: string, d, c | Leads(Elements(arr), prefix, d) && Leads(Elements(arr), prefix, c) && IsDigit(d)
      ensures d <= c
    {
      LeadsInside(arr, prefix, d);
      LeadsInside(arr, prefix, c);
    }
  }

  lemma LeadsInside(arr: seq<string>, prefix: string, c: char)
    requires Leads(Elements(arr), prefix, c)
    ensures c in AllCharacters(arr)
  {
    var w :| w in Elements(arr) && |prefix| < |w| && w[..|prefix|] == prefix && w[|prefix|] == c;
    var i :| 0 <= i < |arr| && arr[i] == w;
    assert c in arr[i];
  }

  /** The token set of a sorted array of words; none if the array is not sorted. It is finite and has no cycle for
      all words; it is minimal and accepts just these words if every node that made way had the shape of the
      registered one, as it is if digits come first wherever words part. */
  method FromArray(arr: seq<string>, ids: IdSource)
    returns (root: Option<TokenSet>, ghost nodes: set<TokenSet>, ghost rank: map<TokenSet, nat>,
             ghost xs: seq<TokenSet>)
    modifies ids
    ensures root.Some? <==> NonDecreasing(arr)
    ensures root.Some? ==> fresh(nodes) && Closed(Snapshot(nodes)) && root.value in rank && Ranked(Snapshot(nodes),
            rank)
    ensures root.Some? ==>
              && root.value.id == old(ids.next) && Numbered(xs, old(ids.next) + 1) && |xs| == NodeCount(arr)
              && Snapshot(nodes) == Rounds(Built(arr, root.value, xs), 0).g
    ensures root.Some? && BuiltRightly(arr, root.value, xs) ==>
              && Language(Snapshot(nodes), root.value, Elements(arr))
              && (arr != [] ==> Minimal(Snapshot(nodes), root.value))
    ensures root.Some? && Unforked(Elements(arr)) ==> BuiltRightly(arr, root.value, xs)
    ensures Unambiguous(AllCharacters(arr)) ==> Unforked(Elements(arr))
    ensures root.Some? && arr == [] ==> root.value.edges == map[]
  {
    hide Good, Completed, Descending, KeepsRegistered, Minimal, Unambiguous, Less, Added, Rounds, CommonLength;
    hide Built, NodeCount, Numbered, NonDecreasing, Elements, AllCharacters, Language, Unforked, AddedRightly,
         RoundsAreRight;
    root, nodes, rank, xs := None, {}, map[], [];
    if Unambiguous(AllCharacters(arr)) {
      UnambiguousIsUnforked(arr);
    }
    var builder := new Builder(ids);
    NothingBuilt(arr, builder.root, old(ids.next) + 1);
    for i := 0 to |arr|
      invariant builder.Valid() && builder.Open() && fresh(builder) && fresh(builder.nodes) && builder.ids == ids
      invariant builder.words == Elements(arr[..i])
      invariant builder.previousWord == Before(arr, i)
      invariant |xs| == NodeCount(arr[..i]) && builder.Now() == Built(arr[..i], builder.root, xs)
      invariant builder.right == AddedRightly(arr[..i], builder.root, xs)
      invariant Numbered(xs, old(ids.next) + 1) && builder.root.id == old(ids.next)
              && ids.next == old(ids.next) + 1 + |xs|
      invariant NonDecreasing(arr[..i])
    {
      SplitLast(arr, i);
      var r, more := builder.Insert(arr[i]);
      if r == OutOfOrder {
        return;
      }
      BuiltMore(arr, i, builder.root, xs, more);
      NumberedConcat(xs, more, old(ids.next) + 1);
      xs := xs + more;
    }
    assert arr[..|arr|] == arr;
    builder.Finish();
    root, nodes, rank := Some(builder.root), builder.nodes, builder.rank[builder.root := |builder.closed|];
    builder.KnowsLast();
    FinishedShape(builder.Graph(), builder.spine, builder.uncheckedNodes, builder.previousWord, builder.minimizedNodes,
                  builder.closed, builder.right, builder.words, builder.rank);
    HasElements(arr);
  }

  lemma NothingBuilt(arr: seq<string>, root: TokenSet, first: nat)
    ensures Elements(arr[..0]) == {} && Before(arr, 0) == "" && NonDecreasing(arr[..0])
    ensures NodeCount(arr[..0]) == 0 && Numbered([], first)
    ensures Built(arr[..0], root, []) == Progress(map[root := Shape(false, map[])], [], map[])
    ensures AddedRightly(arr[..0], root, [])
  {
  }

  lemma HasElements(arr: seq<string>)
    ensures if arr == [] then Before(arr, |arr|) == "" else Elements(arr) != {}
  {
    if arr != [] {
      assert arr[0] in Elements(arr);
    }
  }

  lemma BuiltMore(arr: seq<string>, i: nat, root: TokenSet, xs: seq<TokenSet>, more: seq<TokenSet>)
    requires i < |arr| && |xs| == NodeCount(arr[..i]) && |more| == |arr[i]| - CommonLength(arr[i], Before(arr, i))
    ensures |xs + more| == NodeCount(arr[..i + 1])
    ensures Built(arr[..i + 1], root, xs + more) == Added(Built(arr[..i], root, xs), root, Before(arr, i), arr[i], more)
    ensures AddedRightly(arr[..i + 1], root, xs + more) <==>
            AddedRightly(arr[..i], root, xs)
            && RoundsAreRight(Built(arr[..i], root, xs), CommonLength(arr[i], Before(arr, i)))
  {
    hide Added, RoundsAreRight;
    assert arr[..i + 1][..i] == arr[..i] && Before(arr[..i + 1], i) == Before(arr, i);
    assert (xs + more)[..|xs|] == xs && (xs + more)[|xs|..] == more;
  }

  lemma NumberedConcat(xs: seq<TokenSet>, ys: seq<TokenSet>, first: nat)
    requires Numbered(xs, first) && Numbered(ys, first + |xs|)
    ensures Numbered(xs + ys, first)
  {
  }

  lemma SplitLast(arr: seq<string>, i: nat)
    requires i < |arr|
    ensures Elements(arr[..i + 1]) == Elements(arr[..i]) + {arr[i]}
    ensures NonDecreasing(arr[..i]) ==>
              (NonDecreasing(arr[..i + 1]) <==> !Less(arr[i], Before(arr, i)))
    ensures !NonDecreasing(arr[..i + 1]) ==> !NonDecreasing(arr)
  {
    assert arr[..i + 1] == arr[..i] + [arr[i]];
  }

  lemma FinishedShape(g: Graph<TokenSet>, spine: seq<TokenSet>, unchecked: seq<Unchecked>, word: string,
                      minimized: map<string, TokenSet>, closed: set<TokenSet>, right: bool, words: set<string>,
                      rank: map<TokenSet, nat>)
    requires Good(g, spine, unchecked, word, minimized, closed, right, words) && unchecked == []
    requires Descending(g, rank, closed)
    ensures |spine| == 1 && spine[0] in g && Closed(g) && Ranked(g, rank[spine[0] := |closed|])
    ensures right ==> Language(g, spine[0], words)
    ensures IsLast(word, words) && Unforked(words) ==> right
    ensures word == "" ==> g[spine[0]].edges == map[]
  {
    hide Descending, Useful, Language, Leads;
    if IsLast(word, words) && Unforked(words) {
      FewerAreUnforked(words + {word}, words);
    }
    RootDescends(g, spine[0], word, closed, rank);
  }
}
