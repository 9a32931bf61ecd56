/** Listing the words of a token set (docs/styles/lunr.js:1421-1449) with an explicit stack of prefixes.
    The listing ends on every graph whose edges go down in rank, and such ranks exist for every
    finished token set. */
module Enumeration {
  import opened Options
  import opened Automaton
  import opened BuilderState
  import opened TokenSets
  import opened Sequences

  // ----- Ranks -----

  ghost predicate AcceptsLength<N>(g: Graph<N>, n: N, k: nat) {
    exists w: string :: |w| == k && Accepts(g, n, w)
  }

  /** The length of the longest accepted word, as far as `bound`. */
  ghost function Longest<N>(g: Graph<N>, n: N, bound: nat): nat {
    if bound == 0 || AcceptsLength(g, n, bound) then bound else Longest(g, n, bound - 1)
  }

  lemma {:induction false} LongestIsLongest<N>(g: Graph<N>, n: N, bound: nat, w: string)
    requires |w| <= bound && Accepts(g, n, w)
    ensures |w| <= Longest(g, n, bound) <= bound && AcceptsLength(g, n, Longest(g, n, bound))
    decreases bound
  {
    if !AcceptsLength(g, n, bound) {
      LongestIsLongest(g, n, bound - 1, w);
    }
  }

  /** The longest word from a node is longer than that from any node that an edge leads to. */
  lemma LongestFalls<N>(g: Graph<N>, root: N, words: set<string>, n: N, c: char, bound: nat)
    requires Closed(g) && n in g && Reached(g, root, n) && c in g[n].edges && Trim(g, root)
    requires Language(g, root, words) && forall w: string :: w in words ==> |w| <= bound
    ensures Reached(g, root, g[n].edges[c]) && Longest(g, g[n].edges[c], bound) < Longest(g, n, bound)
  {
    var u: string :| Walk(g, root, u) == Some(n);
    var x := g[n].edges[c];
    assert [c][1..] == "";
    WalkConcat(g, root, u, [c]);
    assert Walk(g, root, u + [c]) == Some(x);
    assert Reached(g, root, x);
    ReachedIsBounded(g, root, words, u, n, bound);
    ReachedIsBounded(g, root, words, u + [c], x, bound);
    hide Longest, Walk;
    var w: string :| Accepts(g, x, w);
    LongestIsLongest(g, x, bound, w);
    var v: string :| |v| == Longest(g, x, bound) && Accepts(g, x, v);
    StepAccepts(g, n, c, v);
    LongestIsLongest(g, n, bound, [c] + v);
  }

  /** A trim automaton with finitely many words is ranked by the lengths of the longest words. */
  lemma MinimalIsRanked<N>(g: Graph<N>, root: N, words: set<string>) returns (rank: map<N, nat>)
    requires Closed(g) && root in g && Language(g, root, words)
    requires if words == {} then g[root].edges == map[] else Trim(g, root)
    ensures root in rank && Ranked(g, rank)
  {
    if words == {} {
      return map[root := 0];
    }
    var bound := LongestWord(words);
    rank := map n | n in g && Reached(g, root, n) :: Longest(g, n, bound);
    assert Walk(g, root, "") == Some(root);
    hide Longest, Trim, Language, Reached;
    forall n, c | n in rank && c in g[n].edges
      ensures g[n].edges[c] in rank && rank[g[n].edges[c]] < rank[n]
    {
      LongestFalls(g, root, words, n, c, bound);
    }
  }

  // ----- A termination measure for work lists -----

  function Power(b: nat, e: nat): nat {
    if e == 0 then 1 else b * Power(b, e - 1)
  }

  /** The weight of a list of ranks, against which replacing one entry by fewer than `b` entries of
      lower rank is a decrease. */
  function Weight(b: nat, ranks: seq<nat>): nat {
    if ranks == [] then 0 else Weight(b, ranks[..|ranks| - 1]) + Power(b, ranks[|ranks| - 1])
  }

  lemma {:induction false} PowerGrows(b: nat, e: nat, f: nat)
    requires b > 0 && e <= f
    ensures 1 <= Power(b, e) <= Power(b, f)
    decreases f
  {
    if e < f {
      PowerGrows(b, e, f - 1);
      assert Power(b, f - 1) <= b * Power(b, f - 1);
    } else if e > 0 {
      PowerGrows(b, e - 1, f - 1);
      assert 1 <= b * Power(b, e - 1);
    }
  }

  lemma {:induction false} MultiplesGrow(k: nat, m: nat, p: nat)
    requires k <= m
    ensures k * p <= m * p
    decreases m
  {
    if k < m {
      MultiplesGrow(k, m - 1, p);
    }
  }

  /** Fewer than `b` entries below rank `e` weigh less than one entry of rank `e`. */
  lemma FewerThanBase(b: nat, e: nat, k: nat)
    requires e > 0 && k < b
    ensures k * Power(b, e - 1) < Power(b, e)
  {
    PowerGrows(b, e - 1, e - 1);
    MultiplesGrow(k + 1, b, Power(b, e - 1));
  }

  lemma {:induction false} LowRanksWeighLittle(b: nat, before: seq<nat>, added: seq<nat>, e: nat)
    requires b > 0 && forall i :: 0 <= i < |added| ==> added[i] <= e
    ensures Weight(b, before + added) <= Weight(b, before) + |added| * Power(b, e)
    decreases |added|
  {
    if added == [] {
      assert before + added == before;
    } else {
      var k := |added| - 1;
      assert (before + added)[..|before + added| - 1] == before + added[..k];
      LowRanksWeighLittle(b, before, added[..k], e);
      PowerGrows(b, added[k], e);
      assert |added| * Power(b, e) == k * Power(b, e) + Power(b, e);
    }
  }

  /** The weight falls when the last entry makes way for fewer than `b` entries of lower rank. */
  lemma WeightFalls(b: nat, before: seq<nat>, last: nat, added: seq<nat>)
    requires |added| < b && forall i :: 0 <= i < |added| ==> added[i] < last
    ensures Weight(b, before + added) < Weight(b, before + [last])
  {
    assert (before + [last])[..|before|] == before;
    PowerGrows(b, last, last);
    if added == [] {
      assert before + added == before;
    } else {
      assert added[0] < last;
      LowRanksWeighLittle(b, before, added, last - 1);
      FewerThanBase(b, last, |added|);
    }
  }

  // ----- The stack of `toArray` -----

  datatype Frame<N> = Frame(prefix: string, node: N)

  /** The word goes through the frame's prefix and is accepted from its node on. */
  ghost predicate Covers<N>(g: Graph<N>, f: Frame<N>, w: string) {
    f.prefix <= w && Accepts(g, f.node, w[|f.prefix|..])
  }

  ghost predicate Pending<N>(g: Graph<N>, stack: seq<Frame<N>>, w: string) {
    exists i :: 0 <= i < |stack| && Covers(g, stack[i], w)
  }

  ghost function Children<N>(g: Graph<N>, f: Frame<N>, keys: seq<char>): seq<Frame<N>>
    requires f.node in g && forall c :: c in keys ==> c in g[f.node].edges
  {
    seq(|keys|, i requires 0 <= i < |keys| => Frame(f.prefix + [keys[i]], g[f.node].edges[keys[i]]))
  }

  /** Every accepted word is either listed or still to be found below exactly one frame. */
  ghost predicate Listing<N>(g: Graph<N>, root: N, stack: seq<Frame<N>>, words: seq<string>) {
    && (forall w: string :: Accepts(g, root, w) <==> w in words || Pending(g, stack, w))
    && (forall i, j :: 0 <= i < j < |words| ==> words[i] != words[j])
    && Apart(stack) && Unlisted(stack, words)
  }

  ghost predicate Apart<N>(stack: seq<Frame<N>>) {
    forall i, j :: 0 <= i < |stack| && 0 <= j < |stack| && i != j ==> !(stack[i].prefix <= stack[j].prefix)
  }

  ghost predicate Unlisted<N>(stack: seq<Frame<N>>, words: seq<string>) {
    forall i, j :: 0 <= i < |stack| && 0 <= j < |words| ==> !(stack[i].prefix <= words[j])
  }

  /** The object's keys, in any order. */
  ghost predicate IsKeys<V>(keys: seq<char>, edges: map<char, V>) {
    && (forall c :: c in keys <==> c in edges)
    && (forall i, j :: 0 <= i < j < |keys| ==> keys[i] != keys[j])
  }

  lemma CoversSplits<N>(g: Graph<N>, f: Frame<N>, keys: seq<char>, w: string)
    requires f.node in g && IsKeys(keys, g[f.node].edges)
    ensures Covers(g, f, w) <==> (w == f.prefix && g[f.node].final) || Pending(g, Children(g, f, keys), w)
  {
    var k := |f.prefix|;
    var children := Children(g, f, keys);
    if Covers(g, f, w) && w != f.prefix {
      assert w[k..][0] == w[k] && w[k..][1..] == w[k + 1..];
      var i :| 0 <= i < |keys| && keys[i] == w[k];
      assert w[..k + 1] == f.prefix + [w[k]];
      assert Covers(g, children[i], w);
    }
    if Pending(g, children, w) {
      var i :| 0 <= i < |children| && Covers(g, children[i], w);
      assert w[..k + 1] == f.prefix + [keys[i]];
      assert f.prefix == w[..k + 1][..k];
      assert w[k..][0] == w[k] && w[k..][1..] == w[k + 1..];
    }
  }

  lemma PendingConcat<N>(g: Graph<N>, a: seq<Frame<N>>, b: seq<Frame<N>>, w: string)
    ensures Pending(g, a + b, w) <==> Pending(g, a, w) || Pending(g, b, w)
  {
    if Pending(g, a, w) {
      var i :| 0 <= i < |a| && Covers(g, a[i], w);
      assert Covers(g, (a + b)[i], w);
    }
    if Pending(g, b, w) {
      var i :| 0 <= i < |b| && Covers(g, b[i], w);
      assert Covers(g, (a + b)[|a| + i], w);
    }
  }

  /** Replacing a frame by its children, and listing its prefix if its node is final, loses and repeats
      no word. */
  lemma ListingStep<N>(g: Graph<N>, root: N, rest: seq<Frame<N>>, f: Frame<N>, keys: seq<char>, words: seq<string>)
    requires Listing(g, root, rest + [f], words) && f.node in g && IsKeys(keys, g[f.node].edges)
    ensures Listing(g, root, rest + Children(g, f, keys), if g[f.node].final then words + [f.prefix] else words)
  {
    var words' := if g[f.node].final then words + [f.prefix] else words;
    var children := Children(g, f, keys);
    forall w: string ensures Accepts(g, root, w) <==> w in words' || Pending(g, rest + children, w) {
      PendingConcat(g, rest, [f], w);
      PendingConcat(g, rest, children, w);
      CoversSplits(g, f, keys, w);
      assert Pending(g, [f], w) <==> Covers(g, f, w) by {
        if Covers(g, f, w) { assert Covers(g, [f][0], w); }
      }
    }
    forall i, j | 0 <= i < j < |children| ensures children[i].prefix != children[j].prefix {
      assert children[i].prefix[|f.prefix|] == keys[i] && children[j].prefix[|f.prefix|] == keys[j];
    }
    StaysApart(rest, f, children, words, words');
  }

  lemma StaysApart<N>(rest: seq<Frame<N>>, f: Frame<N>, children: seq<Frame<N>>, words: seq<string>,
                      words': seq<string>)
    requires Apart(rest + [f]) && Unlisted(rest + [f], words) && words' in {words, words + [f.prefix]}
    requires forall i :: 0 <= i < |children| ==>
            |children[i].prefix| == |f.prefix| + 1 && f.prefix <= children[i].prefix
    requires forall i, j :: 0 <= i < j < |children| ==> children[i].prefix != children[j].prefix
    ensures Apart(rest + children) && Unlisted(rest + children, words')
    ensures f.prefix !in words
  {
    var stack := rest + [f];
    assert stack[|rest|] == f && forall i :: 0 <= i < |rest| ==> stack[i] == rest[i];
    assert forall j :: 0 <= j < |words| ==> !(stack[|rest|].prefix <= words[j]);
    forall i, j | 0 <= i < |rest + children| && 0 <= j < |rest + children| && i != j
      ensures !((rest + children)[i].prefix <= (rest + children)[j].prefix)
    {
      if i < |rest| && j >= |rest| {
        PrefixesOfOneWord(rest[i].prefix, f.prefix, children[j - |rest|].prefix);
      }
      if i >= |rest| && j < |rest| && children[i - |rest|].prefix <= rest[j].prefix {
        PrefixIsTransitive(f.prefix, children[i - |rest|].prefix, rest[j].prefix);
      }
    }
    forall i, j | 0 <= i < |rest + children| && 0 <= j < |words'| ensures !((rest + children)[i].prefix <= words'[j]) {
      if i >= |rest| && j < |words| && children[i - |rest|].prefix <= words[j] {
        PrefixIsTransitive(f.prefix, children[i - |rest|].prefix, words[j]);
      }
    }
  }

  lemma PrefixIsTransitive(a: string, b: string, c: string)
    requires a <= b && b <= c
    ensures a <= c
  {
  }

  lemma PrefixesOfOneWord(a: string, b: string, c: string)
    requires b <= c && |c| == |b| + 1 && !(b <= a) && !(a <= b)
    ensures !(a <= c)
  {
    assert |a| <= |b| ==> c[..|a|] == b[..|a|];
  }

  ghost function Ranks<N>(stack: seq<Frame<N>>, rank: map<N, nat>): seq<nat>
    requires forall i :: 0 <= i < |stack| ==> stack[i].node in rank
  {
    seq(|stack|, i requires 0 <= i < |stack| => rank[stack[i].node])
  }

  lemma {:induction false} DegreeBound<N>(g: Graph<N>, nodes: set<N>) returns (b: nat)
    requires nodes <= g.Keys
    ensures forall n :: n in nodes ==> |g[n].edges| < b
    decreases nodes
  {
    b := 0;
    if nodes != {} {
      var n :| n in nodes;
      var b' := DegreeBound(g, nodes - {n});
      b := if b' <= |g[n].edges| then |g[n].edges| + 1 else b';
    }
  }

  lemma {:induction false} KeysAreFew<V>(keys: seq<char>, edges: map<char, V>)
    requires IsKeys(keys, edges)
    ensures |keys| == |edges|
    decreases |keys|
  {
    if keys == [] {
      assert edges.Keys == {};
    } else {
      var k := |keys| - 1;
      var c := keys[k];
      var edges' := edges - {c};
      assert forall d :: d in keys[..k] <==> d in edges';
      KeysAreFew(keys[..k], edges');
      assert edges.Keys == edges'.Keys + {c};
    }
  }

  method Keys<V>(edges: map<char, V>) returns (keys: seq<char>)
    ensures IsKeys(keys, edges)
  {
    keys := [];
    var rest := edges.Keys;
    while rest != {}
      invariant rest <= edges.Keys && forall c :: c in keys <==> c in edges.Keys - rest
      invariant forall i, j :: 0 <= i < j < |keys| ==> keys[i] != keys[j]
      decreases |rest|
    {
      var c :| c in rest;
      assert c !in keys;
      keys, rest := keys + [c], rest - {c};
    }
  }

  method PushChildren(rest: seq<Frame<TokenSet>>, frame: Frame<TokenSet>, edges: seq<char>, ghost nodes: set<TokenSet>)
    returns (stack: seq<Frame<TokenSet>>)
    requires frame.node in nodes && IsKeys(edges, frame.node.edges)
    ensures stack == rest + Children(Snapshot(nodes), frame, edges)
  {
    stack := rest;
    for i := 0 to |edges|
      invariant stack == rest + Children(Snapshot(nodes), frame, edges[..i])
    {
      ChildrenAppend(Snapshot(nodes), frame, edges, i);
      stack := stack + [Frame(frame.prefix + [edges[i]], frame.node.edges[edges[i]])];
    }
    assert edges[..|edges|] == edges;
  }

  /** Lists every accepted word of a ranked graph exactly once. */
  method ToArray(root: TokenSet, ghost nodes: set<TokenSet>, ghost rank: map<TokenSet, nat>)
    returns (words: seq<string>)
    requires root in rank && rank.Keys <= nodes && Ranked(Snapshot(nodes), rank)
    ensures forall w: string :: w in words <==> Accepts(Snapshot(nodes), root, w)
    ensures forall i, j :: 0 <= i < j < |words| ==> words[i] != words[j]
  {
    hide Listing, Apart, Unlisted, Covers, Pending;
    ghost var g := Snapshot(nodes);
    SnapshotHas(nodes);
    ghost var b := DegreeBound(g, rank.Keys);
    words := [];
    var stack := [Frame("", root)];
    ListingStarts(g, root);
    while stack != []
      invariant Listing(g, root, stack, words)
      invariant forall i :: 0 <= i < |stack| ==> stack[i].node in rank
      decreases Weight(b, Ranks(stack, rank))
    {
      var frame, rest := stack[|stack| - 1], stack[..|stack| - 1];
      LastSplits(stack);
      assert frame.node in rank && g[frame.node] == frame.node.Shape();
      var edges := Keys(frame.node.edges);
      KeysAreFew(edges, frame.node.edges);
      ListingStep(g, root, rest, frame, edges, words);
      RankOfStack(g, rank, b, rest, frame, edges);
      if frame.node.final {
        words := words + [frame.prefix];
      }
      stack := PushChildren(rest, frame, edges, nodes);
    }
    ListingEnds(g, root, words);
  }

  lemma ListingStarts<N>(g: Graph<N>, root: N)
    ensures Listing(g, root, [Frame("", root)], [])
  {
    forall w: string ensures Accepts(g, root, w) <==> Pending(g, [Frame("", root)], w) {
      assert w[0..] == w;
      assert Covers(g, [Frame("", root)][0], w) <==> Accepts(g, root, w);
    }
  }

  lemma ListingEnds<N>(g: Graph<N>, root: N, words: seq<string>)
    requires Listing(g, root, [], words)
    ensures forall w: string :: w in words <==> Accepts(g, root, w)
    ensures forall i, j :: 0 <= i < j < |words| ==> words[i] != words[j]
  {
  }

  lemma ChildrenAppend<N>(g: Graph<N>, f: Frame<N>, keys: seq<char>, i: nat)
    requires f.node in g && i < |keys| && forall c :: c in keys ==> c in g[f.node].edges
    ensures Children(g, f, keys[..i + 1]) == Children(g, f, keys[..i])
            + [Frame(f.prefix + [keys[i]], g[f.node].edges[keys[i]])]
  {
  }

  lemma RankOfStack<N>(g: Graph<N>, rank: map<N, nat>, b: nat, rest: seq<Frame<N>>, f: Frame<N>, keys: seq<char>)
    requires Ranked(g, rank) && f.node in rank && (forall i :: 0 <= i < |rest| ==> rest[i].node in rank)
    requires IsKeys(keys, g[f.node].edges) && |keys| < b
    ensures var stack := rest + Children(g, f, keys);
            && (forall i :: 0 <= i < |stack| ==> stack[i].node in rank)
            && Weight(b, Ranks(stack, rank)) < Weight(b, Ranks(rest + [f], rank))
  {
    var children := Children(g, f, keys);
    assert forall i :: 0 <= i < |children| ==>
        keys[i] in g[f.node].edges && children[i].node in rank && rank[children[i].node] < rank[f.node];
    assert Ranks(rest + children, rank) == Ranks(rest, rank) + Ranks(children, rank);
    assert Ranks(rest + [f], rank) == Ranks(rest, rank) + [rank[f.node]];
    WeightFalls(b, Ranks(rest, rank), rank[f.node], Ranks(children, rank));
  }
}
