/** What the builder (docs/styles/lunr.js:1560-1628) makes of words in which a digit comes with a character below
    it: for each such pair, and wherever the counter of ids stands, there is an array from which it makes a
    token set that accepts another word. */
module Ambiguity {
  import opened Options
  import opened Automaton
  import opened Digits
  import opened Signature
  import opened BuilderState
  import opened TokenSets

  // ----- Ids whose texts contain a digit label -----

  /** The number whose digits are those of `n` followed by those of `m`. */
  function Joined(n: nat, m: nat): nat {
    if m < 10 then 10 * n + m else 10 * Joined(n, m / 10) + m % 10
  }

  lemma {:induction false} JoinedSpells(n: nat, m: nat)
    requires n > 0
    ensures Decimal(Joined(n, m)) == Decimal(n) + Decimal(m) && Joined(n, m) >= 10 * n
    decreases m
  {
    hide Decimal;
    var q, r := if m < 10 then n else Joined(n, m / 10), m % 10;
    if m >= 10 {
      JoinedSpells(n, m / 10);
      LastDigit(m);
    } else {
      OneDigit(m);
    }
    LastDigit(10 * q + r);
  }

  lemma OneDigit(m: nat)
    requires m < 10
    ensures Decimal(m) == [Digit(m)]
  {
  }

  lemma LastDigit(m: nat)
    requires m >= 10
    ensures Decimal(m) == Decimal(m / 10) + [Digit(m % 10)]
  {
  }

  function DigitValue(d: char): nat
    requires IsDigit(d)
  {
    d as int - '0' as int
  }

  /** The id that is spelled like `n`, the digit, and `n` again. */
  function Between(n: nat, d: char): nat
    requires IsDigit(d)
  {
    Joined(10 * n + DigitValue(d), n)
  }

  lemma DigitAppended(n: nat, d: char)
    requires n > 0 && IsDigit(d)
    ensures Decimal(10 * n + DigitValue(d)) == Decimal(n) + [d]
  {
    var m := 10 * n + DigitValue(d);
    assert m / 10 == n && m % 10 == DigitValue(d) && Digit(DigitValue(d)) == d;
  }

  lemma BetweenSpells(n: nat, d: char)
    requires n > 0 && IsDigit(d)
    ensures Decimal(Between(n, d)) == Decimal(n) + [d] + Decimal(n) && Between(n, d) >= 100 * n
  {
    hide Decimal, Joined;
    DigitAppended(n, d);
    JoinedSpells(10 * n + DigitValue(d), n);
  }

  // ----- Signatures of nodes with one edge or two -----

  function One(c: char, n: TokenSet): Shape<TokenSet> {
    Shape(false, map[c := n])
  }

  lemma OneKey(c: char, n: TokenSet)
    ensures Key(One(c, n)) == "0" + ([c] + Decimal(n.id))
  {
    SingleEdgeText(c, n.id);
    assert IdEdges(map[c := n]) == map[c := n.id];
  }

  function Two(c: char, d: char, n: TokenSet): Shape<TokenSet> {
    Shape(false, map[c := n, d := n])
  }

  lemma TwoKey(c: char, d: char, n: TokenSet)
    requires c < d
    ensures Key(Two(c, d, n)) == "0" + ([c] + Decimal(n.id) + ([d] + Decimal(n.id)))
  {
    DoubleEdgeText(c, n.id, d, n.id);
    assert IdEdges(map[c := n, d := n]) == map[c := n.id, d := n.id];
  }

  const LEAF: Shape<TokenSet> := Shape(true, map[])

  const BARE: Shape<TokenSet> := Shape(false, map[])

  lemma LeafKey()
    ensures Key(LEAF) == "1"
  {
    assert IdEdges(map[]) == map[];
    AscendingIsUnique(SortedLabels({}), []);
  }

  lemma SameTails(c: char, m: nat, n: nat)
    requires "0" + ([c] + Decimal(m)) == "0" + ([c] + Decimal(n))
    ensures m == n
  {
    assert Decimal(m) == ("0" + ([c] + Decimal(m)))[2..] == ("0" + ([c] + Decimal(n)))[2..] == Decimal(n);
    DecimalIsInjective(m, n);
  }

  lemma OneKeysDiffer(c: char, m: TokenSet, n: TokenSet)
    ensures Key(One(c, m)) == Key(One(c, n)) <==> m.id == n.id
    ensures Key(One(c, m)) != "1"
  {
    hide Key, One, Decimal;
    OneKey(c, m);
    OneKey(c, n);
    if Key(One(c, m)) == Key(One(c, n)) {
      SameTails(c, m.id, n.id);
    }
  }

  /** A node with one edge to the id that spells the two edges has the signature of the node with these. */
  lemma OneKeyCollides(c: char, d: char, n: TokenSet, x: TokenSet)
    requires c < d && IsDigit(d) && n.id > 0
    ensures Key(One(c, x)) == Key(Two(c, d, n)) <==> x.id == Between(n.id, d)
    ensures Key(Two(c, d, n)) != "1"
  {
    hide Key, One, Two, Decimal, Between;
    OneKey(c, x);
    TwoKey(c, d, n);
    BetweenSpells(n.id, d);
    var v := Between(n.id, d);
    EdgesJoin(c, Decimal(n.id), d);
    if Key(One(c, x)) == Key(Two(c, d, n)) {
      SameTails(c, x.id, v);
    }
  }

  lemma EdgesJoin(c: char, s: string, d: char)
    ensures [c] + s + ([d] + s) == [c] + (s + [d] + s)
  {
  }

  // ----- Unwinding -----

  /** The builder keeps nodes that have signatures of their own. */
  ghost predicate Fresh(s: Progress) {
    && (forall i :: 0 <= i < |s.unchecked| ==> s.unchecked[i].child in s.g && s.unchecked[i].parent in s.g)
    && (forall i :: 0 <= i < |s.unchecked| ==> ChildKey(s, i) !in s.minimized)
    && (forall i, j :: 0 <= i < j < |s.unchecked| ==> ChildKey(s, i) != ChildKey(s, j))
  }

  ghost function ChildKey(s: Progress, i: nat): string
    requires i < |s.unchecked|
  {
    if s.unchecked[i].child in s.g then Key(s.g[s.unchecked[i].child]) else ""
  }

  lemma RoundStaysFresh(s: Progress)
    requires Fresh(s) && s.unchecked != []
    ensures Fresh(Round(s)) && Round(s).g == s.g && |Round(s).unchecked| < |s.unchecked|
  {
    hide Key;
    var k := |s.unchecked| - 1;
    var s' := Round(s);
    assert ChildKey(s, k) !in s.minimized;
    assert s' == Progress(s.g, s.unchecked[..k], s.minimized[ChildKey(s, k) := s.unchecked[k].child]);
    forall i | 0 <= i < k ensures ChildKey(s', i) == ChildKey(s, i) != ChildKey(s, k) { }
  }

  lemma {:induction false} FreshNodesStay(s: Progress)
    requires Fresh(s)
    ensures Rounds(s, 0).g == s.g
    decreases |s.unchecked|
  {
    hide Fresh, Round;
    if s.unchecked != [] {
      RoundStaysFresh(s);
      FreshNodesStay(Round(s));
    }
  }

  // ----- An array that goes wrong -----

  function Repeat(c: char, n: nat): string {
    seq(n, _ => c)
  }

  /** The words cc and cd, and d followed by many c. */
  function Words(c: char, d: char, n: nat): seq<string> {
    [[c, c], [c, d], [d] + Repeat(c, n)]
  }

  /** The nodes that the builder makes for these words: the root, those of cc, the last one of cd, and those of
      the third word. */
  datatype Cast = Cast(c: char, d: char, root: TokenSet, a: TokenSet, l: TokenSet, b: TokenSet, ch: seq<TokenSet>)

  /** All ids differ, and the last node but one has the id that spells the two edges of `a`. */
  ghost predicate Arranged(k: Cast) {
    && k.c < k.d && IsDigit(k.d) && k.l.id > 0 && |k.ch| > 3
    && k.root.id < k.a.id < k.l.id < k.b.id
    && (forall i :: 0 <= i < |k.ch| ==> k.b.id < k.ch[i].id)
    && (forall i, j :: 0 <= i < j < |k.ch| ==> k.ch[i].id < k.ch[j].id)
    && k.ch[|k.ch| - 2].id == Between(k.l.id, k.d)
  }

  ghost function AfterFirst(k: Cast): Progress {
    Progress(map[k.root := One(k.c, k.a), k.a := One(k.c, k.l), k.l := LEAF],
             [Unchecked(k.root, k.c, k.a), Unchecked(k.a, k.c, k.l)], map[])
  }

  lemma FirstWord(k: Cast)
    requires Arranged(k)
    ensures Added(Progress(map[k.root := Shape(false, map[])], [], map[]), k.root, "", [k.c, k.c], [k.a, k.l])
            == AfterFirst(k)
  {
    hide Key, HungOne, Marked;
    var s := Progress(map[k.root := Shape(false, map[])], [], map[]);
    var word := [k.c, k.c];
    HungMore(s, k.root, word, [], k.a);
    HungMore(s, k.root, word, [k.a], k.l);
    assert [] + [k.a] == [k.a] && [k.a] + [k.l] == [k.a, k.l] && Hung(s, k.root, word, []) == s;
    FirstNodesHang(k);
  }

  lemma FirstNodesHang(k: Cast)
    requires Arranged(k)
    ensures var s := Progress(map[k.root := Shape(false, map[])], [], map[]);
            var two := HungOne(HungOne(s, k.root, [k.c, k.c], k.a), k.root, [k.c, k.c], k.l);
            Marked(two, k.root) == AfterFirst(k)
  {
    hide Key;
    var s := Progress(map[k.root := Shape(false, map[])], [], map[]);
    var one := HungOne(s, k.root, [k.c, k.c], k.a);
    assert one == Progress(map[k.root := One(k.c, k.a), k.a := Shape(false, map[])], [Unchecked(k.root, k.c, k.a)],
                           map[]);
    var two := HungOne(one, k.root, [k.c, k.c], k.l);
    assert two == Progress(map[k.root := One(k.c, k.a), k.a := One(k.c, k.l), k.l := Shape(false, map[])],
                           [Unchecked(k.root, k.c, k.a), Unchecked(k.a, k.c, k.l)], map[]);
  }

  ghost function AfterSecond(k: Cast): Progress {
    Progress(map[k.root := One(k.c, k.a), k.a := Shape(false, map[k.c := k.l, k.d := k.b]), k.l := LEAF, k.b := LEAF],
             [Unchecked(k.root, k.c, k.a), Unchecked(k.a, k.d, k.b)], map["1" := k.l])
  }

  lemma SecondWord(k: Cast)
    requires Arranged(k)
    ensures Added(AfterFirst(k), k.root, [k.c, k.c], [k.c, k.d], [k.b]) == AfterSecond(k)
  {
    hide Key, Round, Rounds, HungOne, Marked;
    var s := AfterFirst(k);
    var word := [k.c, k.d];
    assert CommonLength(word, [k.c, k.c]) == 1 by {
      assert word[1..] == [k.d] && [k.c, k.c][1..] == [k.c];
    }
    FirstUnwinds(k);
    var r := Rounds(s, 1);
    HungMore(r, k.root, word, [], k.b);
    assert [] + [k.b] == [k.b] && Hung(r, k.root, word, []) == r;
    SecondNodeHangs(k);
  }

  lemma FirstUnwinds(k: Cast)
    requires Arranged(k)
    ensures Rounds(AfterFirst(k), 1) == Progress(AfterFirst(k).g, [Unchecked(k.root, k.c, k.a)], map["1" := k.l])
  {
    hide Key, Round;
    LeafKey();
    var s := AfterFirst(k);
    RoundIs(s, "1");
    RoundsGoOn(s, 1);
    assert s.unchecked[..1] == [Unchecked(k.root, k.c, k.a)];
    RoundsEnd(Round(s), 1);
  }

  lemma SecondNodeHangs(k: Cast)
    requires Arranged(k)
    ensures var r := Progress(AfterFirst(k).g, [Unchecked(k.root, k.c, k.a)], map["1" := k.l]);
            Marked(HungOne(r, k.root, [k.c, k.d], k.b), k.root) == AfterSecond(k)
  {
    hide Key;
    var r := Progress(AfterFirst(k).g, [Unchecked(k.root, k.c, k.a)], map["1" := k.l]);
    assert Marked(HungOne(r, k.root, [k.c, k.d], k.b), k.root).g == AfterSecond(k).g;
  }

  /** Both nodes below the root are registered: the last one of cd makes way for that of cc. */
  ghost function BeforeThird(k: Cast): Progress {
    Progress(map[k.root := One(k.c, k.a), k.a := Two(k.c, k.d, k.l), k.l := LEAF, k.b := LEAF], [],
             map["1" := k.l, Key(Two(k.c, k.d, k.l)) := k.a])
  }

  lemma SecondUnwinds(k: Cast)
    requires Arranged(k)
    ensures Rounds(AfterSecond(k), 0) == BeforeThird(k)
  {
    hide Key;
    var s := AfterSecond(k);
    LeafKey();
    OneKeyCollides(k.c, k.d, k.l, k.l);
    assert s.g[k.b] == LEAF && s.g[k.a].edges[k.d := k.l] == Two(k.c, k.d, k.l).edges;
    var one := Round(s);
    assert one.g == BeforeThird(k).g && one.unchecked == [Unchecked(k.root, k.c, k.a)];
    assert Round(one) == BeforeThird(k);
    assert Rounds(one, 0) == Rounds(Round(one), 0);
  }

  /** The root with the edge for the third word. */
  function Forked(k: Cast): Shape<TokenSet>
    requires k.ch != []
  {
    Shape(false, map[k.c := k.a, k.d := k.ch[0]])
  }

  /** The unchecked entries of the third word, as far as its first `i` nodes. */
  ghost function Links(k: Cast, i: nat): seq<Unchecked>
    requires i <= |k.ch|
  {
    seq(i, j requires 0 <= j < i => Link(k, j))
  }

  ghost function Link(k: Cast, j: nat): Unchecked
    requires j < |k.ch|
  {
    if j == 0 then Unchecked(k.root, k.d, k.ch[0]) else Unchecked(k.ch[j - 1], k.c, k.ch[j])
  }

  /** The first `i` nodes hang below each other. */
  ghost predicate Chained(k: Cast, s: Progress, i: nat)
    requires i <= |k.ch|
  {
    && s.unchecked == Links(k, i) && s.minimized == BeforeThird(k).minimized
    && {k.root, k.a, k.l} <= s.g.Keys && s.g[k.a] == Two(k.c, k.d, k.l) && s.g[k.l] == LEAF
    && s.g[k.root] == (if i == 0 then One(k.c, k.a) else Forked(k))
    && forall j :: 0 <= j < i ==>
         k.ch[j] in s.g && s.g[k.ch[j]] == Hanging(k, i, j, BARE)
  }

  function Hanging(k: Cast, i: nat, j: nat, last: Shape<TokenSet>): Shape<TokenSet>
    requires j < i <= |k.ch|
  {
    if j + 1 < i then One(k.c, k.ch[j + 1]) else last
  }

  lemma ChainedMore(k: Cast, s: Progress, i: nat)
    requires Arranged(k) && i < |k.ch| && Chained(k, s, i)
    ensures Chained(k, HungOne(s, k.root, [k.d] + Repeat(k.c, |k.ch| - 1), k.ch[i]), i + 1)
  {
    hide Key, BeforeThird;
    var word := [k.d] + Repeat(k.c, |k.ch| - 1);
    var v := Link(k, i).parent;
    assert Tip(s, k.root) == v && v in s.g && word[i] == Link(k, i).letter;
    assert HungOne(s, k.root, word, k.ch[i]) == Progress(Grown(s.g, v, word[i], k.ch[i]), s.unchecked + [Link(k, i)],
                                                         s.minimized);
    assert Links(k, i + 1) == Links(k, i) + [Link(k, i)];
    GrownChain(k, s, i);
  }

  lemma NodesDiffer(k: Cast, i: nat, j: nat)
    requires Arranged(k) && i < |k.ch| && j < |k.ch|
    ensures k.ch[i] !in {k.root, k.a, k.l} && k.root !in {k.a, k.l} && (i != j ==> k.ch[i] != k.ch[j])
  {
  }

  lemma GrownChain(k: Cast, s: Progress, i: nat)
    requires Arranged(k) && i < |k.ch| && Chained(k, s, i)
    ensures var g := Grown(s.g, Link(k, i).parent, Link(k, i).letter, k.ch[i]);
            && {k.root, k.a, k.l} <= g.Keys && g[k.a] == s.g[k.a] && g[k.l] == s.g[k.l] && g[k.root] == Forked(k)
            && forall j :: 0 <= j < i + 1 ==> k.ch[j] in g && g[k.ch[j]] == Hanging(k, i + 1, j, BARE)
  {
    hide Key, BeforeThird, Links, Arranged;
    NodesDiffer(k, i, i);
    var g := Grown(s.g, Link(k, i).parent, Link(k, i).letter, k.ch[i]);
    if i == 0 {
      assert map[k.c := k.a][k.d := k.ch[0]] == map[k.c := k.a, k.d := k.ch[0]];
    } else {
      NodesDiffer(k, i - 1, i);
      assert s.g[k.ch[i - 1]] == BARE;
      assert g[k.ch[i - 1]] == One(k.c, k.ch[i]);
    }
    forall j | 0 <= j < i + 1 ensures k.ch[j] in g && g[k.ch[j]] == Hanging(k, i + 1, j, BARE) {
      NodesDiffer(k, j, i);
      if 0 < i && j < i - 1 {
        NodesDiffer(k, j, i - 1);
        assert g[k.ch[j]] == s.g[k.ch[j]];
      }
    }
  }

  lemma {:induction false} ThirdHangs(k: Cast, i: nat)
    requires Arranged(k) && i <= |k.ch|
    ensures Chained(k, Hung(BeforeThird(k), k.root, [k.d] + Repeat(k.c, |k.ch| - 1), k.ch[..i]), i)
    decreases i
  {
    hide Key, HungOne;
    if i > 0 {
      ThirdHangs(k, i - 1);
      assert k.ch[..i] == k.ch[..i - 1] + [k.ch[i - 1]];
      HungMore(BeforeThird(k), k.root, [k.d] + Repeat(k.c, |k.ch| - 1), k.ch[..i - 1], k.ch[i - 1]);
      ChainedMore(k, Hung(BeforeThird(k), k.root, [k.d] + Repeat(k.c, |k.ch| - 1), k.ch[..i - 1]), i - 1);
    }
  }

  /** The first `i` nodes of the third word are still unchecked, and the last of them has the shape `x`. */
  ghost predicate Standing(k: Cast, s: Progress, i: nat, x: Shape<TokenSet>, minimized: map<string, TokenSet>)
    requires i <= |k.ch|
  {
    && s.unchecked == Links(k, i) && s.minimized == minimized
    && {k.root, k.a, k.l} <= s.g.Keys && s.g[k.a] == Two(k.c, k.d, k.l) && s.g[k.l] == LEAF
    && (i > 0 ==> s.g[k.root] == Forked(k))
    && forall j :: 0 <= j < i ==> k.ch[j] in s.g && s.g[k.ch[j]] == Hanging(k, i, j, x)
  }

  lemma MarkedStands(k: Cast, s: Progress)
    requires Arranged(k) && Chained(k, s, |k.ch|)
    ensures Standing(k, Marked(s, k.root), |k.ch|, LEAF, BeforeThird(k).minimized)
  {
    hide Key, BeforeThird;
    var m := |k.ch| - 1;
    assert Tip(s, k.root) == k.ch[m] && s.g[k.ch[m]] == BARE;
  }

  /** A round of `minimize`, by the signature of the last node. */
  lemma RoundStands(k: Cast, s: Progress, i: nat, x: Shape<TokenSet>, minimized: map<string, TokenSet>)
    requires Arranged(k) && 1 < i <= |k.ch| && Standing(k, s, i, x, minimized)
    ensures if Key(x) in minimized
            then Standing(k, Round(s), i - 1, One(k.c, minimized[Key(x)]), minimized)
            else Standing(k, Round(s), i - 1, One(k.c, k.ch[i - 1]), minimized[Key(x) := k.ch[i - 1]])
  {
    hide Key, Arranged, Round, BeforeThird;
    assert s.unchecked[i - 1] == Unchecked(k.ch[i - 2], k.c, k.ch[i - 1]) && s.g[k.ch[i - 1]] == x;
    assert s.unchecked[..i - 1] == Links(k, i - 1);
    assert s.g[k.ch[i - 2]] == One(k.c, k.ch[i - 1]);
    RoundIs(s, Key(x));
    if Key(x) in minimized {
      RedirectedStands(k, s, i, x, minimized, minimized[Key(x)]);
    }
  }

  lemma RedirectedStands(k: Cast, s: Progress, i: nat, x: Shape<TokenSet>, minimized: map<string, TokenSet>,
                         y: TokenSet)
    requires Arranged(k) && 1 < i <= |k.ch| && Standing(k, s, i, x, minimized) && k.ch[i - 2] in s.g
    ensures var g := Redirected(s.g, k.ch[i - 2], k.c, y);
            Standing(k, Progress(g, Links(k, i - 1), minimized), i - 1, One(k.c, y), minimized)
  {
    hide Key, Arranged, BeforeThird, Links;
    var g := Redirected(s.g, k.ch[i - 2], k.c, y);
    assert s.g[k.ch[i - 2]] == One(k.c, k.ch[i - 1]);
    assert map[k.c := k.ch[i - 1]][k.c := y] == map[k.c := y];
    NodesDiffer(k, i - 2, i - 2);
    forall j | 0 <= j < i - 1 ensures k.ch[j] in g && g[k.ch[j]] == Hanging(k, i - 1, j, One(k.c, y)) {
      NodesDiffer(k, j, i - 2);
    }
  }

  /** From the end on, three nodes are looked up: the last one makes way for that of cc, the one before it is
      registered, and the one before that has the signature of `a`. */
  ghost predicate Merged(k: Cast, s: Progress) {
    |k.ch| > 3 &&
    Standing(k, s, |k.ch| - 3, One(k.c, k.a), BeforeThird(k).minimized[Key(One(k.c, k.l)) := k.ch[|k.ch| - 2]])
  }

  ghost function ThreeRounds(s: Progress): Progress {
    if |s.unchecked| < 3 then s else Round(Round(Round(s)))
  }

  lemma ThirdMerges(k: Cast, s: Progress)
    requires Arranged(k) && Chained(k, s, |k.ch|)
    ensures var s' := ThreeRounds(Marked(s, k.root));
            Merged(k, s') && Rounds(Marked(s, k.root), 0) == Rounds(s', 0)
  {
    hide Key, Standing, Round, Chained, Between, Decimal, Marked;
    var m := |k.ch| - 1;
    var first := BeforeThird(k).minimized;
    LeafKey();
    OneKeyCollides(k.c, k.d, k.l, k.l);
    OneKeyCollides(k.c, k.d, k.l, k.ch[m - 1]);
    OneKeysDiffer(k.c, k.l, k.ch[m - 1]);
    BetweenSpells(k.l.id, k.d);
    MarkedStands(k, s);
    var s0 := Marked(s, k.root);
    StandingUnwinds(k, s0, m + 1, LEAF, first);
    RoundStands(k, s0, m + 1, LEAF, first);
    RoundStands(k, Round(s0), m, One(k.c, k.l), first);
    RoundStands(k, Round(Round(s0)), m - 1, One(k.c, k.ch[m - 1]), first[Key(One(k.c, k.l)) := k.ch[m - 1]]);
  }

  lemma StandingUnwinds(k: Cast, s: Progress, i: nat, x: Shape<TokenSet>, minimized: map<string, TokenSet>)
    requires 3 < i <= |k.ch| && Standing(k, s, i, x, minimized)
    ensures Rounds(s, 0) == Rounds(ThreeRounds(s), 0) && |s.unchecked| > 3
    ensures |Round(s).unchecked| > 0 && |Round(Round(s)).unchecked| > 0
  {
    hide Key;
    assert Rounds(s, 0) == Rounds(Round(s), 0) == Rounds(Round(Round(s)), 0) == Rounds(Round(Round(Round(s))), 0);
  }

  lemma MergedIsFresh(k: Cast, s: Progress)
    requires Arranged(k) && Merged(k, s)
    ensures Fresh(s)
  {
    hide Key;
    var n := |k.ch| - 4;
    BetweenSpells(k.l.id, k.d);
    forall i | 0 <= i <= n ensures ChildKey(s, i) == Key(One(k.c, Next(k, i))) && ChildKey(s, i) !in s.minimized {
      OneKeyCollides(k.c, k.d, k.l, Next(k, i));
      OneKeysDiffer(k.c, Next(k, i), k.l);
    }
    forall i, j | 0 <= i < j <= n ensures ChildKey(s, i) != ChildKey(s, j) {
      OneKeysDiffer(k.c, Next(k, i), Next(k, j));
    }
  }

  /** Where the edge of a node of the third word leads in the end. */
  function Next(k: Cast, i: nat): TokenSet
    requires i <= |k.ch| - 4
  {
    if i < |k.ch| - 4 then k.ch[i + 1] else k.a
  }

  lemma MergedNodes(k: Cast, s: Progress, i: nat)
    requires Arranged(k) && Merged(k, s) && i <= |k.ch| - 4
    ensures k.ch[i] in s.g && s.g[k.ch[i]] == One(k.c, Next(k, i))
    ensures k.a in s.g && s.g[k.a] == Two(k.c, k.d, k.l) && k.l in s.g && s.g[k.l] == LEAF
    ensures k.root in s.g && s.g[k.root] == Forked(k)
  {
    hide Key, BeforeThird, Links;
  }

  lemma {:induction false} ChainAccepts(k: Cast, s: Progress, i: nat)
    requires Arranged(k) && Merged(k, s) && i <= |k.ch| - 4
    ensures Accepts(s.g, k.ch[i], Repeat(k.c, |k.ch| - 3 - i) + [k.d])
    decreases |k.ch| - i
  {
    hide Merged, Accepts, Arranged;
    var w := Repeat(k.c, |k.ch| - 4 - i) + [k.d];
    assert Repeat(k.c, |k.ch| - 3 - i) + [k.d] == [k.c] + w;
    MergedNodes(k, s, i);
    StepAccepts(s.g, k.ch[i], k.c, w);
    if i < |k.ch| - 4 {
      ChainAccepts(k, s, i + 1);
    } else {
      assert w == [k.d] && [k.d] + "" == [k.d];
      StepAccepts(s.g, k.a, k.d, "");
      LeafAccepts(s.g, k.l);
    }
  }

  lemma LeafAccepts(g: Graph<TokenSet>, n: TokenSet)
    requires n in g && g[n] == LEAF
    ensures Accepts(g, n, "")
  {
  }

  /** The word that is accepted in the end. */
  function WrongWord(c: char, d: char, n: nat): string
    requires n >= 2
  {
    [d] + (Repeat(c, n - 2) + [d])
  }

  lemma CastIsWrong(k: Cast, arr: seq<string>, xs: seq<TokenSet>)
    requires Arranged(k) && arr == Words(k.c, k.d, |k.ch| - 1) && xs == [k.a, k.l, k.b] + k.ch && |xs| == NodeCount(arr)
    ensures Accepts(Rounds(Built(arr, k.root, xs), 0).g, k.root, WrongWord(k.c, k.d, |k.ch| - 1))
  {
    hide Key, Round, Rounds, Marked, Hung, Chained, Merged, BeforeThird, AfterSecond, Fresh, Built, NodeCount, Repeat,
         Accepts, Added;
    BuiltWords(k, arr, xs);
    var s := ThirdWord(k);
    MergedIsFresh(k, s);
    FreshNodesStay(s);
    ChainAccepts(k, s, 0);
    MergedNodes(k, s, 0);
    StepAccepts(s.g, k.root, k.d, Repeat(k.c, |k.ch| - 3) + [k.d]);
  }

  lemma ThirdWord(k: Cast) returns (s: Progress)
    requires Arranged(k)
    ensures var third := [k.d] + Repeat(k.c, |k.ch| - 1);
            Rounds(Added(AfterSecond(k), k.root, [k.c, k.d], third, k.ch), 0) == Rounds(s, 0) && Merged(k, s)
  {
    hide Key, Round, Rounds, Marked, Hung, Chained, Merged, BeforeThird, AfterSecond, Repeat;
    var third := [k.d] + Repeat(k.c, |k.ch| - 1);
    NothingInCommon(third, [k.c, k.d]);
    SecondUnwinds(k);
    ThirdHangs(k, |k.ch|);
    assert k.ch[..|k.ch|] == k.ch;
    var hung := Hung(BeforeThird(k), k.root, third, k.ch);
    ThirdMerges(k, hung);
    s := ThreeRounds(Marked(hung, k.root));
  }

  lemma NothingInCommon(word: string, previous: string)
    requires word != "" && previous != "" && word[0] != previous[0]
    ensures CommonLength(word, previous) == 0
  {
  }

  /** The three words are added to the nodes of the cast. */
  lemma BuiltWords(k: Cast, arr: seq<string>, xs: seq<TokenSet>)
    requires Arranged(k) && arr == Words(k.c, k.d, |k.ch| - 1) && xs == [k.a, k.l, k.b] + k.ch && |xs| == NodeCount(arr)
    ensures Built(arr, k.root, xs) == Added(AfterSecond(k), k.root, [k.c, k.d], [k.d] + Repeat(k.c, |k.ch| - 1), k.ch)
  {
    hide Added;
    CountedNodes(k.c, k.d, |k.ch| - 1);
    NothingBuilt(arr, k.root, 0);
    assert arr[..3] == arr;
    BuiltMore(arr, 0, k.root, [], [k.a, k.l]);
    BuiltMore(arr, 1, k.root, [k.a, k.l], [k.b]);
    BuiltMore(arr, 2, k.root, [k.a, k.l, k.b], k.ch);
    assert [] + [k.a, k.l] == [k.a, k.l] && [k.a, k.l] + [k.b] == [k.a, k.l, k.b];
    FirstWord(k);
    SecondWord(k);
  }

  lemma CountedNodes(c: char, d: char, n: nat)
    requires c < d
    ensures var arr := Words(c, d, n);
            && NodeCount(arr[..0]) == 0 && NodeCount(arr[..1]) == 2 && NodeCount(arr[..2]) == 3
                 && NodeCount(arr) == n + 4
            && CommonLength(arr[0], "") == 0 && CommonLength(arr[1], arr[0]) == 1 && CommonLength(arr[2], arr[1]) == 0
            && NonDecreasing(arr)
  {
    var arr := Words(c, d, n);
    assert arr[1][1..] == [d] && arr[0][1..] == [c];
    assert CommonLength([d], [c]) == 0 && CommonLength(arr[1], arr[0]) == 1;
    assert arr[..1][..0] == arr[..0] && arr[..2][..1] == arr[..1] && arr[..3][..2] == arr[..2] && arr[..3] == arr;
    assert !Less([d], [c]) && !Less(arr[1], arr[0]) && !Less(arr[2], arr[1]);
  }

  /** How many c the third word needs, where the counter of ids stands at `first`. */
  function Needed(d: char, first: nat): nat
    requires IsDigit(d)
    ensures Needed(d, first) > 2
  {
    BetweenSpells(first + 2, d);
    Between(first + 2, d) - first - 3
  }

  /** Wherever the counter of ids stands, and for every digit above some other character, there is a sorted array
      over these two from which the builder makes a token set that accepts a word outside the array. */
  lemma AmbiguousArraysGoWrong(c: char, d: char, root: TokenSet, xs: seq<TokenSet>)
    requires c < d && IsDigit(d)
    requires var arr := Words(c, d, Needed(d, root.id));
             |xs| == NodeCount(arr) && Numbered(xs, root.id + 1)
    ensures var arr := Words(c, d, Needed(d, root.id));
            && NonDecreasing(arr) && AllCharacters(arr) == {c, d}
            && WrongWord(c, d, Needed(d, root.id)) !in Elements(arr)
            && Accepts(Rounds(Built(arr, root, xs), 0).g, root, WrongWord(c, d, Needed(d, root.id)))
  {
    hide Built, Rounds, NodeCount, Less, Arranged, CommonLength, Needed, NonDecreasing, Elements, AllCharacters, Words,
         WrongWord;
    var n := Needed(d, root.id);
    var arr := Words(c, d, n);
    CountedNodes(c, d, n);
    var k := CastOf(c, d, root, xs);
    CastIsWrong(k, arr, xs);
    WrongWordIsOutside(c, d, n);
    WordsAreOverBoth(c, d, n);
  }

  lemma WordsAreOverBoth(c: char, d: char, n: nat)
    ensures AllCharacters(Words(c, d, n)) == {c, d}
  {
    var arr := Words(c, d, n);
    assert c in arr[0] && d in arr[1];
    forall i, e | 0 <= i < |arr| && e in arr[i] ensures e in {c, d} { }
  }

  lemma CastOf(c: char, d: char, root: TokenSet, xs: seq<TokenSet>) returns (k: Cast)
    requires c < d && IsDigit(d) && |xs| == Needed(d, root.id) + 4 && Numbered(xs, root.id + 1)
    ensures Arranged(k) && k.c == c && k.d == d && k.root == root && |k.ch| == Needed(d, root.id) + 1
    ensures xs == [k.a, k.l, k.b] + k.ch
  {
    hide Between;
    k := Cast(c, d, root, xs[0], xs[1], xs[2], xs[3..]);
    assert forall i :: 0 <= i < |k.ch| ==> xs[3 + i] == k.ch[i];
  }

  lemma WrongWordIsOutside(c: char, d: char, n: nat)
    requires c < d && n >= 2
    ensures WrongWord(c, d, n) !in Elements(Words(c, d, n))
  {
    var w, arr := WrongWord(c, d, n), Words(c, d, n);
    assert w[0] == d && |w| == n && |arr[2]| == n + 1;
    forall v | v in Elements(arr) ensures v != w {
      assert v == arr[0] || v == arr[1] || v == arr[2];
    }
  }

  /** `fromArray` is right on all sorted arrays over an alphabet only if signatures tell shapes over it apart: it
      makes a wrong set of this array. */
  method WrongArray(c: char, d: char, ids: IdSource)
    returns (arr: seq<string>, root: TokenSet, ghost nodes: set<TokenSet>, wrong: string)
    requires c < d && IsDigit(d)
    modifies ids
    ensures NonDecreasing(arr) && AllCharacters(arr) == {c, d}
    ensures root in nodes && wrong !in Elements(arr) && Accepts(Snapshot(nodes), root, wrong)
  {
    hide Built, Rounds, NodeCount, Less, Language, Unambiguous, Minimal, Closed, Ranked, Needed, Words, WrongWord,
         Accepts;
    var n := Needed(d, ids.next);
    arr, wrong := Words(c, d, n), WrongWord(c, d, n);
    CountedNodes(c, d, n);
    var r, ns, rank, xs := FromArray(arr, ids);
    root, nodes := r.value, ns;
    AmbiguousArraysGoWrong(c, d, root, xs);
    RankedAreNodes(Snapshot(nodes), rank);
    SnapshotHas(nodes);
  }

  lemma RankedAreNodes(g: Graph<TokenSet>, rank: map<TokenSet, nat>)
    requires Ranked(g, rank)
    ensures rank.Keys <= g.Keys
  {
  }
}
