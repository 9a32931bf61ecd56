/** Fuzzy query automata (docs/styles/lunr.js:1227-1364): which words they accept, and how these are
    related to the words within an edit distance. */
module Fuzzy {
  import opened Automaton
  import opened BuilderState
  import opened TokenSets
  import opened Enumeration
  import opened Tries
  import opened Wildcards
  import opened Sequences

  // ----- The label sequences -----

  /** What follows an edge: the end of the word, or a text that is still to be edited. */
  datatype Rest = Ends | GoesOn(editsRemaining: nat, str: string)

  datatype Move = Move(letter: char, rest: Rest)

  function NoEdit(edits: nat, str: string): seq<Move> {
    if |str| > 0 then [Move(str[0], if |str| == 1 then Ends else GoesOn(edits, str[1..]))] else []
  }

  function Deletion(edits: nat, str: string): seq<Move> {
    if edits > 0 && |str| > 1 then [Move(str[1], if |str| <= 2 then Ends else GoesOn(edits - 1, str[2..]))] else []
  }

  function Substitution(edits: nat, str: string): seq<Move> {
    if edits > 0 && |str| >= 1 then [Move('*', if |str| == 1 then Ends else GoesOn(edits - 1, str[1..]))] else []
  }

  function Insertion(edits: nat, str: string): seq<Move> {
    if edits > 0 then [Move('*', if |str| == 0 then Ends else GoesOn(edits - 1, str))] else []
  }

  function Transposition(edits: nat, str: string): seq<Move> {
    if edits > 0 && |str| > 1 then [Move(str[1], GoesOn(edits - 1, [str[0]] + str[2..]))] else []
  }

  function Moves(edits: nat, str: string): seq<Move> {
    NoEdit(edits, str) + (Deletion(edits, str) + (Substitution(edits, str)
                                                  + (Insertion(edits, str) + Transposition(edits, str))))
  }

  /** Only the last character can be deleted without another one being read. */
  predicate Stops(edits: nat, str: string) {
    edits > 0 && |str| == 1
  }

  /** The sequence of labels is on a path of the fuzzy automaton of `str`. */
  ghost predicate Labels(edits: nat, str: string, x: string)
    decreases |x|, 1
  {
    if x == "" then Stops(edits, str)
    else exists i :: 0 <= i < |Moves(edits, str)| && Takes(Moves(edits, str)[i], x)
  }

  ghost predicate Takes(m: Move, x: string)
    decreases |x|, 0
  {
    x != "" && m.letter == x[0] && if m.rest.Ends? then x[1..] == ""
        else Labels(m.rest.editsRemaining, m.rest.str, x[1..])
  }

  ghost predicate TakesOne(moves: seq<Move>, x: string) {
    exists i :: 0 <= i < |moves| && Takes(moves[i], x)
  }

  lemma TakesOneConcat(a: seq<Move>, b: seq<Move>, x: string)
    ensures TakesOne(a + b, x) <==> TakesOne(a, x) || TakesOne(b, x)
  {
    if TakesOne(a, x) {
      var i :| 0 <= i < |a| && Takes(a[i], x);
      assert Takes((a + b)[i], x);
    }
    if TakesOne(b, x) {
      var i :| 0 <= i < |b| && Takes(b[i], x);
      assert Takes((a + b)[|a| + i], x);
    }
  }

  lemma TakesOnly(m: Move, x: string)
    ensures TakesOne([m], x) <==> Takes(m, x)
  {
    assert [m][0] == m;
  }

  /** Two texts of one length, where `*` stands for any one character. */
  predicate Spells(x: string, w: string) {
    |x| == |w| && forall i :: 0 <= i < |x| ==> x[i] == '*' || x[i] == w[i]
  }

  ghost predicate FuzzyAccepts(edits: nat, str: string, w: string) {
    exists x: string :: Spells(x, w) && Labels(edits, str, x)
  }

  // ----- The tree that `fromFuzzyString` builds -----

  datatype Edit<N> = Edit(node: N, editsRemaining: nat, str: string)

  ghost predicate Below<N>(path: map<N, string>, f: Edit<N>, x: string) {
    f.node in path && path[f.node] <= x && Labels(f.editsRemaining, f.str, x[|path[f.node]|..])
  }

  ghost predicate ToDo<N>(path: map<N, string>, stack: seq<Edit<N>>, x: string) {
    exists i :: 0 <= i < |stack| && Below(path, stack[i], x)
  }

  ghost predicate Via<N>(path: map<N, string>, node: N, moves: seq<Move>, x: string) {
    node in path && path[node] <= x && TakesOne(moves, x[|path[node]|..])
  }

  ghost predicate Growing<N>(edits: nat, str: string, out: Graph<N>, root: N, path: map<N, string>,
                             stack: seq<Edit<N>>) {
    && Trie(out, root, path)
    && (forall i :: 0 <= i < |stack| ==> stack[i].node in path)
    && (forall x: string :: Labels(edits, str, x) <==> Accepts(out, root, x) || ToDo(path, stack, x))
  }

  /** The same while the moves of the current frame are looked at. */
  ghost predicate Branching<N>(edits: nat, str: string, out: Graph<N>, root: N, path: map<N, string>,
                               stack: seq<Edit<N>>,
                               node: N, stops: bool, moves: seq<Move>) {
    && Trie(out, root, path) && node in path
    && (forall i :: 0 <= i < |stack| ==> stack[i].node in path)
    && (forall x: string :: Labels(edits, str, x) <==>
          Accepts(out, root, x) || ToDo(path, stack, x) || (stops && x == path[node]) || Via(path, node, moves, x))
  }

  lemma GrowingStarts<N>(edits: nat, str: string, root: N)
    ensures Growing(edits, str, map[root := Shape(false, map[])], root, map[root := ""], [Edit(root, edits, str)])
  {
    var path, f := map[root := ""], Edit(root, edits, str);
    forall x: string ensures Labels(edits, str, x) <==> ToDo(path, [f], x) {
      assert x[0..] == x;
      assert Below(path, f, x) <==> Below(path, [f][0], x);
    }
  }

  lemma ToDoConcat<N>(path: map<N, string>, rest: seq<Edit<N>>, f: Edit<N>, x: string)
    ensures ToDo(path, rest + [f], x) <==> ToDo(path, rest, x) || Below(path, f, x)
  {
    var stack := rest + [f];
    if ToDo(path, rest, x) {
      var k :| 0 <= k < |rest| && Below(path, rest[k], x);
      assert Below(path, stack[k], x);
    }
    assert stack[|rest|] == f;
  }

  lemma FrameOpens<N>(edits: nat, str: string, out: Graph<N>, root: N, path: map<N, string>, rest: seq<Edit<N>>,
                      f: Edit<N>)
    requires Growing(edits, str, out, root, path, rest + [f])
    ensures Branching(edits, str, out, root, path, rest, f.node, Stops(f.editsRemaining, f.str),
                      Moves(f.editsRemaining, f.str))
  {
    var stack := rest + [f];
    assert stack[|rest|] == f && forall k :: 0 <= k < |rest| ==> stack[k] == rest[k];
    var d := |path[f.node]|;
    forall x: string
      ensures Below(path, f, x) <==>
              (Stops(f.editsRemaining, f.str) && x == path[f.node])
                  || Via(path, f.node, Moves(f.editsRemaining, f.str), x)
    {
      if path[f.node] <= x {
        assert x[d..] == "" <==> x == path[f.node];
        assert !TakesOne(Moves(f.editsRemaining, f.str), "");
      }
    }
    forall x: string ensures ToDo(path, stack, x) <==> ToDo(path, rest, x) || Below(path, f, x) {
      ToDoConcat(path, rest, f, x);
    }
  }

  lemma FrameCloses<N>(edits: nat, str: string, out: Graph<N>, root: N, path: map<N, string>, stack: seq<Edit<N>>,
                       node: N)
    requires Branching(edits, str, out, root, path, stack, node, false, [])
    ensures Growing(edits, str, out, root, path, stack)
  {
  }

  lemma FrameStops<N>(edits: nat, str: string, out: Graph<N>, root: N, path: map<N, string>, stack: seq<Edit<N>>,
                      node: N, moves: seq<Move>)
    requires Branching(edits, str, out, root, path, stack, node, true, moves) && node in out
    ensures Branching(edits, str, WithFinal(out, node), root, path, stack, node, false, moves)
  {
    TrieMarks(out, root, path, node);
  }

  lemma EditPathsAgree<N>(path: map<N, string>, path': map<N, string>, stack: seq<Edit<N>>, x: string)
    requires forall o :: o in path ==> o in path' && path'[o] == path[o]
    requires forall i :: 0 <= i < |stack| ==> stack[i].node in path
    ensures ToDo(path, stack, x) <==> ToDo(path', stack, x)
  {
    forall i | 0 <= i < |stack| ensures Below(path, stack[i], x) <==> Below(path', stack[i], x) {
    }
  }

  /** The words through a move: the path to the next node if the move ends there, or else those below the
      frame that goes on from there. */
  lemma MoveSplits<N>(path: map<N, string>, node: N, m: Move, next: N, x: string)
    requires node in path && next in path && path[next] == path[node] + [m.letter]
    ensures Via(path, node, [m], x) <==>
            if m.rest.Ends? then x == path[next] else Below(path, Edit(next, m.rest.editsRemaining, m.rest.str), x)
  {
    var d := |path[node]|;
    if path[node] <= x { TakesOnly(m, x[d..]); }
    if path[node] < x {
      assert x[d..][0] == x[d] && x[d..][1..] == x[d + 1..];
      assert x == x[..d] + [x[d]] + x[d + 1..];
      assert x[..d + 1] == x[..d] + [x[d]];
    }
    if path[next] <= x {
      assert path[node] == x[..d + 1][..d] && x[d] == m.letter;
    }
  }

  /** A move is taken: its node is there, is final if the move ends there, and otherwise a frame goes on
      from it. */
  lemma MoveTaken<N>(edits: nat, str: string, out: Graph<N>, root: N, path: map<N, string>, stack: seq<Edit<N>>,
                     node: N, stops: bool, m: Move, moves: seq<Move>, out': Graph<N>, path': map<N, string>, next: N)
    requires Branching(edits, str, out, root, path, stack, node, stops, [m] + moves)
    requires Trie(out', root, path') && node in path && next in path' && path'[next] == path[node] + [m.letter]
    requires forall o :: o in path ==> o in path' && path'[o] == path[o]
    requires forall x: string :: Accepts(out', root, x) <==> Accepts(out, root, x) || (x == path'[next] && m.rest.Ends?)
    ensures var stack' := if m.rest.Ends? then stack else stack + [Edit(next, m.rest.editsRemaining, m.rest.str)];
            Branching(edits, str, out', root, path', stack', node, stops, moves)
  {
    hide Trie, Below, ToDo, Takes, TakesOne, Labels;
    var stack' := if m.rest.Ends? then stack else stack + [Edit(next, m.rest.editsRemaining, m.rest.str)];
    forall x: string
      ensures Labels(edits, str, x) <==>
              || Accepts(out', root, x) || ToDo(path', stack', x) || (stops && x == path'[node])
                   || Via(path', node, moves, x)
    {
      EditPathsAgree(path, path', stack, x);
      MoveSplits(path', node, m, next, x);
      if path[node] <= x { TakesOneConcat([m], moves, x[|path[node]|..]); }
      if m.rest.GoesOn? { ToDoConcat(path', stack, Edit(next, m.rest.editsRemaining, m.rest.str), x); }
    }
  }

  /** The sum of the edits left and the length of the text, which falls along every push. */
  ghost function Rank(f: Edit<TokenSet>): nat {
    f.editsRemaining + |f.str|
  }

  ghost predicate Falls(added: seq<Edit<TokenSet>>, f: Edit<TokenSet>) {
    forall i :: 0 <= i < |added| ==> Rank(added[i]) < Rank(f)
  }

  /** The automaton under construction. */
  datatype Tree = Tree(edits: nat, str: string, root: TokenSet, nodes: set<TokenSet>, path: map<TokenSet, string>)

  ghost predicate Grows(t: Tree, stack: seq<Edit<TokenSet>>)
    reads t.nodes
  {
    Growing(t.edits, t.str, Snapshot(t.nodes), t.root, t.path, stack)
  }

  ghost predicate Branches(t: Tree, stack: seq<Edit<TokenSet>>, node: TokenSet, stops: bool, moves: seq<Move>)
    reads t.nodes
  {
    Branching(t.edits, t.str, Snapshot(t.nodes), t.root, t.path, stack, node, stops, moves)
  }

  predicate Continues(t: Tree, t': Tree) {
    t'.edits == t.edits && t'.str == t.str && t'.root == t.root && t.nodes <= t'.nodes
  }

  /** The stack has grown by at most `k` frames of lower rank. */
  ghost predicate Pushed(before: seq<Edit<TokenSet>>, stack: seq<Edit<TokenSet>>, k: nat, f: Edit<TokenSet>) {
    before <= stack && |stack| <= |before| + k && Falls(stack[|before|..], f)
  }

  lemma PushedMore(a: seq<Edit<TokenSet>>, b: seq<Edit<TokenSet>>, c: seq<Edit<TokenSet>>, k: nat, f: Edit<TokenSet>)
    requires Pushed(a, b, k, f) && Pushed(b, c, 1, f)
    ensures Pushed(a, c, k + 1, f)
  {
    forall i | 0 <= i < |c[|a|..]| ensures Rank(c[|a|..][i]) < Rank(f) {
      if i < |b[|a|..]| {
        assert c[|a|..][i] == b[|a|..][i];
      } else {
        assert c[|a|..][i] == c[|b|..][i - |b[|a|..]|];
      }
    }
  }

  /** Makes the node behind the letter and goes on from there, or ends there. */
  method Branch(frame: Edit<TokenSet>, letter: char, rest: Rest, before: seq<Edit<TokenSet>>, ids: IdSource,
                ghost stops: bool, ghost moves: seq<Move>, ghost t: Tree)
    returns (stack: seq<Edit<TokenSet>>, ghost t': Tree)
    requires Branches(t, before, frame.node, stops, [Move(letter, rest)] + moves)
    requires rest.GoesOn? ==> rest.editsRemaining + |rest.str| < Rank(frame)
    modifies t.nodes, ids
    ensures Continues(t, t') && fresh(t'.nodes - t.nodes)
    ensures Branches(t', stack, frame.node, stops, moves) && Pushed(before, stack, 1, frame)
  {
    hide Snapshot, Trie, Accepts, ToDo, Via, Labels;
    ghost var out := Snapshot(t.nodes);
    SnapshotHas(t.nodes);
    TrieNodes(out, t.root, t.path);
    ghost var nodes', path';
    var next;
    next, nodes', path' := Link(frame.node, letter, rest.Ends?, ids, t.root, t.nodes, t.path);
    stack, t' := before, t.(nodes := nodes', path := path');
    MoveTaken(t.edits, t.str, out, t.root, t.path, before, frame.node, stops, Move(letter, rest), moves,
              Snapshot(nodes'), path', next);
    if rest.GoesOn? {
      stack := stack + [Edit(next, rest.editsRemaining, rest.str)];
    }
  }

  /** The frame's node becomes final when its text can be deleted. */
  method Stop(frame: Edit<TokenSet>, ghost stack: seq<Edit<TokenSet>>, ghost moves: seq<Move>, ghost t: Tree)
    requires Branches(t, stack, frame.node, Stops(frame.editsRemaining, frame.str), moves)
    modifies t.nodes
    ensures Branches(t, stack, frame.node, false, moves)
  {
    hide Snapshot, Trie, Accepts, ToDo, Via, Labels;
    ghost var out := Snapshot(t.nodes);
    SnapshotHas(t.nodes);
    TrieNodes(out, t.root, t.path);
    if frame.editsRemaining > 0 && |frame.str| == 1 {
      FrameStops(t.edits, t.str, out, t.root, t.path, stack, frame.node, moves);
      frame.node.final := true;
      SnapshotIs(t.nodes, WithFinal(out, frame.node));
    }
  }

  lemma NothingPushed(stack: seq<Edit<TokenSet>>, f: Edit<TokenSet>)
    ensures Pushed(stack, stack, 0, f) && Pushed(stack, stack, 1, f)
  {
  }

  /** The next character is read. */
  method TakeNoEdit(frame: Edit<TokenSet>, before: seq<Edit<TokenSet>>, ids: IdSource, ghost stops: bool,
                    ghost moves: seq<Move>, ghost t: Tree)
    returns (stack: seq<Edit<TokenSet>>, ghost t': Tree)
    requires Branches(t, before, frame.node, stops, NoEdit(frame.editsRemaining, frame.str) + moves)
    modifies t.nodes, ids
    ensures Continues(t, t') && fresh(t'.nodes - t.nodes)
    ensures Branches(t', stack, frame.node, stops, moves) && Pushed(before, stack, 1, frame)
  {
    hide Branches, Falls;
    stack, t' := before, t;
    assert [] + moves == moves;
    NothingPushed(before, frame);
    if |frame.str| > 0 {
      var rest := if |frame.str| == 1 then Ends else GoesOn(frame.editsRemaining, frame.str[1..]);
      stack, t' := Branch(frame, frame.str[0], rest, before, ids, stops, moves, t);
    }
  }

  /** The next character is deleted and the one after it is read. */
  method TakeDeletion(frame: Edit<TokenSet>, before: seq<Edit<TokenSet>>, ids: IdSource, ghost stops: bool,
                      ghost moves: seq<Move>, ghost t: Tree)
    returns (stack: seq<Edit<TokenSet>>, ghost t': Tree)
    requires Branches(t, before, frame.node, stops, Deletion(frame.editsRemaining, frame.str) + moves)
    modifies t.nodes, ids
    ensures Continues(t, t') && fresh(t'.nodes - t.nodes)
    ensures Branches(t', stack, frame.node, stops, moves) && Pushed(before, stack, 1, frame)
  {
    hide Branches, Falls;
    stack, t' := before, t;
    assert [] + moves == moves;
    NothingPushed(before, frame);
    if frame.editsRemaining > 0 && |frame.str| > 1 {
      var rest := if |frame.str| <= 2 then Ends else GoesOn(frame.editsRemaining - 1, frame.str[2..]);
      stack, t' := Branch(frame, frame.str[1], rest, before, ids, stops, moves, t);
    }
  }

  /** Any character is read for the next one. */
  method TakeSubstitution(frame: Edit<TokenSet>, before: seq<Edit<TokenSet>>, ids: IdSource, ghost moves: seq<Move>,
                          ghost t: Tree)
    returns (stack: seq<Edit<TokenSet>>, ghost t': Tree)
    requires Branches(t, before, frame.node, false, Substitution(frame.editsRemaining, frame.str) + moves)
    modifies t.nodes, ids
    ensures Continues(t, t') && fresh(t'.nodes - t.nodes)
    ensures Branches(t', stack, frame.node, false, moves) && Pushed(before, stack, 1, frame)
  {
    hide Branches, Falls;
    stack, t' := before, t;
    assert [] + moves == moves;
    NothingPushed(before, frame);
    if frame.editsRemaining > 0 && |frame.str| >= 1 {
      var rest := if |frame.str| == 1 then Ends else GoesOn(frame.editsRemaining - 1, frame.str[1..]);
      stack, t' := Branch(frame, '*', rest, before, ids, false, moves, t);
    }
  }

  /** Any character is read before the next one. */
  method TakeInsertion(frame: Edit<TokenSet>, before: seq<Edit<TokenSet>>, ids: IdSource, ghost moves: seq<Move>,
                       ghost t: Tree)
    returns (stack: seq<Edit<TokenSet>>, ghost t': Tree)
    requires Branches(t, before, frame.node, false, Insertion(frame.editsRemaining, frame.str) + moves)
    modifies t.nodes, ids
    ensures Continues(t, t') && fresh(t'.nodes - t.nodes)
    ensures Branches(t', stack, frame.node, false, moves) && Pushed(before, stack, 1, frame)
  {
    hide Branches, Falls;
    stack, t' := before, t;
    assert [] + moves == moves;
    NothingPushed(before, frame);
    if frame.editsRemaining > 0 {
      var rest := if |frame.str| == 0 then Ends else GoesOn(frame.editsRemaining - 1, frame.str);
      stack, t' := Branch(frame, '*', rest, before, ids, false, moves, t);
    }
  }

  /** The character after the next one is read first. */
  method TakeTransposition(frame: Edit<TokenSet>, before: seq<Edit<TokenSet>>, ids: IdSource, ghost moves: seq<Move>,
                           ghost t: Tree)
    returns (stack: seq<Edit<TokenSet>>, ghost t': Tree)
    requires Branches(t, before, frame.node, false, Transposition(frame.editsRemaining, frame.str) + moves)
    modifies t.nodes, ids
    ensures Continues(t, t') && fresh(t'.nodes - t.nodes)
    ensures Branches(t', stack, frame.node, false, moves) && Pushed(before, stack, 1, frame)
  {
    hide Branches, Falls;
    stack, t' := before, t;
    assert [] + moves == moves;
    NothingPushed(before, frame);
    if frame.editsRemaining > 0 && |frame.str| > 1 {
      var rest := GoesOn(frame.editsRemaining - 1, [frame.str[0]] + frame.str[2..]);
      stack, t' := Branch(frame, frame.str[1], rest, before, ids, false, moves, t);
    }
  }

  /** Replaces a frame by the frames behind its possible edits. */
  method Expand(frame: Edit<TokenSet>, rest: seq<Edit<TokenSet>>, ids: IdSource, ghost t: Tree)
    returns (stack: seq<Edit<TokenSet>>, ghost t': Tree)
    requires Grows(t, rest + [frame])
    modifies t.nodes, ids
    ensures Continues(t, t') && fresh(t'.nodes - t.nodes)
    ensures Grows(t', stack) && Pushed(rest, stack, 5, frame)
  {
    hide Grows, Branches, Pushed, Deletion, Substitution, Insertion, Transposition, NoEdit;
    ghost var e, s := frame.editsRemaining, frame.str;
    ghost var stops := Stops(e, s);
    ghost var last := Transposition(e, s);
    FrameBegins(t, rest, frame);
    ghost var stack0, stack1, stack2, stack3;
    stack, t' := TakeNoEdit(frame, rest, ids, stops, Deletion(e, s) + (Substitution(e, s) + (Insertion(e, s) + last)),
                            t);
    stack0 := stack;
    stack, t' := TakeDeletion(frame, stack, ids, stops, Substitution(e, s) + (Insertion(e, s) + last), t');
    stack1 := stack;
    Stop(frame, stack, Substitution(e, s) + (Insertion(e, s) + last), t');
    stack, t' := TakeSubstitution(frame, stack, ids, Insertion(e, s) + last, t');
    stack2 := stack;
    stack, t' := TakeInsertion(frame, stack, ids, last, t');
    stack3 := stack;
    assert last + [] == last;
    stack, t' := TakeTransposition(frame, stack, ids, [], t');
    FrameEnds(t', stack, frame);
    PushedMore(rest, stack0, stack1, 1, frame);
    PushedMore(rest, stack1, stack2, 2, frame);
    PushedMore(rest, stack2, stack3, 3, frame);
    PushedMore(rest, stack3, stack, 4, frame);
  }

  lemma FrameBegins(t: Tree, rest: seq<Edit<TokenSet>>, f: Edit<TokenSet>)
    requires Grows(t, rest + [f])
    ensures Branches(t, rest, f.node, Stops(f.editsRemaining, f.str), Moves(f.editsRemaining, f.str))
  {
    FrameOpens(t.edits, t.str, Snapshot(t.nodes), t.root, t.path, rest, f);
  }

  lemma FrameEnds(t: Tree, stack: seq<Edit<TokenSet>>, f: Edit<TokenSet>)
    requires Branches(t, stack, f.node, false, [])
    ensures Grows(t, stack)
  {
    FrameCloses(t.edits, t.str, Snapshot(t.nodes), t.root, t.path, stack, f.node);
  }

  ghost function EditRanks(stack: seq<Edit<TokenSet>>): (ranks: seq<nat>)
    ensures |ranks| == |stack|
  {
    seq(|stack|, i requires 0 <= i < |stack| => Rank(stack[i]))
  }

  lemma EditsGoDown(rest: seq<Edit<TokenSet>>, f: Edit<TokenSet>, stack: seq<Edit<TokenSet>>)
    requires Pushed(rest, stack, 5, f)
    ensures Weight(6, EditRanks(stack)) < Weight(6, EditRanks(rest + [f]))
  {
    var added := stack[|rest|..];
    assert stack == rest + added;
    assert EditRanks(rest + [f]) == EditRanks(rest) + [Rank(f)];
    assert EditRanks(stack) == EditRanks(rest) + EditRanks(added);
    WeightFalls(6, EditRanks(rest), Rank(f), EditRanks(added));
  }

  lemma GrowingEnds(t: Tree)
    requires Grows(t, [])
    ensures Trie(Snapshot(t.nodes), t.root, t.path)
    ensures forall x: string :: Accepts(Snapshot(t.nodes), t.root, x) <==> Labels(t.edits, t.str, x)
  {
  }

  /** The edges of the fuzzy automaton spell exactly the label sequences of its text and edits. */
  method FromFuzzyString(str: string, editDistance: nat, ids: IdSource)
    returns (root: TokenSet, ghost nodes: set<TokenSet>)
    modifies ids
    ensures fresh(nodes) && root in nodes && Closed(Snapshot(nodes))
    ensures forall w: string :: QAccepts(Snapshot(nodes), root, w) <==> FuzzyAccepts(editDistance, str, w)
  {
    hide Growing, Snapshot, Closed, Trie, Labels, Accepts, QAccepts, Pushed, FuzzyAccepts;
    root := new TokenSet(ids);
    SnapshotOfOne(root);
    GrowingStarts(editDistance, str, root);
    var stack := [Edit(root, editDistance, str)];
    ghost var t := Tree(editDistance, str, root, {root}, map[root := ""]);
    while stack != []
      invariant t.edits == editDistance && t.str == str && t.root == root && root in t.nodes && fresh(t.nodes)
      invariant Grows(t, stack)
      decreases Weight(6, EditRanks(stack))
    {
      var frame, rest := stack[|stack| - 1], stack[..|stack| - 1];
      LastSplits(stack);
      stack, t := Expand(frame, rest, ids, t);
      EditsGoDown(rest, frame, stack);
    }
    nodes := t.nodes;
    GrowingEnds(t);
    ClosedTrie(Snapshot(nodes), root, t.path);
    FuzzyRuns(Snapshot(nodes), root, editDistance, str);
  }

  /** A run of a query automaton spells a sequence of labels that leads to a final node. */
  lemma {:induction false} RunsSpellLabels<N>(q: Graph<N>, n: N, w: string)
    ensures QAccepts(q, n, w) <==> exists x: string :: Spells(x, w) && Accepts(q, n, x)
    decreases |w|
  {
    if QAccepts(q, n, w) {
      if w == "" {
        assert Spells("", w) && Accepts(q, n, "");
      } else {
        var c := if w[0] in q[n].edges && QAccepts(q, q[n].edges[w[0]], w[1..]) then w[0] else '*';
        RunsSpellLabels(q, q[n].edges[c], w[1..]);
        var x: string :| Spells(x, w[1..]) && Accepts(q, q[n].edges[c], x);
        StepAccepts(q, n, c, x);
        assert Spells([c] + x, w);
      }
    }
    if x: string :| Spells(x, w) && Accepts(q, n, x) {
      if w != "" {
        RunsSpellLabels(q, q[n].edges[x[0]], w[1..]);
        assert Spells(x[1..], w[1..]);
      }
    }
  }

  lemma FuzzyRuns<N>(q: Graph<N>, root: N, edits: nat, str: string)
    requires forall x: string :: Accepts(q, root, x) <==> Labels(edits, str, x)
    ensures forall w: string :: QAccepts(q, root, w) <==> FuzzyAccepts(edits, str, w)
  {
    forall w: string ensures QAccepts(q, root, w) <==> FuzzyAccepts(edits, str, w) {
      RunsSpellLabels(q, root, w);
    }
  }
}
