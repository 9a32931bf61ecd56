/** Expanding a query term to the words of the index (docs/styles/lunr.js:1199-1210, 1800-1801,
    2247-2251): the index is a token set of all its words, and the term a query automaton. */
module Queries {
  import opened Options
  import opened Signature
  import opened Automaton
  import opened BuilderState
  import opened TokenSets
  import opened Enumeration
  import opened Wildcards
  import opened Intersection
  import opened Fuzzy

  /** What is matched against the words of the index; without an edit distance it may hold wildcards. */
  datatype Clause = Clause(term: string, editDistance: Option<nat>)

  ghost predicate Finds(clause: Clause, w: string) {
    if clause.editDistance.Some? then FuzzyAccepts(clause.editDistance.value, clause.term, w)
    else clause.term != "" && Matches(clause.term, w)
  }

  method FromClause(clause: Clause, ids: IdSource) returns (root: TokenSet, ghost nodes: set<TokenSet>)
    modifies ids
    ensures fresh(nodes) && root in nodes && Closed(Snapshot(nodes))
    ensures forall w: string :: QAccepts(Snapshot(nodes), root, w) <==> Finds(clause, w)
  {
    hide Snapshot, Closed, FuzzyAccepts, Matches, QAccepts;
    if clause.editDistance.Some? {
      root, nodes := FromFuzzyString(clause.term, clause.editDistance.value, ids);
    } else {
      root, nodes := FromString(clause.term, ids);
    }
  }

  /** The words that a clause finds, each exactly once; there is no answer if the array is not sorted. Whatever the
      words are, they are just the words that the index built from the array accepts and the clause finds. These are
      words of the array, and none is missed, if every node that made way in the construction had the shape of the
      registered one, as it is if digits come first wherever words of the array part. */
  method Expand(arr: seq<string>, clause: Clause, ids: IdSource)
    returns (terms: Option<seq<string>>, ghost index: Option<TokenSet>, ghost nodes: set<TokenSet>,
             ghost xs: seq<TokenSet>)
    modifies ids
    ensures terms.Some? <==> NonDecreasing(arr)
    ensures terms.Some? <==> index.Some?
    ensures index.Some? ==>
              && index.value.id == old(ids.next) && Numbered(xs, old(ids.next) + 1) && |xs| == NodeCount(arr)
              && Snapshot(nodes) == Rounds(TokenSets.Built(arr, index.value, xs), 0).g
    ensures index.Some? ==> forall w: string ::
              w in terms.value <==> w != "" && Accepts(Snapshot(nodes), index.value, w) && Finds(clause, w)
    ensures terms.Some? ==> forall i, j :: 0 <= i < j < |terms.value| ==> terms.value[i] != terms.value[j]
    ensures index.Some? && BuiltRightly(arr, index.value, xs) ==>
              forall w: string :: w in terms.value <==> w != "" && w in arr && Finds(clause, w)
    ensures index.Some? && Unforked(Elements(arr)) ==> BuiltRightly(arr, index.value, xs)
    ensures terms.Some? && (Unambiguous(AllCharacters(arr)) || Unforked(Elements(arr))) ==>
              forall w: string :: w in terms.value <==> w != "" && w in arr && Finds(clause, w)
  {
    hide Snapshot, Closed, Accepts, QAccepts, Finds, Minimal, Ranked, TokenSets.Built, Rounds, NodeCount, Numbered,
         BuiltRightly;
    hide NonDecreasing, Language, Elements, Unambiguous, AllCharacters, Unforked;
    var tokenSet;
    ghost var rank;
    tokenSet, nodes, rank, xs := FromArray(arr, ids);
    index := tokenSet;
    if tokenSet.None? {
      return None, index, nodes, xs;
    }
    var root := tokenSet.value;
    ghost var g := Snapshot(nodes);
    SnapshotHas(nodes);
    RankedNodes(g, rank);
    var query, queryNodes := FromClause(clause, ids);
    ghost var task := Task(root, nodes, rank, query, queryNodes);
    var found, foundNodes, foundRank := Intersect(root, query, ids, task);
    var words := ToArray(found, foundNodes, foundRank);
    terms := Some(words);
    forall w: string | BuiltRightly(arr, root, xs) ensures w in words <==> w != "" && w in arr && Finds(clause, w) {
      InLanguage(g, root, Elements(arr), w);
      ElementsOf(arr);
    }
  }

  lemma ElementsOf(arr: seq<string>)
    ensures forall w: string :: w in Elements(arr) <==> w in arr
  {
  }

  lemma RankedNodes<N>(g: Graph<N>, rank: map<N, nat>)
    requires Ranked(g, rank)
    ensures rank.Keys <= g.Keys
  {
  }

  lemma InLanguage<N>(g: Graph<N>, root: N, words: set<string>, w: string)
    requires Language(g, root, words)
    ensures Accepts(g, root, w) <==> w in words
  {
  }
}
