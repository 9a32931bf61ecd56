/** Which words fuzzy matching finds, for any number of edits: those that a sequence of edits makes of the text from
    the front to the back (docs/styles/lunr.js:1227-1364). */
module EditScripts {
  import opened Options
  import opened Fuzzy
  import opened EditDistance

  /** What is done with the next character of the text. */
  datatype Edit =
    | Keep
    | Substitute(c: char)
    | Insert(c: char)
    | Delete
    | Swap

  function Before(c: char, w: Option<string>): Option<string> {
    if w.Some? then Some([c] + w.value) else None
  }

  /** The word that the edits make of a text, if they use it up exactly. A swap writes the second character and leaves
      the first one to come. Nothing is inserted behind the end. */
  function Applied(script: seq<Edit>, s: string): Option<string>
    decreases |script|
  {
    if script == [] then if s == "" then Some("") else None
    else if s == "" then None
    else
      match script[0]
      case Keep => Before(s[0], Applied(script[1..], s[1..]))
      case Substitute(c) => Before(c, Applied(script[1..], s[1..]))
      case Insert(c) => Before(c, Applied(script[1..], s))
      case Delete => Applied(script[1..], s[1..])
      case Swap => if |s| < 2 then None else Before(s[1], Applied(script[1..], [s[0]] + s[2..]))
  }

  /** Behind a deleted character one is kept, unless the deleted one is the last. */
  predicate Tidy(script: seq<Edit>) {
    script == [] ||
    ((script[0].Delete? && |script| > 1 ==> script[1].Keep?) && Tidy(script[1..]))
  }

  /** How many characters are not kept. */
  function Edits(script: seq<Edit>): nat {
    if script == [] then 0 else (if script[0].Keep? then 0 else 1) + Edits(script[1..])
  }

  ghost predicate Makes(edits: nat, script: seq<Edit>, s: string, w: string) {
    Tidy(script) && Edits(script) <= edits && Applied(script, s) == Some(w)
  }

  /** Tidy edits, as many as are allowed, make the word of what the text stands for. */
  ghost predicate IsMade(edits: nat, str: string, w: string) {
    exists script: seq<Edit>, s: string :: Spells(str, s) && Makes(edits, script, s, w)
  }

  // ----- What is made is found -----

  lemma NothingIsLeft(script: seq<Edit>, w: string)
    requires Applied(script, "") == Some(w)
    ensures script == [] && w == ""
  {
  }

  lemma MoveThenRest(edits: nat, str: string, m: Move, x: string)
    requires m in Moves(edits, str)
    requires if m.rest.Ends? then x == "" else Labels(m.rest.editsRemaining, m.rest.str, x)
    ensures Labels(edits, str, [m.letter] + x)
  {
    hide Moves, Labels;
    assert ([m.letter] + x)[1..] == x;
    MoveTakes(edits, str, m, [m.letter] + x);
  }

  lemma MovesAre(edits: nat, str: string)
    requires str != ""
    ensures NoEdit(edits, str)[0] in Moves(edits, str)
    ensures edits > 0 ==> Substitution(edits, str)[0] in Moves(edits, str) && Insertion(edits, str)[0] in Moves(edits,
            str)
    ensures edits > 0 && |str| > 1 ==>
              Deletion(edits, str)[0] in Moves(edits, str) && Transposition(edits, str)[0] in Moves(edits, str)
  {
  }

  lemma SpelledTail(c: char, x: string, d: char, w: string)
    requires Spells(x, w) && (c == '*' || c == d)
    ensures Spells([c] + x, [d] + w)
  {
  }

  /** What the rest of a script makes of the rest of the text. */
  lemma RestMakes(edits: nat, script: seq<Edit>, s: string, w: string)
    requires s != "" && Makes(edits, script, s, w)
    ensures script != []
    ensures var rest := script[1..];
            match script[0]
            case Keep => w != "" && w[0] == s[0] && Makes(edits, rest, s[1..], w[1..])
            case Substitute(c) => edits > 0 && w != "" && w[0] == c && Makes(edits - 1, rest, s[1..], w[1..])
            case Insert(c) => edits > 0 && w != "" && w[0] == c && Makes(edits - 1, rest, s, w[1..])
            case Delete => edits > 0 && Makes(edits - 1, rest, s[1..], w)
            case Swap =>
              edits > 0 && |s| > 1 && w != "" && w[0] == s[1] && Makes(edits - 1, rest, [s[0]] + s[2..], w[1..])
  {
    if !script[0].Delete? { FrontOf(script, s, w); }
  }

  lemma FrontOf(script: seq<Edit>, s: string, w: string)
    requires script != [] && s != "" && !script[0].Delete? && Applied(script, s) == Some(w)
    ensures w != "" && w == [w[0]] + w[1..]
    ensures script[0].Keep? ==> w[0] == s[0] && Applied(script[1..], s[1..]) == Some(w[1..])
    ensures script[0].Substitute? ==> w[0] == script[0].c && Applied(script[1..], s[1..]) == Some(w[1..])
    ensures script[0].Insert? ==> w[0] == script[0].c && Applied(script[1..], s) == Some(w[1..])
    ensures script[0].Swap? ==> |s| > 1 && w[0] == s[1] && Applied(script[1..], [s[0]] + s[2..]) == Some(w[1..])
  {
  }

  lemma {:induction false} ScriptHasLabels(edits: nat, str: string, script: seq<Edit>, s: string, w: string)
    returns (x: string)
    requires str != "" && Spells(str, s) && Makes(edits, script, s, w)
    ensures Spells(x, w) && Labels(edits, str, x)
    decreases |script|
  {
    hide Labels, Moves, Makes;
    RestMakes(edits, script, s, w);
    MovesAre(edits, str);
    assert |str| == 1 ==> s[1..] == "";
    assert |str| == 2 ==> s[1..][1..] == s[2..] == "";
    var x' := "";
    var m: Move;
    match script[0] {
      case Keep =>
        m := NoEdit(edits, str)[0];
        if |str| == 1 { NothingMore(edits, script[1..], w[1..]); }
        else { x' := ScriptHasLabels(edits, str[1..], script[1..], s[1..], w[1..]); }
      case Substitute(_) =>
        m := Substitution(edits, str)[0];
        if |str| == 1 { NothingMore(edits - 1, script[1..], w[1..]); }
        else { x' := ScriptHasLabels(edits - 1, str[1..], script[1..], s[1..], w[1..]); }
      case Insert(_) =>
        m := Insertion(edits, str)[0];
        x' := ScriptHasLabels(edits - 1, str, script[1..], s, w[1..]);
      case Swap =>
        m := Transposition(edits, str)[0];
        x' := ScriptHasLabels(edits - 1, [str[0]] + str[2..], script[1..], [s[0]] + s[2..], w[1..]);
      case Delete =>
        if |str| == 1 {
          NothingMore(edits - 1, script[1..], w);
          StopLabels(edits, str);
          return "";
        }
        KeptBehindDeleted(edits, script, s, w);
        m := Deletion(edits, str)[0];
        RestMakes(edits - 1, script[1..], s[1..], w);
        if |str| == 2 { NothingMore(edits - 1, script[2..], w[1..]); }
        else { x' := ScriptHasLabels(edits - 1, str[2..], script[2..], s[2..], w[1..]); }
    }
    MoveThenRest(edits, str, m, x');
    SpelledTail(m.letter, x', w[0], w[1..]);
    x := [m.letter] + x';
    assert w == [w[0]] + w[1..];
  }

  lemma NothingMore(edits: nat, script: seq<Edit>, w: string)
    requires Makes(edits, script, "", w)
    ensures script == [] && w == ""
  {
  }

  lemma StopLabels(edits: nat, str: string)
    requires edits > 0 && |str| == 1
    ensures Labels(edits, str, "")
  {
  }

  lemma KeptBehindDeleted(edits: nat, script: seq<Edit>, s: string, w: string)
    requires |s| > 1 && Makes(edits, script, s, w) && script != [] && script[0].Delete?
    ensures |script| > 1 && script[1].Keep? && script[1..][0] == script[1] && script[1..][1..] == script[2..]
  {
    assert Applied(script[1..], s[1..]) == Some(w);
  }

  // ----- What is found is made -----

  lemma ScriptGrows(edits: nat, edit: Edit, script: seq<Edit>, s: string, w: string)
    requires Makes(edits, script, s, w) && !edit.Delete?
    ensures edit.Keep? ==> forall c: char :: Makes(edits, [edit] + script, [c] + s, [c] + w)
    ensures edit.Substitute? ==> forall c: char :: Makes(edits + 1, [edit] + script, [c] + s, [edit.c] + w)
    ensures edit.Insert? && s != "" ==> Makes(edits + 1, [edit] + script, s, [edit.c] + w)
    ensures edit.Swap? && s != "" ==> forall c: char :: Makes(edits + 1, [edit] + script, [s[0], c] + s[1..], [c] + w)
  {
    assert ([edit] + script)[1..] == script;
    forall c: char ensures ([c] + s)[1..] == s { }
    if s != "" {
      forall c: char ensures var t := [s[0], c] + s[1..]; [t[0]] + t[2..] == s { }
    }
  }

  lemma DeletionGrows(edits: nat, script: seq<Edit>, a: char, c: char, s: string, w: string)
    requires Makes(edits, script, s, w)
    ensures Makes(edits + 1, [Delete, Keep] + script, [a, c] + s, [c] + w)
  {
    ScriptGrows(edits, Keep, script, s, w);
    var kept := [Keep] + script;
    assert [Delete, Keep] + script == [Delete] + kept && ([Delete] + kept)[1..] == kept && ([Delete] + kept)[1] == Keep;
    assert ([a, c] + s)[1..] == [c] + s;
  }

  lemma NothingMakesNothing(edits: nat)
    ensures Makes(edits, [], "", "")
  {
  }

  lemma {:induction false} LabelsHaveScript(edits: nat, str: string, x: string, w: string)
    returns (script: seq<Edit>, s: string)
    requires str != "" && Labels(edits, str, x) && Spells(x, w)
    ensures Spells(str, s) && Makes(edits, script, s, w)
    decreases |x|
  {
    if x == "" {
      script, s := [Delete], str;
      assert [Delete][1..] == [] && str[1..] == "";
      return;
    }
    var i :| 0 <= i < |Moves(edits, str)| && Takes(Moves(edits, str)[i], x);
    var m := Moves(edits, str)[i];
    MoveKinds(edits, str, m);
    FirstAndRest(w);
    assert Spells(x[1..], w[1..]);
    var script', s' := [], "";
    NothingMakesNothing(0);
    NothingMakesNothing(edits);
    if m.rest.GoesOn? {
      MoveGetsShorter(edits, str, m);
      script', s' := LabelsHaveScript(m.rest.editsRemaining, m.rest.str, x[1..], w[1..]);
    }
    hide Labels, Moves, Makes;
    script, s := MoveHasScript(edits, str, m, x, w, script', s');
  }

  /** The edit that a move stands for. */
  lemma MoveHasScript(edits: nat, str: string, m: Move, x: string, w: string, script': seq<Edit>, s': string)
    returns (script: seq<Edit>, s: string)
    requires str != "" && x != "" && w != "" && (m.letter == '*' || m.letter == w[0])
    requires m in NoEdit(edits, str) || m in Deletion(edits, str) || m in Substitution(edits, str)
             || m in Insertion(edits, str) || m in Transposition(edits, str)
    requires if m.rest.Ends? then w[1..] == "" == s' && script' == [] && Makes(0, [], "", "")
            && Makes(edits, [], "", "")
             else Spells(m.rest.str, s') && Makes(m.rest.editsRemaining, script', s', w[1..])
    ensures Spells(str, s) && Makes(edits, script, s, w)
  {
    hide Makes;
    var left := if m.rest.Ends? then (if m in NoEdit(edits, str) then edits else 0) else m.rest.editsRemaining;
    var a := w[0];
    FirstAndRest(w);
    if m in NoEdit(edits, str) {
      ScriptGrows(edits, Keep, script', s', w[1..]);
      script, s := [Keep] + script', [a] + s';
    } else if m in Deletion(edits, str) {
      DeletionGrows(left, script', str[0], a, s', w[1..]);
      MoreEdits(left + 1, edits, [Delete, Keep] + script', [str[0], a] + s', w);
      script, s := [Delete, Keep] + script', [str[0], a] + s';
    } else if m in Substitution(edits, str) {
      ScriptGrows(left, Substitute(a), script', s', w[1..]);
      MoreEdits(left + 1, edits, [Substitute(a)] + script', [str[0]] + s', w);
      script, s := [Substitute(a)] + script', [str[0]] + s';
    } else if m in Insertion(edits, str) {
      ScriptGrows(left, Insert(a), script', s', w[1..]);
      MoreEdits(left + 1, edits, [Insert(a)] + script', s', w);
      script, s := [Insert(a)] + script', s';
    } else {
      ScriptGrows(left, Swap, script', s', w[1..]);
      script, s := [Swap] + script', [s'[0], a] + s'[1..];
      MoreEdits(left + 1, edits, script, s, w);
    }
  }

  lemma MoreEdits(edits: nat, more: nat, script: seq<Edit>, s: string, w: string)
    requires edits <= more && Makes(edits, script, s, w)
    ensures Makes(more, script, s, w)
  {
  }

  /** Fuzzy matching of a text finds exactly the words that tidy edits make of it, for any number of edits. */
  lemma FuzzyFindsExactlyTheMade(edits: nat, str: string, w: string)
    requires str != ""
    ensures FuzzyAccepts(edits, str, w) <==> IsMade(edits, str, w)
  {
    if FuzzyAccepts(edits, str, w) {
      var x: string :| Spells(x, w) && Labels(edits, str, x);
      var script, s := LabelsHaveScript(edits, str, x, w);
    }
    if IsMade(edits, str, w) {
      var script: seq<Edit>, s: string :| Spells(str, s) && Makes(edits, script, s, w);
      var x := ScriptHasLabels(edits, str, script, s, w);
    }
  }

  /** The empty text finds the words of one character if an edit is allowed, and otherwise none. */
  lemma EmptyTextFindsExactly(edits: nat, w: string)
    ensures FuzzyAccepts(edits, "", w) <==> edits > 0 && |w| == 1
  {
    if edits > 0 {
      assert Moves(edits, "") == [Move('*', Ends)];
      if |w| == 1 {
        MoveThenRest(edits, "", Moves(edits, "")[0], "");
        assert Spells("*", w) && ['*'] + "" == "*";
      }
    }
    if FuzzyAccepts(edits, "", w) {
      var x: string :| Spells(x, w) && Labels(edits, "", x);
      assert x != "";
      var i :| 0 <= i < |Moves(edits, "")| && Takes(Moves(edits, "")[i], x);
    }
  }

  // ----- Words of the same length -----

  /** In how many places a word is not what the text says. */
  function Mismatches(str: string, w: string): nat
    requires |str| == |w|
  {
    if str == "" then 0
    else (if str[0] == '*' || str[0] == w[0] then 0 else 1) + Mismatches(str[1..], w[1..])
  }

  lemma {:induction false} MismatchesAreSubstituted(str: string, w: string) returns (script: seq<Edit>, s: string)
    requires |str| == |w|
    ensures Spells(str, s) && Makes(Mismatches(str, w), script, s, w)
  {
    script, s := [], "";
    if str != "" {
      var script', s' := MismatchesAreSubstituted(str[1..], w[1..]);
      hide Makes;
      var n := Mismatches(str[1..], w[1..]);
      assert w == [w[0]] + w[1..];
      if str[0] == '*' || str[0] == w[0] {
        ScriptGrows(n, Keep, script', s', w[1..]);
        script, s := [Keep] + script', [w[0]] + s';
      } else {
        ScriptGrows(n, Substitute(w[0]), script', s', w[1..]);
        script, s := [Substitute(w[0])] + script', [str[0]] + s';
      }
    } else {
      assert w == "";
    }
  }

  /** A word that differs from the text in no more places than there are edits is found. */
  lemma MismatchesAreFound(edits: nat, str: string, w: string)
    requires str != "" && |str| == |w| && Mismatches(str, w) <= edits
    ensures FuzzyAccepts(edits, str, w)
  {
    var script, s := MismatchesAreSubstituted(str, w);
    MoreEdits(Mismatches(str, w), edits, script, s, w);
    FuzzyFindsExactlyTheMade(edits, str, w);
  }
}
