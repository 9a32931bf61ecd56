/** What fuzzy matching promises (docs/styles/lunr.js:1212-1226): words within an edit distance, where
    an edit inserts, deletes or substitutes one character or transposes two adjacent ones. */
module EditDistance {
  import opened Fuzzy

  // ----- Single edits and chains of them -----

  predicate DeletedAt(s: string, t: string, k: nat) {
    k < |s| && t == s[..k] + s[k + 1..]
  }

  predicate SubstitutedAt(s: string, t: string, k: nat) {
    k < |s| == |t| && t == s[k := t[k]]
  }

  predicate TransposedAt(s: string, t: string, k: nat) {
    k + 1 < |s| && t == s[..k] + [s[k + 1], s[k]] + s[k + 2..]
  }

  predicate EditedAt(s: string, t: string, k: nat) {
    DeletedAt(s, t, k) || DeletedAt(t, s, k) || SubstitutedAt(s, t, k) || TransposedAt(s, t, k)
  }

  ghost predicate OneEdit(s: string, t: string) {
    exists k: nat :: EditedAt(s, t, k)
  }

  /** The text `w` can be made from `s` by at most `n` edits, one after the other. */
  ghost predicate Within(n: nat, s: string, w: string) {
    s == w || (n > 0 && exists t: string :: OneEdit(s, t) && Within(n - 1, t, w))
  }

  lemma EditedAfter(c: char, s: string, t: string, k: nat)
    requires EditedAt(s, t, k)
    ensures EditedAt([c] + s, [c] + t, k + 1)
  {
    var s', t' := [c] + s, [c] + t;
    if DeletedAt(s, t, k) {
      assert s'[..k + 1] == [c] + s[..k] && s'[k + 2..] == s[k + 1..];
    } else if DeletedAt(t, s, k) {
      assert t'[..k + 1] == [c] + t[..k] && t'[k + 2..] == t[k + 1..];
    } else if SubstitutedAt(s, t, k) {
      assert SubstitutedAt(s', t', k + 1);
    } else {
      assert s'[..k + 1] == [c] + s[..k] && s'[k + 3..] == s[k + 2..];
    }
  }

  lemma {:induction false} WithinAfter(n: nat, c: char, s: string, w: string)
    requires Within(n, s, w)
    ensures Within(n, [c] + s, [c] + w)
  {
    if s != w {
      var t: string :| OneEdit(s, t) && Within(n - 1, t, w);
      var k: nat :| EditedAt(s, t, k);
      EditedAfter(c, s, t, k);
      WithinAfter(n - 1, c, t, w);
      assert OneEdit([c] + s, [c] + t);
    }
  }

  lemma EditFirst(n: nat, s: string, t: string, w: string, k: nat)
    requires n > 0 && EditedAt(s, t, k) && Within(n - 1, t, w)
    ensures Within(n, s, w)
  {
    assert OneEdit(s, t);
  }

  // ----- Soundness -----

  /** What follows the letter of a move is near to what the word goes on with. */
  ghost predicate Near(rest: Rest, s: string, w: string) {
    if rest.Ends? then s == "" == w
    else Spells(rest.str, s) && Within(rest.editsRemaining, s, w)
  }

  lemma MoveKinds(edits: nat, str: string, m: Move)
    requires m in Moves(edits, str)
    ensures m in NoEdit(edits, str) || m in Deletion(edits, str) || m in Substitution(edits, str)
            || m in Insertion(edits, str) || m in Transposition(edits, str)
  {
  }

  lemma NoEditIsNear(edits: nat, str: string, m: Move, s: string, w: string) returns (t: string)
    requires m in NoEdit(edits, str) && w != "" && (m.letter == '*' || m.letter == w[0]) && Near(m.rest, s, w[1..])
    ensures Spells(str, t) && Within(edits, t, w)
  {
    t := [w[0]] + s;
    WithinAfter(edits, w[0], s, w[1..]);
    assert w == [w[0]] + w[1..];
  }

  lemma DeletionIsNear(edits: nat, str: string, m: Move, s: string, w: string) returns (t: string)
    requires m in Deletion(edits, str) && w != "" && (m.letter == '*' || m.letter == w[0]) && Near(m.rest, s, w[1..])
    ensures Spells(str, t) && Within(edits, t, w)
  {
    hide Within, EditedAt, DeletedAt;
    var s' := [w[0]] + s;
    t := [str[0]] + s';
    FirstAndRest(w);
    WithinAfter(edits - 1, w[0], s, w[1..]);
    FrontDeleted(str[0], s');
    EditFirst(edits, t, s', w, 0);
  }

  lemma SubstitutionIsNear(edits: nat, str: string, m: Move, s: string, w: string) returns (t: string)
    requires m in Substitution(edits, str) && w != "" && Near(m.rest, s, w[1..])
    ensures Spells(str, t) && Within(edits, t, w)
  {
    t := [str[0]] + s;
    assert w == [w[0]] + w[1..];
    WithinAfter(edits - 1, w[0], s, w[1..]);
    assert SubstitutedAt(t, [w[0]] + s, 0);
    EditFirst(edits, t, [w[0]] + s, w, 0);
  }

  lemma InsertionIsNear(edits: nat, str: string, m: Move, s: string, w: string) returns (t: string)
    requires m in Insertion(edits, str) && w != "" && Near(m.rest, s, w[1..])
    ensures Spells(str, t) && Within(edits, t, w)
  {
    t := s;
    assert w == [w[0]] + w[1..];
    WithinAfter(edits - 1, w[0], s, w[1..]);
    assert DeletedAt([w[0]] + s, t, 0);
    EditFirst(edits, t, [w[0]] + s, w, 0);
  }

  lemma FrontTransposed(c: char, s: string)
    requires s != ""
    ensures EditedAt([s[0], c] + s[1..], [c] + s, 0)
  {
    var t := [s[0], c] + s[1..];
    assert t[..0] + [t[1], t[0]] + t[2..] == [c] + s;
  }

  lemma TranspositionIsNear(edits: nat, str: string, m: Move, s: string, w: string) returns (t: string)
    requires m in Transposition(edits, str) && w != "" && (m.letter == '*' || m.letter == w[0])
            && Near(m.rest, s, w[1..])
    ensures Spells(str, t) && Within(edits, t, w)
  {
    hide Within;
    t := [s[0], w[0]] + s[1..];
    FirstAndRest(w);
    WithinAfter(edits - 1, w[0], s, w[1..]);
    FrontTransposed(w[0], s);
    EditFirst(edits, t, [w[0]] + s, w, 0);
  }

  /** Every label sequence spells words within the edit distance of a text spelled by `str`. */
  lemma {:induction false} LabelsAreNear(edits: nat, str: string, x: string, w: string) returns (t: string)
    requires Labels(edits, str, x) && Spells(x, w)
    ensures Spells(str, t) && Within(edits, t, w)
    decreases |x|
  {
    if x == "" {
      t := str;
      assert DeletedAt(t, "", 0);
      EditFirst(edits, t, "", w, 0);
    } else {
      var i :| 0 <= i < |Moves(edits, str)| && Takes(Moves(edits, str)[i], x);
      var m := Moves(edits, str)[i];
      MoveKinds(edits, str, m);
      assert Spells(x[1..], w[1..]);
      var s := "";
      if m.rest.GoesOn? {
        s := LabelsAreNear(m.rest.editsRemaining, m.rest.str, x[1..], w[1..]);
      }
      hide Within, Labels, Moves;
      if m in NoEdit(edits, str) {
        t := NoEditIsNear(edits, str, m, s, w);
      } else if m in Deletion(edits, str) {
        t := DeletionIsNear(edits, str, m, s, w);
      } else if m in Substitution(edits, str) {
        t := SubstitutionIsNear(edits, str, m, s, w);
      } else if m in Insertion(edits, str) {
        t := InsertionIsNear(edits, str, m, s, w);
      } else {
        t := TranspositionIsNear(edits, str, m, s, w);
      }
    }
  }

  /** The words that are meant to be found. A `*` in the text stands for any one character. */
  ghost predicate WithinDistance(edits: nat, str: string, w: string) {
    exists s: string :: Spells(str, s) && Within(edits, s, w)
  }

  /** Fuzzy matching finds only words within the edit distance. */
  lemma FuzzyIsSound(edits: nat, str: string, w: string)
    requires FuzzyAccepts(edits, str, w)
    ensures WithinDistance(edits, str, w)
  {
    var x: string :| Spells(x, w) && Labels(edits, str, x);
    var t := LabelsAreNear(edits, str, x, w);
  }

  // ----- Completeness -----

  ghost predicate FuzzyIsComplete(edits: nat, str: string) {
    forall w: string :: WithinDistance(edits, str, w) ==> FuzzyAccepts(edits, str, w)
  }

  /** Without edits the text itself is the only label sequence. */
  lemma {:induction false} PlainLabels(str: string, x: string)
    ensures Labels(0, str, x) <==> str != "" && x == str
    decreases |x|
  {
    if str != "" && x != "" {
      assert Moves(0, str) == NoEdit(0, str);
      var m := NoEdit(0, str)[0];
      assert Labels(0, str, x) <==> Takes(m, x) by {
        if Takes(m, x) { assert Takes(Moves(0, str)[0], x); }
      }
      PlainLabels(str[1..], x[1..]);
      assert x == [x[0]] + x[1..] && str == [str[0]] + str[1..];
    }
  }

  lemma MoveGetsShorter(edits: nat, str: string, m: Move)
    requires m in Moves(edits, str) && str != ""
    ensures m.rest.Ends? && |str| + edits == 1 ==> m.letter == str[|str| - 1]
    ensures m.rest.GoesOn? ==> m.rest.str != "" && |m.rest.str| + m.rest.editsRemaining + 1 <= |str| + edits
    ensures m.rest.GoesOn? && |m.rest.str| + m.rest.editsRemaining + 1 == |str| + edits ==>
              m.rest.str[|m.rest.str| - 1] == str[|str| - 1]
  {
    MoveKinds(edits, str, m);
  }

  /** The longest label sequences end like the text, since nothing is inserted behind its end. */
  lemma {:induction false} LongestEndsAlike(edits: nat, str: string, x: string)
    requires str != "" && Labels(edits, str, x)
    ensures |x| <= |str| + edits
    ensures |x| == |str| + edits ==> x[|x| - 1] == str[|str| - 1]
    decreases |x|
  {
    if x != "" {
      var i :| 0 <= i < |Moves(edits, str)| && Takes(Moves(edits, str)[i], x);
      var m := Moves(edits, str)[i];
      hide Moves, Labels;
      MoveGetsShorter(edits, str, m);
      if m.rest.GoesOn? {
        LongestEndsAlike(m.rest.editsRemaining, m.rest.str, x[1..]);
      }
    }
  }

  function Repeated(d: char, n: nat): string {
    if n == 0 then "" else Repeated(d, n - 1) + [d]
  }

  lemma {:induction false} RepeatedEnds(d: char, n: nat)
    ensures |Repeated(d, n)| == n && (n > 0 ==> Repeated(d, n)[n - 1] == d)
  {
    if n > 0 { RepeatedEnds(d, n - 1); }
  }

  lemma {:induction false} AppendedIsWithin(s: string, d: char, n: nat)
    ensures Within(n, s, s + Repeated(d, n))
    decreases n
  {
    if n == 0 {
      assert s + "" == s;
    } else {
      var t := s + [d];
      assert DeletedAt(t, s, |s|);
      AppendedIsWithin(t, d, n - 1);
      RepeatedShifts(d, n);
      assert t + Repeated(d, n - 1) == s + Repeated(d, n);
      EditFirst(n, s, t, s + Repeated(d, n), |s|);
    }
  }

  lemma {:induction false} RepeatedShifts(d: char, n: nat)
    requires n > 0
    ensures Repeated(d, n) == [d] + Repeated(d, n - 1)
  {
    if n > 1 { RepeatedShifts(d, n - 1); }
  }

  /** As many characters as there are edits, put behind the end of the text, are not found. */
  lemma TrailingCharactersAreMissed(edits: nat, str: string, d: char)
    requires str != "" && edits > 0 && str[|str| - 1] != '*' && d != str[|str| - 1]
    ensures WithinDistance(edits, str, str + Repeated(d, edits)) && !FuzzyAccepts(edits, str, str + Repeated(d, edits))
  {
    var w := str + Repeated(d, edits);
    RepeatedEnds(d, edits);
    AppendedIsWithin(str, d, edits);
    assert Spells(str, str) && w[|w| - 1] == d;
    if FuzzyAccepts(edits, str, w) {
      var x: string :| Spells(x, w) && Labels(edits, str, x);
      LongestEndsAlike(edits, str, x);
    }
  }

  lemma NothingMatchesTheEmptyText(edits: nat)
    ensures WithinDistance(edits, "", "") && !FuzzyAccepts(edits, "", "")
  {
    assert Spells("", "") && Within(edits, "", "");
  }

  // ----- A single edit -----

  /** One edit, in which a character is inserted only before another one. */
  ghost predicate OneInnerEdit(s: string, t: string) {
    exists k: nat :: EditedAt(s, t, k) && (DeletedAt(t, s, k) ==> k < |s|)
  }

  /** With one edit, exactly the words that are meant are found, apart from those that add a character
      behind the end. */
  ghost predicate WithinOneInner(str: string, w: string) {
    exists s: string :: Spells(str, s) && (s == w || OneInnerEdit(s, w))
  }

  lemma InnerEditAfter(c: char, s: string, t: string)
    requires OneInnerEdit(s, t)
    ensures OneInnerEdit([c] + s, [c] + t)
  {
    var k: nat :| EditedAt(s, t, k) && (DeletedAt(t, s, k) ==> k < |s|);
    EditedAfter(c, s, t, k);
  }

  /** What a label sequence looks like whose first label uses up the only edit. */
  lemma OnlyEdit(str: string, m: Move, x: string)
    requires m in Moves(1, str) && m !in NoEdit(1, str) && str != "" && x != "" && Takes(m, x)
    ensures x == str[1..] || x == ['*'] + str[1..] || x == ['*'] + str
            || (|str| > 1 && x == [str[1], str[0]] + str[2..])
  {
    MoveKinds(1, str, m);
    FirstAndRest(x);
    hide Labels, Moves, NoEdit;
    if m.rest.GoesOn? {
      assert m.rest.editsRemaining == 0;
      PlainLabels(m.rest.str, x[1..]);
    }
    if m in Deletion(1, str) {
      FirstAndRest(str[1..]);
    }
  }

  lemma FirstAndRest(x: string)
    requires x != ""
    ensures x == [x[0]] + x[1..]
  {
  }

  lemma EditAtFrontIsInner(s: string, w: string)
    requires EditedAt(s, w, 0) && s != ""
    ensures OneInnerEdit(s, w)
  {
  }

  lemma SpelledRest(c: char, str: string, w: string)
    requires Spells([c] + str, w)
    ensures w != "" && Spells(str, w[1..]) && w == [w[0]] + w[1..]
  {
    assert ([c] + str)[1..] == str;
  }

  lemma FrontDeleted(c: char, w: string)
    ensures DeletedAt([c] + w, w, 0) && EditedAt([c] + w, w, 0)
  {
    assert ([c] + w)[..0] + ([c] + w)[1..] == w;
  }

  lemma EditIsInner(str: string, x: string, w: string) returns (s: string)
    requires str != "" && Spells(x, w)
    requires x == str[1..] || x == ['*'] + str[1..] || x == ['*'] + str
            || (|str| > 1 && x == [str[1], str[0]] + str[2..])
    ensures Spells(str, s) && OneInnerEdit(s, w)
  {
    hide OneInnerEdit;
    if x == str[1..] {
      s := [str[0]] + w;
      FrontDeleted(str[0], w);
    } else if x == ['*'] + str[1..] {
      SpelledRest('*', str[1..], w);
      s := [str[0]] + w[1..];
      assert SubstitutedAt(s, w, 0);
    } else if x == ['*'] + str {
      SpelledRest('*', str, w);
      s := w[1..];
      FrontDeleted(w[0], s);
    } else {
      s := [w[1], w[0]] + w[2..];
      assert TransposedAt(s, w, 0);
    }
    EditAtFrontIsInner(s, w);
  }

  lemma {:induction false} OneEditIsInner(str: string, x: string, w: string) returns (s: string)
    requires str != "" && Labels(1, str, x) && Spells(x, w)
    ensures Spells(str, s) && (s == w || OneInnerEdit(s, w))
    decreases |x|
  {
    if x == "" {
      s := EditIsInner(str, x, w);
    } else {
      var i :| 0 <= i < |Moves(1, str)| && Takes(Moves(1, str)[i], x);
      var m := Moves(1, str)[i];
      if m !in NoEdit(1, str) {
        OnlyEdit(str, m, x);
        s := EditIsInner(str, x, w);
      } else if m.rest.Ends? {
        s := w;
      } else {
        var s1 := OneEditIsInner(m.rest.str, x[1..], w[1..]);
        s := [w[0]] + s1;
        assert w == [w[0]] + w[1..];
        if s1 != w[1..] { InnerEditAfter(w[0], s1, w[1..]); }
      }
    }
  }

  lemma MoveTakes(edits: nat, str: string, m: Move, x: string)
    requires m in Moves(edits, str) && Takes(m, x)
    ensures Labels(edits, str, x)
  {
    var i :| 0 <= i < |Moves(edits, str)| && Moves(edits, str)[i] == m;
    assert Takes(Moves(edits, str)[i], x);
  }

  lemma {:induction false} TextIsLabels(edits: nat, str: string)
    requires str != ""
    ensures Labels(edits, str, str)
    decreases |str|
  {
    if |str| > 1 { TextIsLabels(edits, str[1..]); }
    MoveTakes(edits, str, NoEdit(edits, str)[0], str);
  }

  lemma EditHasLabels(str: string, x: string)
    requires str != ""
    requires x == str[1..] || x == ['*'] + str[1..] || x == ['*'] + str
            || (|str| > 1 && x == [str[1], str[0]] + str[2..])
    ensures Labels(1, str, x)
  {
    if x != "" {
      PlainLabels(x[1..], x[1..]);
      if x == str[1..] {
        assert str[2..] == x[1..];
        MoveTakes(1, str, Deletion(1, str)[0], x);
      } else if x == ['*'] + str[1..] {
        MoveTakes(1, str, Substitution(1, str)[0], x);
      } else if x == ['*'] + str {
        MoveTakes(1, str, Insertion(1, str)[0], x);
      } else {
        assert x[1..] == [str[0]] + str[2..];
        MoveTakes(1, str, Transposition(1, str)[0], x);
      }
    }
  }

  lemma EditedRest(s: string, w: string, k: nat)
    requires EditedAt(s, w, k) && (DeletedAt(w, s, k) ==> k < |s|) && k > 0
    ensures |s| > 1 && w != "" && s[0] == w[0]
    ensures EditedAt(s[1..], w[1..], k - 1) && (DeletedAt(w[1..], s[1..], k - 1) ==> k - 1 < |s[1..]|)
  {
    if DeletedAt(s, w, k) {
      assert s[1..][..k - 1] == s[..k][1..] && s[1..][k..] == s[k + 1..];
    } else if DeletedAt(w, s, k) {
      assert w[1..][..k - 1] == w[..k][1..] && w[1..][k..] == w[k + 1..];
    } else if SubstitutedAt(s, w, k) {
      assert SubstitutedAt(s[1..], w[1..], k - 1);
    } else {
      assert s[1..][..k - 1] == s[..k][1..] && s[1..][k + 1..] == s[k + 2..];
    }
  }

  lemma FrontEditHasLabels(str: string, s: string, w: string) returns (x: string)
    requires str != "" && Spells(str, s) && EditedAt(s, w, 0)
    ensures Spells(x, w) && Labels(1, str, x)
  {
    hide Labels;
    if DeletedAt(s, w, 0) {
      x := str[1..];
      assert w == s[1..];
    } else if DeletedAt(w, s, 0) {
      x := ['*'] + str;
      assert s == w[1..];
    } else if SubstitutedAt(s, w, 0) {
      x := ['*'] + str[1..];
    } else {
      x := [str[1], str[0]] + str[2..];
      assert w == [s[1], s[0]] + s[2..];
    }
    EditHasLabels(str, x);
  }

  lemma {:induction false} InnerEditHasLabels(str: string, s: string, w: string, k: nat) returns (x: string)
    requires str != "" && Spells(str, s) && EditedAt(s, w, k) && (DeletedAt(w, s, k) ==> k < |s|)
    ensures Spells(x, w) && Labels(1, str, x)
    decreases k
  {
    if k == 0 {
      x := FrontEditHasLabels(str, s, w);
    } else {
      hide EditedAt, DeletedAt;
      EditedRest(s, w, k);
      var x1 := InnerEditHasLabels(str[1..], s[1..], w[1..], k - 1);
      x := [str[0]] + x1;
      MoveTakes(1, str, NoEdit(1, str)[0], x);
    }
  }

  /** With one edit, fuzzy matching of a text finds exactly the words that are one edit or less away,
      apart from those that only a character behind the end brings about. */
  lemma OneEditIsFoundExactly(str: string, w: string)
    requires str != ""
    ensures FuzzyAccepts(1, str, w) <==> WithinOneInner(str, w)
  {
    if FuzzyAccepts(1, str, w) {
      var x: string :| Spells(x, w) && Labels(1, str, x);
      var s := OneEditIsInner(str, x, w);
    }
    if WithinOneInner(str, w) {
      var s: string :| Spells(str, s) && (s == w || OneInnerEdit(s, w));
      if s == w {
        TextIsLabels(1, str);
      } else {
        var k: nat :| EditedAt(s, w, k) && (DeletedAt(w, s, k) ==> k < |s|);
        var x := InnerEditHasLabels(str, s, w, k);
      }
    }
  }

  // ----- When fuzzy matching is complete -----

  /** A label stands for two characters of the text at most, and the end of a sequence for one. */
  lemma {:induction false} LabelsConsume(edits: nat, str: string, x: string)
    requires str != "" && Labels(edits, str, x)
    ensures |str| - 1 <= 2 * |x|
    decreases |x|
  {
    if x != "" {
      var i :| 0 <= i < |Moves(edits, str)| && Takes(Moves(edits, str)[i], x);
      var m := Moves(edits, str)[i];
      MoveConsumes(edits, str, m);
      if m.rest.GoesOn? {
        hide Moves;
        LabelsConsume(m.rest.editsRemaining, m.rest.str, x[1..]);
      }
    }
  }

  lemma MoveConsumes(edits: nat, str: string, m: Move)
    requires m in Moves(edits, str) && str != ""
    ensures if m.rest.Ends? then |str| <= 2 else m.rest.str != "" && |str| - 2 <= |m.rest.str|
  {
    MoveKinds(edits, str, m);
  }

  function Dropped(s: string, n: nat): string {
    if n < |s| then s[n..] else ""
  }

  lemma {:induction false} DeletedIsWithin(s: string, n: nat)
    ensures Within(n, s, Dropped(s, n))
    decreases n
  {
    if n > 0 && s != "" {
      hide Within;
      assert s[..0] + s[1..] == s[1..] && Dropped(s[1..], n - 1) == Dropped(s, n);
      DeletedIsWithin(s[1..], n - 1);
      EditFirst(n, s, s[1..], Dropped(s, n), 0);
    }
  }

  /** Where many edits meet a short text, no word is found from which as many characters are missing as may be
      deleted. */
  lemma ManyDeletionsAreMissed(edits: nat, str: string)
    requires 2 <= |str| <= 2 * edits - 2
    ensures WithinDistance(edits, str, Dropped(str, edits)) && !FuzzyAccepts(edits, str, Dropped(str, edits))
  {
    DeletedIsWithin(str, edits);
    assert Spells(str, str);
    if FuzzyAccepts(edits, str, Dropped(str, edits)) {
      var x: string :| Spells(x, Dropped(str, edits)) && Labels(edits, str, x);
      LabelsConsume(edits, str, x);
    }
  }

  lemma {:induction false} WithinLength(n: nat, s: string, w: string)
    requires Within(n, s, w)
    ensures |s| - n <= |w| <= |s| + n
    decreases n
  {
    if s != w {
      var t: string :| OneEdit(s, t) && Within(n - 1, t, w);
      WithinLength(n - 1, t, w);
    }
  }

  /** The text of `n` wildcards. */
  function AllWildcards(n: nat): string {
    seq(n, _ => '*')
  }

  /** Wildcards have every label sequence of wildcards whose length the edits can bring about, if a label has to
      stand for no more than two characters. */
  lemma {:induction false} WildcardLabels(edits: nat, n: nat, k: nat)
    requires 0 < n <= k + edits && k <= n + edits && n - 1 <= 2 * k
    ensures Labels(edits, AllWildcards(n), AllWildcards(k))
    decreases k
  {
    var str, x := AllWildcards(n), AllWildcards(k);
    if k == n {
      TextIsLabels(edits, str);
    } else if k > 0 {
      assert x[1..] == AllWildcards(k - 1);
      if k > n {
        WildcardLabels(edits - 1, n, k - 1);
        MoveTakes(edits, str, Insertion(edits, str)[0], x);
      } else {
        assert str[2..] == AllWildcards(n - 2);
        if n > 2 { WildcardLabels(edits - 1, n - 2, k - 1); }
        MoveTakes(edits, str, Deletion(edits, str)[0], x);
      }
    }
  }

  lemma WildcardsAreFound(edits: nat, n: nat)
    requires edits > 0 && (n == 1 || (n > 0 && 2 * edits - 1 <= n))
    ensures FuzzyIsComplete(edits, AllWildcards(n))
  {
    forall w: string | WithinDistance(edits, AllWildcards(n), w) ensures FuzzyAccepts(edits, AllWildcards(n), w) {
      var s: string :| Spells(AllWildcards(n), s) && Within(edits, s, w);
      WithinLength(edits, s, w);
      WildcardLabels(edits, n, |w|);
      assert Spells(AllWildcards(|w|), w);
    }
  }

  /** A character behind the end is one before the end as well where the end is a wildcard. */
  lemma LastInsertionIsInner(str: string, s: string, w: string) returns (t: string)
    requires str != "" && str[|str| - 1] == '*' && Spells(str, s) && DeletedAt(w, s, |s|)
    ensures Spells(str, t) && OneInnerEdit(t, w)
  {
    var n := |s| - 1;
    t := s[..n] + [w[n + 1]];
    assert t == w[..n] + w[n + 1..];
    assert EditedAt(t, w, n);
  }

  lemma OneEditIsComplete(str: string)
    requires str != "" && str[|str| - 1] == '*'
    ensures FuzzyIsComplete(1, str)
  {
    forall w: string | WithinDistance(1, str, w) ensures FuzzyAccepts(1, str, w) {
      OneEditIsFoundExactly(str, w);
      var s: string :| Spells(str, s) && Within(1, s, w);
      if s != w {
        var v: string :| OneEdit(s, v) && Within(0, v, w);
        var k: nat :| EditedAt(s, v, k);
        if DeletedAt(w, s, k) && k == |s| {
          var t := LastInsertionIsInner(str, s, w);
        } else {
          assert OneInnerEdit(s, w);
        }
      }
    }
  }

  lemma PlainTextIsComplete(str: string)
    requires str != ""
    ensures FuzzyIsComplete(0, str)
  {
    forall w: string | WithinDistance(0, str, w) ensures FuzzyAccepts(0, str, w) {
      PlainLabels(str, str);
    }
  }

  /** Fuzzy matching finds all words within the edit distance exactly when the text is not empty and no edits are
      allowed, or the text ends in a wildcard and either one edit is allowed or the wildcard is all of it. Left open
      are the texts that end in a wildcard and are not short beside two or more edits; there the letters decide, as
      `WildcardsAreCompleteExactlyWhen` and `FrontDeletionsAreMissed` show. */
  lemma FuzzyIsCompleteExactlyWhen(edits: nat, str: string)
    requires str == "" || str[|str| - 1] != '*' || edits <= 1 || |str| <= 2 * edits - 2
    ensures FuzzyIsComplete(edits, str) <==>
              str != "" && (edits == 0 || (str[|str| - 1] == '*' && (edits == 1 || |str| == 1)))
  {
    hide FuzzyIsComplete;
    if str == "" {
      NothingMatchesTheEmptyText(edits);
      MissedIsIncomplete(edits, str, "");
    } else if edits == 0 {
      PlainTextIsComplete(str);
    } else if str[|str| - 1] != '*' {
      var d := if str[|str| - 1] == 'a' then 'b' else 'a';
      TrailingCharactersAreMissed(edits, str, d);
      MissedIsIncomplete(edits, str, str + Repeated(d, edits));
    } else if edits == 1 {
      OneEditIsComplete(str);
    } else if |str| == 1 {
      assert str == AllWildcards(1);
      WildcardsAreFound(edits, 1);
    } else {
      ManyDeletionsAreMissed(edits, str);
      MissedIsIncomplete(edits, str, Dropped(str, edits));
    }
  }

  lemma MissedIsIncomplete(edits: nat, str: string, w: string)
    requires WithinDistance(edits, str, w) && !FuzzyAccepts(edits, str, w)
    ensures !FuzzyIsComplete(edits, str)
  {
  }

  /** For texts of wildcards alone, nothing is left open. */
  lemma WildcardsAreCompleteExactlyWhen(edits: nat, n: nat)
    ensures FuzzyIsComplete(edits, AllWildcards(n)) <==> n > 0 && (edits == 0 || n == 1 || 2 * edits - 1 <= n)
  {
    hide FuzzyIsComplete;
    if n > 0 && edits > 0 && (n == 1 || 2 * edits - 1 <= n) {
      WildcardsAreFound(edits, n);
    } else {
      FuzzyIsCompleteExactlyWhen(edits, AllWildcards(n));
    }
  }

  lemma MoveShortens(edits: nat, str: string, m: Move)
    requires m in Moves(edits, str) && str != ""
    ensures m.rest.GoesOn? ==> m.rest.str != "" && |str| - edits <= |m.rest.str| - m.rest.editsRemaining + 1
    ensures m.rest.Ends? ==> |str| - edits <= 1
    ensures m.letter in str[..if |str| == 1 then 1 else 2]
            || (m.letter == '*' && edits > 0
                && if m.rest.Ends? then |str| - edits <= 0 else |str| - edits <= |m.rest.str| - m.rest.editsRemaining)
  {
    MoveKinds(edits, str, m);
    assert str[0] in str[..if |str| == 1 then 1 else 2];
    if |str| > 1 { assert str[1] in str[..2]; }
  }

  /** The shortest label sequences begin with one of the first two characters of the text. */
  lemma {:induction false} ShortestBeginsAlike(edits: nat, str: string, x: string)
    requires str != "" && Labels(edits, str, x)
    ensures |str| - edits <= |x|
    ensures x != "" && |str| - edits == |x| ==> x[0] in str[..if |str| == 1 then 1 else 2]
    decreases |x|
  {
    if x != "" {
      var i :| 0 <= i < |Moves(edits, str)| && Takes(Moves(edits, str)[i], x);
      var m := Moves(edits, str)[i];
      hide Moves, Labels;
      MoveShortens(edits, str, m);
      if m.rest.GoesOn? {
        ShortestBeginsAlike(m.rest.editsRemaining, m.rest.str, x[1..]);
      }
    }
  }

  /** Two or more characters are not deleted from the front of a text, where the letter behind them is none of
      the first two. */
  lemma FrontDeletionsAreMissed(edits: nat, str: string, d: char)
    requires 2 <= edits < |str| && '*' !in str[..2] && d !in str[..2] && (str[edits] == '*' || str[edits] == d)
    ensures WithinDistance(edits, str, Dropped(str[edits := d], edits))
    ensures !FuzzyAccepts(edits, str, Dropped(str[edits := d], edits))
  {
    var s := str[edits := d];
    var w := Dropped(s, edits);
    DeletedIsWithin(s, edits);
    assert Spells(str, s) && w[0] == d;
    if FuzzyAccepts(edits, str, w) {
      var x: string :| Spells(x, w) && Labels(edits, str, x);
      ShortestBeginsAlike(edits, str, x);
    }
  }
}
