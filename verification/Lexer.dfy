/** The lexer of search strings (docs/styles/lunr.js:2497-2687). The characters that separate terms are a
    parameter, as they can be configured. */
module Lexer {
  import opened Digits
  import opened Options
  import opened Sequences

  datatype Kind = FIELD | TERM | EDIT_DISTANCE | BOOST

  datatype Lexeme = Lexeme(kind: Kind, str: string, start: nat, end: nat)

  /** Where the lexer is, which backslashes it has passed since `start`, and what it has found. */
  datatype State = State(pos: nat, start: nat, escapes: seq<nat>, lexemes: seq<Lexeme>)

  /** The state functions of the lexer; `Stopped` is their absence. */
  datatype Phase = Text | Field | Term | EditDistance | Boost | EndOfString | Stopped

  const INITIAL: State := State(0, 0, [], [])

  // ----- What the lexer does -----

  /** A slice whose ends may lie behind the string or be the wrong way round. */
  function Slice(s: string, from: nat, to: nat): string {
    var end := if to < |s| then to else |s|;
    if from <= end then s[from..end] else ""
  }

  /** The text up to `pos` without the escape characters. */
  function Unescaped(str: string, start: nat, escapes: seq<nat>, pos: nat): string
    decreases |escapes|
  {
    if escapes == [] then Slice(str, start, pos)
    else Slice(str, start, escapes[0]) + Unescaped(str, escapes[0] + 1, escapes[1..], pos)
  }

  function Emitted(str: string, s: State, kind: Kind): State {
    State(s.pos, s.pos, [], s.lexemes + [Lexeme(kind, Unescaped(str, s.start, s.escapes, s.pos), s.start, s.pos)])
  }

  function Ignored(s: State): State {
    var pos := if s.start == s.pos then s.pos + 1 else s.pos;
    s.(pos := pos, start := pos)
  }

  function DigitsEnd(str: string, pos: nat): nat
    decreases |str| - pos
  {
    if pos < |str| && IsDigit(str[pos]) then DigitsEnd(str, pos + 1) else pos
  }

  /** Reads characters up to one that means something. */
  function Scanned(str: string, separates: char -> bool, s: State): (State, Phase)
    decreases |str| - s.pos
  {
    if s.pos >= |str| then (s, EndOfString)
    else
      var c := str[s.pos];
      if c as int == 92 then Scanned(str, separates, s.(pos := s.pos + 2, escapes := s.escapes + [s.pos]))
      else if c == ':' then (s.(pos := s.pos + 1), Field)
      else if c == '~' then (if s.pos > s.start then Emitted(str, s, TERM) else s, EditDistance)
      else if c == '^' then (if s.pos > s.start then Emitted(str, s, TERM) else s, Boost)
      else if separates(c) then (s.(pos := s.pos + 1), Term)
      else Scanned(str, separates, s.(pos := s.pos + 1))
  }

  function Numbered(str: string, s: State, kind: Kind): State {
    var i := Ignored(s);
    Emitted(str, i.(pos := DigitsEnd(str, i.pos)), kind)
  }

  /** What has to hold where a state function is entered. */
  predicate Ready(str: string, phase: Phase, s: State) {
    && s.start <= s.pos <= |str| + 1
    && (phase.Field? || phase.Term? ==> s.start < s.pos <= |str|)
    && (phase.EditDistance? || phase.Boost? ==> s.start == s.pos < |str|)
  }

  function Step(str: string, separates: char -> bool, phase: Phase, s: State): (State, Phase)
    requires Ready(str, phase, s)
  {
    match phase
    case Text => Scanned(str, separates, s)
    case Field => (Ignored(Emitted(str, s.(pos := s.pos - 1), FIELD)), Text)
    case Term =>
      var s' := Ignored(if s.pos - s.start > 1 then Emitted(str, s.(pos := s.pos - 1), TERM) else s);
      (s', if s'.pos < |str| then Text else Stopped)
    case EditDistance => (Numbered(str, s, EDIT_DISTANCE), Text)
    case Boost => (Numbered(str, s, BOOST), Text)
    case EndOfString => (if s.pos > s.start then Emitted(str, s, TERM) else s, Stopped)
    case Stopped => (s, Stopped)
  }

  /** Every step comes nearer to the end of the string or of the phases. */
  function Rank(str: string, phase: Phase, s: State): int {
    var left := 2 * (|str| + 1 - s.pos);
    match phase
    case Text => left + 3
    case Field => left + 4
    case Term => left + 4
    case EditDistance => left + 2
    case Boost => left + 2
    case EndOfString => 1
    case Stopped => 0
  }

  lemma {:induction false} DigitsAhead(str: string, pos: nat)
    requires pos <= |str|
    ensures pos <= DigitsEnd(str, pos) <= |str|
    decreases |str| - pos
  {
    if pos < |str| && IsDigit(str[pos]) { DigitsAhead(str, pos + 1); }
  }

  lemma {:induction false} ScanningGoesOn(str: string, separates: char -> bool, s: State)
    requires Ready(str, Text, s)
    ensures var (s', phase) := Scanned(str, separates, s);
            Ready(str, phase, s') && Rank(str, phase, s') < Rank(str, Text, s) && s.pos <= s'.pos
    decreases |str| - s.pos
  {
    if s.pos < |str| {
      var c := str[s.pos];
      if c as int == 92 {
        ScanningGoesOn(str, separates, s.(pos := s.pos + 2, escapes := s.escapes + [s.pos]));
      } else if c != ':' && c != '~' && c != '^' && !separates(c) {
        ScanningGoesOn(str, separates, s.(pos := s.pos + 1));
      }
    }
  }

  lemma StepsGoOn(str: string, separates: char -> bool, phase: Phase, s: State)
    requires Ready(str, phase, s) && !phase.Stopped?
    ensures var (s', phase') := Step(str, separates, phase, s);
            Ready(str, phase', s') && 0 <= Rank(str, phase', s') < Rank(str, phase, s)
  {
    if phase.Text? {
      ScanningGoesOn(str, separates, s);
    }
    if phase.EditDistance? || phase.Boost? {
      DigitsAhead(str, s.pos + 1);
    }
  }

  function RunFrom(str: string, separates: char -> bool, phase: Phase, s: State): State
    requires Ready(str, phase, s)
    decreases Rank(str, phase, s)
  {
    if phase.Stopped? then s
    else
      StepsGoOn(str, separates, phase, s);
      var (s', phase') := Step(str, separates, phase, s);
      RunFrom(str, separates, phase', s')
  }

  function Lexemes(str: string, separates: char -> bool): seq<Lexeme> {
    RunFrom(str, separates, Text, INITIAL).lexemes
  }

  // ----- The spans are ordered and disjoint -----

  ghost predicate Ordered(lexemes: seq<Lexeme>, limit: nat) {
    && (forall i :: 0 <= i < |lexemes| ==> lexemes[i].start <= lexemes[i].end <= limit)
    && (forall i, j :: 0 <= i < j < |lexemes| ==> lexemes[i].end <= lexemes[j].start)
  }

  lemma {:induction false} ScanningKeepsOrder(str: string, separates: char -> bool, s: State)
    requires Ready(str, Text, s) && Ordered(s.lexemes, s.start)
    ensures var (s', phase) := Scanned(str, separates, s);
            Ordered(s'.lexemes, s'.start)
    decreases |str| - s.pos
  {
    if s.pos < |str| {
      var c := str[s.pos];
      if c as int == 92 {
        ScanningKeepsOrder(str, separates, s.(pos := s.pos + 2, escapes := s.escapes + [s.pos]));
      } else if c != ':' && c != '~' && c != '^' && !separates(c) {
        ScanningKeepsOrder(str, separates, s.(pos := s.pos + 1));
      }
    }
  }

  lemma {:induction false} RunKeepsOrder(str: string, separates: char -> bool, phase: Phase, s: State)
    requires Ready(str, phase, s) && Ordered(s.lexemes, s.start)
    ensures Ordered(RunFrom(str, separates, phase, s).lexemes, |str| + 1)
    decreases Rank(str, phase, s)
  {
    if !phase.Stopped? {
      if phase.Text? {
        ScanningKeepsOrder(str, separates, s);
      }
      if phase.EditDistance? || phase.Boost? {
        DigitsAhead(str, s.pos + 1);
      }
      StepsGoOn(str, separates, phase, s);
      var (s', phase') := Step(str, separates, phase, s);
      RunKeepsOrder(str, separates, phase', s');
    }
  }

  /** On every string the lexer ends, with the spans of its lexemes in order and disjoint. They end one character
      behind the string at most, and `SpansStayInsideExactlyWhen` says when one does. */
  lemma SpansAreOrdered(str: string, separates: char -> bool)
    ensures Ordered(Lexemes(str, separates), |str| + 1)
  {
    RunKeepsOrder(str, separates, Text, INITIAL);
  }

  // ----- When the spans stay inside the string -----

  /** The number of escape characters that the string ends in. */
  function TrailingEscapes(str: string): nat {
    if str != "" && str[|str| - 1] == '\\' then 1 + TrailingEscapes(str[..|str| - 1]) else 0
  }

  lemma {:induction false} PlainCharacterIsSkipped(str: string)
    requires str != "" && str[0] != '\\'
    ensures TrailingEscapes(str) == TrailingEscapes(str[1..])
  {
    if |str| > 1 && str[|str| - 1] == '\\' {
      PlainCharacterIsSkipped(str[..|str| - 1]);
      assert str[..|str| - 1][1..] == str[1..][..|str| - 2];
    }
  }

  /** An escape character and what it escapes leave the rest as odd or even as it was. */
  lemma {:induction false} EscapedCharacterIsSkipped(str: string)
    requires |str| >= 2 && str[0] == '\\'
    ensures TrailingEscapes(str) % 2 == TrailingEscapes(str[2..]) % 2
  {
    if |str| > 2 {
      if str[|str| - 1] == '\\' {
        EscapedCharacterIsSkipped(str[..|str| - 1]);
        assert str[..|str| - 1][2..] == str[2..][..|str| - 3];
      }
    } else if str[1] == '\\' {
      assert str[..1][..0] == "";
    }
  }

  /** Whether no escape character is left without a character from `pos` on. */
  predicate Paired(str: string, pos: nat)
    requires pos <= |str|
  {
    TrailingEscapes(str[pos..]) % 2 == 0
  }

  lemma PairedBehindPlain(str: string, pos: nat)
    requires pos < |str| && str[pos] != '\\'
    ensures Paired(str, pos) <==> Paired(str, pos + 1)
  {
    PlainCharacterIsSkipped(str[pos..]);
    assert str[pos..][1..] == str[pos + 1..];
  }

  lemma PairedBehindEscape(str: string, pos: nat)
    requires pos < |str| && str[pos] == '\\'
    ensures if pos + 2 <= |str| then Paired(str, pos) <==> Paired(str, pos + 2) else !Paired(str, pos)
  {
    if pos + 2 <= |str| {
      EscapedCharacterIsSkipped(str[pos..]);
      assert str[pos..][2..] == str[pos + 2..];
    } else {
      assert str[pos..] == "\\" && "\\"[..0] == "";
    }
  }

  lemma {:induction false} PairedBehindDigits(str: string, pos: nat)
    requires pos <= |str|
    ensures pos <= DigitsEnd(str, pos) <= |str|
    ensures Paired(str, pos) <==> Paired(str, DigitsEnd(str, pos))
    decreases |str| - pos
  {
    if pos < |str| && IsDigit(str[pos]) {
      PairedBehindPlain(str, pos);
      PairedBehindDigits(str, pos + 1);
    }
  }

  ghost predicate Inside(lexemes: seq<Lexeme>, limit: nat) {
    forall l :: l in lexemes ==> l.end <= limit
  }

  /** What the lexer keeps: it leaves the string behind only by an escape character that escapes nothing. */
  ghost predicate Sound(str: string, phase: Phase, s: State) {
    if phase.Stopped? then Inside(s.lexemes, |str|) <==> Paired(str, 0)
    else
      && s.start <= |str| && Inside(s.lexemes, |str|)
      && (phase.EditDistance? || phase.Boost? ==> s.pos < |str| && str[s.pos] != '\\')
      && (phase.EndOfString? ==> s.pos >= |str|)
      && if s.pos <= |str| then Paired(str, s.pos) <==> Paired(str, 0) else !Paired(str, 0)
  }

  lemma {:induction false} ScanningIsSound(str: string, separates: char -> bool, s: State)
    requires Ready(str, Text, s) && Sound(str, Text, s)
    ensures var (s', phase) := Scanned(str, separates, s);
            Sound(str, phase, s')
    decreases |str| - s.pos
  {
    hide Paired;
    if s.pos < |str| {
      var c := str[s.pos];
      if c as int == 92 {
        PairedBehindEscape(str, s.pos);
        ScanningIsSound(str, separates, s.(pos := s.pos + 2, escapes := s.escapes + [s.pos]));
      } else {
        PairedBehindPlain(str, s.pos);
        if c != ':' && c != '~' && c != '^' && !separates(c) {
          ScanningIsSound(str, separates, s.(pos := s.pos + 1));
        }
      }
    }
  }

  lemma StepsAreSound(str: string, separates: char -> bool, phase: Phase, s: State)
    requires Ready(str, phase, s) && Sound(str, phase, s)
    ensures var (s', phase') := Step(str, separates, phase, s);
            Sound(str, phase', s')
  {
    hide Scanned, Unescaped, DigitsEnd, Paired;
    match phase
    case Text => ScanningIsSound(str, separates, s);
    case EditDistance | Boost =>
      PairedBehindPlain(str, s.pos);
      PairedBehindDigits(str, s.pos + 1);
    case EndOfString =>
      NothingIsLeft(str);
      var l := Lexeme(TERM, Unescaped(str, s.start, s.escapes, s.pos), s.start, s.pos);
      assert s.pos > s.start ==> l in Emitted(str, s, TERM).lexemes;
    case Term =>
      NothingIsLeft(str);
    case _ =>
  }

  lemma NothingIsLeft(str: string)
    ensures Paired(str, |str|)
  {
    assert str[|str|..] == "";
  }

  lemma {:induction false} RunIsSound(str: string, separates: char -> bool, phase: Phase, s: State)
    requires Ready(str, phase, s) && Sound(str, phase, s)
    ensures Inside(RunFrom(str, separates, phase, s).lexemes, |str|) <==> Paired(str, 0)
    decreases Rank(str, phase, s)
  {
    hide Paired, Step, Inside;
    if !phase.Stopped? {
      StepsGoOn(str, separates, phase, s);
      StepsAreSound(str, separates, phase, s);
      var (s', phase') := Step(str, separates, phase, s);
      RunIsSound(str, separates, phase', s');
    }
  }

  /** Every lexeme lies within the string exactly when the string ends in an even number of escape characters. After
      an odd number the last one escapes nothing, and the term that holds it ends one character behind the string. */
  lemma SpansStayInsideExactlyWhen(str: string, separates: char -> bool)
    ensures (forall l :: l in Lexemes(str, separates) ==> l.end <= |str|) <==> TrailingEscapes(str) % 2 == 0
  {
    assert str[0..] == str;
    RunIsSound(str, separates, Text, INITIAL);
  }

  // ----- Escaped text -----

  function Escaped(text: string): string {
    if text == "" then "" else ['\\', text[0]] + Escaped(text[1..])
  }

  lemma {:induction false} EscapedAt(text: string, k: nat)
    requires k < |text|
    ensures |Escaped(text)| == 2 * |text| && Escaped(text)[2 * k] == '\\' && Escaped(text)[2 * k + 1] == text[k]
  {
    if k > 0 {
      EscapedAt(text[1..], k - 1);
    } else if |text| > 1 {
      EscapedAt(text[1..], 0);
    }
  }

  /** The positions of the first `k` escape characters. */
  function EvenPositions(k: nat): seq<nat> {
    seq(k, i requires 0 <= i < k => 2 * i)
  }

  lemma {:induction false} EscapesAreSkipped(text: string, separates: char -> bool, k: nat)
    requires k <= |text|
    ensures Scanned(Escaped(text), separates, State(2 * k, 0, EvenPositions(k), []))
            == (State(2 * |text|, 0, EvenPositions(|text|), []), EndOfString)
    decreases |text| - k
  {
    if k < |text| {
      EscapedAt(text, k);
      assert EvenPositions(k) + [2 * k] == EvenPositions(k + 1);
      EscapesAreSkipped(text, separates, k + 1);
    } else if text != "" {
      EscapedAt(text, 0);
    }
  }

  lemma {:induction false} EscapedComesBack(text: string, k: nat)
    requires k < |text|
    ensures Unescaped(Escaped(text), 2 * k + 1, EvenPositions(|text|)[k + 1..], 2 * |text|) == text[k..]
    decreases |text| - k
  {
    hide Unescaped;
    EscapedAt(text, k);
    var str, escapes := Escaped(text), EvenPositions(|text|)[k + 1..];
    assert Slice(str, 2 * k + 1, 2 * k + 2) == [text[k]];
    if k + 1 < |text| {
      assert escapes[0] == 2 * (k + 1) && escapes[1..] == EvenPositions(|text|)[k + 2..];
      UnescapedFirst(str, 2 * k + 1, escapes, 2 * |text|);
      EscapedComesBack(text, k + 1);
      assert text[k..] == [text[k]] + text[k + 1..];
    } else {
      UnescapedLast(str, 2 * k + 1, 2 * |text|);
      assert text[k..] == [text[k]];
    }
  }

  /** A string that is scanned to its end in one go is one term. */
  lemma ScannedToTheEnd(str: string, separates: char -> bool, s: State)
    requires Scanned(str, separates, INITIAL) == (s, EndOfString) && s.pos > s.start && s.lexemes == []
    ensures Lexemes(str, separates) == [Lexeme(TERM, Unescaped(str, s.start, s.escapes, s.pos), s.start, s.pos)]
  {
    hide Scanned, Unescaped;
    StepsGoOn(str, separates, Text, INITIAL);
    StepsGoOn(str, separates, EndOfString, s);
    assert RunFrom(str, separates, Text, INITIAL) == RunFrom(str, separates, EndOfString, s);
    assert RunFrom(str, separates, EndOfString, s) == RunFrom(str, separates, Stopped, Emitted(str, s, TERM));
  }

  lemma EscapedWholeComesBack(text: string)
    requires text != ""
    ensures Unescaped(Escaped(text), 0, EvenPositions(|text|), 2 * |text|) == text
  {
    var escapes := EvenPositions(|text|);
    EscapedComesBack(text, 0);
    assert escapes[0] == 0 && text[0..] == text && Slice(Escaped(text), 0, 0) == "";
    assert "" + text == text;
  }

  /** A text with an escape character before each of its characters is one term that carries the text. */
  lemma EscapedTextIsOneTerm(text: string, separates: char -> bool)
    requires text != ""
    ensures Lexemes(Escaped(text), separates) == [Lexeme(TERM, text, 0, 2 * |text|)]
  {
    hide Scanned, Unescaped, Lexemes, Escaped;
    EscapesAreSkipped(text, separates, 0);
    assert EvenPositions(0) == [];
    EscapedWholeComesBack(text);
    ScannedToTheEnd(Escaped(text), separates, State(2 * |text|, 0, EvenPositions(|text|), []));
  }

  /** The shortest string that does not meet the condition: one escape character is an empty term that ends
      behind it. */
  lemma LoneEscapeEndsBehindTheString(separates: char -> bool)
    ensures Lexemes("\\", separates) == [Lexeme(TERM, "", 0, 2)]
  {
    var s := State(2, 0, [0], []);
    assert Scanned("\\", separates, INITIAL) == (s, EndOfString) by {
      assert INITIAL.escapes + [0] == [0];
    }
    assert [0][1..] == [] && Unescaped("\\", 0, [0], 2) == "" + Unescaped("\\", 1, [], 2) == "";
    ScannedToTheEnd("\\", separates, s);
  }

  // ----- What a string comes to, piece by piece -----

  /** A character that neither ends a piece nor escapes another one. */
  predicate Ordinary(c: char, separates: char -> bool) {
    c != ':' && c != '~' && c != '^' && c != '\\' && !separates(c)
  }

  /** The string has ordinary characters and escaped ones only. */
  predicate IsPiece(t: string, separates: char -> bool) {
    t == ""
    || (t[0] == '\\' && |t| > 1 && IsPiece(t[2..], separates))
    || (Ordinary(t[0], separates) && IsPiece(t[1..], separates))
  }

  /** A piece without its escape characters. */
  function Meaning(t: string): string {
    if t == "" then ""
    else if t[0] == '\\' && |t| > 1 then [t[1]] + Meaning(t[2..])
    else [t[0]] + Meaning(t[1..])
  }

  /** Where the escape characters of a piece are that begins at `pos`. */
  function EscapesOf(t: string, pos: nat): seq<nat> {
    if t == "" then []
    else if t[0] == '\\' && |t| > 1 then [pos] + EscapesOf(t[2..], pos + 2)
    else EscapesOf(t[1..], pos + 1)
  }

  lemma PieceBegins(t: string, rest: string)
    requires t != ""
    ensures (t + rest)[0] == t[0] && (t + rest)[1..] == t[1..] + rest
    ensures |t| > 1 ==> (t + rest)[1] == t[1] && (t + rest)[2..] == t[2..] + rest
  {
  }

  /** A piece is read over, and its escape characters are noted. */
  lemma {:induction false} PieceIsScanned(str: string, separates: char -> bool, t: string, s: State)
    requires IsPiece(t, separates) && s.pos <= |str| && t <= str[s.pos..]
    ensures s.pos + |t| <= |str|
    ensures Scanned(str, separates, s)
            == Scanned(str, separates, s.(pos := s.pos + |t|, escapes := s.escapes + EscapesOf(t, s.pos)))
    decreases |t|
  {
    if t == "" {
      assert s.escapes + [] == s.escapes;
    } else {
      assert str[s.pos] == str[s.pos..][0] == t[0];
      if t[0] == '\\' && |t| > 1 {
        var s' := s.(pos := s.pos + 2, escapes := s.escapes + [s.pos]);
        assert t[2..] <= str[s.pos + 2..];
        PieceIsScanned(str, separates, t[2..], s');
        assert s.escapes + [s.pos] + EscapesOf(t[2..], s.pos + 2) == s.escapes + EscapesOf(t, s.pos);
      } else {
        assert t[1..] <= str[s.pos + 1..];
        PieceIsScanned(str, separates, t[1..], s.(pos := s.pos + 1));
      }
    }
  }

  lemma PrefixGoesOn(str: string, pos: nat, t: string, k: nat)
    requires pos <= |str| && t <= str[pos..] && k <= |t|
    ensures pos + k <= pos + |t| <= |str| && t[k..] <= str[pos + k..]
    ensures k > 0 ==> str[pos] == t[0] && str[pos + k - 1] == t[k - 1]
  {
    assert str[pos..][k..] == str[pos + k..];
    assert forall i :: 0 <= i < |t| ==> str[pos..][i] == t[i];
  }

  /** Without its escape characters a piece is what it means; `from` is where the slice before it begins. */
  lemma {:induction false} PieceIsUnescaped(str: string, from: nat, pos: nat, t: string, separates: char -> bool)
    requires IsPiece(t, separates) && from <= pos <= |str| && t <= str[pos..]
    ensures pos + |t| <= |str|
    ensures Unescaped(str, from, EscapesOf(t, pos), pos + |t|) == str[from..pos] + Meaning(t)
    decreases |t|
  {
    hide *;
    if t == "" {
      NothingIsMeant(pos);
      UnescapedEnds(str, from, pos);
    } else {
      PieceGoesOn(t, separates, pos);
      if t[0] == '\\' && |t| > 1 {
        PrefixGoesOn(str, pos, t, 2);
        PieceIsUnescaped(str, pos + 1, pos + 2, t[2..], separates);
        UnescapedGoesOn(str, from, pos, EscapesOf(t[2..], pos + 2), pos + |t|);
        SliceOfOne(str, pos + 1);
      } else {
        PrefixGoesOn(str, pos, t, 1);
        PieceIsUnescaped(str, from, pos + 1, t[1..], separates);
        SliceGrows(str, from, pos, Meaning(t[1..]));
      }
    }
  }

  lemma SliceOfOne(str: string, pos: nat)
    requires pos < |str|
    ensures str[pos..pos + 1] == [str[pos]]
  {
  }

  lemma NothingIsMeant(pos: nat)
    ensures Meaning("") == "" && EscapesOf("", pos) == []
  {
  }

  lemma PieceGoesOn(t: string, separates: char -> bool, pos: nat)
    requires t != "" && IsPiece(t, separates)
    ensures if t[0] == '\\' && |t| > 1
            then IsPiece(t[2..], separates) && Meaning(t) == [t[1]] + Meaning(t[2..])
                 && EscapesOf(t, pos) == [pos] + EscapesOf(t[2..], pos + 2)
            else IsPiece(t[1..], separates) && Meaning(t) == [t[0]] + Meaning(t[1..])
                 && EscapesOf(t, pos) == EscapesOf(t[1..], pos + 1)
  {
  }

  lemma SliceGrows(str: string, from: nat, pos: nat, rest: string)
    requires from <= pos < |str|
    ensures str[from..pos + 1] + rest == str[from..pos] + ([str[pos]] + rest)
  {
  }

  lemma UnescapedEnds(str: string, from: nat, pos: nat)
    requires from <= pos <= |str|
    ensures Unescaped(str, from, [], pos) == str[from..pos] == str[from..pos] + ""
  {
  }

  lemma UnescapedGoesOn(str: string, from: nat, pos: nat, escapes: seq<nat>, end: nat)
    requires from <= pos <= |str|
    ensures Unescaped(str, from, [pos] + escapes, end) == str[from..pos] + Unescaped(str, pos + 1, escapes, end)
  {
    assert ([pos] + escapes)[1..] == escapes;
  }

  // ----- Lexing what is left is lexing it by itself -----

  function Moved(l: Lexeme, offset: nat): Lexeme {
    Lexeme(l.kind, l.str, l.start + offset, l.end + offset)
  }

  /** The lexemes of a string that begins `offset` characters into another one. */
  function AllMoved(lexemes: seq<Lexeme>, offset: nat): seq<Lexeme> {
    seq(|lexemes|, i requires 0 <= i < |lexemes| => Moved(lexemes[i], offset))
  }

  function PositionsMoved(positions: seq<nat>, offset: nat): seq<nat> {
    seq(|positions|, i requires 0 <= i < |positions| => positions[i] + offset)
  }

  /** The state in the whole string, after some lexemes, for a state in the rest of it. */
  function Placed(s: State, offset: nat, before: seq<Lexeme>): State {
    State(s.pos + offset, s.start + offset, PositionsMoved(s.escapes, offset), before + AllMoved(s.lexemes, offset))
  }

  lemma SliceMoves(pre: string, rest: string, from: nat, to: nat)
    ensures Slice(pre + rest, from + |pre|, to + |pre|) == Slice(rest, from, to)
  {
    var end := if to < |rest| then to else |rest|;
    if from <= end {
      assert (pre + rest)[from + |pre|..end + |pre|] == rest[from..end];
    }
  }

  lemma {:induction false} UnescapedMoves(pre: string, rest: string, start: nat, escapes: seq<nat>, pos: nat)
    ensures Unescaped(pre + rest, start + |pre|, PositionsMoved(escapes, |pre|), pos + |pre|)
            == Unescaped(rest, start, escapes, pos)
    decreases |escapes|
  {
    hide Unescaped, Slice, PositionsMoved;
    var moved := PositionsMoved(escapes, |pre|);
    PositionsMove(escapes, |pre|);
    if escapes == [] {
      UnescapedLast(rest, start, pos);
      UnescapedLast(pre + rest, start + |pre|, pos + |pre|);
      SliceMoves(pre, rest, start, pos);
    } else {
      SliceMoves(pre, rest, start, escapes[0]);
      UnescapedFirst(rest, start, escapes, pos);
      UnescapedFirst(pre + rest, start + |pre|, moved, pos + |pre|);
      UnescapedMoves(pre, rest, escapes[0] + 1, escapes[1..], pos);
    }
  }

  lemma PositionsMove(positions: seq<nat>, offset: nat)
    ensures positions == [] ==> PositionsMoved(positions, offset) == []
    ensures var moved := PositionsMoved(positions, offset);
            positions != [] ==>
              && moved != [] && moved[0] == positions[0] + offset
              && moved[1..] == PositionsMoved(positions[1..], offset)
  {
  }

  lemma UnescapedLast(str: string, start: nat, pos: nat)
    ensures Unescaped(str, start, [], pos) == Slice(str, start, pos)
  {
  }

  lemma UnescapedFirst(str: string, start: nat, escapes: seq<nat>, pos: nat)
    requires escapes != []
    ensures Unescaped(str, start, escapes, pos)
            == Slice(str, start, escapes[0]) + Unescaped(str, escapes[0] + 1, escapes[1..], pos)
  {
  }

  lemma EmittedMoves(pre: string, rest: string, s: State, kind: Kind, before: seq<Lexeme>)
    ensures Emitted(pre + rest, Placed(s, |pre|, before), kind) == Placed(Emitted(rest, s, kind), |pre|, before)
  {
    hide Unescaped;
    UnescapedMoves(pre, rest, s.start, s.escapes, s.pos);
    var l := Lexeme(kind, Unescaped(rest, s.start, s.escapes, s.pos), s.start, s.pos);
    assert before + AllMoved(s.lexemes, |pre|) + [Moved(l, |pre|)] == before + AllMoved(s.lexemes + [l], |pre|);
    assert PositionsMoved([], |pre|) == [];
  }

  lemma {:induction false} ScanningMoves(pre: string, rest: string, separates: char -> bool, s: State,
                                         before: seq<Lexeme>)
    ensures var (s', phase) := Scanned(rest, separates, s);
            Scanned(pre + rest, separates, Placed(s, |pre|, before)) == (Placed(s', |pre|, before), phase)
    decreases |rest| - s.pos
  {
    hide Emitted;
    if s.pos < |rest| {
      assert (pre + rest)[s.pos + |pre|] == rest[s.pos];
      EmittedMoves(pre, rest, s, TERM, before);
      var c := rest[s.pos];
      if c as int == 92 {
        var s' := s.(pos := s.pos + 2, escapes := s.escapes + [s.pos]);
        assert PositionsMoved(s'.escapes, |pre|) == PositionsMoved(s.escapes, |pre|) + [s.pos + |pre|];
        ScanningMoves(pre, rest, separates, s', before);
      } else if c != ':' && c != '~' && c != '^' && !separates(c) {
        ScanningMoves(pre, rest, separates, s.(pos := s.pos + 1), before);
      }
    }
  }

  lemma {:induction false} DigitsMove(pre: string, rest: string, pos: nat)
    requires pos <= |rest|
    ensures DigitsEnd(pre + rest, pos + |pre|) == DigitsEnd(rest, pos) + |pre|
    decreases |rest| - pos
  {
    if pos < |rest| {
      assert (pre + rest)[pos + |pre|] == rest[pos];
      if IsDigit(rest[pos]) { DigitsMove(pre, rest, pos + 1); }
    }
  }

  lemma StepsMove(pre: string, rest: string, separates: char -> bool, phase: Phase, s: State, before: seq<Lexeme>)
    requires Ready(rest, phase, s)
    ensures Ready(pre + rest, phase, Placed(s, |pre|, before))
    ensures var (s', phase') := Step(rest, separates, phase, s);
            Step(pre + rest, separates, phase, Placed(s, |pre|, before)) == (Placed(s', |pre|, before), phase')
  {
    hide Emitted, Scanned, DigitsEnd;
    match phase
    case Text => ScanningMoves(pre, rest, separates, s, before);
    case Field => EmittedMoves(pre, rest, s.(pos := s.pos - 1), FIELD, before);
    case Term => EmittedMoves(pre, rest, s.(pos := s.pos - 1), TERM, before);
    case EditDistance => NumberMoves(pre, rest, s, EDIT_DISTANCE, before);
    case Boost => NumberMoves(pre, rest, s, BOOST, before);
    case EndOfString => EmittedMoves(pre, rest, s, TERM, before);
    case Stopped =>
  }

  lemma NumberMoves(pre: string, rest: string, s: State, kind: Kind, before: seq<Lexeme>)
    requires s.start == s.pos < |rest|
    ensures Numbered(pre + rest, Placed(s, |pre|, before), kind) == Placed(Numbered(rest, s, kind), |pre|, before)
  {
    hide Emitted, DigitsEnd;
    var i := Ignored(s);
    DigitsMove(pre, rest, i.pos);
    EmittedMoves(pre, rest, i.(pos := DigitsEnd(rest, i.pos)), kind, before);
  }

  lemma {:induction false} RunMoves(pre: string, rest: string, separates: char -> bool, phase: Phase, s: State,
                                    before: seq<Lexeme>)
    requires Ready(rest, phase, s)
    ensures Ready(pre + rest, phase, Placed(s, |pre|, before))
    ensures RunFrom(pre + rest, separates, phase, Placed(s, |pre|, before))
            == Placed(RunFrom(rest, separates, phase, s), |pre|, before)
    decreases Rank(rest, phase, s)
  {
    hide Step;
    StepsMove(pre, rest, separates, phase, s, before);
    if !phase.Stopped? {
      StepsGoOn(rest, separates, phase, s);
      StepsGoOn(pre + rest, separates, phase, Placed(s, |pre|, before));
      var (s', phase') := Step(rest, separates, phase, s);
      RunMoves(pre, rest, separates, phase', s', before);
    }
  }

  /** Once some lexemes have been found and the lexer starts over behind them, the rest of the string is lexed as if it
      stood alone. */
  lemma RestByItself(pre: string, rest: string, separates: char -> bool, before: seq<Lexeme>)
    ensures Ready(pre + rest, Text, State(|pre|, |pre|, [], before))
    ensures RunFrom(pre + rest, separates, Text, State(|pre|, |pre|, [], before)).lexemes
            == before + AllMoved(Lexemes(rest, separates), |pre|)
  {
    hide RunFrom;
    RunMoves(pre, rest, separates, Text, INITIAL, before);
    assert PositionsMoved([], |pre|) == [] && before + AllMoved([], |pre|) == before;
    assert Placed(INITIAL, |pre|, before) == State(|pre|, |pre|, [], before);
  }

  lemma OneStep(str: string, separates: char -> bool, phase: Phase, s: State, s': State, phase': Phase)
    requires Ready(str, phase, s) && !phase.Stopped? && Step(str, separates, phase, s) == (s', phase')
    ensures Ready(str, phase', s') && RunFrom(str, separates, phase, s) == RunFrom(str, separates, phase', s')
  {
    hide Step;
    StepsGoOn(str, separates, phase, s);
  }

  /** Up to the end of a first piece. */
  lemma FirstPiece(t: string, rest: string, separates: char -> bool)
    requires IsPiece(t, separates)
    ensures var str := t + rest;
            && Scanned(str, separates, INITIAL) == Scanned(str, separates, State(|t|, 0, EscapesOf(t, 0), []))
            && Unescaped(str, 0, EscapesOf(t, 0), |t|) == Meaning(t)
  {
    hide Scanned, Unescaped, IsPiece;
    var str := t + rest;
    assert str[0..] == str && t <= str[0..];
    PieceIsScanned(str, separates, t, INITIAL);
    assert [] + EscapesOf(t, 0) == EscapesOf(t, 0);
    PieceIsUnescaped(str, 0, 0, t, separates);
    assert str[0..0] + Meaning(t) == Meaning(t);
  }

  /** A piece is read up to the character behind it. */
  lemma ScanStops(t: string, c: char, rest: string, separates: char -> bool)
    requires IsPiece(t, separates) && c != '\\' && !Ordinary(c, separates)
    ensures var str, s := t + ([c] + rest), State(|t|, 0, EscapesOf(t, 0), []);
            Scanned(str, separates, INITIAL) ==
              if c == ':' then (s.(pos := |t| + 1), Field)
              else if c == '~' then (if t == "" then s else Emitted(str, s, TERM), EditDistance)
              else if c == '^' then (if t == "" then s else Emitted(str, s, TERM), Boost)
              else (s.(pos := |t| + 1), Term)
  {
    hide Unescaped, IsPiece, EscapesOf, Meaning;
    FirstPiece(t, [c] + rest, separates);
    assert (t + ([c] + rest))[|t|] == c;
  }

  /** The term of a piece, if there is one. */
  function TermOf(t: string): seq<Lexeme> {
    if t == "" then [] else [Lexeme(TERM, Meaning(t), 0, |t|)]
  }

  /** A piece that has been read is a lexeme when it is emitted. */
  lemma PieceIsEmitted(t: string, rest: string, kind: Kind, separates: char -> bool)
    requires IsPiece(t, separates)
    ensures Emitted(t + rest, State(|t|, 0, EscapesOf(t, 0), []), kind)
            == State(|t|, |t|, [], [Lexeme(kind, Meaning(t), 0, |t|)])
  {
    hide Unescaped, IsPiece, EscapesOf, Meaning;
    FirstPiece(t, rest, separates);
  }

  /** A piece is a term. */
  lemma PieceIsATerm(t: string, separates: char -> bool)
    requires IsPiece(t, separates)
    ensures Lexemes(t, separates) == if t == "" then [] else [Lexeme(TERM, Meaning(t), 0, |t|)]
  {
    FirstPiece(t, "", separates);
    assert t + "" == t;
    var s := State(|t|, 0, EscapesOf(t, 0), []);
    assert Step(t, separates, Text, INITIAL) == (s, EndOfString);
    hide Scanned, Unescaped;
    OneStep(t, separates, Text, INITIAL, s, EndOfString);
    var s' := if t == "" then s else Emitted(t, s, TERM);
    OneStep(t, separates, EndOfString, s, s', Stopped);
  }

  lemma ColonIsRead(str: string, f: string, rest: string, separates: char -> bool)
    requires str == f + ([':'] + rest) && IsPiece(f, separates)
    ensures var s := State(|f| + 1, |f| + 1, [], [Lexeme(FIELD, Meaning(f), 0, |f|)]);
            Ready(str, Text, s) && RunFrom(str, separates, Text, INITIAL) == RunFrom(str, separates, Text, s)
  {
    hide Scanned, Unescaped, IsPiece, EscapesOf, Meaning, RunFrom, Emitted;
    ScanStops(f, ':', rest, separates);
    PieceIsEmitted(f, [':'] + rest, FIELD, separates);
    var s := State(|f| + 1, 0, EscapesOf(f, 0), []);
    OneStep(str, separates, Text, INITIAL, s, Field);
    OneStep(str, separates, Field, s, State(|f| + 1, |f| + 1, [], [Lexeme(FIELD, Meaning(f), 0, |f|)]), Text);
  }

  lemma ColonSplits(f: string, rest: string)
    ensures f + ":" + rest == f + ([':'] + rest) && |f + ":"| == |f| + 1
  {
    Grouped(f, ":", rest);
  }

  /** A piece before a colon is a field. */
  lemma PieceBeforeColon(f: string, rest: string, separates: char -> bool)
    requires IsPiece(f, separates)
    ensures Lexemes(f + ":" + rest, separates)
            == [Lexeme(FIELD, Meaning(f), 0, |f|)] + AllMoved(Lexemes(rest, separates), |f| + 1)
  {
    hide IsPiece, Meaning, RunFrom, AllMoved, Ready;
    var str := f + ":" + rest;
    ColonSplits(f, rest);
    ColonIsRead(str, f, rest, separates);
    RestByItself(f + ":", rest, separates, [Lexeme(FIELD, Meaning(f), 0, |f|)]);
  }

  lemma SeparatorIsRead(str: string, t: string, c: char, rest: string, separates: char -> bool)
    requires str == t + ([c] + rest) && IsPiece(t, separates) && separates(c) && c !in ":~^\\"
    ensures var s, phase := State(|t| + 1, |t| + 1, [], TermOf(t)), if rest == "" then Stopped else Text;
            Ready(str, phase, s) && RunFrom(str, separates, Text, INITIAL) == RunFrom(str, separates, phase, s)
  {
    hide Scanned, Unescaped, IsPiece, EscapesOf, Meaning, RunFrom, Emitted;
    NoMark(c);
    ScanStops(t, c, rest, separates);
    PieceIsEmitted(t, [c] + rest, TERM, separates);
    NoEscapes();
    var s := State(|t| + 1, 0, EscapesOf(t, 0), []);
    OneStep(str, separates, Text, INITIAL, s, Term);
    var s' := State(|t| + 1, |t| + 1, [], TermOf(t));
    OneStep(str, separates, Term, s, s', if rest == "" then Stopped else Text);
  }

  /** A piece before a separator is a term. */
  lemma PieceBeforeSeparator(t: string, c: char, rest: string, separates: char -> bool)
    requires IsPiece(t, separates) && separates(c) && c !in ":~^\\"
    ensures Lexemes(t + [c] + rest, separates)
            == (if t == "" then [] else [Lexeme(TERM, Meaning(t), 0, |t|)])
               + AllMoved(Lexemes(rest, separates), |t| + 1)
  {
    hide IsPiece, Meaning, RunFrom, AllMoved, Ready;
    var str := t + [c] + rest;
    assert str == t + ([c] + rest) by { Grouped(t, [c], rest); }
    SeparatorIsRead(str, t, c, rest, separates);
    if rest == "" {
      StoppedIsOver(str, separates, State(|t| + 1, |t| + 1, [], TermOf(t)), t + [c], TermOf(t));
    } else {
      RestByItself(t + [c], rest, separates, TermOf(t));
    }
  }

  lemma NoMark(c: char)
    requires c !in ":~^\\"
    ensures c != ':' && c != '~' && c != '^' && c != '\\'
  {
    assert ':' in ":~^\\" && '~' in ":~^\\" && '^' in ":~^\\" && '\\' in ":~^\\";
  }

  lemma NoEscapes()
    ensures EscapesOf("", 0) == []
  {
  }

  lemma StoppedIsOver(str: string, separates: char -> bool, s: State, pre: string, before: seq<Lexeme>)
    requires Ready(str, Stopped, s) && s.lexemes == before
    ensures RunFrom(str, separates, Stopped, s).lexemes == before + AllMoved(Lexemes("", separates), |pre|)
  {
    PieceIsATerm("", separates);
    assert before + AllMoved([], |pre|) == before;
  }

  predicate IsNumber(n: string, rest: string) {
    (forall i :: 0 <= i < |n| ==> '0' <= n[i] <= '9') && (rest == "" || !('0' <= rest[0] <= '9'))
  }

  lemma {:induction false} NumberEnds(pre: string, n: string, rest: string, i: nat)
    requires IsNumber(n, rest) && i <= |n|
    ensures DigitsEnd(pre + n + rest, |pre| + i) == |pre| + |n|
    decreases |n| - i
  {
    var str := pre + n + rest;
    if i < |n| {
      assert str[|pre| + i] == n[i];
      NumberEnds(pre, n, rest, i + 1);
    } else if rest != "" {
      assert str[|pre| + |n|] == rest[0];
    }
  }

  lemma MarkIsReached(str: string, t: string, mark: char, rest: string, separates: char -> bool)
    requires str == t + ([mark] + rest)
    requires IsPiece(t, separates) && (mark == '~' || mark == '^')
    ensures var s := State(|t|, |t|, [], TermOf(t));
            var phase := if mark == '~' then EditDistance else Boost;
            && Ready(str, phase, s)
            && RunFrom(str, separates, Text, INITIAL) == RunFrom(str, separates, phase, s)
  {
    hide Scanned, Unescaped, IsPiece, EscapesOf, Meaning, RunFrom, Emitted, Numbered;
    var s := State(|t|, |t|, [], TermOf(t));
    ScanStops(t, mark, rest, separates);
    PieceIsEmitted(t, [mark] + rest, TERM, separates);
    NoEscapes();
    OneStep(str, separates, Text, INITIAL, s, if mark == '~' then EditDistance else Boost);
  }

  lemma NumberIsRead(str: string, pre: string, n: string, rest: string, separates: char -> bool, phase: Phase,
                     before: seq<Lexeme>)
    requires str == pre + n + rest
    requires pre != "" && IsNumber(n, rest) && (phase == EditDistance || phase == Boost)
    ensures var s := State(|pre| - 1, |pre| - 1, [], before);
            var found := before + [Lexeme(if phase == EditDistance then EDIT_DISTANCE
                                          else BOOST, n, |pre|, |pre| + |n|)];
            && Ready(str, phase, s)
            && RunFrom(str, separates, phase, s).lexemes
               == found + AllMoved(Lexemes(rest, separates), |pre| + |n|)
  {
    hide Scanned, Unescaped, RunFrom, Emitted, AllMoved, Numbered, IsNumber;
    var kind := if phase == EditDistance then EDIT_DISTANCE else BOOST;
    NumberIsEmitted(pre, n, rest, kind, before);
    var found := before + [Lexeme(kind, n, |pre|, |pre| + |n|)];
    OneStep(str, separates, phase, State(|pre| - 1, |pre| - 1, [], before),
            State(|pre| + |n|, |pre| + |n|, [], found), Text);
    RestByItself(pre + n, rest, separates, found);
  }

  /** A piece before a tilde or a caret is a term, and the digits behind the mark are a lexeme of their own. */
  lemma PieceBeforeMark(t: string, mark: char, n: string, rest: string, separates: char -> bool)
    requires IsPiece(t, separates) && (mark == '~' || mark == '^') && IsNumber(n, rest)
    ensures Lexemes(t + [mark] + n + rest, separates)
            == (if t == "" then [] else [Lexeme(TERM, Meaning(t), 0, |t|)])
               + [Lexeme(if mark == '~' then EDIT_DISTANCE else BOOST, n, |t| + 1, |t| + 1 + |n|)]
               + AllMoved(Lexemes(rest, separates), |t| + 1 + |n|)
  {
    hide *;
    var str, pre := t + [mark] + n + rest, t + [mark];
    MarkSplits(t, mark, n, rest);
    MarkIsReached(str, t, mark, n + rest, separates);
    NumberIsRead(str, pre, n, rest, separates, if mark == '~' then EditDistance else Boost, TermOf(t));
    TermIs(t);
    LexemesAre(str, separates);
  }

  lemma TermIs(t: string)
    ensures TermOf(t) == if t == "" then [] else [Lexeme(TERM, Meaning(t), 0, |t|)]
  {
  }

  lemma LexemesAre(str: string, separates: char -> bool)
    ensures Ready(str, Text, INITIAL) && Lexemes(str, separates) == RunFrom(str, separates, Text, INITIAL).lexemes
  {
  }

  lemma MarkSplits(t: string, mark: char, n: string, rest: string)
    ensures t + [mark] + n + rest == t + ([mark] + (n + rest)) && |t + [mark]| == |t| + 1
  {
    Grouped(t + [mark], n, rest);
    Grouped(t, [mark], n + rest);
  }

  lemma NumberIsEmitted(pre: string, n: string, rest: string, kind: Kind, before: seq<Lexeme>)
    requires pre != "" && IsNumber(n, rest)
    ensures var s := State(|pre| - 1, |pre| - 1, [], before);
            Numbered(pre + n + rest, s, kind)
            == State(|pre| + |n|, |pre| + |n|, [], before + [Lexeme(kind, n, |pre|, |pre| + |n|)])
  {
    NumberEnds(pre, n, rest, 0);
    NumberIsItself(pre, n, rest);
  }

  lemma NumberIsItself(pre: string, n: string, rest: string)
    ensures Unescaped(pre + n + rest, |pre|, [], |pre| + |n|) == n
  {
    assert (pre + n + rest)[|pre|..|pre| + |n|] == n;
  }

  /** A piece before an escape character that ends the string is a term that ends behind it. */
  lemma PieceBeforeLoneEscape(t: string, separates: char -> bool)
    requires IsPiece(t, separates)
    ensures Lexemes(t + "\\", separates) == [Lexeme(TERM, Meaning(t), 0, |t| + 2)]
  {
    var str := t + "\\";
    FirstPiece(t, "\\", separates);
    assert str[|t|] == '\\';
    var s := State(|t| + 2, 0, EscapesOf(t, 0) + [|t|], []);
    assert Step(str, separates, Text, INITIAL) == (s, EndOfString);
    EscapeAtTheEnd(str, 0, EscapesOf(t, 0), |t|);
    hide Scanned, Unescaped;
    OneStep(str, separates, Text, INITIAL, s, EndOfString);
    OneStep(str, separates, EndOfString, s, Emitted(str, s, TERM), Stopped);
  }

  lemma {:induction false} EscapeAtTheEnd(str: string, start: nat, escapes: seq<nat>, pos: nat)
    requires |str| == pos + 1
    ensures Unescaped(str, start, escapes + [pos], pos + 2) == Unescaped(str, start, escapes, pos)
    decreases |escapes|
  {
    hide Unescaped, Slice;
    UnescapedFirst(str, start, escapes + [pos], pos + 2);
    if escapes == [] {
      assert [] + [pos] == [pos] && [pos][1..] == [];
      UnescapedLast(str, pos + 1, pos + 2);
      UnescapedLast(str, start, pos);
      NothingBehind(str, pos, Slice(str, start, pos));
    } else {
      assert (escapes + [pos])[0] == escapes[0] && (escapes + [pos])[1..] == escapes[1..] + [pos];
      UnescapedFirst(str, start, escapes, pos);
      EscapeAtTheEnd(str, escapes[0] + 1, escapes[1..], pos);
    }
  }

  lemma NothingBehind(str: string, pos: nat, before: string)
    requires |str| == pos + 1
    ensures before + Slice(str, pos + 1, pos + 2) == before
  {
  }

  /** Every string is one of these: a piece, or a piece before a colon, a mark, a separator or a lone escape
      character. So what has been said of these gives the lexemes of every string. */
  lemma {:induction false} EveryStringHasAPiece(str: string, separates: char -> bool) returns (t: string)
    ensures t <= str && IsPiece(t, separates)
    ensures |t| < |str| ==> str[|t|] in ":~^" || str[|t|..] == "\\" || (str[|t|] != '\\' && separates(str[|t|]))
    decreases |str|
  {
    if str == "" {
      t := "";
    } else if str[0] == '\\' && |str| > 1 {
      var r := EveryStringHasAPiece(str[2..], separates);
      t := str[..2] + r;
      assert t[2..] == r;
      if |t| < |str| { assert str[2..][|r|..] == str[|t|..]; }
    } else if Ordinary(str[0], separates) {
      var r := EveryStringHasAPiece(str[1..], separates);
      t := str[..1] + r;
      assert t[1..] == r;
      if |t| < |str| { assert str[1..][|r|..] == str[|t|..]; }
    } else {
      t := "";
      assert str[0..] == str;
      if str[0] == '\\' { assert str == "\\"; }
    }
  }

  // ----- The usual search strings -----

  predicate IsPlain(t: string, separates: char -> bool) {
    t != "" && forall i :: 0 <= i < |t| ==> Ordinary(t[i], separates)
  }

  lemma {:induction false} OrdinaryMeansItself(t: string, separates: char -> bool)
    requires forall i :: 0 <= i < |t| ==> Ordinary(t[i], separates)
    ensures IsPiece(t, separates) && Meaning(t) == t
  {
    if t != "" {
      OrdinaryMeansItself(t[1..], separates);
      assert [t[0]] + t[1..] == t;
    }
  }

  lemma TermMoved(t: string, separates: char -> bool, offset: nat)
    requires IsPlain(t, separates)
    ensures AllMoved(Lexemes(t, separates), offset) == [Lexeme(TERM, t, offset, offset + |t|)]
  {
    hide Lexemes, IsPiece, Meaning;
    OrdinaryMeansItself(t, separates);
    PieceIsATerm(t, separates);
  }

  lemma FieldAndTerm(f: string, t: string, separates: char -> bool)
    requires IsPlain(f, separates) && IsPlain(t, separates)
    ensures Lexemes(f + ":" + t, separates)
            == [Lexeme(FIELD, f, 0, |f|), Lexeme(TERM, t, |f| + 1, |f| + 1 + |t|)]
  {
    hide Lexemes, AllMoved, IsPiece, Meaning;
    OrdinaryMeansItself(f, separates);
    PieceBeforeColon(f, t, separates);
    TermMoved(t, separates, |f| + 1);
  }

  lemma TwoTerms(t: string, c: char, u: string, separates: char -> bool)
    requires IsPlain(t, separates) && IsPlain(u, separates) && separates(c) && c !in ":~^\\"
    ensures Lexemes(t + [c] + u, separates) == [Lexeme(TERM, t, 0, |t|), Lexeme(TERM, u, |t| + 1, |t| + 1 + |u|)]
  {
    hide Lexemes, AllMoved, IsPiece, Meaning;
    OrdinaryMeansItself(t, separates);
    PieceBeforeSeparator(t, c, u, separates);
    TermMoved(u, separates, |t| + 1);
  }

  lemma TermAndNumber(t: string, mark: char, n: string, separates: char -> bool)
    requires IsPlain(t, separates) && (mark == '~' || mark == '^') && forall i :: 0 <= i < |n| ==> '0' <= n[i] <= '9'
    ensures Lexemes(t + [mark] + n, separates)
            == [Lexeme(TERM, t, 0, |t|),
                Lexeme(if mark == '~' then EDIT_DISTANCE else BOOST, n, |t| + 1, |t| + 1 + |n|)]
  {
    hide Lexemes, IsPiece, Meaning;
    OrdinaryMeansItself(t, separates);
    assert t + [mark] + n + "" == t + [mark] + n;
    PieceBeforeMark(t, mark, n, "", separates);
    OrdinaryMeansItself("", separates);
    PieceIsATerm("", separates);
  }

  // ----- The lexer -----

  class QueryLexer {
    const str: string
    const separates: char -> bool
    var lexemes: seq<Lexeme>
    var pos: nat
    var start: nat
    var escapeCharPositions: seq<nat>

    ghost function Now(): State
      reads this
    {
      State(pos, start, escapeCharPositions, lexemes)
    }

    constructor (str: string, separates: char -> bool)
      ensures this.str == str && this.separates == separates && Now() == INITIAL
    {
      this.str, this.separates := str, separates;
      lexemes, pos, start, escapeCharPositions := [], 0, 0, [];
    }

    method SliceString() returns (r: string)
      modifies this`escapeCharPositions
      ensures r == Unescaped(str, start, old(escapeCharPositions), pos) && escapeCharPositions == []
    {
      var subSlices, sliceStart := "", start;
      var escapes := escapeCharPositions;
      for i := 0 to |escapes|
        invariant subSlices + Unescaped(str, sliceStart, escapes[i..], pos) == Unescaped(str, start, escapes, pos)
      {
        var sliceEnd := escapes[i];
        assert escapes[i..][0] == sliceEnd && escapes[i..][1..] == escapes[i + 1..];
        Grouped(subSlices, Slice(str, sliceStart, sliceEnd), Unescaped(str, sliceEnd + 1, escapes[i + 1..], pos));
        subSlices := subSlices + Slice(str, sliceStart, sliceEnd);
        sliceStart := sliceEnd + 1;
      }
      r := subSlices + Slice(str, sliceStart, pos);
      escapeCharPositions := [];
    }

    method Emit(kind: Kind)
      modifies this
      ensures Now() == Emitted(str, old(Now()), kind)
    {
      var slice := SliceString();
      lexemes := lexemes + [Lexeme(kind, slice, start, pos)];
      start := pos;
    }

    /** The next character; none at the end of the string. */
    method Next() returns (r: Option<char>)
      modifies this`pos
      ensures r.None? <==> old(pos) >= |str|
      ensures r.None? ==> pos == old(pos)
      ensures r.Some? ==> pos == old(pos) + 1 && r.value == str[old(pos)]
    {
      if pos >= |str| {
        return None;
      }
      r := Some(str[pos]);
      pos := pos + 1;
    }

    method Ignore()
      modifies this`pos, this`start
      ensures Now() == Ignored(old(Now()))
    {
      if start == pos {
        pos := pos + 1;
      }
      start := pos;
    }

    method Backup()
      requires pos > 0
      modifies this`pos
      ensures pos == old(pos) - 1
    {
      pos := pos - 1;
    }

    method AcceptDigitRun()
      requires pos <= |str|
      modifies this`pos
      ensures pos == DigitsEnd(str, old(pos))
    {
      ghost var from := pos;
      var c := Next();
      while c.Some? && IsDigit(c.value)
        invariant pos <= |str| && DigitsEnd(str, from) == if c.Some? then DigitsEnd(str, pos - 1)
                else DigitsEnd(str, pos)
        invariant c.None? ==> pos == |str|
        invariant c.Some? ==> pos > 0 && c.value == str[pos - 1]
        decreases |str| - pos, if c.Some? then 1 else 0
      {
        c := Next();
      }
      if c.Some? {
        Backup();
      }
    }

    method LexText() returns (phase: Phase)
      requires Ready(str, Text, Now())
      modifies this
      ensures (Now(), phase) == Scanned(str, separates, old(Now()))
    {
      ghost var from := Now();
      while true
        invariant start <= pos && Scanned(str, separates, Now()) == Scanned(str, separates, from)
        decreases |str| - pos
      {
        var c := Next();
        if c.None? {
          return EndOfString;
        }
        if c.value as int == 92 {
          escapeCharPositions := escapeCharPositions + [pos - 1];
          pos := pos + 1;
          continue;
        }
        if c.value == ':' {
          return Field;
        }
        if c.value == '~' {
          Backup();
          if pos - start > 0 {
            Emit(TERM);
          }
          return EditDistance;
        }
        if c.value == '^' {
          Backup();
          if pos - start > 0 {
            Emit(TERM);
          }
          return Boost;
        }
        if separates(c.value) {
          return Term;
        }
      }
    }

    /** One state function. */
    method Enter(phase: Phase) returns (phase': Phase)
      requires Ready(str, phase, Now()) && !phase.Stopped?
      modifies this
      ensures (Now(), phase') == Step(str, separates, phase, old(Now()))
    {
      match phase
      case Text =>
        phase' := LexText();
      case Field =>
        Backup();
        Emit(FIELD);
        Ignore();
        phase' := Text;
      case Term =>
        if pos - start > 1 {
          Backup();
          Emit(TERM);
        }
        Ignore();
        phase' := if pos < |str| then Text else Stopped;
      case EditDistance =>
        Ignore();
        AcceptDigitRun();
        Emit(EDIT_DISTANCE);
        phase' := Text;
      case Boost =>
        Ignore();
        AcceptDigitRun();
        Emit(BOOST);
        phase' := Text;
      case EndOfString =>
        if pos - start > 0 {
          Emit(TERM);
        }
        phase' := Stopped;
    }

    method Run()
      requires Now() == INITIAL
      modifies this
      ensures lexemes == Lexemes(str, separates)
    {
      var phase := Text;
      while !phase.Stopped?
        invariant Ready(str, phase, Now())
        invariant RunFrom(str, separates, phase, Now()) == RunFrom(str, separates, Text, INITIAL)
        decreases Rank(str, phase, Now())
      {
        StepsGoOn(str, separates, phase, Now());
        phase := Enter(phase);
      }
    }
  }
}
