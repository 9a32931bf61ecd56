/** Matching a host against a pattern (core/src/JetBlack.MessageBus.Common/Globber.cs:5-38), where `?`
    stands for one character and `*` for any sequence, and letters are compared in upper case. The loop
    does not look for the end of the value at a `?`, so it can read past it. */
module Globs {

  datatype Outcome = Returned(matches: bool) | OutOfRange

  predicate IsLiteral(c: char) { c != '?' && c != '*' }

  /** What the pattern means. */
  ghost predicate Match(up: char -> char, pattern: string, value: string)
    decreases |pattern|
  {
    if pattern == "" then value == ""
    else if pattern[0] == '*' then exists k :: 0 <= k <= |value| && Match(up, pattern[1..], value[k..])
    else value != "" && (pattern[0] == '?' || up(pattern[0]) == up(value[0])) && Match(up, pattern[1..], value[1..])
  }

  /** What the loop comes to from a position on. */
  function Run(up: char -> char, value: string, pattern: string, pos: nat): Outcome
    requires pos <= |pattern|
    decreases |pattern| - pos, 0
  {
    if pos == |pattern| then Returned(|value| == pos)
    else if pattern[pos] == '?' then Run(up, value, pattern, pos + 1)
    else if pattern[pos] == '*' then Try(up, value, pattern, pos, |value|)
    else if |value| == pos then Returned(false)
    else if pos > |value| then OutOfRange
    else if up(pattern[pos]) != up(value[pos]) then Returned(false)
    else Run(up, value, pattern, pos + 1)
  }

  /** What the attempts at a `*` come to: the rest of the value from `i` down to `pos`. */
  function Try(up: char -> char, value: string, pattern: string, pos: nat, i: int): Outcome
    requires pos < |pattern| && i <= |value|
    decreases |pattern| - pos, 0, i + 1
  {
    if i < pos then Returned(false)
    else
      var r := Run(up, value[i..], pattern[pos + 1..], 0);
      if r == Returned(false) then Try(up, value, pattern, pos, i - 1) else r
  }

  method Glob(up: char -> char, value: string, pattern: string) returns (r: Outcome)
    ensures r == Run(up, value, pattern, 0)
    decreases |pattern|
  {
    var pos := 0;
    while |pattern| != pos
      invariant pos <= |pattern| && Run(up, value, pattern, 0) == Run(up, value, pattern, pos)
    {
      if pattern[pos] == '*' {
        var i := |value|;
        while i >= pos
          invariant i <= |value| && Run(up, value, pattern, pos) == Try(up, value, pattern, pos, i)
        {
          var rest := Glob(up, value[i..], pattern[pos + 1..]);
          if rest != Returned(false) {
            return rest;
          }
          i := i - 1;
        }
        return Returned(false);
      } else if pattern[pos] != '?' {
        if |value| == pos {
          return Returned(false);
        }
        if pos > |value| {
          return OutOfRange;
        }
        if up(pattern[pos]) != up(value[pos]) {
          return Returned(false);
        }
      }
      pos := pos + 1;
    }
    r := Returned(|value| == pos);
  }

  // ----- The answer is right -----

  lemma {:induction false} PastTheEndIsFalse(up: char -> char, value: string, pattern: string, pos: nat)
    requires |value| < pos <= |pattern|
    ensures Run(up, value, pattern, pos) in {Returned(false), OutOfRange}
    decreases |pattern| - pos
  {
    if pos < |pattern| && pattern[pos] == '?' {
      PastTheEndIsFalse(up, value, pattern, pos + 1);
    }
  }

  lemma {:induction false} RunIsRight(up: char -> char, value: string, pattern: string, pos: nat)
    requires pos <= |pattern| && pos <= |value| && Run(up, value, pattern, pos).Returned?
    ensures Run(up, value, pattern, pos).matches <==> Match(up, pattern[pos..], value[pos..])
    decreases |pattern| - pos, 1
  {
    if pos < |pattern| {
      assert pattern[pos..][1..] == pattern[pos + 1..];
      if pattern[pos] == '*' {
        TryIsRight(up, value, pattern, pos, |value|);
        if Match(up, pattern[pos..], value[pos..]) {
          var k :| 0 <= k <= |value[pos..]| && Match(up, pattern[pos + 1..], value[pos..][k..]);
          assert value[pos..][k..] == value[pos + k..];
        }
        if k :| pos <= k <= |value| && Match(up, pattern[pos + 1..], value[k..]) {
          assert value[pos..][k - pos..] == value[k..];
        }
      } else if pos < |value| {
        assert value[pos..][1..] == value[pos + 1..];
        if pattern[pos] == '?' || up(pattern[pos]) == up(value[pos]) {
          RunIsRight(up, value, pattern, pos + 1);
        }
      } else if pattern[pos] == '?' {
        PastTheEndIsFalse(up, value, pattern, pos + 1);
      }
    }
  }

  lemma {:induction false} TryIsRight(up: char -> char, value: string, pattern: string, pos: nat, i: int)
    requires pos < |pattern| && i <= |value| && Try(up, value, pattern, pos, i).Returned?
    ensures Try(up, value, pattern, pos, i).matches <==>
            exists k :: pos <= k <= i && Match(up, pattern[pos + 1..], value[k..])
    decreases |pattern| - pos, 0, i + 1
  {
    if i >= pos {
      assert value[i..][0..] == value[i..] && pattern[pos + 1..][0..] == pattern[pos + 1..];
      RunIsRight(up, value[i..], pattern[pos + 1..], 0);
      if Run(up, value[i..], pattern[pos + 1..], 0) == Returned(false) {
        TryIsRight(up, value, pattern, pos, i - 1);
      }
    }
  }

  /** Whenever there is an answer it is the right one. */
  lemma AnswersAreRight(up: char -> char, value: string, pattern: string)
    requires Run(up, value, pattern, 0).Returned?
    ensures Run(up, value, pattern, 0).matches <==> Match(up, pattern, value)
  {
    RunIsRight(up, value, pattern, 0);
    assert pattern[0..] == pattern && value[0..] == value;
  }

  // ----- When there is an answer -----

  /** No `?` is directly followed by a literal. */
  predicate NoGap(pattern: string) {
    forall i :: 0 <= i < |pattern| - 1 && pattern[i] == '?' ==> !IsLiteral(pattern[i + 1])
  }

  lemma {:induction false} RunAnswers(up: char -> char, value: string, pattern: string, pos: nat)
    requires pos <= |pattern| && NoGap(pattern) && (pos <= |value| || pattern[pos - 1] == '?')
    ensures Run(up, value, pattern, pos).Returned?
    decreases |pattern| - pos, 1
  {
    if pos < |pattern| {
      if pattern[pos] == '*' {
        TryAnswers(up, value, pattern, pos, |value|);
      } else if pattern[pos] == '?' || pos < |value| {
        RunAnswers(up, value, pattern, pos + 1);
      }
    }
  }

  lemma {:induction false} TryAnswers(up: char -> char, value: string, pattern: string, pos: nat, i: int)
    requires pos < |pattern| && i <= |value| && NoGap(pattern)
    ensures Try(up, value, pattern, pos, i).Returned?
    decreases |pattern| - pos, 0, i + 1
  {
    if i >= pos {
      RunAnswers(up, value[i..], pattern[pos + 1..], 0);
      TryAnswers(up, value, pattern, pos, i - 1);
    }
  }

  function NonStars(pattern: string): nat {
    if pattern == "" then 0 else (if pattern[0] == '*' then 0 else 1) + NonStars(pattern[1..])
  }

  /** The pattern without its `*`, and with some letter for each `?`. */
  function Skeleton(pattern: string): (s: string)
    ensures |s| == NonStars(pattern)
  {
    if pattern == "" then ""
    else if pattern[0] == '*' then Skeleton(pattern[1..])
    else [if pattern[0] == '?' then 'a' else pattern[0]] + Skeleton(pattern[1..])
  }

  lemma {:induction false} MatchesAreLong(up: char -> char, pattern: string, value: string)
    requires Match(up, pattern, value)
    ensures |value| >= NonStars(pattern)
    decreases |pattern|
  {
    if pattern != "" {
      if pattern[0] == '*' {
        var k :| 0 <= k <= |value| && Match(up, pattern[1..], value[k..]);
        MatchesAreLong(up, pattern[1..], value[k..]);
      } else {
        MatchesAreLong(up, pattern[1..], value[1..]);
      }
    }
  }

  lemma {:induction false} NonStarsOfPrefix(pattern: string, g: nat)
    requires g <= |pattern|
    ensures NonStars(pattern[..g]) <= NonStars(pattern)
    decreases g
  {
    if g > 0 {
      assert pattern[..g][1..] == pattern[1..][..g - 1];
      NonStarsOfPrefix(pattern[1..], g - 1);
    }
  }

  /** On the skeleton of what comes before a gap, the loop runs past the end. */
  lemma {:induction false} RunFails(up: char -> char, value: string, pattern: string, pos: nat, g: nat)
    requires pos <= g && g + 1 < |pattern| && pattern[g] == '?' && IsLiteral(pattern[g + 1])
    requires pos <= |value| && value[pos..] == Skeleton(pattern[pos..g])
    ensures Run(up, value, pattern, pos) == OutOfRange
    decreases |pattern| - pos, 1
  {
    if pos < g {
      var rest := pattern[pos..g];
      assert rest[0] == pattern[pos] && rest[1..] == pattern[pos + 1..g];
      if pattern[pos] == '*' {
        TryFails(up, value, pattern, pos, g, |value|);
      } else {
        assert value[pos] == value[pos..][0] == Skeleton(rest)[0]
            && value[pos + 1..] == value[pos..][1..] == Skeleton(rest)[1..];
        RunFails(up, value, pattern, pos + 1, g);
      }
    }
  }

  lemma {:induction false} TryFails(up: char -> char, value: string, pattern: string, pos: nat, g: nat, i: int)
    requires pos < g && g + 1 < |pattern| && pattern[g] == '?' && IsLiteral(pattern[g + 1])
    requires pos <= i <= |value| && value[pos..] == Skeleton(pattern[pos + 1..g])
    ensures Try(up, value, pattern, pos, i) == OutOfRange
    decreases |pattern| - pos, 0, i + 1
  {
    var rest := pattern[pos + 1..];
    assert rest[..g - pos - 1] == pattern[pos + 1..g] && rest[0..g - pos - 1] == rest[..g - pos - 1];
    if i == pos {
      assert value[pos..][0..] == value[pos..];
      RunFails(up, value[pos..], rest, 0, g - pos - 1);
    } else {
      NonStarsOfPrefix(rest, g - pos - 1);
      if Run(up, value[i..], rest, 0) == Returned(true) {
        AnswersAreRight(up, value[i..], rest);
        MatchesAreLong(up, rest, value[i..]);
      }
      TryFails(up, value, pattern, pos, g, i - 1);
    }
  }

  /** There is an answer on every value exactly when no `?` is directly followed by a literal. */
  lemma AlwaysAnswersExactlyWhen(up: char -> char, pattern: string)
    ensures (forall value: string :: Run(up, value, pattern, 0).Returned?) <==> NoGap(pattern)
  {
    if NoGap(pattern) {
      forall value: string ensures Run(up, value, pattern, 0).Returned? { RunAnswers(up, value, pattern, 0); }
    } else {
      var g :| 0 <= g < |pattern| - 1 && pattern[g] == '?' && IsLiteral(pattern[g + 1]);
      var value := Skeleton(pattern[..g]);
      assert pattern[0..g] == pattern[..g] && value[0..] == value;
      RunFails(up, value, pattern, 0, g);
    }
  }
}
