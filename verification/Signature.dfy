/** The text that stands for a node when equivalent nodes are looked up (docs/styles/lunr.js:1461-1486):
    the finality bit followed by every edge label and the decimal id of the edge's target, in the order
    of the labels. It identifies the node's shape only when a reader can tell labels and ids apart. */
module Signature {
  import opened Automaton
  import opened Digits

  function Digit(d: nat): (c: char)
    requires d < 10
    ensures IsDigit(c)
  {
    ('0' as int + d) as char
  }

  function Decimal(n: nat): (s: string)
    ensures s != "" && forall i :: 0 <= i < |s| ==> IsDigit(s[i])
  {
    if n < 10 then [Digit(n)] else Decimal(n / 10) + [Digit(n % 10)]
  }

  predicate Ascending(labels: seq<char>) {
    forall i, j :: 0 <= i < j < |labels| ==> labels[i] < labels[j]
  }

  lemma {:induction false} LeastExists(labels: set<char>)
    requires labels != {}
    ensures exists c :: c in labels && forall d :: d in labels ==> c <= d
    decreases |labels|
  {
    var c :| c in labels;
    if labels != {c} {
      assert labels - {c} != {};
      LeastExists(labels - {c});
      var l :| l in labels - {c} && forall d :: d in labels - {c} ==> l <= d;
      var least := if c <= l then c else l;
      forall d | d in labels ensures least <= d {
        assert d == c || d in labels - {c};
      }
    } else {
      assert forall d :: d in labels ==> c <= d;
    }
  }

  lemma {:induction false} SortedLabelsExist(labels: set<char>) returns (r: seq<char>)
    ensures Ascending(r) && (forall c :: c in r <==> c in labels)
    decreases |labels|
  {
    r := [];
    if labels != {} {
      LeastExists(labels);
      var c :| c in labels && forall d :: d in labels ==> c <= d;
      var rest := SortedLabelsExist(labels - {c});
      forall j | 0 <= j < |rest| ensures c < rest[j] { assert rest[j] in rest; }
      r := [c] + rest;
    }
  }

  /** What sorting the keys of an object yields. */
  ghost function SortedLabels(labels: set<char>): (r: seq<char>)
    ensures Ascending(r) && (forall c :: c in r <==> c in labels)
  {
    assert exists r :: Ascending(r) && (forall c :: c in r <==> c in labels) by {
      var r := SortedLabelsExist(labels);
    }
    var r :| Ascending(r) && (forall c :: c in r <==> c in labels);
    r
  }

  /** The labels in the given order, each followed by the id of its target. */
  ghost function EdgeText(edges: map<char, nat>, labels: seq<char>): string
    requires forall c :: c in labels ==> c in edges
  {
    if labels == [] then ""
    else [labels[0]] + Decimal(edges[labels[0]]) + EdgeText(edges, labels[1..])
  }

  ghost function Text(s: Shape<nat>): string {
    (if s.final then "1" else "0") + EdgeText(s.edges, SortedLabels(s.edges.Keys))
  }

  /** Every digit that occurs as a label is the least label, so a digit is never read as a label
      after an id. */
  ghost predicate Unambiguous(alphabet: set<char>) {
    forall d, c :: d in alphabet && c in alphabet && IsDigit(d) ==> d <= c
  }

  lemma {:induction false} AscendingIsUnique(a: seq<char>, b: seq<char>)
    requires Ascending(a) && Ascending(b) && forall c :: c in a <==> c in b
    ensures a == b
  {
    assert b != [] ==> b[0] in b;
    if a != [] {
      assert a[0] in b && b != [] && b[0] in a;
      assert a[0] == b[0];
      forall c ensures c in a[1..] <==> c in b[1..] {
        if c in a[1..] {
          var i :| 1 <= i < |a| && a[i] == c;
          assert c in b && c != b[0];
          assert c in b[1..];
        }
        if c in b[1..] {
          var i :| 1 <= i < |b| && b[i] == c;
          assert c in a && c != a[0];
          assert c in a[1..];
        }
      }
      AscendingIsUnique(a[1..], b[1..]);
    }
  }

  lemma {:induction false} DecimalIsInjective(m: nat, n: nat)
    requires Decimal(m) == Decimal(n)
    ensures m == n
    decreases m
  {
    var s, t := Decimal(m), Decimal(n);
    assert s[|s| - 1] == t[|t| - 1] && s[|s| - 1] == Digit(m % 10) && t[|t| - 1] == Digit(n % 10);
    assert m % 10 == n % 10;
    if m >= 10 && n >= 10 {
      assert s[..|s| - 1] == Decimal(m / 10) && t[..|t| - 1] == Decimal(n / 10);
      DecimalIsInjective(m / 10, n / 10);
    }
  }

  /** The id at the front of a text is delimited by the first character that is no digit. */
  lemma {:induction false} DecimalIsDelimited(m: nat, x: string, n: nat, y: string)
    requires Decimal(m) + x == Decimal(n) + y
    requires (x == "" || !IsDigit(x[0])) && (y == "" || !IsDigit(y[0]))
    ensures m == n && x == y
  {
    var s, t := Decimal(m), Decimal(n);
    assert x != "" ==> (s + x)[|s|] == x[0];
    assert y != "" ==> (t + y)[|t|] == y[0];
    assert |s| == |t|;
    assert s == (s + x)[..|s|] == (t + y)[..|t|] == t;
    assert x == (s + x)[|s|..] == (t + y)[|t|..] == y;
    DecimalIsInjective(m, n);
  }

  lemma {:induction false} EdgeTextIsInjective(e: map<char, nat>, a: seq<char>, f: map<char, nat>, b: seq<char>)
    requires (forall c :: c in a ==> c in e) && (forall c :: c in b ==> c in f)
    requires EdgeText(e, a) == EdgeText(f, b)
    requires forall i :: 0 < i < |a| ==> !IsDigit(a[i])
    requires forall i :: 0 < i < |b| ==> !IsDigit(b[i])
    ensures a == b && forall c :: c in a ==> e[c] == f[c]
  {
    if a != [] && b != [] {
      var x, y := EdgeText(e, a[1..]), EdgeText(f, b[1..]);
      assert a[0] == EdgeText(e, a)[0] == b[0];
      assert Decimal(e[a[0]]) + x == EdgeText(e, a)[1..] == Decimal(f[b[0]]) + y;
      DecimalIsDelimited(e[a[0]], x, f[b[0]], y);
      EdgeTextIsInjective(e, a[1..], f, b[1..]);
    }
  }

  lemma TextIsInjective(s: Shape<nat>, t: Shape<nat>)
    requires Unambiguous(s.edges.Keys) && Unambiguous(t.edges.Keys) && Text(s) == Text(t)
    ensures s == t
  {
    var a, b := SortedLabels(s.edges.Keys), SortedLabels(t.edges.Keys);
    var x, y := EdgeText(s.edges, a), EdgeText(t.edges, b);
    assert Text(s)[1..] == EdgeText(s.edges, a) && Text(t)[1..] == EdgeText(t.edges, b);
    assert Text(s)[0] == Text(t)[0];
    forall i | 0 < i < |a| ensures !IsDigit(a[i]) { assert a[0] in a && a[i] in a; }
    forall i | 0 < i < |b| ensures !IsDigit(b[i]) { assert b[0] in b && b[i] in b; }
    EdgeTextIsInjective(s.edges, a, t.edges, b);
    forall c ensures c in s.edges.Keys <==> c in t.edges.Keys { assert c in a <==> c in b; }
    assert s.edges == t.edges;
  }

  lemma SingleEdgeText(c: char, m: nat)
    ensures Text(Shape(false, map[c := m])) == "0" + ([c] + Decimal(m))
  {
    var edges := map[c := m];
    AscendingIsUnique(SortedLabels(edges.Keys), [c]);
    assert EdgeText(edges, [c]) == [c] + Decimal(m) + EdgeText(edges, []) == [c] + Decimal(m);
  }

  lemma DoubleEdgeText(c: char, m: nat, d: char, n: nat)
    requires c < d
    ensures Text(Shape(false, map[c := m, d := n])) == "0" + ([c] + Decimal(m) + ([d] + Decimal(n)))
  {
    var edges := map[c := m, d := n];
    assert edges.Keys == {c, d};
    AscendingIsUnique(SortedLabels(edges.Keys), [c, d]);
    assert [c, d][1..] == [d];
    assert EdgeText(edges, [d]) == [d] + Decimal(n) + EdgeText(edges, []) == [d] + Decimal(n);
    assert EdgeText(edges, [c, d]) == [c] + Decimal(m) + EdgeText(edges, [d]);
  }

  lemma SpelledOneDigitTwo(d: char)
    requires IsDigit(d)
    ensures Decimal(102 + 10 * (d as int - '0' as int)) == "1" + [d] + "2"
  {
    var k := d as int - '0' as int;
    assert (102 + 10 * k) / 10 == 10 + k && (102 + 10 * k) % 10 == 2;
    assert (10 + k) / 10 == 1 && (10 + k) % 10 == k;
    assert Decimal(10 + k) == Decimal(1) + [Digit(k)];
  }

  /** Two shapes with one text, for any label `c` below a digit label `d`: an edge `c` to node 1 and an
      edge `d` to node 2, or a single edge `c` to the node whose id is spelled 1, `d`, 2. */
  lemma TextCollides(c: char, d: char) returns (s: Shape<nat>, t: Shape<nat>)
    requires IsDigit(d) && c < d
    ensures s != t && s.edges.Keys == {c, d} && t.edges.Keys == {c} && Text(s) == Text(t)
  {
    var v := 102 + 10 * (d as int - '0' as int);
    s := Shape(false, map[c := 1, d := 2]);
    t := Shape(false, map[c := v]);
    DoubleEdgeText(c, 1, d, 2);
    SingleEdgeText(c, v);
    SpelledOneDigitTwo(d);
    assert [c] + "1" + ([d] + "2") == [c] + ("1" + [d] + "2");
    assert d in s.edges && d !in t.edges;
  }

  ghost predicate Identifies(alphabet: set<char>) {
    forall s: Shape<nat>, t: Shape<nat> ::
      s.edges.Keys <= alphabet && t.edges.Keys <= alphabet && Text(s) == Text(t) ==> s == t
  }

  /** Equal texts mean equal shapes exactly when every digit label is the least label. */
  lemma TextIdentifiesShapesExactlyWhen(alphabet: set<char>)
    ensures Identifies(alphabet) <==> Unambiguous(alphabet)
  {
    if Unambiguous(alphabet) {
      forall s: Shape<nat>, t: Shape<nat> | s.edges.Keys <= alphabet && t.edges.Keys <= alphabet && Text(s) == Text(t)
        ensures s == t
      {
        TextIsInjective(s, t);
      }
    } else {
      var d, c :| d in alphabet && c in alphabet && IsDigit(d) && c < d;
      var s, t := TextCollides(c, d);
    }
  }
}
