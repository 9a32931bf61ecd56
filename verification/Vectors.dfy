/** Sparse vectors (docs/styles/lunr.js:546-685): a flat array in which every index is followed by its
    value, kept in the order of the indexes. Numbers stand as reals. */
module Vectors {

  // ----- Pairs of an index and a value -----

  type Pair = (real, real)

  ghost predicate Ascending(p: seq<Pair>) {
    forall i, j :: 0 <= i < j < |p| ==> p[i].0 < p[j].0
  }

  ghost predicate HasIndex(p: seq<Pair>, index: real) {
    exists i :: 0 <= i < |p| && p[i].0 == index
  }

  /** The vector as a map from indexes to values. */
  ghost function Contents(p: seq<Pair>): map<real, real> {
    if p == [] then map[] else Contents(p[..|p| - 1])[p[|p| - 1].0 := p[|p| - 1].1]
  }

  lemma {:induction false} ContentsIs(p: seq<Pair>, index: real)
    ensures index in Contents(p) <==> HasIndex(p, index)
  {
    if p != [] {
      var n := |p| - 1;
      ContentsIs(p[..n], index);
      if HasIndex(p[..n], index) {
        var i :| 0 <= i < n && p[..n][i].0 == index;
        assert p[i].0 == index;
      }
      if HasIndex(p, index) {
        var i :| 0 <= i < |p| && p[i].0 == index;
        if i < n { assert p[..n][i].0 == index; }
      }
    }
  }

  lemma {:induction false} ContentsHas(p: seq<Pair>, i: nat)
    requires Ascending(p) && i < |p|
    ensures p[i].0 in Contents(p) && Contents(p)[p[i].0] == p[i].1
  {
    if i < |p| - 1 {
      ContentsHas(p[..|p| - 1], i);
      assert p[i].0 < p[|p| - 1].0;
    }
  }

  /** Everything before the position is below the index, and everything from it on is not. */
  ghost predicate Separates(p: seq<Pair>, k: nat, index: real) {
    k <= |p| && forall i :: 0 <= i < |p| ==> (p[i].0 < index <==> i < k)
  }

  /** There is only one place for an index. */
  lemma SeparationIsUnique(p: seq<Pair>, k: nat, l: nat, index: real)
    requires Separates(p, k, index) && Separates(p, l, index)
    ensures k == l
  {
    var i := if k < l then k else l;
    assert i < |p| ==> (p[i].0 < index <==> i < k);
  }

  lemma {:induction false} ContentsOfUpdate(p: seq<Pair>, k: nat, val: real)
    requires Ascending(p) && k < |p|
    ensures Ascending(p[k := (p[k].0, val)]) && Contents(p[k := (p[k].0, val)]) == Contents(p)[p[k].0 := val]
  {
    var q := p[k := (p[k].0, val)];
    var n := |p| - 1;
    if k < n {
      ContentsOfUpdate(p[..n], k, val);
      assert q[..n] == p[..n][k := (p[k].0, val)];
      assert p[k].0 < p[n].0;
    } else {
      assert q[..n] == p[..n];
    }
  }

  lemma InsertionAscends(p: seq<Pair>, k: nat, index: real, val: real)
    requires Ascending(p) && Separates(p, k, index) && !HasIndex(p, index)
    ensures Ascending(p[..k] + [(index, val)] + p[k..])
  {
    var q := p[..k] + [(index, val)] + p[k..];
    forall i, j | 0 <= i < j < |q| ensures q[i].0 < q[j].0 {
      var i', j' := if i < k then i else i - 1, if j < k then j else j - 1;
      if i == k { assert p[j'].0 != index; }
    }
  }

  lemma {:induction false} ContentsOfInsertion(p: seq<Pair>, k: nat, index: real, val: real)
    requires k <= |p| && forall i :: 0 <= i < |p| ==> p[i].0 != index
    ensures Contents(p[..k] + [(index, val)] + p[k..]) == Contents(p)[index := val]
    decreases |p|
  {
    var q := p[..k] + [(index, val)] + p[k..];
    if k < |p| {
      var n := |p| - 1;
      ContentsOfInsertion(p[..n], k, index, val);
      assert q[..n + 1] == p[..n][..k] + [(index, val)] + p[..n][k..];
      assert q[n + 1] == p[n] && p[n].0 != index;
    } else {
      assert q[..|q| - 1] == p;
    }
  }

  // ----- The flat array -----

  ghost function Pairs(e: seq<real>): (p: seq<Pair>)
    requires |e| % 2 == 0
    ensures |e| == 2 * |p| && forall i :: 0 <= i < |p| ==> p[i] == (e[2 * i], e[2 * i + 1])
  {
    seq(|e| / 2, i requires 0 <= i < |e| / 2 => (e[2 * i], e[2 * i + 1]))
  }

  lemma PairsOfUpdate(e: seq<real>, k: nat, val: real)
    requires |e| % 2 == 0 && 2 * k < |e|
    ensures Pairs(e[2 * k + 1 := val]) == Pairs(e)[k := (e[2 * k], val)]
  {
    var p, q := Pairs(e)[k := (e[2 * k], val)], Pairs(e[2 * k + 1 := val]);
    forall i | 0 <= i < |p| ensures p[i] == q[i] {
      assert i != k ==> 2 * i + 1 != 2 * k + 1;
    }
  }

  lemma PairsOfInsertion(e: seq<real>, k: nat, index: real, val: real)
    requires |e| % 2 == 0 && 2 * k <= |e|
    ensures Pairs(e[..2 * k] + [index, val] + e[2 * k..]) == Pairs(e)[..k] + [(index, val)] + Pairs(e)[k..]
  {
    var q := Pairs(e)[..k] + [(index, val)] + Pairs(e)[k..];
    var e' := e[..2 * k] + [index, val] + e[2 * k..];
    forall i | 0 <= i < |q| ensures q[i] == Pairs(e')[i] {
      if i > k { assert e'[2 * i] == e[2 * (i - 1)] && e'[2 * i + 1] == e[2 * (i - 1) + 1]; }
    }
  }

  datatype Insertion = Inserted | DuplicateIndex

  class Vector {
    var elements: seq<real>

    ghost predicate Valid()
      reads this
    {
      |elements| % 2 == 0 && Ascending(Pairs(elements))
    }

    ghost function Values(): map<real, real>
      requires Valid()
      reads this
    {
      Contents(Pairs(elements))
    }

    constructor ()
      ensures Valid() && Values() == map[]
    {
      elements := [];
    }

    /** Finds the only place for the index by halving the range in which it can be. */
    method PositionForIndex(index: real) returns (position: nat)
      requires Valid()
      ensures position % 2 == 0 && Separates(Pairs(elements), position / 2, index)
    {
      hide Ascending, Separates, Contents, Pairs;
      PairsLength(elements);
      if |elements| == 0 {
        NothingSeparates(Pairs(elements), index);
        return 0;
      }
      ghost var p := Pairs(elements);
      var start, end := 0, |elements| / 2;
      var sliceLength := end - start;
      var pivotPoint := sliceLength / 2;
      PairAt(elements, pivotPoint);
      var pivotIndex := elements[pivotPoint * 2];
      while sliceLength > 1
        invariant 0 <= start < end <= |p| && sliceLength == end - start && pivotPoint == start + sliceLength / 2
        invariant pivotIndex == p[pivotPoint].0
        invariant start > 0 ==> p[start].0 < index
        invariant end < |p| ==> index < p[end].0
        decreases sliceLength
      {
        if pivotIndex < index {
          start := pivotPoint;
        }
        if pivotIndex > index {
          end := pivotPoint;
        }
        if pivotIndex == index {
          break;
        }
        sliceLength := end - start;
        pivotPoint := start + sliceLength / 2;
        PairAt(elements, pivotPoint);
        pivotIndex := elements[pivotPoint * 2];
      }
      if pivotIndex >= index {
        position := pivotPoint * 2;
        PivotSeparates(p, pivotPoint, pivotPoint, index);
      } else {
        position := (pivotPoint + 1) * 2;
        PivotSeparates(p, pivotPoint, pivotPoint + 1, index);
      }
    }

    /** Sets the value of the index, which an existing value is combined with. */
    method Upsert(insertIdx: real, val: real, fn: (real, real) -> real)
      requires Valid()
      modifies this
      ensures Valid()
      ensures Values() == old(Values())[insertIdx := if insertIdx in old(Values())
                                        then fn(old(Values())[insertIdx], val) else val]
    {
      hide Contents, Ascending, Separates;
      var position := PositionForIndex(insertIdx);
      Place(Pairs(elements), elements, position / 2, insertIdx);
      if position < |elements| && elements[position] == insertIdx {
        var updated := fn(elements[position + 1], val);
        Updates(elements, position / 2, updated);
        elements := elements[position + 1 := updated];
      } else {
        Inserts(elements, position / 2, insertIdx, val);
        elements := elements[..position] + [insertIdx, val] + elements[position..];
      }
    }

    /** Does not allow duplicates. */
    method Insert(insertIdx: real, val: real) returns (r: Insertion)
      requires Valid()
      modifies this
      ensures Valid()
      ensures r.DuplicateIndex? <==> insertIdx in old(Values())
      ensures Values() == if r.DuplicateIndex? then old(Values()) else old(Values())[insertIdx := val]
    {
      hide Contents, Ascending, Separates;
      var position := PositionForIndex(insertIdx);
      Place(Pairs(elements), elements, position / 2, insertIdx);
      if position < |elements| && elements[position] == insertIdx {
        return DuplicateIndex;
      }
      Inserts(elements, position / 2, insertIdx, val);
      elements := elements[..position] + [insertIdx, val] + elements[position..];
      r := Inserted;
    }

    /** The merge of two vectors sums the products over the shared indexes. */
    method Dot(otherVector: Vector) returns (dotProduct: real)
      requires Valid() && otherVector.Valid()
      ensures dotProduct == Products(Pairs(elements), otherVector.Values())
    {
      hide Contents, Ascending, Products;
      var a, b := elements, otherVector.elements;
      ghost var p, q := Pairs(a), Pairs(b);
      dotProduct := 0.0;
      var i, j := 0, 0;
      ghost var k, l := 0, 0;
      assert p[0..] == p;
      MergeStarts(p, q);
      while i < |a| && j < |b|
        invariant i == 2 * k && j == 2 * l && k <= |p| && l <= |q|
        invariant Merging(p, q, k, l)
        invariant dotProduct + Products(p[k..], Contents(q)) == Products(p, Contents(q))
        decreases |p| - k + |q| - l
      {
        var aVal, bVal := a[i], b[j];
        assert p[k] == (aVal, a[i + 1]) && q[l] == (bVal, b[j + 1]);
        MergeStep(p, q, k, l);
        if aVal < bVal {
          i, k := i + 2, k + 1;
        } else if aVal > bVal {
          j, l := j + 2, l + 1;
        } else {
          dotProduct := dotProduct + a[i + 1] * b[j + 1];
          i, k := i + 2, k + 1;
          j, l := j + 2, l + 1;
        }
      }
      MergeEnds(p, q, k, l);
    }
  }

  lemma PairsLength(e: seq<real>)
    requires |e| % 2 == 0
    ensures |Pairs(e)| == |e| / 2
  {
  }

  lemma PairAt(e: seq<real>, k: nat)
    requires |e| % 2 == 0 && k < |e| / 2
    ensures k < |Pairs(e)| && k * 2 < |e| && Pairs(e)[k].0 == e[k * 2]
  {
  }

  lemma NothingSeparates(p: seq<Pair>, index: real)
    requires p == []
    ensures Separates(p, 0, index)
  {
  }

  lemma PivotSeparates(p: seq<Pair>, pivot: nat, k: nat, index: real)
    requires Ascending(p) && pivot < |p|
    requires if k == pivot then index <= p[k].0 && (k > 0 ==> p[k].0 == index)
             else k == pivot + 1 && p[pivot].0 < index && (k < |p| ==> index < p[k].0)
    ensures Separates(p, k, index)
  {
    forall i | 0 <= i < |p| ensures p[i].0 < index <==> i < k {
      if i < pivot { assert p[i].0 < p[pivot].0; }
      if pivot < i { assert p[pivot].0 < p[i].0; }
      if k < i { assert p[k].0 < p[i].0; }
    }
  }

  lemma NotAbove(p: seq<Pair>, k: nat, i: nat)
    requires Ascending(p) && k <= i < |p|
    ensures p[k].0 <= p[i].0
  {
  }

  /** The index is there exactly if it is at its place. */
  lemma Place(p: seq<Pair>, e: seq<real>, k: nat, index: real)
    requires |e| % 2 == 0 && p == Pairs(e) && Ascending(p) && Separates(p, k, index)
    ensures 2 * k <= |e| && (HasIndex(p, index) <==> 2 * k < |e| && e[2 * k] == index)
    ensures index in Contents(p) <==> 2 * k < |e| && e[2 * k] == index
    ensures 2 * k < |e| && e[2 * k] == index ==> Contents(p)[index] == e[2 * k + 1]
  {
    ContentsIs(p, index);
    if HasIndex(p, index) {
      var i :| 0 <= i < |p| && p[i].0 == index;
      NotAbove(p, k, i);
    }
    if k < |p| {
      assert p[k].0 == e[2 * k];
      ContentsHas(p, k);
    }
  }

  lemma Updates(e: seq<real>, k: nat, val: real)
    requires |e| % 2 == 0 && Ascending(Pairs(e)) && 2 * k < |e|
    ensures Ascending(Pairs(e[2 * k + 1 := val])) && Contents(Pairs(e[2 * k + 1 := val]))
            == Contents(Pairs(e))[e[2 * k] := val]
  {
    hide Contents, Ascending;
    PairsOfUpdate(e, k, val);
    ContentsOfUpdate(Pairs(e), k, val);
  }

  lemma Inserts(e: seq<real>, k: nat, index: real, val: real)
    requires |e| % 2 == 0 && Ascending(Pairs(e)) && Separates(Pairs(e), k, index) && !HasIndex(Pairs(e), index)
    ensures var e' := e[..2 * k] + [index, val] + e[2 * k..];
            Ascending(Pairs(e')) && Contents(Pairs(e')) == Contents(Pairs(e))[index := val]
  {
    hide Contents, Ascending;
    assert k <= |Pairs(e)|;
    PairsOfInsertion(e, k, index, val);
    InsertionAscends(Pairs(e), k, index, val);
    ContentsOfInsertion(Pairs(e), k, index, val);
  }

  // ----- The dot product -----

  /** The sum of the products over the shared indexes, taken along the first vector. */
  ghost function Products(p: seq<Pair>, other: map<real, real>): real {
    if p == [] then 0.0
    else (if p[0].0 in other then p[0].1 * other[p[0].0] else 0.0) + Products(p[1..], other)
  }

  /** What the merge has passed in the second vector is below what is left of the first. */
  ghost predicate Merging(p: seq<Pair>, q: seq<Pair>, k: nat, l: nat) {
    k < |p| ==> forall i :: 0 <= i < l && i < |q| ==> q[i].0 < p[k].0
  }

  lemma MergeStarts(p: seq<Pair>, q: seq<Pair>)
    ensures Merging(p, q, 0, 0)
  {
  }

  lemma MergingAdvances(p: seq<Pair>, q: seq<Pair>, k: nat, l: nat)
    requires Ascending(p) && Ascending(q) && k < |p| && l < |q| && Merging(p, q, k, l)
    ensures Merging(p, q, k + 1, l)
    ensures p[k].0 > q[l].0 ==> Merging(p, q, k, l + 1)
    ensures p[k].0 == q[l].0 ==> Merging(p, q, k + 1, l + 1)
  {
    assert k + 1 < |p| ==> p[k].0 < p[k + 1].0;
  }

  lemma NotShared(p: seq<Pair>, q: seq<Pair>, k: nat, l: nat)
    requires Ascending(q) && k < |p| && l < |q| && Merging(p, q, k, l) && p[k].0 < q[l].0
    ensures p[k].0 !in Contents(q)
  {
    ContentsIs(q, p[k].0);
    forall i | 0 <= i < |q| ensures q[i].0 != p[k].0 {
      if l < i { assert q[l].0 < q[i].0; }
    }
  }

  lemma MergeStep(p: seq<Pair>, q: seq<Pair>, k: nat, l: nat)
    requires Ascending(p) && Ascending(q) && k < |p| && l < |q| && Merging(p, q, k, l)
    ensures Merging(p, q, k + 1, l)
    ensures p[k].0 < q[l].0 ==> Products(p[k..], Contents(q)) == Products(p[k + 1..], Contents(q))
    ensures p[k].0 > q[l].0 ==> Merging(p, q, k, l + 1)
    ensures p[k].0 == q[l].0 ==> Merging(p, q, k + 1, l + 1)
    ensures p[k].0 == q[l].0 ==> Products(p[k..], Contents(q)) == p[k].1 * q[l].1 + Products(p[k + 1..], Contents(q))
  {
    hide Ascending, Contents, Merging;
    assert p[k..][0] == p[k] && p[k..][1..] == p[k + 1..];
    MergingAdvances(p, q, k, l);
    if p[k].0 < q[l].0 { NotShared(p, q, k, l); }
    if p[k].0 == q[l].0 { ContentsHas(q, l); }
  }

  lemma {:induction false} MergeEnds(p: seq<Pair>, q: seq<Pair>, k: nat, l: nat)
    requires Ascending(p) && Ascending(q) && k <= |p| && l <= |q| && Merging(p, q, k, l) && (k == |p| || l == |q|)
    ensures Products(p[k..], Contents(q)) == 0.0
    decreases |p| - k
  {
    if k < |p| {
      ContentsIs(q, p[k].0);
      assert p[k..][1..] == p[k + 1..];
      assert k + 1 < |p| ==> p[k].0 < p[k + 1].0;
      MergeEnds(p, q, k + 1, l);
    }
  }

  /** Only what the other map says of the vector's own indexes matters. */
  lemma {:induction false} ProductsAgree(p: seq<Pair>, m: map<real, real>, m': map<real, real>)
    requires forall i :: 0 <= i < |p| ==> (p[i].0 in m <==> p[i].0 in m') && (p[i].0 in m ==> m[p[i].0] == m'[p[i].0])
    ensures Products(p, m) == Products(p, m')
  {
    if p != [] {
      ProductsAgree(p[1..], m, m');
    }
  }

  lemma {:induction false} ContentsOfTail(p: seq<Pair>)
    requires Ascending(p) && p != []
    ensures Ascending(p[1..]) && Contents(p) == Contents(p[1..])[p[0].0 := p[0].1]
  {
    var n := |p| - 1;
    if n > 0 {
      ContentsOfTail(p[..n]);
      assert p[..n][1..] == p[1..][..n - 1];
      assert p[0].0 < p[n].0;
    }
  }

  /** An index below all of a vector's own does not matter. */
  lemma LowIndexDoesNotMatter(p: seq<Pair>, q: seq<Pair>)
    requires Ascending(p) && p != [] && forall i :: 0 <= i < |q| ==> p[0].0 < q[i].0
    ensures Products(q, Contents(p)) == Products(q, Contents(p[1..]))
  {
    ContentsOfTail(p);
    ProductsAgree(q, Contents(p), Contents(p[1..]));
  }

  lemma AboveTheFirst(p: seq<Pair>, x: real)
    requires Ascending(p) && (p != [] ==> x < p[0].0)
    ensures (forall i :: 0 <= i < |p| ==> x < p[i].0) && x !in Contents(p)
  {
    ContentsIs(p, x);
    forall i | 0 <= i < |p| ensures x < p[i].0 {
      assert i > 0 ==> p[0].0 < p[i].0;
    }
  }

  /** The dot product is the same both ways. */
  lemma {:induction false} DotIsCommutative(p: seq<Pair>, q: seq<Pair>)
    requires Ascending(p) && Ascending(q)
    ensures Products(p, Contents(q)) == Products(q, Contents(p))
    decreases |p| + |q|
  {
    if p == [] {
      NothingShared(q);
    } else if q == [] {
      NothingShared(p);
    } else {
      hide Contents, Ascending;
      ContentsOfTail(p);
      ContentsOfTail(q);
      if p[0].0 < q[0].0 {
        AboveTheFirst(q, p[0].0);
        LowIndexDoesNotMatter(p, q);
        DotIsCommutative(p[1..], q);
      } else if q[0].0 < p[0].0 {
        AboveTheFirst(p, q[0].0);
        LowIndexDoesNotMatter(q, p);
        DotIsCommutative(p, q[1..]);
      } else {
        FirstIsBelow(p);
        FirstIsBelow(q);
        LowIndexDoesNotMatter(q, p[1..]);
        LowIndexDoesNotMatter(p, q[1..]);
        DotIsCommutative(p[1..], q[1..]);
      }
    }
  }

  lemma FirstIsBelow(p: seq<Pair>)
    requires Ascending(p) && p != []
    ensures forall i :: 0 <= i < |p[1..]| ==> p[0].0 < p[1..][i].0
  {
  }

  lemma {:induction false} NothingShared(p: seq<Pair>)
    ensures Products(p, map[]) == 0.0
  {
    if p != [] { NothingShared(p[1..]); }
  }
}
