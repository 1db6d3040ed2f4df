/** Tablet extents, and finding the tablet that holds a row. */
module Tablets {
  import opened Bytes
  import opened Wrappers
  import opened SortSearch

  /** The rows after `prev` up to and including `end`; an absent bound is unbounded. */
  datatype Extent = Extent(prev: Option<Bytes>, end: Option<Bytes>)

  predicate ContainsRow(extent: Extent, row: Bytes) {
    && (extent.prev.Some? ==> !AtMost(row, extent.prev.value))
    && (extent.end.Some? ==> AtMost(row, extent.end.value))
  }

  predicate EndsAtOrAfter(extent: Extent, row: Bytes) {
    extent.end.Some? ==> AtMost(row, extent.end.value)
  }

  function Reaches(extents: seq<Extent>, row: Bytes): nat -> bool {
    (i: nat) => i < |extents| ==> EndsAtOrAfter(extents[i], row)
  }

  /** findSplitTablet and the locator's findContaining: bisect on end rows, then check the lower bound. */
  function FindTablet(extents: seq<Extent>, row: Bytes): (index: int)
    ensures -1 <= index < |extents|
    ensures index >= 0 ==> ContainsRow(extents[index], row)
  {
    var index := Search(Reaches(extents, row), 0, |extents|);
    if index == |extents| then -1
    else if extents[index].prev.Some? && AtMost(row, extents[index].prev.value) then -1
    else index
  }

  /** Ascending and non-overlapping, possibly with gaps; only the last extent may be unbounded. */
  ghost predicate SortedExtents(extents: seq<Extent>) {
    && (forall i :: 0 <= i < |extents| && extents[i].prev.Some? && extents[i].end.Some? ==>
          Less(extents[i].prev.value, extents[i].end.value))
    && (forall i, j :: 0 <= i < j < |extents| ==> Before(extents[i], extents[j]))
  }

  predicate Before(a: Extent, b: Extent) {
    a.end.Some? && b.prev.Some? && AtMost(a.end.value, b.prev.value)
  }

  /** The first extent that holds the row, looking at each in turn. */
  function LinearFind(extents: seq<Extent>, row: Bytes): int {
    if extents == [] then -1
    else if ContainsRow(extents[0], row) then 0
    else
      var rest := LinearFind(extents[1..], row);
      if rest < 0 then -1 else rest + 1
  }

  lemma {:induction false} LinearFindIsFirst(extents: seq<Extent>, row: Bytes)
    ensures var i := LinearFind(extents, row);
            && -1 <= i < |extents|
            && (i >= 0 ==> ContainsRow(extents[i], row))
            && (forall j :: 0 <= j < (if i < 0 then |extents| else i) ==> !ContainsRow(extents[j], row))
  {
    if extents != [] {
      LinearFindIsFirst(extents[1..], row);
      forall j | 0 < j < |extents| ensures extents[j] == extents[1..][j - 1] {}
    }
  }

  /** Once an extent ends at or after the row, later ones do too and start at or after it. */
  lemma EndsGrow(extents: seq<Extent>, row: Bytes, i: nat, j: nat)
    requires SortedExtents(extents) && i < j < |extents|
    requires EndsAtOrAfter(extents[i], row)
    ensures EndsAtOrAfter(extents[j], row) && !ContainsRow(extents[j], row)
  {
    assert Before(extents[i], extents[j]);
    var end, prev := extents[i].end.value, extents[j].prev.value;
    CompareTransitive(row, end, prev);
    if extents[j].end.Some? {
      CompareTransitive(row, prev, extents[j].end.value);
    }
  }

  /** On every sorted, non-overlapping tablet list bisection agrees with the linear search. */
  lemma FindAgreesWithLinear(extents: seq<Extent>, row: Bytes)
    requires SortedExtents(extents)
    ensures FindTablet(extents, row) == LinearFind(extents, row)
    ensures forall i :: 0 <= i < |extents| ==> (ContainsRow(extents[i], row) <==> i == FindTablet(extents, row))
  {
    hide EndsAtOrAfter, SortedExtents, Compare, ContainsRow;
    forall i: nat, j: nat | i < j < |extents| && EndsAtOrAfter(extents[i], row)
      ensures EndsAtOrAfter(extents[j], row) && !ContainsRow(extents[j], row)
    {
      EndsGrow(extents, row, i, j);
    }
    var index := Search(Reaches(extents, row), 0, |extents|);
    SearchIsLeast(Reaches(extents, row), 0, |extents|, index);
    forall i | 0 <= i < index ensures !ContainsRow(extents[i], row) {
      assert !Reaches(extents, row)(i);
      ContainingReaches(extents[i], row);
    }
    assert index < |extents| ==> Reaches(extents, row)(index);
    LinearFindIsFirst(extents, row);
    if index < |extents| { FoundOrNot(extents, row, index); }
  }

  lemma ContainingReaches(extent: Extent, row: Bytes)
    ensures ContainsRow(extent, row) ==> EndsAtOrAfter(extent, row)
  {
  }

  lemma FoundOrNot(extents: seq<Extent>, row: Bytes, index: nat)
    requires index == Search(Reaches(extents, row), 0, |extents|) < |extents|
    ensures ContainsRow(extents[index], row) <==> FindTablet(extents, row) == index
    ensures FindTablet(extents, row) == index || FindTablet(extents, row) == -1
  {
    assert Reaches(extents, row)(index);
  }

  /** A whole table: contiguous extents from the first row to the last. */
  ghost predicate Cover(extents: seq<Extent>) {
    && extents != []
    && extents[0].prev == None && extents[|extents| - 1].end == None
    && (forall i, j :: 0 <= i < j < |extents| && j == i + 1 ==> Adjacent(extents[i], extents[j]))
    && SortedExtents(extents)
  }

  predicate Adjacent(a: Extent, b: Extent) {
    a.end.Some? && b.prev == a.end
  }

  lemma {:induction false} CoverHoldsEveryRow(extents: seq<Extent>, row: Bytes, from: nat)
    requires Cover(extents) && from < |extents|
    requires extents[from].prev.Some? ==> !AtMost(row, extents[from].prev.value)
    ensures exists i :: from <= i < |extents| && ContainsRow(extents[i], row)
    decreases |extents| - from
  {
    if !ContainsRow(extents[from], row) {
      assert Adjacent(extents[from], extents[from + 1]);
      CoverHoldsEveryRow(extents, row, from + 1);
    }
  }

  /** In a whole table every row has its tablet. */
  lemma CoverFinds(extents: seq<Extent>, row: Bytes)
    requires Cover(extents)
    ensures FindTablet(extents, row) >= 0
  {
    CoverHoldsEveryRow(extents, row, 0);
    FindAgreesWithLinear(extents, row);
  }
}
