/** Tablet extents as values of their own: their order, and the range of rows each stands for. */
module TabletExtents {
  import opened Bytes
  import opened Wrappers
  import opened Keys
  import opened Tablets
  import opened Ranges

  datatype TabletExtent = TabletExtent(tableID: Bytes, extent: Extent)

  /** An absent end row is the largest. */
  function CompareUpperBound(left: Option<Bytes>, right: Option<Bytes>): int {
    if left.None? then (if right.None? then 0 else 1)
    else if right.None? then -1
    else Compare(left.value, right.value)
  }

  /** An absent previous end row is the smallest. */
  function CompareLowerBound(left: Option<Bytes>, right: Option<Bytes>): int {
    if left.None? then (if right.None? then 0 else -1)
    else if right.None? then 1
    else Compare(left.value, right.value)
  }

  /** TabletExtent.Compare: by table, then end row, then previous end row. */
  function CompareExtents(e: TabletExtent, other: TabletExtent): int {
    if e.tableID != other.tableID then Compare(e.tableID, other.tableID)
    else if CompareUpperBound(e.extent.end, other.extent.end) != 0 then CompareUpperBound(e.extent.end, other.extent.end)
    else CompareLowerBound(e.extent.prev, other.extent.prev)
  }

  lemma BoundsAreOrdered(a: Option<Bytes>, b: Option<Bytes>, c: Option<Bytes>)
    ensures CompareUpperBound(a, b) == -CompareUpperBound(b, a) && CompareLowerBound(a, b) == -CompareLowerBound(b, a)
    ensures (CompareUpperBound(a, b) == 0 <==> a == b) && (CompareLowerBound(a, b) == 0 <==> a == b)
    ensures CompareUpperBound(a, b) < 0 && CompareUpperBound(b, c) < 0 ==> CompareUpperBound(a, c) < 0
    ensures CompareLowerBound(a, b) < 0 && CompareLowerBound(b, c) < 0 ==> CompareLowerBound(a, c) < 0
  {
    hide Compare;
    if a.Some? && b.Some? {
      CompareAntisymmetric(a.value, b.value);
      if c.Some? && AtMost(a.value, b.value) && AtMost(b.value, c.value) { CompareTransitive(a.value, b.value, c.value); }
    }
  }

  /** The order is total: antisymmetric, zero only on the same extent, transitive. */
  lemma ExtentsAreOrdered(a: TabletExtent, b: TabletExtent, c: TabletExtent)
    ensures CompareExtents(a, b) == -CompareExtents(b, a)
    ensures CompareExtents(a, b) == 0 <==> a == b
    ensures CompareExtents(a, b) < 0 && CompareExtents(b, c) < 0 ==> CompareExtents(a, c) < 0
  {
    hide Compare, CompareUpperBound, CompareLowerBound;
    CompareAntisymmetric(a.tableID, b.tableID);
    if AtMost(a.tableID, b.tableID) && AtMost(b.tableID, c.tableID) { CompareTransitive(a.tableID, b.tableID, c.tableID); }
    BoundsAreOrdered(a.extent.end, b.extent.end, c.extent.end);
    BoundsAreOrdered(a.extent.prev, b.extent.prev, c.extent.prev);
    BoundsAreOrdered(b.extent.end, c.extent.end, a.extent.end);
  }

  /** The first part that differs decides: the table, then the end row, of which a missing one is the largest,
      then the previous end row, of which a missing one is the smallest. */
  lemma FirstPartDecides(e: TabletExtent, other: TabletExtent)
    ensures CompareExtents(e, other) < 0 <==>
              if e.tableID != other.tableID then Less(e.tableID, other.tableID)
              else if e.extent.end != other.extent.end then
                e.extent.end.Some? && (other.extent.end.Some? ==> Less(e.extent.end.value, other.extent.end.value))
              else
                other.extent.prev.Some? && (e.extent.prev.Some? ==> Less(e.extent.prev.value, other.extent.prev.value))
  {
    CompareAntisymmetric(e.tableID, other.tableID);
  }

  /** The tablets of one table, listed without overlaps, ascend in this order. */
  lemma ListedExtentsAscend(tableID: Bytes, extents: seq<Extent>, i: nat, j: nat)
    requires SortedExtents(extents) && i < j < |extents|
    ensures CompareExtents(TabletExtent(tableID, extents[i]), TabletExtent(tableID, extents[j])) < 0
  {
    hide Compare;
    assert Before(extents[i], extents[j]);
    if extents[j].end.Some? {
      CompareTransitive(extents[i].end.value, extents[j].prev.value, extents[j].end.value);
    }
  }

  function ExtentRange(extent: Extent): Result<Range, RangeError> {
    NewRange(extent.prev, false, extent.end, true)
  }

  /** A tablet's range reads exactly the live keys of the rows the tablet holds. */
  lemma ExtentRangeReadsItsRows(extent: Extent, k: Key)
    requires ExtentRange(extent).Ok? && !k.deleted
    ensures Contains(ExtentRange(extent).value, k) <==> ContainsRow(extent, k.row)
  {
    NewRangeHolds(extent.prev, false, extent.end, true, k);
    if extent.prev.Some? { CompareAntisymmetric(extent.prev.value, k.row); }
  }
}
