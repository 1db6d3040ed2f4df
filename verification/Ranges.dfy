/** Scan ranges: their bounds as keys, and cutting one at a tablet boundary. */
module Ranges {
  import opened Bytes
  import opened Wrappers
  import opened Keys
  import opened Tablets

  datatype Range = Range(
    startKey: Option<Key>, endKey: Option<Key>,
    startRowOnly: bool, endRowOnly: bool,
    startInclusive: bool, endInclusive: bool)

  datatype RangeError = EndPrecedesStart | DeletedBound | EmptyRow

  /** keyForRow: a row bound is stored as a key with nothing but the row. */
  function KeyForRow(row: Option<Bytes>): Option<Key> {
    match row
    case None => None
    case Some(bytes) => Some(Key(bytes, [], [], [], 0, false))
  }

  function NewRange(startRow: Option<Bytes>, startInclusive: bool, endRow: Option<Bytes>, endInclusive: bool)
    : Result<Range, RangeError>
  {
    if startRow.Some? && endRow.Some? && Less(endRow.value, startRow.value) then Err(EndPrecedesStart)
    else Ok(Range(KeyForRow(startRow), KeyForRow(endRow), startRow.Some?, endRow.Some?, startInclusive, endInclusive))
  }

  function NewKeyRange(start: Option<Key>, startInclusive: bool, end: Option<Key>, endInclusive: bool)
    : Result<Range, RangeError>
  {
    if (start.Some? && start.value.deleted) || (end.Some? && end.value.deleted) then Err(DeletedBound)
    else if start.Some? && end.Some? && KeyLess(end.value, start.value) then Err(EndPrecedesStart)
    else Ok(Range(start, end, false, false, startInclusive, endInclusive))
  }

  function NewRangeRow(row: Bytes): Result<Range, RangeError> {
    if row == [] then Err(EmptyRow) else NewRange(Some(row), true, Some(row), true)
  }

  const InfiniteRange: Range := Range(None, None, false, false, true, false)

  /** What every constructor establishes and every cut keeps. */
  predicate Constructed(r: Range) {
    && (r.startRowOnly ==> r.startKey.Some?)
    && (r.endRowOnly ==> r.endKey.Some?)
    && (r.startKey.Some? ==> !r.startKey.value.deleted)
    && (r.endKey.Some? ==> !r.endKey.value.deleted)
  }

  lemma ConstructorsConstruct(a: Option<Bytes>, b: bool, c: Option<Bytes>, d: bool, start: Option<Key>,
      end: Option<Key>)
    ensures NewRange(a, b, c, d).Ok? ==> Constructed(NewRange(a, b, c, d).value)
    ensures NewKeyRange(start, b, end, d).Ok? ==> Constructed(NewKeyRange(start, b, end, d).value)
    ensures Constructed(InfiniteRange)
  {
  }

  /** firstKeyOfRow: the row's first key, or that of the row right after it. */
  function FirstKeyOfRow(row: Bytes, following: bool): Key {
    FirstKey(if following then Successor(row) else row)
  }

  /** effectiveStart and effectiveEnd: the bound as a key, and whether it is included. */
  function EffectiveStart(r: Range): (Option<Key>, bool) {
    if r.startKey.None? then (None, r.startInclusive)
    else if r.startRowOnly then (Some(FirstKeyOfRow(r.startKey.value.row, !r.startInclusive)), true)
    else (r.startKey, r.startInclusive)
  }

  function EffectiveEnd(r: Range): (Option<Key>, bool) {
    if r.endKey.None? then (None, r.endInclusive)
    else if r.endRowOnly then (Some(FirstKeyOfRow(r.endKey.value.row, r.endInclusive)), false)
    else (r.endKey, r.endInclusive)
  }

  predicate AfterEndKey(r: Range, k: Key) {
    var (end, inclusive) := EffectiveEnd(r);
    end.Some? && if inclusive then KeyLess(end.value, k) else KeyAtMost(end.value, k)
  }

  predicate BeforeStartKey(r: Range, k: Key) {
    var (start, inclusive) := EffectiveStart(r);
    start.Some? && if inclusive then KeyLess(k, start.value) else KeyAtMost(k, start.value)
  }

  predicate Contains(r: Range, k: Key) {
    !BeforeStartKey(r, k) && !AfterEndKey(r, k)
  }

  // ---- What constructed ranges hold ----

  /** A range of rows is refused exactly when its end row precedes its start row; else it holds exactly the
      live keys of the rows between its bounds, each included or not as asked. */
  lemma NewRangeHolds(start: Option<Bytes>, startInclusive: bool, end: Option<Bytes>, endInclusive: bool, k: Key)
    ensures var made := NewRange(start, startInclusive, end, endInclusive);
            && (made.Err? <==> start.Some? && end.Some? && Less(end.value, start.value))
            && (made.Err? ==> made.error == EndPrecedesStart)
            && (made.Ok? && !k.deleted ==>
                  (Contains(made.value, k) <==>
                     && (start.Some? ==> if startInclusive then AtMost(start.value, k.row) else Less(start.value, k.row))
                     && (end.Some? ==> if endInclusive then AtMost(k.row, end.value) else Less(k.row, end.value))))
  {
    hide CompareKeys, Compare;
    if start.Some? && !k.deleted { RowBoundSplits(start.value, k); }
    if end.Some? && !k.deleted { RowBoundSplits(end.value, k); }
    BoundKeysAreSplit(start, startInclusive, end, endInclusive, k);
  }

  /** The order of a key and a bound, read from either side. */
  lemma BoundKeysAreSplit(start: Option<Bytes>, startInclusive: bool, end: Option<Bytes>, endInclusive: bool, k: Key)
    ensures start.Some? ==> var bound := FirstKeyOfRow(start.value, !startInclusive); KeyLess(k, bound) <==> !KeyAtMost(bound, k)
    ensures end.Some? ==> var bound := FirstKeyOfRow(end.value, endInclusive); KeyAtMost(bound, k) <==> !KeyLess(k, bound)
    ensures start.Some? ==> (Less(start.value, k.row) <==> !AtMost(k.row, start.value))
    ensures end.Some? ==> (Less(k.row, end.value) <==> !AtMost(end.value, k.row))
  {
    if start.Some? {
      KeysAntisymmetric(k, FirstKeyOfRow(start.value, !startInclusive));
      CompareAntisymmetric(start.value, k.row);
    }
    if end.Some? {
      KeysAntisymmetric(k, FirstKeyOfRow(end.value, endInclusive));
      CompareAntisymmetric(end.value, k.row);
    }
  }

  lemma RowBoundSplits(row: Bytes, k: Key)
    requires !k.deleted
    ensures KeyLess(k, FirstKeyOfRow(row, false)) <==> Less(k.row, row)
    ensures KeyAtMost(FirstKeyOfRow(row, false), k) <==> AtMost(row, k.row)
    ensures KeyLess(k, FirstKeyOfRow(row, true)) <==> AtMost(k.row, row)
    ensures KeyAtMost(FirstKeyOfRow(row, true), k) <==> Less(row, k.row)
  {
    hide CompareKeys;
    FirstKeySplitsRows(row, k);
    FirstKeySplitsRows(Successor(row), k);
    SuccessorIsNext(row, k.row);
    CompareAntisymmetric(row, k.row);
    CompareAntisymmetric(Successor(row), k.row);
    KeysAntisymmetric(FirstKey(row), k);
    KeysAntisymmetric(FirstKey(Successor(row)), k);
  }

  /** A range of keys is refused exactly when a bound is a deletion marker or its end precedes its start; else
      it holds exactly the keys between its bounds, each included or not as asked. */
  lemma NewKeyRangeHolds(start: Option<Key>, startInclusive: bool, end: Option<Key>, endInclusive: bool, k: Key)
    ensures var made := NewKeyRange(start, startInclusive, end, endInclusive);
            var marker := (start.Some? && start.value.deleted) || (end.Some? && end.value.deleted);
            && (made == Err(DeletedBound) <==> marker)
            && (made == Err(EndPrecedesStart) <==> !marker && start.Some? && end.Some? && KeyLess(end.value, start.value))
            && (made.Err? ==> made.error.DeletedBound? || made.error.EndPrecedesStart?)
            && (made.Ok? ==>
                  (Contains(made.value, k) <==>
                     && (start.Some? ==> if startInclusive then KeyAtMost(start.value, k) else KeyLess(start.value, k))
                     && (end.Some? ==> if endInclusive then KeyAtMost(k, end.value) else KeyLess(k, end.value))))
  {
    if start.Some? { KeysAntisymmetric(start.value, k); }
    if end.Some? { KeysAntisymmetric(end.value, k); }
  }

  /** One row holds exactly its live keys, and is refused when empty; the infinite range holds every key. */
  lemma NewRangeRowHolds(row: Bytes, k: Key)
    ensures NewRangeRow(row).Err? <==> row == []
    ensures row == [] ==> NewRangeRow(row).error == EmptyRow
    ensures row != [] && !k.deleted ==> (Contains(NewRangeRow(row).value, k) <==> k.row == row)
    ensures Contains(InfiniteRange, k)
  {
    NewRangeHolds(Some(row), true, Some(row), true, k);
    CompareAntisymmetric(row, k.row);
    CompareAntisymmetric(row, row);
  }

  /** The row whose tablet the scan starts in; an unbounded start routes by the empty row. */
  function RoutingRow(r: Range): Bytes {
    match r.startKey
    case None => []
    case Some(key) => if r.startInclusive || !r.startRowOnly then key.row else Successor(key.row)
  }

  predicate FitsTablet(r: Range, extent: Extent) {
    if r.endKey.None? then extent.end.None?
    else if extent.end.None? then true
    else
      var rangeStop := if r.endInclusive then Successor(r.endKey.value.row) else r.endKey.value.row;
      AtMost(rangeStop, Successor(extent.end.value))
  }

  /** clipRangeToTablet when the range does not fit: everything up to the tablet's end row. */
  function Clipped(r: Range, extent: Extent): Range
    requires extent.end.Some?
  {
    r.(endKey := KeyForRow(extent.end), endRowOnly := true, endInclusive := true)
  }

  /** What planning goes on with: everything after the tablet's end row. */
  function Remaining(r: Range, extent: Extent): Range
    requires extent.end.Some?
  {
    r.(startKey := KeyForRow(extent.end), startRowOnly := true, startInclusive := false)
  }

  // ---- Cutting partitions the range ----

  /** The boundary a cut is made at: the first key of the row right after the tablet's end row. */
  function Boundary(extent: Extent): Key
    requires extent.end.Some?
  {
    FirstKeyOfRow(extent.end.value, true)
  }

  lemma StartIsBelowBoundary(r: Range, extent: Extent)
    requires Constructed(r) && extent.end.Some? && ContainsRow(extent, RoutingRow(r))
    ensures var start := EffectiveStart(r).0; start.Some? ==> KeyLess(start.value, Boundary(extent))
  {
    if r.startKey.Some? {
      SuccessorIsNext(extent.end.value, RoutingRow(r));
    }
  }

  lemma BoundaryIsBelowEnd(r: Range, extent: Extent)
    requires Constructed(r) && extent.end.Some? && !FitsTablet(r, extent)
    ensures var (end, inclusive) := EffectiveEnd(r);
            end.Some? ==> KeyAtMost(Boundary(extent), end.value) && (!inclusive ==> KeyLess(Boundary(extent), end.value))
  {
    if r.endKey.Some? {
      var row, stop := r.endKey.value.row, Successor(extent.end.value);
      CompareAntisymmetric(stop, row);
      CompareAntisymmetric(stop, Successor(row));
      FirstKeySplitsRows(stop, r.endKey.value);
      if r.endInclusive {
        SuccessorMonotone(row, extent.end.value);
        SuccessorIsNext(extent.end.value, row);
      }
    }
  }

  /** A cut splits the range's keys in two: those below the boundary and those from it on. */
  lemma CutSplits(r: Range, extent: Extent, k: Key)
    requires Constructed(r) && ContainsRow(extent, RoutingRow(r)) && !FitsTablet(r, extent)
    ensures extent.end.Some?
    ensures Constructed(Clipped(r, extent)) && Constructed(Remaining(r, extent))
    ensures Contains(Clipped(r, extent), k) <==> Contains(r, k) && KeyLess(k, Boundary(extent))
    ensures Contains(Remaining(r, extent), k) <==> Contains(r, k) && !KeyLess(k, Boundary(extent))
  {
    hide CompareKeys, Compare;
    var boundary := Boundary(extent);
    KeysAntisymmetric(boundary, k);
    StartIsBelowBoundary(r, extent);
    BoundaryIsBelowEnd(r, extent);
    var start, end := EffectiveStart(r).0, EffectiveEnd(r).0;
    if KeyLess(k, boundary) {
      if end.Some? {
        KeysTransitive(k, boundary, end.value);
        KeysAntisymmetric(k, end.value);
      }
    } else if start.Some? {
      KeysTransitive(start.value, boundary, k);
      KeysAntisymmetric(start.value, k);
    }
  }

  // ---- A planned segment lies in its tablet ----

  /** The one way a range that fits can reach past its tablet: an exclusive full-key end in the row right
      after the tablet's end row, above that row's first key. */
  predicate Overhangs(r: Range, extent: Extent) {
    && r.endKey.Some? && !r.endRowOnly && !r.endInclusive && extent.end.Some?
    && r.endKey.value.row == Successor(extent.end.value)
    && KeyLess(Boundary(extent), r.endKey.value)
  }

  lemma LowerSideInTablet(r: Range, extent: Extent, k: Key)
    requires Constructed(r) && ContainsRow(extent, RoutingRow(r)) && Contains(r, k)
    ensures extent.prev.Some? ==> !AtMost(k.row, extent.prev.value)
  {
    var row := RoutingRow(r);
    assert AtMost(row, k.row) by {
      if r.startKey.Some? {
        var start := EffectiveStart(r).0.value;
        KeysAntisymmetric(start, k);
        assert KeyAtMost(start, k);
        assert start.row == row;
      }
    }
    if extent.prev.Some? && AtMost(k.row, extent.prev.value) {
      CompareTransitive(row, k.row, extent.prev.value);
    }
  }

  lemma UpperSideInTablet(r: Range, extent: Extent, k: Key)
    requires Constructed(r) && FitsTablet(r, extent) && !Overhangs(r, extent) && Contains(r, k) && !k.deleted
    ensures extent.end.Some? ==> AtMost(k.row, extent.end.value)
  {
    if extent.end.Some? {
      var end, stop := EffectiveEnd(r).0.value, Successor(extent.end.value);
      var boundary := Boundary(extent);
      KeysAntisymmetric(end, k);
      assert KeyAtMost(k, end) && (!EffectiveEnd(r).1 ==> KeyLess(k, end));
      FirstKeySplitsRows(stop, k);
      SuccessorIsNext(extent.end.value, k.row);
      CompareAntisymmetric(stop, k.row);
      KeysAntisymmetric(boundary, k);
      if !Less(k.row, stop) {
        assert KeyAtMost(boundary, k);
        KeysTransitive(boundary, k, end);
        EndAtMostBoundary(r, extent);
        KeysAntisymmetric(end, boundary);
      }
    }
  }

  lemma EndAtMostBoundary(r: Range, extent: Extent)
    requires Constructed(r) && FitsTablet(r, extent) && !Overhangs(r, extent) && extent.end.Some?
    ensures var (end, inclusive) := EffectiveEnd(r);
            end.Some? && KeyAtMost(end.value, Boundary(extent)) && (inclusive ==> KeyLess(end.value, Boundary(extent)))
  {
    var row, stop := r.endKey.value.row, Successor(extent.end.value);
    KeysAntisymmetric(r.endKey.value, Boundary(extent));
    SuccessorMonotone(row, extent.end.value);
    SuccessorIsNext(extent.end.value, row);
    FirstKeySplitsRows(stop, r.endKey.value);
  }

  /** A range that starts in a tablet and fits it reads only that tablet's live keys, unless its end
      overhangs; and an overhanging end always reaches a live key outside. */
  lemma FittingRangeInTablet(r: Range, extent: Extent)
    requires Constructed(r) && ContainsRow(extent, RoutingRow(r)) && FitsTablet(r, extent)
    ensures (forall k :: Contains(r, k) && !k.deleted ==> ContainsRow(extent, k.row)) <==> !Overhangs(r, extent)
  {
    if Overhangs(r, extent) {
      OverhangWitness(r, extent);
    } else {
      forall k | Contains(r, k) && !k.deleted ensures ContainsRow(extent, k.row) {
        LowerSideInTablet(r, extent, k);
        UpperSideInTablet(r, extent, k);
      }
    }
  }

  lemma OverhangWitness(r: Range, extent: Extent)
    requires Constructed(r) && ContainsRow(extent, RoutingRow(r)) && Overhangs(r, extent)
    ensures Contains(r, Boundary(extent)) && !Boundary(extent).deleted && !ContainsRow(extent, Boundary(extent).row)
  {
    var boundary := Boundary(extent);
    StartIsBelowBoundary(r, extent);
    SuccessorIsNext(extent.end.value, boundary.row);
    CompareAntisymmetric(extent.end.value, boundary.row);
    KeysAntisymmetric(boundary, r.endKey.value);
    var start := EffectiveStart(r).0;
    if start.Some? { KeysAntisymmetric(start.value, boundary); }
  }

  /** A clipped range never overhangs and always fits. */
  lemma ClippedFits(r: Range, extent: Extent)
    requires extent.end.Some?
    ensures FitsTablet(Clipped(r, extent), extent) && !Overhangs(Clipped(r, extent), extent)
    ensures RoutingRow(Clipped(r, extent)) == RoutingRow(r)
  {
  }

  /** The ranges some tablet layout makes overhang: an exclusive full-key end past the first key of a row
      that ends in NUL, so that the row before it may be a tablet's last. */
  predicate MayOverhang(r: Range) {
    && r.endKey.Some? && !r.endRowOnly && !r.endInclusive
    && var row := r.endKey.value.row;
       && row != [] && row[|row| - 1] == 0
       && KeyLess(FirstKey(row), r.endKey.value)
       && AtMost(RoutingRow(r), row[..|row| - 1])
  }

  /** A range that starts in a tablet and overhangs it may overhang; what is left after a cut may only if
      the whole range may. */
  lemma OverhangingMay(r: Range, extent: Extent)
    requires ContainsRow(extent, RoutingRow(r)) && Overhangs(r, extent)
    ensures MayOverhang(r)
  {
    var row := r.endKey.value.row;
    assert row[..|row| - 1] == extent.end.value;
  }

  lemma RemainingMayOverhang(r: Range, extent: Extent)
    requires Constructed(r) && ContainsRow(extent, RoutingRow(r)) && !FitsTablet(r, extent)
    ensures MayOverhang(Remaining(r, extent)) ==> MayOverhang(r)
  {
    hide Compare, CompareKeys;
    CutSplits(r, extent, FirstKey([]));
    var remaining := Remaining(r, extent);
    if MayOverhang(remaining) {
      var last := r.endKey.value.row[..|r.endKey.value.row| - 1];
      SuccessorIsNext(extent.end.value, extent.end.value);
      CompareTransitive(RoutingRow(r), extent.end.value, RoutingRow(remaining));
      CompareTransitive(RoutingRow(r), RoutingRow(remaining), last);
    }
  }

  /** A range built from keys that may overhang. */
  lemma KeyRangeMayOverhang()
    ensures var made := NewKeyRange(None, true, Some(Key([1, 0], [1], [], [], 0, false)), false);
            made.Ok? && Constructed(made.value) && MayOverhang(made.value)
  {
  }

  // ---- Deletion markers ----

  /** The one key of the row right after a tablet that sorts before that row's first key. */
  function FirstMarker(extent: Extent): Key
    requires extent.end.Some?
  {
    Boundary(extent).(deleted := true)
  }

  lemma OnlyMarkerBelowFirstKey(k: Key)
    ensures KeyLess(k, FirstKey(k.row)) <==> k == FirstKey(k.row).(deleted := true)
  {
    CompareAntisymmetric(k.family, []);
    CompareAntisymmetric(k.qualifier, []);
    CompareAntisymmetric(k.visibility, []);
    KeysAntisymmetric(FirstKey(k.row), k);
  }

  /** Deletion markers included: a range that starts in a tablet, fits it and does not overhang holds at most
      one key of a row outside, the first marker of the row right after the tablet. */
  lemma OnlyFirstMarkerOutside(r: Range, extent: Extent, k: Key)
    requires Constructed(r) && ContainsRow(extent, RoutingRow(r)) && FitsTablet(r, extent) && !Overhangs(r, extent)
    requires Contains(r, k) && !ContainsRow(extent, k.row)
    ensures extent.end.Some? && EffectiveEnd(r).0 == Some(Boundary(extent)) && k == FirstMarker(extent)
  {
    hide FitsTablet, Overhangs;
    LowerSideInTablet(r, extent, k);
    EndAtMostBoundary(r, extent);
    var end, stop := EffectiveEnd(r).0.value, Successor(extent.end.value);
    var boundary := Boundary(extent);
    SuccessorIsNext(extent.end.value, k.row);
    CompareAntisymmetric(stop, k.row);
    KeysAntisymmetric(end, k);
    KeysAntisymmetric(boundary, k);
    KeysTransitive(k, end, boundary);
    FirstKeySplitsRows(stop, k);
    assert k.row == stop;
    OnlyMarkerBelowFirstKey(k);
    MarkerPrecedesFirstKey(k, end);
  }

  /** Nothing lies between a row's first marker and its first key. */
  lemma MarkerPrecedesFirstKey(k: Key, end: Key)
    requires k == FirstKey(k.row).(deleted := true)
    ensures KeyAtMost(k, end) && KeyAtMost(end, FirstKey(k.row)) ==> end == k || end == FirstKey(k.row)
  {
    KeysAntisymmetric(k, end);
    KeysAntisymmetric(end, FirstKey(k.row));
    CompareAntisymmetric(k.row, end.row);
    OnlyMarkerBelowFirstKey(end);
  }

  /** A range that ends at the tablet's boundary holds that marker. */
  lemma BoundaryHoldsMarker(r: Range, extent: Extent)
    requires Constructed(r) && ContainsRow(extent, RoutingRow(r)) && FitsTablet(r, extent) && extent.end.Some?
    requires EffectiveEnd(r).0 == Some(Boundary(extent))
    ensures Contains(r, FirstMarker(extent)) && !ContainsRow(extent, FirstMarker(extent).row)
  {
    var marker, boundary, stop := FirstMarker(extent), Boundary(extent), Successor(extent.end.value);
    SuccessorIsNext(extent.end.value, stop);
    CompareAntisymmetric(extent.end.value, stop);
    OnlyMarkerBelowFirstKey(marker);
    KeysAntisymmetric(marker, boundary);
    StartIsBelowBoundary(r, extent);
    var start := EffectiveStart(r).0;
    if start.Some? {
      KeysAntisymmetric(start.value, marker);
      MarkerPrecedesFirstKey(marker, start.value);
      KeysAntisymmetric(start.value, boundary);
    }
  }

  /** A range that starts in a tablet and fits it reads a key of a row outside, deletion markers included,
      exactly when it ends at the tablet's boundary or overhangs it. */
  lemma ReadsOutsideExactly(r: Range, extent: Extent)
    requires Constructed(r) && ContainsRow(extent, RoutingRow(r)) && FitsTablet(r, extent)
    ensures (exists k :: Contains(r, k) && !ContainsRow(extent, k.row))
            <==> extent.end.Some? && (EffectiveEnd(r).0 == Some(Boundary(extent)) || Overhangs(r, extent))
  {
    hide FitsTablet, Overhangs, Contains, ContainsRow;
    if k :| Contains(r, k) && !ContainsRow(extent, k.row) && !Overhangs(r, extent) {
      OnlyFirstMarkerOutside(r, extent, k);
    }
    if Overhangs(r, extent) {
      EndsBeforeEnd(r, extent);
      OverhangWitness(r, extent);
    } else if extent.end.Some? && EffectiveEnd(r).0 == Some(Boundary(extent)) {
      BoundaryHoldsMarker(r, extent);
    }
  }

  lemma EndsBeforeEnd(r: Range, extent: Extent)
    requires Overhangs(r, extent)
    ensures extent.end.Some?
  {
  }

  /** A tablet's own row-bounded range ends at its boundary, so it holds the next tablet's first marker. */
  lemma DeletedKeyOutside(row: Bytes)
    ensures var made, extent := NewRange(None, true, Some(row), true), Extent(None, Some(row));
            && made.Ok? && Constructed(made.value) && ContainsRow(extent, RoutingRow(made.value))
            && FitsTablet(made.value, extent) && !Overhangs(made.value, extent)
            && EffectiveEnd(made.value).0 == Some(Boundary(extent))
            && Contains(made.value, FirstMarker(extent)) && !ContainsRow(extent, FirstMarker(extent).row)
  {
    SuccessorIsNext(row, Successor(row));
    CompareAntisymmetric(row, Successor(row));
    CompareAntisymmetric([], row);
  }
}
