/** Planning a batch scan: cutting ranges at tablet boundaries while tablets are located one at a time. */
module ScanPlan {
  import opened Bytes
  import opened Wrappers
  import opened Keys
  import opened Tablets
  import opened Ranges

  /** A tablet and the server it is assigned to, if any. */
  datatype Tablet = Tablet(extent: Extent, server: Option<string>)

  datatype Segment = Segment(routingRow: Bytes, tablet: Tablet, range: Range)

  datatype ScanError = NilRange | NoTabletCovers | Cancelled

  function Extents(tablets: seq<Tablet>): (extents: seq<Extent>)
    ensures |extents| == |tablets| && forall i :: 0 <= i < |tablets| ==> extents[i] == tablets[i].extent
  {
    seq(|tablets|, i requires 0 <= i < |tablets| => tablets[i].extent)
  }

  // ---- Locating tablets while they change ----

  /** locateTablet: every try sees the tablet list of its moment; an unassigned tablet is tried again, and
      running out of moments is the caller's context ending. */
  function LocateTablet(moments: seq<seq<Tablet>>, row: Bytes): (r: (Result<Tablet, ScanError>, seq<seq<Tablet>>))
    ensures |r.1| <= |moments|
    ensures r.0.Ok? ==> ContainsRow(r.0.value.extent, row) && r.0.value.server.Some? && |r.1| < |moments|
  {
    if moments == [] then (Err(Cancelled), [])
    else
      var index := FindTablet(Extents(moments[0]), row);
      if index < 0 then (Err(NoTabletCovers), moments[1..])
      else if moments[0][index].server.None? then LocateTablet(moments[1..], row)
      else (Ok(moments[0][index]), moments[1..])
  }

  /** At each of the first k moments some tablet holds the row, but none of them is assigned. */
  ghost predicate PassedOver(moments: seq<seq<Tablet>>, row: Bytes, k: nat) {
    k <= |moments| && forall i: nat :: i < k ==>
      var index := FindTablet(Extents(moments[i]), row);
      index >= 0 && moments[i][index].server.None?
  }

  /** Locating passes over the moments at which the tablet is unassigned, and ends at the first of the others:
      with its assigned tablet, or with none holding the row; or the moments run out. */
  lemma {:induction false} LocateExactly(moments: seq<seq<Tablet>>, row: Bytes) returns (k: nat)
    ensures PassedOver(moments, row, k)
    ensures k == |moments| ==> LocateTablet(moments, row) == (Err(Cancelled), [])
    ensures k < |moments| ==>
              var index := FindTablet(Extents(moments[k]), row);
              && (index < 0 ==> LocateTablet(moments, row) == (Err(NoTabletCovers), moments[k + 1..]))
              && (index >= 0 ==> moments[k][index].server.Some?
                                 && LocateTablet(moments, row) == (Ok(moments[k][index]), moments[k + 1..]))
  {
    hide FindTablet;
    k := 0;
    if moments != [] {
      var index := FindTablet(Extents(moments[0]), row);
      if index >= 0 && moments[0][index].server.None? {
        k := LocateExactly(moments[1..], row);
        forall i: nat | i < k + 1
          ensures var at := FindTablet(Extents(moments[i]), row); at >= 0 && moments[i][at].server.None?
        {
          assert i > 0 ==> moments[i] == moments[1..][i - 1];
        }
        k := k + 1;
      }
    }
  }

  class Locator {
    var moments: seq<seq<Tablet>>

    constructor (moments: seq<seq<Tablet>>)
      ensures this.moments == moments
    {
      this.moments := moments;
    }

    method Locate(row: Bytes) returns (r: Result<Tablet, ScanError>)
      modifies this
      ensures (r, moments) == LocateTablet(old(moments), row)
    {
      while moments != []
        invariant LocateTablet(moments, row) == LocateTablet(old(moments), row)
        decreases |moments|
      {
        var tablets := moments[0];
        moments := moments[1..];
        var index := FindTablet(Extents(tablets), row);
        if index < 0 { return Err(NoTabletCovers); }
        if tablets[index].server.Some? { return Ok(tablets[index]); }
      }
      return Err(Cancelled);
    }
  }

  // ---- Planning ----

  /** The segments of one range, and the moments left. */
  function PlanRange(r: Range, moments: seq<seq<Tablet>>): (plan: (Result<seq<Segment>, ScanError>, seq<seq<Tablet>>))
    ensures |plan.1| <= |moments|
    decreases |moments|
  {
    var row := RoutingRow(r);
    match LocateTablet(moments, row)
    case (Err(error), left) => (Err(error), left)
    case (Ok(tablet), left) =>
      if FitsTablet(r, tablet.extent) then (Ok([Segment(row, tablet, r)]), left)
      else
        match PlanRange(Remaining(r, tablet.extent), left)
        case (Err(error), after) => (Err(error), after)
        case (Ok(rest), after) => (Ok([Segment(row, tablet, Clipped(r, tablet.extent))] + rest), after)
  }

  /** planBatchScan over a list of ranges; an absent range is Go's nil. */
  function PlanRanges(ranges: seq<Option<Range>>, moments: seq<seq<Tablet>>)
    : (Result<seq<Segment>, ScanError>, seq<seq<Tablet>>)
  {
    if ranges == [] then (Ok([]), moments)
    else if ranges[0].None? then (Err(NilRange), moments)
    else
      match PlanRange(ranges[0].value, moments)
      case (Err(error), left) => (Err(error), left)
      case (Ok(first), left) =>
        match PlanRanges(ranges[1..], left)
        case (Err(error), after) => (Err(error), after)
        case (Ok(rest), after) => (Ok(first + rest), after)
  }

  /** Several ranges are planned one after the other; the first that is absent ends planning. */
  lemma {:induction false} PlanRangesStops(ranges: seq<Option<Range>>, moments: seq<seq<Tablet>>, i: nat)
    requires i <= |ranges| && forall k :: 0 <= k < i ==> ranges[k].Some?
    ensures i < |ranges| && ranges[i].None? && PlanRanges(ranges[..i], moments).0.Ok? ==>
              PlanRanges(ranges, moments).0 == Err(NilRange)
    ensures i == |ranges| ==> PlanRanges(ranges, moments).0 != Err(NilRange)
    decreases i
  {
    hide PlanRange;
    if ranges != [] && i > 0 {
      RangeIsThere(ranges[0].value, moments);
      assert ranges[..i][0] == ranges[0] && ranges[..i][1..] == ranges[1..][..i - 1];
      PlanRangesStops(ranges[1..], PlanRange(ranges[0].value, moments).1, i - 1);
    }
  }

  lemma {:induction false} RangeIsThere(r: Range, moments: seq<seq<Tablet>>)
    ensures PlanRange(r, moments).0 != Err(NilRange)
    decreases |moments|
  {
    var (located, left) := LocateTablet(moments, RoutingRow(r));
    var k := LocateExactly(moments, RoutingRow(r));
    if located.Ok? && !FitsTablet(r, located.value.extent) { RangeIsThere(Remaining(r, located.value.extent), left); }
  }

  function Prepend(segments: seq<Segment>, plan: (Result<seq<Segment>, ScanError>, seq<seq<Tablet>>))
    : (Result<seq<Segment>, ScanError>, seq<seq<Tablet>>)
  {
    match plan.0
    case Err(error) => plan
    case Ok(rest) => (Ok(segments + rest), plan.1)
  }

  lemma PrependTwice(a: seq<Segment>, b: seq<Segment>, plan: (Result<seq<Segment>, ScanError>, seq<seq<Tablet>>))
    ensures Prepend(a, Prepend(b, plan)) == Prepend(a + b, plan)
  {
    if plan.0.Ok? { assert a + (b + plan.0.value) == a + b + plan.0.value; }
  }

  lemma PlanRangesSteps(ranges: seq<Option<Range>>, moments: seq<seq<Tablet>>)
    ensures PlanRanges(ranges, moments)
            == if ranges == [] then (Ok([]), moments)
               else if ranges[0].None? then (Err(NilRange), moments)
               else PlanThen(ranges[0].value, ranges[1..], moments)
  {
  }

  /** One locate at a time: the plan goes on from what is left. */
  lemma PlanThenSteps(r: Range, later: seq<Option<Range>>, moments: seq<seq<Tablet>>)
    ensures var (located, left) := LocateTablet(moments, RoutingRow(r));
            PlanThen(r, later, moments)
            == match located
               case Err(error) => (Err(error), left)
               case Ok(tablet) =>
                 if FitsTablet(r, tablet.extent)
                 then Prepend([Segment(RoutingRow(r), tablet, r)], PlanRanges(later, left))
                 else Prepend([Segment(RoutingRow(r), tablet, Clipped(r, tablet.extent))],
                              PlanThen(Remaining(r, tablet.extent), later, left))
  {
    var (located, left) := LocateTablet(moments, RoutingRow(r));
    if located.Ok? && !FitsTablet(r, located.value.extent) {
      var plan := PlanRange(Remaining(r, located.value.extent), left);
      if plan.0.Ok? {
        PrependTwice([Segment(RoutingRow(r), located.value, Clipped(r, located.value.extent))], plan.0.value,
                     PlanRanges(later, plan.1));
      }
    }
  }

  method PlanBatchScan(locator: Locator, ranges: seq<Option<Range>>) returns (r: Result<seq<Segment>, ScanError>)
    modifies locator
    ensures (r, locator.moments) == PlanRanges(ranges, old(locator.moments))
  {
    var segments: seq<Segment> := [];
    hide PlanRange, PlanRanges, LocateTablet, ContainsRow, PlanThen;
    ghost var plan := PlanRanges(ranges, locator.moments);
    assert ranges[0..] == ranges;
    assert plan.0.Ok? ==> [] + plan.0.value == plan.0.value;
    for index := 0 to |ranges|
      invariant plan == Prepend(segments, PlanRanges(ranges[index..], locator.moments))
    {
      assert ranges[index..][0] == ranges[index] && ranges[index..][1..] == ranges[index + 1..];
      PlanRangesSteps(ranges[index..], locator.moments);
      if ranges[index].None? { return Err(NilRange); }
      var remaining := ranges[index].value;
      ghost var later := ranges[index + 1..];
      var done := false;
      while !done
        invariant !done ==> plan == Prepend(segments, PlanThen(remaining, later, locator.moments))
        invariant done ==> plan == Prepend(segments, PlanRanges(later, locator.moments))
        decreases !done, |locator.moments|
      {
        PlanThenSteps(remaining, later, locator.moments);
        var row := RoutingRow(remaining);
        var located := locator.Locate(row);
        if located.Err? { return Err(located.error); }
        var extent := located.value.extent;
        done := FitsTablet(remaining, extent);
        var segment := Segment(row, located.value, if done then remaining else Clipped(remaining, extent));
        PrependTwice(segments, [segment], if done then PlanRanges(later, locator.moments)
                                          else PlanThen(Remaining(remaining, extent), later, locator.moments));
        segments := segments + [segment];
        if !done { remaining := Remaining(remaining, extent); }
      }
    }
    assert ranges[|ranges|..] == [];
    PlanRangesSteps([], locator.moments);
    assert segments + [] == segments;
    return Ok(segments);
  }

  /** One range, then the others. */
  function PlanThen(r: Range, later: seq<Option<Range>>, moments: seq<seq<Tablet>>)
    : (Result<seq<Segment>, ScanError>, seq<seq<Tablet>>)
  {
    match PlanRange(r, moments)
    case (Err(error), left) => (Err(error), left)
    case (Ok(first), left) => Prepend(first, PlanRanges(later, left))
  }

  // ---- What is read ----

  ghost predicate SortedKeys(table: seq<Key>) {
    forall i, j :: 0 <= i < j < |table| ==> KeyLess(table[i], table[j])
  }

  /** The entries of a sorted table that fall in a range. */
  function Select(table: seq<Key>, r: Range): seq<Key> {
    if table == [] then []
    else (if Contains(r, table[0]) then [table[0]] else []) + Select(table[1..], r)
  }

  function SelectAll(table: seq<Key>, segments: seq<Segment>): seq<Key> {
    if segments == [] then [] else Select(table, segments[0].range) + SelectAll(table, segments[1..])
  }

  /** What a tablet's server returns for a segment: the tablet's own rows that fall in the range. */
  function TabletRead(table: seq<Key>, segment: Segment): seq<Key> {
    if table == [] then []
    else
      (if ContainsRow(segment.tablet.extent, table[0].row) && Contains(segment.range, table[0]) then [table[0]] else [])
      + TabletRead(table[1..], segment)
  }

  /** The concatenated results of a batch scan. */
  function ScanAll(table: seq<Key>, segments: seq<Segment>): seq<Key> {
    if segments == [] then [] else TabletRead(table, segments[0]) + ScanAll(table, segments[1..])
  }

  lemma {:induction false} SelectAllConcat(table: seq<Key>, a: seq<Segment>, b: seq<Segment>)
    ensures SelectAll(table, a + b) == SelectAll(table, a) + SelectAll(table, b)
  {
    hide Select;
    if a == [] {
      assert a + b == b;
    } else {
      SelectAllConcat(table, a[1..], b);
      assert (a + b)[1..] == a[1..] + b && (a + b)[0] == a[0];
      Regroup(Select(table, a[0].range), SelectAll(table, a[1..]), SelectAll(table, b));
    }
  }

  lemma Regroup(x: seq<Key>, y: seq<Key>, z: seq<Key>)
    ensures x + (y + z) == (x + y) + z
  {
  }

  /** A cut keeps what is read, in order. */
  lemma {:induction false} CutKeepsReads(table: seq<Key>, r: Range, extent: Extent)
    requires SortedKeys(table)
    requires Constructed(r) && ContainsRow(extent, RoutingRow(r)) && !FitsTablet(r, extent)
    ensures extent.end.Some?
    ensures Select(table, Clipped(r, extent)) + Select(table, Remaining(r, extent)) == Select(table, r)
  {
    CutSplits(r, extent, FirstKey([]));
    if table != [] {
      var k, rest := table[0], table[1..];
      CutSplits(r, extent, k);
      CutKeepsReads(rest, r, extent);
      if !KeyLess(k, Boundary(extent)) {
        NothingBelowBoundary(table, r, extent);
        NothingSelected(rest, Clipped(r, extent));
      }
      hide Contains, FitsTablet, ContainsRow, Constructed, CompareKeys, Clipped, Remaining;
      SelectSteps(k, rest, Select(rest, Clipped(r, extent)), Select(rest, Remaining(r, extent)),
                  Contains(Clipped(r, extent), k), Contains(Remaining(r, extent), k));
    }
  }

  lemma SelectSteps(k: Key, rest: seq<Key>, first: seq<Key>, second: seq<Key>, inFirst: bool, inSecond: bool)
    requires !(inFirst && inSecond) && (inSecond ==> first == [])
    ensures (if inFirst || inSecond then [k] else []) + (first + second)
            == ((if inFirst then [k] else []) + first) + ((if inSecond then [k] else []) + second)
  {
  }

  lemma NothingBelowBoundary(table: seq<Key>, r: Range, extent: Extent)
    requires SortedKeys(table) && table != []
    requires Constructed(r) && ContainsRow(extent, RoutingRow(r)) && !FitsTablet(r, extent)
    requires extent.end.Some? && !KeyLess(table[0], Boundary(extent))
    ensures forall i :: 0 <= i < |table[1..]| ==> !Contains(Clipped(r, extent), table[1..][i])
  {
    var k, rest := table[0], table[1..];
    forall i | 0 <= i < |rest| ensures !Contains(Clipped(r, extent), rest[i]) {
      CutSplits(r, extent, rest[i]);
      assert rest[i] == table[i + 1];
      KeysAntisymmetric(k, Boundary(extent));
      KeysTransitive(Boundary(extent), k, rest[i]);
      KeysAntisymmetric(rest[i], Boundary(extent));
    }
  }

  lemma {:induction false} NothingSelected(table: seq<Key>, r: Range)
    requires forall i :: 0 <= i < |table| ==> !Contains(r, table[i])
    ensures Select(table, r) == []
  {
    if table != [] { NothingSelected(table[1..], r); }
  }

  /** However tablets move or split while a range is planned, its segments together read exactly what the
      range reads, each entry once and in table order. */
  lemma {:induction false} PlanKeepsReads(r: Range, moments: seq<seq<Tablet>>, table: seq<Key>)
    requires Constructed(r) && PlanRange(r, moments).0.Ok? && SortedKeys(table)
    ensures SelectAll(table, PlanRange(r, moments).0.value) == Select(table, r)
    decreases |moments|
  {
    var (located, left) := LocateTablet(moments, RoutingRow(r));
    var tablet := located.value;
    if FitsTablet(r, tablet.extent) {
      assert SelectAll(table, [Segment(RoutingRow(r), tablet, r)]) == Select(table, r) + [];
    } else {
      CutSplits(r, tablet.extent, FirstKey([]));
      CutKeepsReads(table, r, tablet.extent);
      PlanKeepsReads(Remaining(r, tablet.extent), left, table);
      var rest := PlanRange(Remaining(r, tablet.extent), left).0.value;
      assert ([Segment(RoutingRow(r), tablet, Clipped(r, tablet.extent))] + rest)[1..] == rest;
    }
  }

  /** No two segments hold the key. */
  ghost predicate AtMostOne(segments: seq<Segment>, k: Key) {
    forall i, j :: 0 <= i < |segments| && 0 <= j < |segments| && i != j && Contains(segments[i].range, k) ==>
      !Contains(segments[j].range, k)
  }

  /** The segments partition the range: a key of the range is in exactly one of them, a key outside in
      none, and keys of earlier segments sort before keys of later ones. */
  lemma {:induction false} PlanPartitions(r: Range, moments: seq<seq<Tablet>>, k: Key)
    requires Constructed(r) && PlanRange(r, moments).0.Ok?
    ensures var segments := PlanRange(r, moments).0.value;
            && (Contains(r, k) <==> exists i :: 0 <= i < |segments| && Contains(segments[i].range, k))
            && AtMostOne(segments, k)
    decreases |moments|
  {
    var segments := PlanRange(r, moments).0.value;
    var (located, left) := LocateTablet(moments, RoutingRow(r));
    var extent := located.value.extent;
    if FitsTablet(r, extent) {
      assert segments[0].range == r;
    } else {
      CutSplits(r, extent, k);
      PlanPartitions(Remaining(r, extent), left, k);
      var rest := PlanRange(Remaining(r, extent), left).0.value;
      PartitionStep(r, Clipped(r, extent), Remaining(r, extent), segments, rest, k);
    }
  }

  lemma PartitionStep(r: Range, first: Range, remaining: Range, segments: seq<Segment>, rest: seq<Segment>, k: Key)
    requires segments != [] && segments[0].range == first && segments[1..] == rest
    requires Contains(r, k) <==> Contains(first, k) || Contains(remaining, k)
    requires !(Contains(first, k) && Contains(remaining, k))
    requires Contains(remaining, k) <==> exists i :: 0 <= i < |rest| && Contains(rest[i].range, k)
    requires AtMostOne(rest, k)
    ensures Contains(r, k) <==> exists i :: 0 <= i < |segments| && Contains(segments[i].range, k)
    ensures AtMostOne(segments, k)
  {
    hide Contains;
    assert forall i :: 0 < i < |segments| ==> segments[i] == rest[i - 1];
    if Contains(remaining, k) {
      var i :| 0 <= i < |rest| && Contains(rest[i].range, k);
      assert Contains(segments[i + 1].range, k);
    }
    if Contains(first, k) { assert Contains(segments[0].range, k); }
  }

  lemma {:induction false} PlanAscends(r: Range, moments: seq<seq<Tablet>>, i: nat, j: nat, k: Key, l: Key)
    requires Constructed(r) && PlanRange(r, moments).0.Ok?
    requires i < j < |PlanRange(r, moments).0.value|
    requires Contains(PlanRange(r, moments).0.value[i].range, k) && Contains(PlanRange(r, moments).0.value[j].range, l)
    ensures KeyLess(k, l)
    decreases |moments|
  {
    hide Contains, ContainsRow, Constructed, CompareKeys, LocateTablet, RoutingRow;
    var (located, left) := LocateTablet(moments, RoutingRow(r));
    var extent := located.value.extent;
    var remaining := Remaining(r, extent);
    var rest := PlanRange(remaining, left).0.value;
    CutSplits(r, extent, k);
    CutSplits(r, extent, l);
    assert PlanRange(r, moments).0.value == [Segment(RoutingRow(r), located.value, Clipped(r, extent))] + rest;
    if i > 0 {
      PlanAscends(remaining, left, i - 1, j - 1, k, l);
    } else {
      PlanPartitions(remaining, left, l);
      InRemaining(rest, j - 1, l);
      KeysAntisymmetric(l, Boundary(extent));
      KeysTransitive(k, Boundary(extent), l);
    }
  }

  lemma InRemaining(rest: seq<Segment>, j: nat, l: Key)
    requires j < |rest| && Contains(rest[j].range, l)
    ensures exists i :: 0 <= i < |rest| && Contains(rest[i].range, l)
  {
  }

  // ---- Termination over a fixed cover ----

  ghost predicate Located(tablets: seq<Tablet>) {
    Cover(Extents(tablets)) && forall i :: 0 <= i < |tablets| ==> tablets[i].server.Some?
  }

  /** Over a fixed, fully assigned table planning ends after at most one locate for each tablet. */
  lemma {:induction false} PlanTerminates(r: Range, tablets: seq<Tablet>, n: nat)
    requires Located(tablets) && Constructed(r)
    requires n >= |tablets| - FindTablet(Extents(tablets), RoutingRow(r))
    ensures var plan := PlanRange(r, seq(n, _ => tablets)).0;
            plan.Ok? && 1 <= |plan.value| <= |tablets| - FindTablet(Extents(tablets), RoutingRow(r))
    decreases n
  {
    hide Cover, FindTablet, FitsTablet, ContainsRow, Constructed;
    var extents := Extents(tablets);
    var row := RoutingRow(r);
    CoverFinds(extents, row);
    var i := FindTablet(extents, row);
    var moments := seq(n, _ => tablets);
    assert moments[1..] == seq(n - 1, _ => tablets);
    var extent := tablets[i].extent;
    assert LocateTablet(moments, row) == (Ok(tablets[i]), seq(n - 1, _ => tablets));
    if !FitsTablet(r, extent) {
      CutSplits(r, extent, FirstKey([]));
      LastIsUnbounded(extents, i);
      NextTablet(extents, i);
      PlanTerminates(Remaining(r, extent), tablets, n - 1);
    }
  }

  lemma LastIsUnbounded(extents: seq<Extent>, i: nat)
    requires Cover(extents) && i < |extents| && extents[i].end.Some?
    ensures i + 1 < |extents|
  {
  }

  /** The row right after a tablet's end row belongs to a later tablet. */
  lemma NextTablet(extents: seq<Extent>, i: nat)
    requires Cover(extents) && i + 1 < |extents| && extents[i].end.Some?
    ensures FindTablet(extents, Successor(extents[i].end.value)) > i
  {
    var row := Successor(extents[i].end.value);
    CoverFinds(extents, row);
    var j := FindTablet(extents, row);
    SuccessorIsNext(extents[i].end.value, row);
    CompareAntisymmetric(extents[i].end.value, row);
    if j < i {
      assert Before(extents[j], extents[i]);
      CompareTransitive(row, extents[j].end.value, extents[i].prev.value);
      assert Less(extents[i].prev.value, extents[i].end.value);
      CompareTransitive(row, extents[i].prev.value, extents[i].end.value);
    }
  }

  // ---- A batch scan equals filtering the table ----

  ghost predicate LiveTable(table: seq<Key>) {
    SortedKeys(table) && forall i :: 0 <= i < |table| ==> !table[i].deleted
  }

  ghost predicate OverhangingPlan(segments: seq<Segment>) {
    exists i :: 0 <= i < |segments| && Overhangs(segments[i].range, segments[i].tablet.extent)
  }

  lemma {:induction false} TabletReadIsSelect(table: seq<Key>, segment: Segment)
    requires LiveTable(table)
    requires forall k :: Contains(segment.range, k) && !k.deleted ==> ContainsRow(segment.tablet.extent, k.row)
    ensures TabletRead(table, segment) == Select(table, segment.range)
  {
    if table != [] {
      assert LiveTable(table[1..]);
      TabletReadIsSelect(table[1..], segment);
    }
  }

  /** Every planned segment starts in its tablet, is routed by that start, and fits. */
  lemma {:induction false} PlannedSegmentsFit(r: Range, moments: seq<seq<Tablet>>)
    requires Constructed(r) && PlanRange(r, moments).0.Ok?
    ensures forall segment :: segment in PlanRange(r, moments).0.value ==>
              Constructed(segment.range) && FitsTablet(segment.range, segment.tablet.extent)
              && ContainsRow(segment.tablet.extent, RoutingRow(segment.range))
              && segment.routingRow == RoutingRow(segment.range)
    decreases |moments|
  {
    var (located, left) := LocateTablet(moments, RoutingRow(r));
    var tablet := located.value;
    if !FitsTablet(r, tablet.extent) {
      CutSplits(r, tablet.extent, FirstKey([]));
      ClippedFits(r, tablet.extent);
      PlannedSegmentsFit(Remaining(r, tablet.extent), left);
    }
  }

  lemma {:induction false} ScanAllIsSelectAll(table: seq<Key>, segments: seq<Segment>)
    requires LiveTable(table) && !OverhangingPlan(segments)
    requires forall segment :: segment in segments ==>
               Constructed(segment.range) && FitsTablet(segment.range, segment.tablet.extent)
               && ContainsRow(segment.tablet.extent, RoutingRow(segment.range))
    ensures ScanAll(table, segments) == SelectAll(table, segments)
  {
    if segments != [] {
      assert segments[0] in segments;
      FittingRangeInTablet(segments[0].range, segments[0].tablet.extent);
      TabletReadIsSelect(table, segments[0]);
      forall i | 0 <= i < |segments[1..]|
        ensures !Overhangs(segments[1..][i].range, segments[1..][i].tablet.extent)
      {
        assert segments[1..][i] == segments[i + 1];
      }
      ScanAllIsSelectAll(table, segments[1..]);
    }
  }

  /** Reading every planned segment from its own tablet and concatenating returns, for every live table,
      exactly the table filtered by the range - if and only if no planned segment overhangs. */
  lemma ScanIsFilter(r: Range, moments: seq<seq<Tablet>>)
    requires Constructed(r) && PlanRange(r, moments).0.Ok?
    ensures var segments := PlanRange(r, moments).0.value;
            (forall table :: LiveTable(table) ==> ScanAll(table, segments) == Select(table, r))
            <==> !OverhangingPlan(segments)
  {
    hide PlanRange, LiveTable, Contains, Select, ScanAll, FitsTablet, ContainsRow, Constructed;
    var segments := PlanRange(r, moments).0.value;
    if OverhangingPlan(segments) {
      OverhangLosesKey(r, moments);
    } else {
      PlannedSegmentsFit(r, moments);
      forall table | LiveTable(table) ensures ScanAll(table, segments) == Select(table, r) {
        ScanAllIsSelectAll(table, segments);
        LiveIsSorted(table);
        PlanKeepsReads(r, moments, table);
      }
    }
  }

  /** However this range is planned, reading its segments is filtering the table. */
  ghost predicate PlansRead(r: Range) {
    forall moments :: PlanRange(r, moments).0.Ok? ==> PlanReads(r, PlanRange(r, moments).0.value)
  }

  ghost predicate PlanReads(r: Range, segments: seq<Segment>) {
    forall table :: LiveTable(table) ==> ScanAll(table, segments) == Select(table, r)
  }

  /** A range that cannot overhang has no overhanging plan. */
  lemma {:induction false} PlansStayInside(r: Range, moments: seq<seq<Tablet>>)
    requires Constructed(r) && !MayOverhang(r) && PlanRange(r, moments).0.Ok?
    ensures !OverhangingPlan(PlanRange(r, moments).0.value)
    decreases |moments|
  {
    hide MayOverhang, Overhangs, Constructed, ContainsRow;
    var segments := PlanRange(r, moments).0.value;
    var (located, left) := LocateTablet(moments, RoutingRow(r));
    var tablet := located.value;
    if FitsTablet(r, tablet.extent) {
      if Overhangs(r, tablet.extent) { OverhangingMay(r, tablet.extent); }
    } else {
      CutSplits(r, tablet.extent, FirstKey([]));
      ClippedFits(r, tablet.extent);
      RemainingMayOverhang(r, tablet.extent);
      PlansStayInside(Remaining(r, tablet.extent), left);
      var rest := PlanRange(Remaining(r, tablet.extent), left).0.value;
      assert segments[1..] == rest;
      forall i | 0 <= i < |segments| ensures !Overhangs(segments[i].range, segments[i].tablet.extent) {
        if i > 0 { assert segments[i] == rest[i - 1]; }
      }
    }
  }

  /** Nor does any of its planned segments' ranges become one that may overhang. */
  lemma {:induction false} PlannedRangesStayInside(r: Range, moments: seq<seq<Tablet>>)
    requires Constructed(r) && !MayOverhang(r) && PlanRange(r, moments).0.Ok?
    ensures forall segment :: segment in PlanRange(r, moments).0.value ==> !MayOverhang(segment.range)
    decreases |moments|
  {
    hide Constructed, ContainsRow, FitsTablet;
    var (located, left) := LocateTablet(moments, RoutingRow(r));
    var tablet := located.value;
    if !FitsTablet(r, tablet.extent) {
      CutSplits(r, tablet.extent, FirstKey([]));
      RemainingMayOverhang(r, tablet.extent);
      PlannedRangesStayInside(Remaining(r, tablet.extent), left);
    }
  }

  /** A table of two tablets with the given boundary, both assigned. */
  function TwoTablets(row: Bytes): seq<Tablet> {
    [Tablet(Extent(None, Some(row)), Some("")), Tablet(Extent(Some(row), None), Some(""))]
  }

  lemma TwoTabletsCover(row: Bytes, other: Bytes)
    ensures Cover(Extents(TwoTablets(row)))
    ensures FindTablet(Extents(TwoTablets(row)), other) == if AtMost(other, row) then 0 else 1
  {
    CompareAntisymmetric(row, row);
    var extents := Extents(TwoTablets(row));
    assert extents == [Extent(None, Some(row)), Extent(Some(row), None)];
    assert ContainsRow(extents[0], other) <==> AtMost(other, row);
    FindAgreesWithLinear(extents, other);
    CoverFinds(extents, other);
  }

  /** A range that may overhang does so on a table split right before the row of its end. */
  lemma SomePlanOverhangs(r: Range) returns (moments: seq<seq<Tablet>>)
    requires Constructed(r) && MayOverhang(r)
    ensures PlanRange(r, moments).0.Ok? && OverhangingPlan(PlanRange(r, moments).0.value)
  {
    var row := r.endKey.value.row;
    var last := row[..|row| - 1];
    assert row == Successor(last);
    moments := [TwoTablets(last)];
    TwoTabletsCover(last, RoutingRow(r));
    var tablet := TwoTablets(last)[0];
    assert LocateTablet(moments, RoutingRow(r)) == (Ok(tablet), moments[1..]);
    assert FitsTablet(r, tablet.extent);
    var segments := PlanRange(r, moments).0.value;
    assert segments == [Segment(RoutingRow(r), tablet, r)];
    assert Overhangs(segments[0].range, segments[0].tablet.extent);
  }

  /** A caller can tell from the range alone: every plan of it reads exactly its live keys if and only if
      its end is not one that may overhang. */
  lemma EveryScanIsFilter(r: Range)
    requires Constructed(r)
    ensures PlansRead(r) <==> !MayOverhang(r)
  {
    hide PlanRange, MayOverhang, OverhangingPlan, LiveTable, ScanAll, Select, Constructed;
    if MayOverhang(r) {
      var moments := SomePlanOverhangs(r);
      ScanIsFilter(r, moments);
      assert !PlanReads(r, PlanRange(r, moments).0.value);
    } else {
      forall moments | PlanRange(r, moments).0.Ok? ensures PlanReads(r, PlanRange(r, moments).0.value) {
        PlansStayInside(r, moments);
        ScanIsFilter(r, moments);
      }
    }
  }

  /** Row-bounded ranges, and ranges whose end is included or absent, are always read exactly. */
  lemma RowBoundedScansFilter(r: Range, moments: seq<seq<Tablet>>, table: seq<Key>)
    requires Constructed(r) && (r.endRowOnly || r.endInclusive || r.endKey.None?)
    requires PlanRange(r, moments).0.Ok? && LiveTable(table)
    ensures ScanAll(table, PlanRange(r, moments).0.value) == Select(table, r)
  {
    hide PlanRange, LiveTable, ScanAll, Select, Constructed;
    EveryScanIsFilter(r);
    assert PlanReads(r, PlanRange(r, moments).0.value);
  }

  /** A range built from keys, a plan of it and a live table whose scan is not the filtered table. */
  lemma KeyRangeLosesKey() returns (r: Range, moments: seq<seq<Tablet>>, table: seq<Key>)
    ensures NewKeyRange(None, true, Some(Key([1, 0], [1], [], [], 0, false)), false) == Ok(r)
    ensures PlanRange(r, moments).0.Ok? && LiveTable(table)
    ensures ScanAll(table, PlanRange(r, moments).0.value) != Select(table, r)
  {
    hide PlanRange, LiveTable, ScanAll, Select, MayOverhang, Constructed, OverhangingPlan;
    KeyRangeMayOverhang();
    r := NewKeyRange(None, true, Some(Key([1, 0], [1], [], [], 0, false)), false).value;
    moments := SomePlanOverhangs(r);
    OverhangLosesKey(r, moments);
    table :| LiveTable(table) && ScanAll(table, PlanRange(r, moments).0.value) != Select(table, r);
  }

  lemma LiveIsSorted(table: seq<Key>)
    requires LiveTable(table)
    ensures SortedKeys(table)
  {
  }

  lemma OverhangLosesKey(r: Range, moments: seq<seq<Tablet>>)
    requires Constructed(r) && PlanRange(r, moments).0.Ok? && OverhangingPlan(PlanRange(r, moments).0.value)
    ensures exists table :: LiveTable(table) && ScanAll(table, PlanRange(r, moments).0.value) != Select(table, r)
  {
    hide PlanRange, Constructed;
    var segments := PlanRange(r, moments).0.value;
    PlannedSegmentsFit(r, moments);
    var i :| 0 <= i < |segments| && Overhangs(segments[i].range, segments[i].tablet.extent);
    assert segments[i] in segments;
    OverhangWitness(segments[i].range, segments[i].tablet.extent);
    var k := Boundary(segments[i].tablet.extent);
    PlanPartitions(r, moments, k);
    OnlySegmentReads(segments, i, k);
    assert LiveTable([k]);
    assert Select([k], r) == [k] + Select([k][1..], r);
  }

  lemma {:induction false} OnlySegmentReads(segments: seq<Segment>, i: nat, k: Key)
    requires i < |segments| && !ContainsRow(segments[i].tablet.extent, k.row)
    requires forall j :: 0 <= j < |segments| && j != i ==> !Contains(segments[j].range, k)
    ensures ScanAll([k], segments) == []
  {
    forall j | 0 <= j < |segments|
      ensures !(ContainsRow(segments[j].tablet.extent, k.row) && Contains(segments[j].range, k)) {}
    NothingScanned(segments, k);
  }

  lemma {:induction false} NothingScanned(segments: seq<Segment>, k: Key)
    requires forall j :: 0 <= j < |segments| ==>
               !(ContainsRow(segments[j].tablet.extent, k.row) && Contains(segments[j].range, k))
    ensures ScanAll([k], segments) == []
  {
    if segments != [] {
      assert TabletRead([k], segments[0]) == [] + TabletRead([k][1..], segments[0]);
      NothingScanned(segments[1..], k);
    }
  }
}
