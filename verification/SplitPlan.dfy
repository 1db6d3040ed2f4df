/** Preparing split rows and planning one round of table splits. */
module SplitPlan {
  import opened Bytes
  import opened Wrappers
  import opened Tablets

  // ---- The caller's rows ----

  datatype InvalidSplit = NoRows | EmptyRow

  function InsertRow(rows: seq<Bytes>, row: Bytes): seq<Bytes> {
    if rows == [] then [row]
    else
      var front, last := rows[..|rows| - 1], rows[|rows| - 1];
      if Less(row, last) then InsertRow(front, row) + [last] else rows + [row]
  }

  function SortedRows(rows: seq<Bytes>): seq<Bytes> {
    if rows == [] then [] else InsertRow(SortedRows(rows[..|rows| - 1]), rows[|rows| - 1])
  }

  function Deduplicated(rows: seq<Bytes>): seq<Bytes> {
    if rows == [] then []
    else
      var kept, last := Deduplicated(rows[..|rows| - 1]), rows[|rows| - 1];
      if kept != [] && kept[|kept| - 1] == last then kept else kept + [last]
  }

  function NormalizedRows(splits: seq<Bytes>): Result<seq<Bytes>, InvalidSplit> {
    if splits == [] then Err(NoRows)
    else if [] in splits then Err(EmptyRow)
    else Ok(Deduplicated(SortedRows(splits)))
  }

  /** normalizeSplitRows, over a private copy; sort.Slice is modelled by what it yields. */
  method NormalizeSplitRows(splits: seq<Bytes>) returns (r: Result<seq<Bytes>, InvalidSplit>)
    ensures r == NormalizedRows(splits)
  {
    if |splits| == 0 { return Err(NoRows); }
    for i := 0 to |splits|
      invariant [] !in splits[..i]
    {
      if |splits[i]| == 0 {
        assert splits[i] == [];
        return Err(EmptyRow);
      }
      assert splits[..i + 1] == splits[..i] + [splits[i]];
    }
    assert splits[..|splits|] == splits;
    var sorted := SortedRows(splits);
    var rows := new Bytes[|sorted|](i requires 0 <= i < |sorted| => sorted[i]);
    assert rows[..] == sorted;
    var length := CompactRows(rows);
    return Ok(rows[..length]);
  }

  /** Drops repeats of the row kept last, within the slice. */
  method CompactRows(rows: array<Bytes>) returns (length: nat)
    modifies rows
    ensures length <= rows.Length && rows[..length] == Deduplicated(old(rows[..]))
  {
    hide Deduplicated;
    length := 0;
    ghost var before := rows[..];
    DeduplicatedNothing();
    for index := 0 to rows.Length
      invariant length <= index && (index > 0 ==> length > 0)
      invariant rows[..length] == Deduplicated(before[..index])
      invariant rows[index..] == before[index..]
    {
      DeduplicatedSnoc(before[..index], before[index]);
      assert before[..index + 1] == before[..index] + [before[index]];
      assert rows[index] == rows[index..][0] == before[index];
      assert length > 0 ==> rows[length - 1] == rows[..length][length - 1];
      if index == 0 || rows[length - 1] != rows[index] {
        rows[length] := rows[index];
        length := length + 1;
      }
      assert rows[index + 1..] == before[index + 1..];
    }
    assert before[..rows.Length] == before;
  }

  lemma DeduplicatedSnoc(rows: seq<Bytes>, row: Bytes)
    ensures var kept := Deduplicated(rows);
            Deduplicated(rows + [row]) == if kept != [] && kept[|kept| - 1] == row then kept else kept + [row]
  {
    var all := rows + [row];
    assert all[..|all| - 1] == rows && all[|all| - 1] == row;
  }

  lemma DeduplicatedNothing()
    ensures Deduplicated([]) == []
  {
  }

  predicate Ascending(rows: seq<Bytes>) {
    forall i, j :: 0 <= i < j < |rows| ==> AtMost(rows[i], rows[j])
  }

  lemma {:induction false} InsertRowSorts(rows: seq<Bytes>, row: Bytes)
    requires Ascending(rows)
    ensures Ascending(InsertRow(rows, row))
    ensures forall x :: x in InsertRow(rows, row) <==> x in rows || x == row
  {
    if rows != [] {
      var front, last := rows[..|rows| - 1], rows[|rows| - 1];
      assert rows == front + [last];
      CompareAntisymmetric(row, last);
      if Less(row, last) {
        InsertRowSorts(front, row);
        var inner := InsertRow(front, row);
        forall i | 0 <= i < |inner| ensures AtMost(inner[i], last) {
          assert inner[i] in inner;
        }
      } else {
        forall i | 0 <= i < |rows| ensures AtMost(rows[i], row) {
          if i < |rows| - 1 { CompareTransitive(rows[i], last, row); }
        }
      }
    }
  }

  lemma {:induction false} SortedRowsAscend(rows: seq<Bytes>)
    ensures Ascending(SortedRows(rows))
    ensures forall x :: x in SortedRows(rows) <==> x in rows
  {
    if rows != [] {
      SortedRowsAscend(rows[..|rows| - 1]);
      InsertRowSorts(SortedRows(rows[..|rows| - 1]), rows[|rows| - 1]);
      assert rows == rows[..|rows| - 1] + [rows[|rows| - 1]];
    }
  }

  lemma {:induction false} DeduplicatedStrict(rows: seq<Bytes>)
    requires Ascending(rows)
    ensures StrictlySorted(Deduplicated(rows))
    ensures forall x :: x in Deduplicated(rows) <==> x in rows
    ensures rows != [] ==> Deduplicated(rows) != [] && Deduplicated(rows)[|Deduplicated(rows)| - 1] == rows[|rows| - 1]
  {
    hide Compare;
    if rows != [] {
      var n := |rows| - 1;
      DeduplicatedStrict(rows[..n]);
      assert rows == rows[..n] + [rows[n]];
      var kept := Deduplicated(rows[..n]);
      if kept != [] {
        assert kept[|kept| - 1] in rows[..n];
        AppendStrict(kept, rows[n]);
      }
    }
  }

  lemma AppendStrict(rows: seq<Bytes>, row: Bytes)
    requires StrictlySorted(rows) && rows != [] && AtMost(rows[|rows| - 1], row)
    ensures row != rows[|rows| - 1] ==> StrictlySorted(rows + [row])
  {
    var top := rows[|rows| - 1];
    forall i | 0 <= i < |rows| - 1 ensures Less(rows[i], row) {
      CompareTransitive(rows[i], top, row);
    }
  }

  /** The rows are accepted unless there are none or one is empty; they come out strictly ascending,
      the same rows. */
  lemma NormalizedRowsAre(splits: seq<Bytes>)
    ensures NormalizedRows(splits).Ok? <==> splits != [] && forall row :: row in splits ==> row != []
    ensures NormalizedRows(splits).Ok? ==>
              var rows := NormalizedRows(splits).value;
              StrictlySorted(rows) && forall row :: row in rows <==> row in splits
  {
    SortedRowsAscend(splits);
    DeduplicatedStrict(SortedRows(splits));
  }

  // ---- Dropping completed rows ----

  function Without(pending: seq<Bytes>, completed: seq<Bytes>): seq<Bytes> {
    if pending == [] then []
    else
      Without(pending[..|pending| - 1], completed)
      + if pending[|pending| - 1] in completed then [] else [pending[|pending| - 1]]
  }

  /** removeSplitRows, within the slice that holds the first `length` rows. */
  method RemoveSplitRows(pending: array<Bytes>, length: nat, completed: seq<Bytes>) returns (remaining: nat)
    requires length <= pending.Length
    modifies pending
    ensures remaining <= length && pending[..remaining] == Without(old(pending[..length]), completed)
  {
    ghost var before := pending[..length];
    if |completed| == 0 || length == 0 {
      WithoutNothing(before);
      if length == 0 { assert before == []; }
      return length;
    }
    var done: set<Bytes> := {};
    for i := 0 to |completed|
      invariant forall row :: row in done <==> row in completed[..i]
    {
      assert completed[..i + 1] == completed[..i] + [completed[i]];
      done := done + {completed[i]};
    }
    assert completed[..|completed|] == completed;
    remaining := 0;
    for index := 0 to length
      invariant remaining <= index
      invariant pending[..remaining] == Without(before[..index], completed)
      invariant forall i :: index <= i < length ==> pending[i] == before[i]
    {
      assert before[..index + 1][..index] == before[..index];
      if pending[index] !in done {
        pending[remaining] := pending[index];
        remaining := remaining + 1;
        assert pending[..remaining] == pending[..remaining - 1] + [before[index]];
      }
    }
    assert before[..length] == before;
  }

  lemma {:induction false} WithoutNothing(pending: seq<Bytes>)
    ensures Without(pending, []) == pending
  {
    if pending != [] {
      WithoutNothing(pending[..|pending| - 1]);
      assert pending == pending[..|pending| - 1] + [pending[|pending| - 1]];
    }
  }

  lemma {:induction false} WithoutIsFilter(pending: seq<Bytes>, completed: seq<Bytes>)
    ensures forall row :: row in Without(pending, completed) <==> row in pending && row !in completed
    ensures StrictlySorted(pending) ==> StrictlySorted(Without(pending, completed))
  {
    if pending != [] {
      var front, last := pending[..|pending| - 1], pending[|pending| - 1];
      assert pending == front + [last];
      WithoutIsFilter(front, completed);
      var kept := Without(front, completed);
      if StrictlySorted(pending) {
        forall i | 0 <= i < |kept| ensures Less(kept[i], last) {
          assert kept[i] in front;
          var k :| 0 <= k < |front| && front[k] == kept[i];
          assert pending[k] == front[k];
        }
      }
    }
  }

  /** Dropping rows twice drops both lots. */
  lemma {:induction false} WithoutTwice(pending: seq<Bytes>, a: seq<Bytes>, b: seq<Bytes>)
    ensures Without(Without(pending, a), b) == Without(pending, a + b)
  {
    if pending != [] {
      var front, last := pending[..|pending| - 1], pending[|pending| - 1];
      WithoutTwice(front, a, b);
      var kept := Without(front, a);
      assert (kept + [last])[..|kept|] == kept;
      assert kept + [] == kept;
    }
  }

  // ---- Planning ----

  /** The rows to split one tablet at; `index` is the tablet's place in the list. */
  datatype Group = Group(index: nat, extent: Extent, rows: seq<Bytes>)

  datatype Existing = Existing(index: nat, extent: Extent)

  datatype Plan = Plan(groups: seq<Group>, existing: seq<Existing>, unresolved: seq<Bytes>)

  /** Where a row goes: no tablet holds it, it is a tablet's end row already, or it lies inside one. */
  datatype Place = Nowhere | AtEnd(index: nat) | Inside(index: nat)

  function PlaceOf(tablets: seq<Extent>, row: Bytes): Place {
    var index := FindTablet(tablets, row);
    if index < 0 then Nowhere
    else if tablets[index].end == Some(row) then AtEnd(index)
    else Inside(index)
  }

  function AddToGroups(groups: seq<Group>, index: nat, extent: Extent, row: Bytes): seq<Group> {
    if groups == [] then [Group(index, extent, [row])]
    else if groups[0].index == index then [groups[0].(rows := groups[0].rows + [row])] + groups[1..]
    else [groups[0]] + AddToGroups(groups[1..], index, extent, row)
  }

  function AddRow(tablets: seq<Extent>, plan: Plan, row: Bytes): Plan {
    match PlaceOf(tablets, row)
    case Nowhere => plan.(unresolved := plan.unresolved + [row])
    case AtEnd(index) =>
      if Existing(index, tablets[index]) in plan.existing then plan
      else plan.(existing := plan.existing + [Existing(index, tablets[index])])
    case Inside(index) => plan.(groups := AddToGroups(plan.groups, index, tablets[index], row))
  }

  function PlanRows(tablets: seq<Extent>, pending: seq<Bytes>): Plan {
    if pending == [] then Plan([], [], [])
    else AddRow(tablets, PlanRows(tablets, pending[..|pending| - 1]), pending[|pending| - 1])
  }

  /** The pending rows with a given place, in order. */
  function RowsAt(tablets: seq<Extent>, pending: seq<Bytes>, place: Place): seq<Bytes> {
    if pending == [] then []
    else
      RowsAt(tablets, pending[..|pending| - 1], place)
      + if PlaceOf(tablets, pending[|pending| - 1]) == place then [pending[|pending| - 1]] else []
  }

  function GroupRows(groups: seq<Group>, index: nat): seq<Bytes> {
    if groups == [] then []
    else if groups[0].index == index then groups[0].rows
    else GroupRows(groups[1..], index)
  }

  ghost predicate DistinctGroups(tablets: seq<Extent>, groups: seq<Group>) {
    && (forall i, j :: 0 <= i < j < |groups| ==> groups[i].index != groups[j].index)
    && (forall i :: 0 <= i < |groups| ==>
          groups[i].index < |tablets| && groups[i].extent == tablets[groups[i].index] && groups[i].rows != [])
  }

  lemma {:induction false} AddToGroupsRows(groups: seq<Group>, index: nat, extent: Extent, row: Bytes, other: nat)
    ensures GroupRows(AddToGroups(groups, index, extent, row), other)
            == GroupRows(groups, other) + if other == index then [row] else []
  {
    if groups != [] && groups[0].index != index { AddToGroupsRows(groups[1..], index, extent, row, other); }
  }

  lemma AddToGroupsDistinct(tablets: seq<Extent>, groups: seq<Group>, index: nat, row: Bytes)
    requires index < |tablets| && DistinctGroups(tablets, groups)
    ensures DistinctGroups(tablets, AddToGroups(groups, index, tablets[index], row))
  {
    hide AddToGroups;
    if i :| 0 <= i < |groups| && groups[i].index == index {
      AddToGroupsAt(groups, index, tablets[index], row, i);
    } else {
      AddToGroupsAt(groups, index, tablets[index], row, |groups|);
    }
  }

  /** The rows that are end rows already each name their tablet once. */
  ghost predicate NamesOnce(tablets: seq<Extent>, existing: seq<Existing>) {
    && (forall i, j :: 0 <= i < j < |existing| ==> existing[i].index != existing[j].index)
    && (forall e :: e in existing ==> e.index < |tablets| && e.extent == tablets[e.index])
  }

  /** Every row goes to its place and nowhere else: each group is the subsequence of rows inside its
      tablet, the unresolved rows are those no tablet holds, and the existing extents are those some
      row ends, each once. */
  lemma {:induction false} PlanPlaces(tablets: seq<Extent>, pending: seq<Bytes>, index: nat)
    ensures var plan := PlanRows(tablets, pending);
            && DistinctGroups(tablets, plan.groups)
            && GroupRows(plan.groups, index) == RowsAt(tablets, pending, Inside(index))
            && plan.unresolved == RowsAt(tablets, pending, Nowhere)
            && NamesOnce(tablets, plan.existing)
            && ((exists e :: e in plan.existing && e.index == index) <==> RowsAt(tablets, pending, AtEnd(index)) != [])
  {
    hide PlaceOf, FindTablet, DistinctGroups, NamesOnce, AddToGroups, GroupRows;
    NothingPlanned(tablets, index);
    if pending != [] {
      var n := |pending| - 1;
      var plan, place := PlanRows(tablets, pending[..n]), PlaceOf(tablets, pending[n]);
      PlanPlaces(tablets, pending[..n], index);
      PlacedInRange(tablets, pending[n]);
      match place
      case Nowhere =>
      case AtEnd(i) => NameOnce(tablets, plan.existing, i, index);
      case Inside(i) =>
        AddToGroupsRows(plan.groups, i, tablets[i], pending[n], index);
        AddToGroupsDistinct(tablets, plan.groups, i, pending[n]);
    }
  }

  lemma NothingPlanned(tablets: seq<Extent>, index: nat)
    ensures DistinctGroups(tablets, []) && NamesOnce(tablets, []) && GroupRows([], index) == []
  {
  }

  lemma PlacedInRange(tablets: seq<Extent>, row: Bytes)
    ensures var place := PlaceOf(tablets, row);
            && (place.AtEnd? ==> place.index < |tablets| && tablets[place.index].end == Some(row))
            && (place.Inside? ==> place.index < |tablets| && ContainsRow(tablets[place.index], row)
                                  && tablets[place.index].end != Some(row))
  {
  }

  lemma NameOnce(tablets: seq<Extent>, existing: seq<Existing>, i: nat, index: nat)
    requires NamesOnce(tablets, existing) && i < |tablets|
    ensures var e := Existing(i, tablets[i]);
            var existing' := if e in existing then existing else existing + [e];
            && NamesOnce(tablets, existing')
            && ((exists x :: x in existing' && x.index == index) <==> i == index || exists x :: x in existing && x.index == index)
  {
    var e := Existing(i, tablets[i]);
    if e !in existing {
      forall k | 0 <= k < |existing| ensures existing[k].index != i {
        assert existing[k] in existing;
      }
      assert e in existing + [e];
      assert forall x :: x in existing ==> x in existing + [e];
    }
  }

  lemma {:induction false} RowsAtIsFilter(tablets: seq<Extent>, pending: seq<Bytes>, place: Place)
    ensures forall row :: row in RowsAt(tablets, pending, place) <==> row in pending && PlaceOf(tablets, row) == place
    ensures StrictlySorted(pending) ==> StrictlySorted(RowsAt(tablets, pending, place))
  {
    hide PlaceOf, FindTablet;
    if pending != [] {
      var front, last := pending[..|pending| - 1], pending[|pending| - 1];
      assert pending == front + [last];
      RowsAtIsFilter(tablets, front, place);
      var kept := RowsAt(tablets, front, place);
      if StrictlySorted(pending) {
        forall i | 0 <= i < |kept| ensures Less(kept[i], last) {
          assert kept[i] in front;
          var k :| 0 <= k < |front| && front[k] == kept[i];
          assert pending[k] == front[k];
        }
      }
    }
  }

  /** The rows of a group ascend strictly inside their tablet: after its start, before its end row. */
  lemma GroupsAscendInside(tablets: seq<Extent>, pending: seq<Bytes>, i: nat)
    requires StrictlySorted(pending) && i < |PlanRows(tablets, pending).groups|
    ensures var group := PlanRows(tablets, pending).groups[i];
            && StrictlySorted(group.rows)
            && forall row :: row in group.rows ==>
                 row in pending && ContainsRow(group.extent, row) && (group.extent.end.Some? ==> Less(row, group.extent.end.value))
  {
    hide PlanRows, ContainsRow, PlaceOf, FindTablet, StrictlySorted;
    var groups := PlanRows(tablets, pending).groups;
    var group := groups[i];
    PlanPlaces(tablets, pending, group.index);
    ListedGroup(tablets, groups, i);
    RowsAtIsFilter(tablets, pending, Inside(group.index));
    forall row | row in group.rows
      ensures row in pending && ContainsRow(group.extent, row) && (group.extent.end.Some? ==> Less(row, group.extent.end.value))
    {
      PlacedInRange(tablets, row);
      BelowEnd(group.extent, row);
    }
  }

  lemma BelowEnd(extent: Extent, row: Bytes)
    requires ContainsRow(extent, row) && extent.end != Some(row)
    ensures extent.end.Some? ==> Less(row, extent.end.value)
  {
  }

  lemma {:induction false} ListedGroup(tablets: seq<Extent>, groups: seq<Group>, i: nat)
    requires DistinctGroups(tablets, groups) && i < |groups|
    ensures GroupRows(groups, groups[i].index) == groups[i].rows
  {
    if i > 0 { ListedGroup(tablets, groups[1..], i - 1); }
  }

  /** On a sorted tablet list a row's place is given by the one tablet that holds it. */
  lemma PlaceIsTheTablet(tablets: seq<Extent>, row: Bytes, i: nat)
    requires SortedExtents(tablets) && i < |tablets|
    ensures ContainsRow(tablets[i], row)
            <==> PlaceOf(tablets, row) == if tablets[i].end == Some(row) then AtEnd(i) else Inside(i)
  {
    FindAgreesWithLinear(tablets, row);
  }

  lemma {:induction false} AddToGroupsAt(groups: seq<Group>, index: nat, extent: Extent, row: Bytes, i: nat)
    requires i <= |groups| && (i < |groups| ==> groups[i].index == index)
    requires forall j :: 0 <= j < i ==> groups[j].index != index
    ensures AddToGroups(groups, index, extent, row)
            == if i == |groups| then groups + [Group(index, extent, [row])]
               else groups[i := groups[i].(rows := groups[i].rows + [row])]
  {
    if i > 0 {
      AddToGroupsAt(groups[1..], index, extent, row, i - 1);
      assert groups == [groups[0]] + groups[1..];
    }
  }

  ghost predicate Positions(groups: seq<Group>, positions: map<nat, nat>) {
    && (forall t :: t in positions ==> positions[t] < |groups| && groups[positions[t]].index == t)
    && (forall g :: 0 <= g < |groups| ==> groups[g].index in positions && positions[groups[g].index] == g)
  }

  method AddToGroup(groups: seq<Group>, positions: map<nat, nat>, index: nat, extent: Extent, row: Bytes)
    returns (groups': seq<Group>, positions': map<nat, nat>)
    requires Positions(groups, positions)
    ensures groups' == AddToGroups(groups, index, extent, row) && Positions(groups', positions')
  {
    hide AddToGroups;
    if index in positions {
      var g := positions[index];
      AddToGroupsAt(groups, index, extent, row, g);
      return groups[g := groups[g].(rows := groups[g].rows + [row])], positions;
    }
    AddToGroupsAt(groups, index, extent, row, |groups|);
    return groups + [Group(index, extent, [row])], positions[index := |groups|];
  }

  ghost predicate Seen(tablets: seq<Extent>, existing: seq<Existing>, seen: set<nat>) {
    && (forall t :: t in seen ==> t < |tablets| && Existing(t, tablets[t]) in existing)
    && (forall e :: e in existing ==> e.index in seen)
  }

  /** planTableSplits, with a map from tablet index to group and the set of tablets already listed. */
  method PlanTableSplits(tablets: seq<Extent>, pending: seq<Bytes>) returns (plan: Plan)
    ensures plan == PlanRows(tablets, pending)
  {
    hide AddToGroups, FindTablet, ContainsRow, Positions;
    var groups: seq<Group>, existing: seq<Existing>, unresolved: seq<Bytes> := [], [], [];
    var positions: map<nat, nat>, seen: set<nat> := map[], {};
    NoPositions();
    for n := 0 to |pending|
      invariant PlanRows(tablets, pending[..n]) == Plan(groups, existing, unresolved)
      invariant Positions(groups, positions) && Seen(tablets, existing, seen)
    {
      assert pending[..n + 1][..n] == pending[..n];
      var row := pending[n];
      var index := FindTablet(tablets, row);
      if index < 0 {
        unresolved := unresolved + [row];
      } else if tablets[index].end.Some? && tablets[index].end.value == row {
        if index !in seen {
          seen := seen + {index};
          existing := existing + [Existing(index, tablets[index])];
        }
      } else {
        groups, positions := AddToGroup(groups, positions, index, tablets[index], row);
      }
    }
    assert pending[..|pending|] == pending;
    return Plan(groups, existing, unresolved);
  }

  lemma NoPositions()
    ensures Positions([], map[])
  {
  }
}
