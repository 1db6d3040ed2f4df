/** Grouping segments by server for multi-scan sessions, and matching what a session reports as failed. */
module MultiScan {
  import opened Bytes
  import opened Wrappers
  import opened Keys
  import opened Tablets
  import opened Ranges
  import opened ScanPlan

  // ---- Grouping ----

  datatype Group = Group(address: string, segments: seq<Segment>)

  predicate Assigned(segments: seq<Segment>) {
    forall s :: s in segments ==> s.tablet.server.Some?
  }

  function AddToGroups(groups: seq<Group>, address: string, segment: Segment): seq<Group> {
    if groups == [] then [Group(address, [segment])]
    else if groups[0].address == address then [Group(address, groups[0].segments + [segment])] + groups[1..]
    else [groups[0]] + AddToGroups(groups[1..], address, segment)
  }

  function GroupsOf(segments: seq<Segment>): seq<Group>
    requires Assigned(segments)
  {
    if segments == [] then []
    else
      var last := segments[|segments| - 1];
      AddToGroups(GroupsOf(segments[..|segments| - 1]), last.tablet.server.value, last)
  }

  /** The segments on one server, in order. */
  function OnServer(segments: seq<Segment>, address: string): seq<Segment> {
    if segments == [] then []
    else
      OnServer(segments[..|segments| - 1], address)
      + if segments[|segments| - 1].tablet.server == Some(address) then [segments[|segments| - 1]] else []
  }

  function Grouped(groups: seq<Group>, address: string): seq<Segment> {
    if groups == [] then []
    else if groups[0].address == address then groups[0].segments
    else Grouped(groups[1..], address)
  }

  ghost predicate DistinctGroups(groups: seq<Group>) {
    && (forall i, j :: 0 <= i < j < |groups| ==> groups[i].address != groups[j].address)
    && (forall i :: 0 <= i < |groups| ==> groups[i].segments != [])
  }

  lemma {:induction false} AddToGroupsAt(groups: seq<Group>, address: string, segment: Segment, i: nat)
    requires i <= |groups| && (i < |groups| ==> groups[i].address == address)
    requires forall j :: 0 <= j < i ==> groups[j].address != address
    ensures AddToGroups(groups, address, segment)
            == if i == |groups| then groups + [Group(address, [segment])]
               else groups[i := Group(address, groups[i].segments + [segment])]
  {
    if i > 0 {
      AddToGroupsAt(groups[1..], address, segment, i - 1);
      assert groups == [groups[0]] + groups[1..];
    }
  }

  lemma {:induction false} AddToGroupsSteps(groups: seq<Group>, address: string, segment: Segment, other: string)
    ensures Grouped(AddToGroups(groups, address, segment), other)
            == Grouped(groups, other) + if other == address then [segment] else []
  {
    if groups != [] && groups[0].address != address { AddToGroupsSteps(groups[1..], address, segment, other); }
  }

  lemma AddToGroupsDistinct(groups: seq<Group>, address: string, segment: Segment)
    requires DistinctGroups(groups)
    ensures DistinctGroups(AddToGroups(groups, address, segment))
  {
    hide AddToGroups;
    if i :| 0 <= i < |groups| && groups[i].address == address {
      AddToGroupsAt(groups, address, segment, i);
    } else {
      AddToGroupsAt(groups, address, segment, |groups|);
    }
  }

  /** Every server has one group: exactly its segments, in order. */
  lemma {:induction false} GroupsPartition(segments: seq<Segment>, address: string)
    requires Assigned(segments)
    ensures DistinctGroups(GroupsOf(segments)) && Grouped(GroupsOf(segments), address) == OnServer(segments, address)
  {
    if segments != [] {
      hide AddToGroups, Grouped, DistinctGroups;
      var front, last := segments[..|segments| - 1], segments[|segments| - 1];
      GroupsPartition(front, address);
      AddToGroupsSteps(GroupsOf(front), last.tablet.server.value, last, address);
      AddToGroupsDistinct(GroupsOf(front), last.tablet.server.value, last);
    }
  }

  method GroupBatchSegments(segments: seq<Segment>) returns (groups: seq<Group>)
    requires Assigned(segments)
    ensures groups == GroupsOf(segments)
  {
    hide AddToGroups;
    groups := [];
    var indexes: map<string, nat> := map[];
    for n := 0 to |segments|
      invariant groups == GroupsOf(segments[..n])
      invariant forall a :: a in indexes ==> indexes[a] < |groups| && groups[indexes[a]].address == a
      invariant forall g :: 0 <= g < |groups| ==> groups[g].address in indexes && indexes[groups[g].address] == g
    {
      assert segments[..n + 1][..n] == segments[..n];
      var segment := segments[n];
      var address := segment.tablet.server.value;
      if address in indexes {
        var g := indexes[address];
        AddToGroupsAt(groups, address, segment, g);
        groups := groups[g := Group(address, groups[g].segments + [segment])];
      } else {
        AddToGroupsAt(groups, address, segment, |groups|);
        indexes := indexes[address := |groups|];
        groups := groups + [Group(address, [segment])];
      }
    }
    assert segments[..|segments|] == segments;
  }

  // ---- Failed ranges ----

  /** A tablet and a range as a server names them; how a range looks on the wire is left open. */
  datatype Failure<W> = Failure(extent: Extent, range: W)

  function NameOf<W>(segment: Segment, wire: Range -> W): Failure<W> {
    Failure(segment.tablet.extent, wire(segment.range))
  }

  /** The first segment a server's name fits. */
  function FirstNamed<W(==)>(segments: seq<Segment>, wire: Range -> W, failure: Failure<W>): (index: int)
    ensures -1 <= index < |segments|
    ensures index >= 0 ==> NameOf(segments[index], wire) == failure
    ensures forall j :: 0 <= j < (if index < 0 then |segments| else index) ==> NameOf(segments[j], wire) != failure
  {
    if segments == [] then -1
    else if NameOf(segments[0], wire) == failure then 0
    else
      var index := FirstNamed(segments[1..], wire, failure);
      assert forall j :: 1 <= j < |segments| ==> segments[j] == segments[1..][j - 1];
      if index < 0 then -1 else index + 1
  }

  /** The indexes of the failed segments, each once, in the order they are named; nothing when a name
      fits no segment. */
  function MatchFrom<W(==)>(segments: seq<Segment>, wire: Range -> W, failures: seq<Failure<W>>): Option<seq<nat>> {
    if failures == [] then Some([])
    else
      match MatchFrom(segments, wire, failures[..|failures| - 1])
      case None => None
      case Some(matched) =>
        var index := FirstNamed(segments, wire, failures[|failures| - 1]);
        if index < 0 then None else if index in matched then Some(matched) else Some(matched + [index])
  }

  /** The segments read again; nothing when a name fits no segment. */
  function MatchedSegments<W(==)>(segments: seq<Segment>, wire: Range -> W, failures: seq<Failure<W>>)
    : Option<seq<Segment>>
  {
    match MatchFrom(segments, wire, failures)
    case None => None
    case Some(matched) =>
      MatchedInRange(segments, wire, failures);
      Some(Picked(segments, matched))
  }

  lemma {:induction false} MatchedInRange<W>(segments: seq<Segment>, wire: Range -> W, failures: seq<Failure<W>>)
    ensures var matched := MatchFrom(segments, wire, failures);
            matched.Some? ==> forall k :: 0 <= k < |matched.value| ==> matched.value[k] < |segments|
  {
    if failures != [] { MatchedInRange(segments, wire, failures[..|failures| - 1]); }
  }

  method MatchFailedSegments<W(==)>(segments: seq<Segment>, wire: Range -> W, failures: seq<Failure<W>>)
    returns (failed: Option<seq<nat>>)
    ensures failed == MatchFrom(segments, wire, failures)
  {
    hide NameOf;
    var matched := new bool[|segments|](_ => false);
    var indexes: seq<nat> := [];
    assert failures[..|failures|] == failures;
    for k := 0 to |failures|
      invariant MatchFrom(segments, wire, failures[..k]) == Some(indexes)
      invariant forall i :: 0 <= i < |segments| ==> (matched[i] <==> i in indexes)
    {
      assert failures[..k + 1][..k] == failures[..k];
      var index := 0;
      while index < |segments| && NameOf(segments[index], wire) != failures[k]
        invariant index <= |segments|
        invariant forall j :: 0 <= j < index ==> NameOf(segments[j], wire) != failures[k]
      {
        index := index + 1;
      }
      if index == |segments| {
        UnknownEnds(segments, wire, failures, k + 1);
        return None;
      }
      assert index == FirstNamed(segments, wire, failures[k]);
      if !matched[index] {
        matched[index] := true;
        indexes := indexes + [index];
      }
    }
    return Some(indexes);
  }

  lemma {:induction false} UnknownEnds<W>(segments: seq<Segment>, wire: Range -> W, failures: seq<Failure<W>>, k: nat)
    requires k <= |failures| && MatchFrom(segments, wire, failures[..k]).None?
    ensures MatchFrom(segments, wire, failures).None?
    decreases |failures| - k
  {
    if k < |failures| {
      assert failures[..k + 1][..k] == failures[..k];
      UnknownEnds(segments, wire, failures, k + 1);
    } else {
      assert failures[..k] == failures;
    }
  }

  ghost predicate DistinctIndexes(indexes: seq<nat>) {
    forall i, j :: 0 <= i < j < |indexes| ==> indexes[i] != indexes[j]
  }

  /** Matching succeeds exactly when every name fits a segment. */
  lemma {:induction false} MatchSucceeds<W>(segments: seq<Segment>, wire: Range -> W, failures: seq<Failure<W>>)
    ensures MatchFrom(segments, wire, failures).Some? <==> forall f :: f in failures ==> FirstNamed(segments, wire, f) >= 0
  {
    if failures != [] {
      hide FirstNamed;
      var front, last := failures[..|failures| - 1], failures[|failures| - 1];
      assert failures == front + [last];
      assert forall f :: f in failures <==> f in front || f == last;
      MatchSucceeds(segments, wire, front);
      assert MatchFrom(segments, wire, failures).Some?
             <==> MatchFrom(segments, wire, front).Some? && FirstNamed(segments, wire, last) >= 0;
      assert (forall f :: f in failures ==> FirstNamed(segments, wire, f) >= 0)
             <==> (forall f :: f in front ==> FirstNamed(segments, wire, f) >= 0) && FirstNamed(segments, wire, last) >= 0;
    }
  }

  /** It yields the first segment each name fits, each once. */
  lemma {:induction false} MatchYields<W>(segments: seq<Segment>, wire: Range -> W, failures: seq<Failure<W>>, i: nat)
    requires MatchFrom(segments, wire, failures).Some?
    ensures DistinctIndexes(MatchFrom(segments, wire, failures).value)
    ensures i in MatchFrom(segments, wire, failures).value <==> exists f :: f in failures && FirstNamed(segments, wire, f) == i
  {
    if failures != [] {
      hide FirstNamed;
      var front, last := failures[..|failures| - 1], failures[|failures| - 1];
      assert failures == front + [last];
      assert forall f :: f in failures <==> f in front || f == last;
      MatchYields(segments, wire, front, i);
      var before, index := MatchFrom(segments, wire, front).value, FirstNamed(segments, wire, last);
      assert i in MatchFrom(segments, wire, failures).value <==> i in before || i == index;
      assert (exists f :: f in failures && FirstNamed(segments, wire, f) == i)
             <==> (exists f :: f in front && FirstNamed(segments, wire, f) == i) || i == index;
    }
  }

  /** Segments that look different to the server. Passing a range twice breaks this, and so do ranges that
      end alike: once past a tablet boundary they are planned alike (see EndingAlikePlansAlike). */
  ghost predicate DistinctNames<W(!new)>(segments: seq<Segment>, wire: Range -> W) {
    forall i, j :: 0 <= i < j < |segments| ==> NameOf(segments[i], wire) != NameOf(segments[j], wire)
  }

  /** The server named exactly the failed segments. */
  ghost predicate NamesExactly<W(!new)>(segments: seq<Segment>, wire: Range -> W, failures: seq<Failure<W>>,
      failed: seq<nat>) {
    && (forall i :: i in failed ==> i < |segments| && NameOf(segments[i], wire) in failures)
    && (forall f :: f in failures ==> exists i :: i in failed && i < |segments| && NameOf(segments[i], wire) == f)
  }

  /** The names of the segments at these indexes. */
  function Names<W>(segments: seq<Segment>, wire: Range -> W, indexes: seq<nat>): (names: seq<Failure<W>>)
    requires forall k :: 0 <= k < |indexes| ==> indexes[k] < |segments|
    ensures |names| == |indexes| && forall k :: 0 <= k < |indexes| ==> names[k] == NameOf(segments[indexes[k]], wire)
  {
    seq(|indexes|, k requires 0 <= k < |indexes| => NameOf(segments[indexes[k]], wire))
  }

  lemma NamedOnce<W(!new)>(segments: seq<Segment>, wire: Range -> W, i: nat)
    requires DistinctNames(segments, wire) && i < |segments|
    ensures FirstNamed(segments, wire, NameOf(segments[i], wire)) == i
  {
    hide NameOf;
    forall j | 0 <= j < i ensures NameOf(segments[j], wire) != NameOf(segments[i], wire) {}
  }

  /** With distinct names the segments read again are exactly those that failed. */
  lemma MatchedAreFailed<W(!new)>(segments: seq<Segment>, wire: Range -> W, failures: seq<Failure<W>>, failed: seq<nat>)
    requires DistinctNames(segments, wire) && NamesExactly(segments, wire, failures, failed)
    ensures var matched := MatchFrom(segments, wire, failures);
            matched.Some? && DistinctIndexes(matched.value) && forall i: nat :: i in matched.value <==> i in failed
  {
    hide NameOf, DistinctNames, FirstNamed, MatchFrom, DistinctIndexes;
    MatchSucceeds(segments, wire, failures);
    forall f | f in failures ensures FirstNamed(segments, wire, f) >= 0 && FirstNamed(segments, wire, f) in failed {
      var i :| i in failed && i < |segments| && NameOf(segments[i], wire) == f;
      NamedOnce(segments, wire, i);
    }
    MatchYields(segments, wire, failures, 0);
    forall i: nat ensures i in MatchFrom(segments, wire, failures).value <==> i in failed {
      MatchYields(segments, wire, failures, i);
      if i in failed { NamedOnce(segments, wire, i); }
    }
  }

  /** Picking the same indexes in another order picks the same names. */
  lemma {:induction false} SamePicks<W>(segments: seq<Segment>, wire: Range -> W, a: seq<nat>, b: seq<nat>)
    requires DistinctIndexes(a) && DistinctIndexes(b) && forall i: nat :: i in a <==> i in b
    requires forall i: nat :: i in a ==> i < |segments|
    ensures (forall k :: 0 <= k < |a| ==> a[k] < |segments|) && (forall k :: 0 <= k < |b| ==> b[k] < |segments|)
    ensures multiset(Names(segments, wire, a)) == multiset(Names(segments, wire, b))
  {
    hide NameOf, Names, DistinctIndexes;
    assert forall k :: 0 <= k < |a| ==> a[k] in a;
    assert forall k :: 0 <= k < |b| ==> b[k] in b;
    if a == [] {
      NoneOnce(b);
      assert Names(segments, wire, a) == Names(segments, wire, b) == [];
    } else {
      var x := a[0];
      assert x in b;
      var k :| 0 <= k < |b| && b[k] == x;
      var rest := b[..k] + b[k + 1..];
      WithoutOne(a, 0);
      WithoutOne(b, k);
      assert a[..0] + a[1..] == a[1..];
      assert forall j :: 0 <= j < |rest| ==> rest[j] in rest;
      SamePicks(segments, wire, a[1..], rest);
      SameNamesAround(segments, wire, a, b, k);
    }
  }

  lemma SameNamesAround<W>(segments: seq<Segment>, wire: Range -> W, a: seq<nat>, b: seq<nat>, k: nat)
    requires forall j :: 0 <= j < |a| ==> a[j] < |segments|
    requires forall j :: 0 <= j < |b| ==> b[j] < |segments|
    requires a != [] && k < |b| && a[0] == b[k]
    requires multiset(Names(segments, wire, a[1..])) == multiset(Names(segments, wire, b[..k] + b[k + 1..]))
    ensures multiset(Names(segments, wire, a)) == multiset(Names(segments, wire, b))
  {
    hide NameOf, Names;
    assert a[..0] + a[1..] == a[1..];
    NamesAround(segments, wire, a, 0);
    NamesAround(segments, wire, b, k);
  }

  lemma WithoutOne(indexes: seq<nat>, k: nat)
    requires DistinctIndexes(indexes) && k < |indexes|
    ensures var rest := indexes[..k] + indexes[k + 1..];
            DistinctIndexes(rest) && forall i: nat :: i in rest <==> i in indexes && i != indexes[k]
  {
    var rest := indexes[..k] + indexes[k + 1..];
    assert forall j :: 0 <= j < |rest| ==> rest[j] == indexes[if j < k then j else j + 1];
    forall i: nat ensures i in rest <==> i in indexes && i != indexes[k] {
      if i in indexes && i != indexes[k] {
        var j :| 0 <= j < |indexes| && indexes[j] == i;
        assert rest[if j < k then j else j - 1] == i;
      }
    }
  }

  lemma NamesAround<W>(segments: seq<Segment>, wire: Range -> W, indexes: seq<nat>, k: nat)
    requires k < |indexes| && forall j :: 0 <= j < |indexes| ==> indexes[j] < |segments|
    ensures var rest := indexes[..k] + indexes[k + 1..];
            (forall j :: 0 <= j < |rest| ==> rest[j] < |segments|) &&
            multiset(Names(segments, wire, indexes))
            == multiset{NameOf(segments[indexes[k]], wire)} + multiset(Names(segments, wire, rest))
  {
    hide NameOf, Names;
    var rest := indexes[..k] + indexes[k + 1..];
    var before, after := Names(segments, wire, indexes[..k]), Names(segments, wire, indexes[k + 1..]);
    assert Names(segments, wire, indexes) == before + ([NameOf(segments[indexes[k]], wire)] + after);
    assert Names(segments, wire, rest) == before + after;
  }

  /** What is read again is, name for name, what failed. */
  ghost predicate RereadsFailed<W(!new)>(segments: seq<Segment>, wire: Range -> W, failures: seq<Failure<W>>,
      failed: seq<nat>)
  {
    var matched := MatchFrom(segments, wire, failures);
    && matched.Some?
    && (forall k :: 0 <= k < |matched.value| ==> matched.value[k] < |segments|)
    && (forall k :: 0 <= k < |failed| ==> failed[k] < |segments|)
    && multiset(Names(segments, wire, matched.value)) == multiset(Names(segments, wire, failed))
  }

  /** When both of two look-alikes fail only the first is read again; the entries of the other are lost. */
  lemma LookAlikesLoseEntries<W(!new)>(segments: seq<Segment>, wire: Range -> W, j: nat, table: seq<Key>)
    requires j < |segments| && FirstNamed(segments, wire, NameOf(segments[j], wire)) < j
    ensures var name := NameOf(segments[j], wire);
            var i := FirstNamed(segments, wire, name);
            && i >= 0 && DistinctIndexes([i as nat, j]) && NamesExactly(segments, wire, [name, name], [i as nat, j])
            && MatchFrom(segments, wire, [name, name]) == Some([i as nat])
            && SelectAll(table, Picked(segments, [i as nat, j]))
               == SelectAll(table, Picked(segments, [i as nat])) + Select(table, segments[j].range)
  {
    hide NameOf, Select;
    var name := NameOf(segments[j], wire);
    var i := FirstNamed(segments, wire, name);
    assert i >= 0;
    assert name in [name, name];
    var one, two := [name], [name, name];
    assert two[..|two| - 1] == one && one[..|one| - 1] == [];
    assert [] + [i as nat] == [i as nat];
    assert MatchFrom(segments, wire, one) == Some([i as nat]);
    assert [i as nat, j] == [i as nat] + [j] && (i as nat) in [i as nat];
    assert Picked(segments, [i as nat, j]) == [segments[i]] + [segments[j]];
    assert Picked(segments, [i as nat]) == [segments[i]];
    SelectAllConcat(table, [segments[i]], [segments[j]]);
    assert SelectAll(table, [segments[j]]) == Select(table, segments[j].range) + [];
  }

  /** Whatever fails, exactly that is read again - if and only if no two segments look alike. */
  lemma MatchIsExactIfDistinct<W(!new)>(segments: seq<Segment>, wire: Range -> W)
    ensures (forall failures: seq<Failure<W>>, failed ::
               DistinctIndexes(failed) && NamesExactly(segments, wire, failures, failed) ==>
                 RereadsFailed(segments, wire, failures, failed))
            <==> DistinctNames(segments, wire)
  {
    hide FirstNamed, MatchFrom, NameOf, DistinctIndexes;
    if DistinctNames(segments, wire) {
      forall failures: seq<Failure<W>>, failed
        | DistinctIndexes(failed) && NamesExactly(segments, wire, failures, failed)
        ensures RereadsFailed(segments, wire, failures, failed)
      {
        MatchedAreFailed(segments, wire, failures, failed);
        SamePicks(segments, wire, MatchFrom(segments, wire, failures).value, failed);
      }
    } else {
      var i: nat, j: nat :| i < j < |segments| && NameOf(segments[i], wire) == NameOf(segments[j], wire);
      var name := NameOf(segments[j], wire);
      var first := FirstNamed(segments, wire, name);
      assert first <= i;
      LookAlikesLoseEntries(segments, wire, j, []);
      var one, two := Names(segments, wire, [first as nat]), Names(segments, wire, [first as nat, j]);
      assert |multiset(one)| == |one| == 1 && |multiset(two)| == |two| == 2;
      assert !RereadsFailed(segments, wire, [name, name], [first as nat, j]);
    }
  }

  /** Two ranges without an end, started anywhere in the first tablet, are planned alike from the second
      tablet on: no range need be passed twice for segments to look alike. */
  lemma EndingAlikePlansAlike(a: Range, b: Range, row: Bytes)
    requires a.endKey.None? && b.endKey.None? && AtMost(RoutingRow(a), row) && AtMost(RoutingRow(b), row)
    requires a.endInclusive == b.endInclusive && a.endRowOnly == b.endRowOnly
    ensures var t := TwoTablets(row);
            var plan := PlanRanges([Some(a), Some(b)], [t, t, t, t]).0;
            plan.Ok? && |plan.value| == 4 && plan.value[1] == plan.value[3]
            && plan.value[0].range == Clipped(a, t[0].extent) && plan.value[2].range == Clipped(b, t[0].extent)
  {
    hide PlanRange, TwoTablets;
    var t := TwoTablets(row);
    PlansInTwo(a, row, [t, t]);
    PlansInTwo(b, row, []);
    assert [t, t] + [t, t] == [t, t, t, t] && [t, t] + [] == [t, t];
    assert [Some(a), Some(b)][1..] == [Some(b)] && [Some(b)][1..] == [];
    var first, second := PlanRange(a, [t, t, t, t]), PlanRange(b, [t, t]);
    assert PlanRanges([], []) == (Ok([]), []);
    assert PlanRanges([Some(b)], [t, t]).0 == Ok(second.0.value + []);
    assert PlanRanges([Some(a), Some(b)], [t, t, t, t]).0 == Ok(first.0.value + (second.0.value + []));
    assert second.0.value + [] == second.0.value;
  }

  lemma PlansInTwo(r: Range, row: Bytes, later: seq<seq<Tablet>>)
    requires r.endKey.None? && AtMost(RoutingRow(r), row)
    ensures var t := TwoTablets(row);
            PlanRange(r, [t, t] + later)
            == (Ok([Segment(RoutingRow(r), t[0], Clipped(r, t[0].extent)),
                    Segment(Successor(row), t[1], Remaining(r, t[0].extent))]), later)
  {
    var t := TwoTablets(row);
    var moments := [t, t] + later;
    var remaining := Remaining(r, t[0].extent);
    TwoTabletsCover(row, RoutingRow(r));
    TwoTabletsCover(row, Successor(row));
    SuccessorIsNext(row, row);
    CompareAntisymmetric(row, Successor(row));
    assert moments[1..] == [t] + later && ([t] + later)[1..] == later;
    assert LocateTablet(moments, RoutingRow(r)) == (Ok(t[0]), [t] + later);
    assert LocateTablet([t] + later, Successor(row)) == (Ok(t[1]), later);
    assert RoutingRow(remaining) == Successor(row) && FitsTablet(remaining, t[1].extent);
    assert PlanRange(remaining, [t] + later) == (Ok([Segment(Successor(row), t[1], remaining)]), later);
    assert !FitsTablet(r, t[0].extent);
    var head, tail := Segment(RoutingRow(r), t[0], Clipped(r, t[0].extent)), Segment(Successor(row), t[1], remaining);
    assert PlanRange(r, moments) == (Ok([head] + [tail]), later);
    assert [head] + [tail] == [head, tail];
  }

  // ---- Reading failed segments again ----

  function RangesOf(segments: seq<Segment>): (ranges: seq<Option<Range>>)
    ensures |ranges| == |segments| && forall i :: 0 <= i < |segments| ==> ranges[i] == Some(segments[i].range)
  {
    seq(|segments|, i requires 0 <= i < |segments| => Some(segments[i].range))
  }

  function Picked(segments: seq<Segment>, indexes: seq<nat>): (picked: seq<Segment>)
    requires forall k :: 0 <= k < |indexes| ==> indexes[k] < |segments|
    ensures |picked| == |indexes| && forall k :: 0 <= k < |indexes| ==> picked[k] == segments[indexes[k]]
  {
    seq(|indexes|, k requires 0 <= k < |indexes| => segments[indexes[k]])
  }

  /** Planning several ranges anew reads what those ranges read, however tablets have moved. */
  lemma {:induction false} PlansKeepReads(segments: seq<Segment>, moments: seq<seq<Tablet>>, table: seq<Key>)
    requires SortedKeys(table) && forall s :: s in segments ==> Constructed(s.range)
    requires PlanRanges(RangesOf(segments), moments).0.Ok?
    ensures SelectAll(table, PlanRanges(RangesOf(segments), moments).0.value) == SelectAll(table, segments)
  {
    if segments != [] {
      hide PlanRange, Select, Constructed;
      assert segments[0] in segments;
      var (first, left) := PlanRange(segments[0].range, moments);
      assert RangesOf(segments)[1..] == RangesOf(segments[1..]);
      PlanKeepsReads(segments[0].range, moments, table);
      PlansKeepReads(segments[1..], left, table);
      SelectAllConcat(table, first.value, PlanRanges(RangesOf(segments[1..]), left).0.value);
    }
  }

  lemma {:induction false} SameSegmentsSameReads(table: seq<Key>, a: seq<Segment>, b: seq<Segment>)
    requires multiset(a) == multiset(b)
    ensures multiset(SelectAll(table, a)) == multiset(SelectAll(table, b))
  {
    hide SelectAll;
    if a == [] {
      assert |multiset(b)| == 0;
    } else {
      assert a[0] in multiset(b);
      var k :| 0 <= k < |b| && b[k] == a[0];
      WithoutFirst(a, b, k);
      SameSegmentsSameReads(table, a[1..], b[..k] + b[k + 1..]);
      SelectAllConcat(table, [a[0]], a[1..]);
      MovedToFront(table, b[..k], a[0], b[k + 1..]);
    }
  }

  lemma WithoutFirst(a: seq<Segment>, b: seq<Segment>, k: nat)
    requires a != [] && multiset(a) == multiset(b) && k < |b| && b[k] == a[0]
    ensures a == [a[0]] + a[1..] && b == b[..k] + ([a[0]] + b[k + 1..])
    ensures multiset(a[1..]) == multiset(b[..k] + b[k + 1..])
  {
    assert a == [a[0]] + a[1..] && b == b[..k] + ([a[0]] + b[k + 1..]);
    assert multiset(a) == multiset{a[0]} + multiset(a[1..]);
    assert multiset(b) == multiset{a[0]} + multiset(b[..k] + b[k + 1..]);
    TakenOut(a[1..], b[..k] + b[k + 1..], multiset(a), a[0]);
  }

  lemma TakenOut(a: seq<Segment>, b: seq<Segment>, all: multiset<Segment>, s: Segment)
    requires all == multiset{s} + multiset(a) == multiset{s} + multiset(b)
    ensures multiset(a) == multiset(b)
  {
    assert multiset(a) == all - multiset{s} == multiset(b);
  }

  lemma MovedToFront(table: seq<Key>, before: seq<Segment>, s: Segment, after: seq<Segment>)
    ensures multiset(SelectAll(table, before + ([s] + after)))
            == multiset(SelectAll(table, [s])) + multiset(SelectAll(table, before + after))
  {
    hide SelectAll;
    SelectAllConcat(table, before, [s] + after);
    SelectAllConcat(table, [s], after);
    SelectAllConcat(table, before, after);
  }

  /** Each of 0..n, once. */
  ghost predicate EachOnce(indexes: seq<nat>, n: nat) {
    DistinctIndexes(indexes) && forall i: nat :: i in indexes <==> i < n
  }

  lemma WithoutLast(indexes: seq<nat>, n: nat, k: nat)
    requires EachOnce(indexes, n + 1) && k < |indexes| && indexes[k] == n
    ensures EachOnce(indexes[..k] + indexes[k + 1..], n)
  {
    var rest := indexes[..k] + indexes[k + 1..];
    assert forall j :: 0 <= j < |rest| ==> rest[j] == indexes[if j < k then j else j + 1];
    forall i: nat ensures i in rest <==> i < n {
      if i in rest {
        var j :| 0 <= j < |rest| && rest[j] == i;
        assert indexes[if j < k then j else j + 1] in indexes;
      }
      if i < n {
        assert i in indexes;
        var j :| 0 <= j < |indexes| && indexes[j] == i;
        assert rest[if j < k then j else j - 1] == i;
      }
    }
  }

  /** Indexes that are each of 0..n once pick the whole list. */
  lemma {:induction false} PickedIsPermutation(segments: seq<Segment>, indexes: seq<nat>)
    requires EachOnce(indexes, |segments|)
    ensures forall k :: 0 <= k < |indexes| ==> indexes[k] < |segments|
    ensures multiset(Picked(segments, indexes)) == multiset(segments)
  {
    hide DistinctIndexes;
    assert forall k :: 0 <= k < |indexes| ==> indexes[k] in indexes;
    if segments == [] {
      NoneOnce(indexes);
    } else {
      var n: nat := |segments| - 1;
      assert n in indexes;
      var k :| 0 <= k < |indexes| && indexes[k] == n;
      var rest := indexes[..k] + indexes[k + 1..];
      WithoutLast(indexes, n, k);
      PickedIsPermutation(segments[..n], rest);
      PickedAround(segments, indexes, rest, n, k);
      PutBack(Picked(segments[..n], rest), k, segments[n]);
      PutBack(segments[..n], n, segments[n]);
      LastPutBack(segments, n);
    }
  }

  lemma Holds(indexes: seq<nat>, k: nat)
    requires k < |indexes|
    ensures indexes[k] in indexes
  {
  }

  lemma NoneOnce(indexes: seq<nat>)
    requires forall i: nat :: i !in indexes
    ensures |indexes| == 0
  {
    if |indexes| > 0 {
      Holds(indexes, 0);
      assert false;
    }
  }

  lemma PickedAround(segments: seq<Segment>, indexes: seq<nat>, rest: seq<nat>, n: nat, k: nat)
    requires |segments| == n + 1 && k < |indexes| && indexes[k] == n && rest == indexes[..k] + indexes[k + 1..]
    requires forall j :: 0 <= j < |indexes| ==> indexes[j] <= n
    requires forall j :: 0 <= j < |rest| ==> rest[j] < n
    ensures var picked := Picked(segments[..n], rest);
            Picked(segments, indexes) == picked[..k] + [segments[n]] + picked[k..]
  {
  }

  lemma LastPutBack(segments: seq<Segment>, n: nat)
    requires |segments| == n + 1
    ensures segments == segments[..n][..n] + [segments[n]] + segments[..n][n..]
  {
  }

  lemma PutBack(list: seq<Segment>, k: nat, s: Segment)
    requires k <= |list|
    ensures multiset(list[..k] + [s] + list[k..]) == multiset(list) + multiset{s}
  {
    assert list == list[..k] + list[k..];
  }

  /** The segments a session served and those it reported as failed are together its group's: nothing is
      lost and nothing is read twice. */
  lemma ServedAndFailedReadTheGroup<W(!new)>(segments: seq<Segment>, wire: Range -> W, failures: seq<Failure<W>>,
      failed: seq<nat>, served: seq<nat>, table: seq<Key>)
    requires DistinctNames(segments, wire) && NamesExactly(segments, wire, failures, failed)
    requires DistinctIndexes(served) && forall i: nat :: i in served <==> i < |segments| && i !in failed
    ensures MatchedSegments(segments, wire, failures).Some?
    ensures forall k :: 0 <= k < |served| ==> served[k] < |segments|
    ensures var again := MatchedSegments(segments, wire, failures).value;
            multiset(SelectAll(table, Picked(segments, served))) + multiset(SelectAll(table, again))
            == multiset(SelectAll(table, segments))
  {
    hide SelectAll, DistinctNames, MatchFrom;
    MatchedAreFailed(segments, wire, failures, failed);
    var matched := MatchFrom(segments, wire, failures).value;
    assert forall k :: 0 <= k < |matched| ==> matched[k] in matched;
    assert forall k :: 0 <= k < |served| ==> served[k] in served;
    TogetherEachOnce(served, matched, |segments|);
    var again := Picked(segments, matched);
    PickedIsPermutation(segments, served + matched);
    assert Picked(segments, served + matched) == Picked(segments, served) + again;
    SameSegmentsSameReads(table, Picked(segments, served) + again, segments);
    SelectAllConcat(table, Picked(segments, served), again);
  }

  lemma MatchedAreTheirs<W>(segments: seq<Segment>, wire: Range -> W, failures: seq<Failure<W>>)
    ensures var matched := MatchedSegments(segments, wire, failures);
            matched.Some? ==> forall s :: s in matched.value ==> s in segments
  {
    hide MatchFrom;
    var matched := MatchedSegments(segments, wire, failures);
    MatchedInRange(segments, wire, failures);
    if matched.Some? {
      forall s | s in matched.value ensures s in segments {
        var k :| 0 <= k < |matched.value| && matched.value[k] == s;
        assert s == segments[MatchFrom(segments, wire, failures).value[k]];
      }
    }
  }

  /** So are the segments served and the plans that the failed ones are read again by. */
  lemma ServedAndFollowersReadTheGroup<W(!new)>(segments: seq<Segment>, wire: Range -> W, failures: seq<Failure<W>>,
      failed: seq<nat>, served: seq<nat>, moments: seq<seq<Tablet>>, table: seq<Key>)
    requires SortedKeys(table) && forall s :: s in segments ==> Constructed(s.range)
    requires DistinctNames(segments, wire) && NamesExactly(segments, wire, failures, failed)
    requires DistinctIndexes(served) && forall i: nat :: i in served <==> i < |segments| && i !in failed
    ensures MatchedSegments(segments, wire, failures).Some?
    ensures forall k :: 0 <= k < |served| ==> served[k] < |segments|
    ensures var plan := PlanRanges(RangesOf(MatchedSegments(segments, wire, failures).value), moments).0;
            plan.Ok? ==>
              multiset(SelectAll(table, Picked(segments, served))) + multiset(SelectAll(table, plan.value))
              == multiset(SelectAll(table, segments))
  {
    hide PlanRanges, SelectAll, Constructed, SortedKeys, DistinctNames, MatchedSegments, NamesExactly, DistinctIndexes;
    ServedAndFailedReadTheGroup(segments, wire, failures, failed, served, table);
    var again := MatchedSegments(segments, wire, failures).value;
    MatchedAreTheirs(segments, wire, failures);
    if PlanRanges(RangesOf(again), moments).0.Ok? { PlansKeepReads(again, moments, table); }
  }

  lemma TogetherEachOnce(a: seq<nat>, b: seq<nat>, n: nat)
    requires DistinctIndexes(a) && DistinctIndexes(b)
    requires forall i: nat :: i in a ==> i !in b
    requires forall i: nat :: i in a || i in b <==> i < n
    ensures EachOnce(a + b, n)
  {
    var all := a + b;
    forall i, j | 0 <= i < j < |all| ensures all[i] != all[j] {
      if i < |a| <= j {
        assert a[i] in a && b[j - |a|] in b;
      }
    }
  }
}
