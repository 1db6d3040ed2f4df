/** Planning a flush: buffered mutations grouped by server and tablet, and cut into batches by size. */
module WriterPlan {
  import opened Bytes
  import opened Tablets

  /** A buffered mutation as it goes over the wire. */
  datatype Mutation = Mutation(row: Bytes, data: Bytes, values: seq<Bytes>)

  function ValuesSize(values: seq<Bytes>): nat {
    if values == [] then 0 else |values[0]| + ValuesSize(values[1..])
  }

  function WireSize(m: Mutation): nat {
    |m.row| + |m.data| + ValuesSize(m.values)
  }

  function TotalSize(mutations: seq<Mutation>): nat {
    if mutations == [] then 0 else WireSize(mutations[0]) + TotalSize(mutations[1..])
  }

  /** All bytes of the values. */
  function AllValues(values: seq<Bytes>): Bytes {
    if values == [] then [] else values[0] + AllValues(values[1..])
  }

  /** The size of a mutation is that of everything it is sent with. */
  lemma {:induction false} SizeIsOfAllBytes(m: Mutation)
    ensures WireSize(m) == |m.row + m.data + AllValues(m.values)|
  {
    ValuesAreBytes(m.values);
  }

  lemma {:induction false} ValuesAreBytes(values: seq<Bytes>)
    ensures ValuesSize(values) == |AllValues(values)|
  {
    if values != [] { ValuesAreBytes(values[1..]); }
  }

  lemma {:induction false} TotalSizeConcat(a: seq<Mutation>, b: seq<Mutation>)
    ensures TotalSize(a + b) == TotalSize(a) + TotalSize(b)
  {
    if a == [] {
      assert a + b == b;
    } else {
      TotalSizeConcat(a[1..], b);
      assert (a + b)[1..] == a[1..] + b;
    }
  }

  /** The mutations of one row, in order. */
  function OfRow(mutations: seq<Mutation>, row: Bytes): seq<Mutation> {
    if mutations == [] then []
    else (if mutations[0].row == row then [mutations[0]] else []) + OfRow(mutations[1..], row)
  }

  lemma {:induction false} OfRowConcat(a: seq<Mutation>, b: seq<Mutation>, row: Bytes)
    ensures OfRow(a + b, row) == OfRow(a, row) + OfRow(b, row)
  {
    if a == [] {
      assert a + b == b;
    } else {
      hide OfRow;
      OfRowConcat(a[1..], b, row);
      assert a + b == [a[0]] + (a[1..] + b) && a == [a[0]] + a[1..];
      OfRowCons(a[0], a[1..] + b, row);
      OfRowCons(a[0], a[1..], row);
    }
  }

  lemma OfRowCons(m: Mutation, rest: seq<Mutation>, row: Bytes)
    ensures OfRow([m] + rest, row) == (if m.row == row then [m] else []) + OfRow(rest, row)
    ensures OfRow([m], row) == if m.row == row then [m] else []
  {
    assert ([m] + rest)[1..] == rest;
  }

  /** Where LocateTablet sends a row: a server and a tablet, or one of its failures. */
  datatype Answer = Located(address: string, extent: Extent) | NotLocated | NotCovered | LocateFails

  datatype ExtentPlan = ExtentPlan(extent: Extent, mutations: seq<Mutation>)

  datatype ServerPlan = ServerPlan(address: string, extents: seq<ExtentPlan>)

  datatype Planning = Plans(plans: seq<ServerPlan>) | Unroutable(row: Bytes, answer: Answer)

  // ---- What planning computes ----

  function AddToExtents(extents: seq<ExtentPlan>, extent: Extent, m: Mutation): seq<ExtentPlan> {
    if extents == [] then [ExtentPlan(extent, [m])]
    else if extents[0].extent == extent then [ExtentPlan(extent, extents[0].mutations + [m])] + extents[1..]
    else [extents[0]] + AddToExtents(extents[1..], extent, m)
  }

  function AddToServers(plans: seq<ServerPlan>, address: string, extent: Extent, m: Mutation): seq<ServerPlan> {
    if plans == [] then [ServerPlan(address, [ExtentPlan(extent, [m])])]
    else if plans[0].address == address then [ServerPlan(address, AddToExtents(plans[0].extents, extent, m))] + plans[1..]
    else [plans[0]] + AddToServers(plans[1..], address, extent, m)
  }

  /** `route(i)` answers for the i-th mutation; the first failure ends planning. */
  function PlanOf(mutations: seq<Mutation>, route: nat -> Answer): Planning {
    if mutations == [] then Plans([])
    else
      var n := |mutations| - 1;
      match PlanOf(mutations[..n], route)
      case Unroutable(row, answer) => Unroutable(row, answer)
      case Plans(plans) =>
        var answer := route(n);
        if answer.Located? then Plans(AddToServers(plans, answer.address, answer.extent, mutations[n]))
        else Unroutable(mutations[n].row, answer)
  }

  function ExtentsMutations(extents: seq<ExtentPlan>): seq<Mutation> {
    if extents == [] then [] else extents[0].mutations + ExtentsMutations(extents[1..])
  }

  function PlansMutations(plans: seq<ServerPlan>): seq<Mutation> {
    if plans == [] then [] else ExtentsMutations(plans[0].extents) + PlansMutations(plans[1..])
  }

  lemma ExtentsCons(first: ExtentPlan, rest: seq<ExtentPlan>)
    ensures ExtentsMutations([first] + rest) == first.mutations + ExtentsMutations(rest)
    ensures ExtentsMutations([first]) == first.mutations
  {
    assert ([first] + rest)[1..] == rest;
  }

  lemma PlansCons(first: ServerPlan, rest: seq<ServerPlan>)
    ensures PlansMutations([first] + rest) == ExtentsMutations(first.extents) + PlansMutations(rest)
    ensures PlansMutations([first]) == ExtentsMutations(first.extents)
  {
    assert ([first] + rest)[1..] == rest;
  }

  // ---- Conservation ----

  lemma {:induction false} AddToExtentsConserves(extents: seq<ExtentPlan>, extent: Extent, m: Mutation)
    ensures multiset(ExtentsMutations(AddToExtents(extents, extent, m))) == multiset(ExtentsMutations(extents)) + multiset{m}
  {
    hide ExtentsMutations;
    if extents == [] {
      ExtentsCons(ExtentPlan(extent, [m]), []);
      NothingPlanned();
    } else {
      var first, rest := extents[0], extents[1..];
      assert extents == [first] + rest;
      ExtentsCons(first, rest);
      if first.extent == extent {
        ExtentsCons(ExtentPlan(extent, first.mutations + [m]), rest);
      } else {
        AddToExtentsConserves(rest, extent, m);
        ExtentsCons(first, AddToExtents(rest, extent, m));
      }
    }
  }

  lemma NothingPlanned()
    ensures ExtentsMutations([]) == [] && PlansMutations([]) == []
  {
  }

  lemma {:induction false} AddToServersConserves(plans: seq<ServerPlan>, address: string, extent: Extent, m: Mutation)
    ensures multiset(PlansMutations(AddToServers(plans, address, extent, m))) == multiset(PlansMutations(plans)) + multiset{m}
  {
    hide PlansMutations, ExtentsMutations, AddToExtents;
    NothingPlanned();
    if plans == [] {
      ExtentsCons(ExtentPlan(extent, [m]), []);
      PlansCons(ServerPlan(address, [ExtentPlan(extent, [m])]), []);
    } else {
      var first, rest := plans[0], plans[1..];
      assert plans == [first] + rest;
      PlansCons(first, rest);
      if first.address == address {
        AddToExtentsConserves(first.extents, extent, m);
        PlansCons(ServerPlan(address, AddToExtents(first.extents, extent, m)), rest);
      } else {
        AddToServersConserves(rest, address, extent, m);
        PlansCons(first, AddToServers(rest, address, extent, m));
      }
    }
  }

  /** Planning loses, adds and repeats nothing. */
  lemma {:induction false} PlanIsPermutation(mutations: seq<Mutation>, route: nat -> Answer)
    requires PlanOf(mutations, route).Plans?
    ensures multiset(PlansMutations(PlanOf(mutations, route).plans)) == multiset(mutations)
  {
    hide AddToServers, PlansMutations;
    NothingPlanned();
    if mutations != [] {
      var n := |mutations| - 1;
      PlanIsPermutation(mutations[..n], route);
      AddToServersConserves(PlanOf(mutations[..n], route).plans, route(n).address, route(n).extent, mutations[n]);
      assert mutations == mutations[..n] + [mutations[n]];
    }
  }

  // ---- Projection on a tablet ----

  ghost predicate DistinctExtents(extents: seq<ExtentPlan>) {
    && (forall i, j :: 0 <= i < j < |extents| ==> extents[i].extent != extents[j].extent)
    && (forall i :: 0 <= i < |extents| ==> extents[i].mutations != [])
  }

  ghost predicate DistinctPlans(plans: seq<ServerPlan>) {
    && (forall i, j :: 0 <= i < j < |plans| ==> plans[i].address != plans[j].address)
    && (forall i :: 0 <= i < |plans| ==> plans[i].extents != [] && DistinctExtents(plans[i].extents))
  }

  /** What a plan holds for one tablet. */
  function ForExtent(extents: seq<ExtentPlan>, extent: Extent): seq<Mutation> {
    if extents == [] then []
    else if extents[0].extent == extent then extents[0].mutations
    else ForExtent(extents[1..], extent)
  }

  /** What the plans hold for one tablet of one server. */
  function ForTablet(plans: seq<ServerPlan>, address: string, extent: Extent): seq<Mutation> {
    if plans == [] then []
    else if plans[0].address == address then ForExtent(plans[0].extents, extent)
    else ForTablet(plans[1..], address, extent)
  }

  /** The mutations routed to one tablet of one server, in the order they were buffered. */
  function Routed(mutations: seq<Mutation>, route: nat -> Answer, address: string, extent: Extent): seq<Mutation> {
    if mutations == [] then []
    else
      var n := |mutations| - 1;
      Routed(mutations[..n], route, address, extent)
      + if route(n) == Located(address, extent) then [mutations[n]] else []
  }

  lemma {:induction false} AddToExtentsStep(extents: seq<ExtentPlan>, extent: Extent, m: Mutation, other: Extent)
    ensures ForExtent(AddToExtents(extents, extent, m), other)
            == ForExtent(extents, other) + if other == extent then [m] else []
  {
    if extents != [] && extents[0].extent != extent { AddToExtentsStep(extents[1..], extent, m, other); }
  }

  lemma {:induction false} AddToServersStep(plans: seq<ServerPlan>, address: string, extent: Extent, m: Mutation,
                                            address': string, extent': Extent)
    ensures ForTablet(AddToServers(plans, address, extent, m), address', extent')
            == ForTablet(plans, address', extent') + if address' == address && extent' == extent then [m] else []
  {
    hide AddToExtents, ForExtent;
    if plans == [] {
      OnlyExtentStep(extent, m, extent');
    } else if plans[0].address == address {
      AddToExtentsStep(plans[0].extents, extent, m, extent');
    } else {
      AddToServersStep(plans[1..], address, extent, m, address', extent');
    }
  }

  lemma OnlyExtentStep(extent: Extent, m: Mutation, other: Extent)
    ensures ForExtent([ExtentPlan(extent, [m])], other) == if other == extent then [m] else []
  {
  }

  lemma {:induction false} AddToExtentsDistinct(extents: seq<ExtentPlan>, extent: Extent, m: Mutation)
    requires DistinctExtents(extents)
    ensures DistinctExtents(AddToExtents(extents, extent, m)) && AddToExtents(extents, extent, m) != []
    ensures forall x :: x in AddToExtents(extents, extent, m) ==> x.extent == extent || x in extents
  {
    if extents != [] && extents[0].extent != extent {
      AddToExtentsDistinct(extents[1..], extent, m);
      var rest := AddToExtents(extents[1..], extent, m);
      forall j | 0 <= j < |rest| ensures rest[j].extent != extents[0].extent {
        assert rest[j] in rest;
        if rest[j].extent != extent {
          var k :| 0 <= k < |extents[1..]| && extents[1..][k] == rest[j];
          assert extents[k + 1] == rest[j];
        }
      }
    }
  }

  lemma {:induction false} AddToServersDistinct(plans: seq<ServerPlan>, address: string, extent: Extent, m: Mutation)
    requires DistinctPlans(plans)
    ensures DistinctPlans(AddToServers(plans, address, extent, m))
    ensures forall x :: x in AddToServers(plans, address, extent, m) ==> x.address == address || x in plans
  {
    hide DistinctExtents, AddToExtents;
    if plans == [] {
      OneExtentDistinct(extent, m);
    } else if plans[0].address == address {
      AddToExtentsDistinct(plans[0].extents, extent, m);
    } else {
      AddToServersDistinct(plans[1..], address, extent, m);
      var rest := AddToServers(plans[1..], address, extent, m);
      forall j | 0 <= j < |rest| ensures rest[j].address != plans[0].address {
        assert rest[j] in rest;
        if rest[j].address != address {
          var k :| 0 <= k < |plans[1..]| && plans[1..][k] == rest[j];
          assert plans[k + 1] == rest[j];
        }
      }
    }
  }

  lemma OneExtentDistinct(extent: Extent, m: Mutation)
    ensures DistinctExtents([ExtentPlan(extent, [m])])
  {
  }

  ghost predicate StopsAt(mutations: seq<Mutation>, route: nat -> Answer, i: nat) {
    i < |mutations| && !route(i).Located? && forall j: nat :: j < i ==> route(j).Located?
  }

  /** Planning fails exactly when some row is not located, and reports the first one that is not. */
  lemma {:induction false} PlanStops(mutations: seq<Mutation>, route: nat -> Answer)
    ensures PlanOf(mutations, route).Plans? <==> forall i: nat :: i < |mutations| ==> route(i).Located?
    ensures PlanOf(mutations, route).Unroutable? ==>
              exists i: nat :: StopsAt(mutations, route, i) && PlanOf(mutations, route) == Unroutable(mutations[i].row, route(i))
  {
    hide AddToServers;
    if mutations != [] {
      var n := |mutations| - 1;
      PlanStops(mutations[..n], route);
      if PlanOf(mutations[..n], route).Plans? {
        assert !route(n).Located? ==> StopsAt(mutations, route, n);
      } else {
        var i: nat :| StopsAt(mutations[..n], route, i) && PlanOf(mutations[..n], route) == Unroutable(mutations[..n][i].row, route(i));
        assert StopsAt(mutations, route, i) && mutations[..n][i] == mutations[i];
      }
    }
  }

  /** Every tablet's part of the plan is the subsequence of mutations routed to it. */
  lemma {:induction false} PlanProjects(mutations: seq<Mutation>, route: nat -> Answer, address: string, extent: Extent)
    requires PlanOf(mutations, route).Plans?
    ensures DistinctPlans(PlanOf(mutations, route).plans)
    ensures ForTablet(PlanOf(mutations, route).plans, address, extent) == Routed(mutations, route, address, extent)
  {
    if mutations != [] {
      hide DistinctPlans, AddToServers, ForTablet;
      var n := |mutations| - 1;
      PlanProjects(mutations[..n], route, address, extent);
      AddToServersDistinct(PlanOf(mutations[..n], route).plans, route(n).address, route(n).extent, mutations[n]);
      AddToServersStep(PlanOf(mutations[..n], route).plans, route(n).address, route(n).extent, mutations[n], address, extent);
    } else {
      assert DistinctPlans([]);
    }
  }

  lemma {:induction false} ListedForExtent(extents: seq<ExtentPlan>, j: nat)
    requires DistinctExtents(extents) && j < |extents|
    ensures ForExtent(extents, extents[j].extent) == extents[j].mutations
  {
    if j > 0 { ListedForExtent(extents[1..], j - 1); }
  }

  /** The lists a plan holds are those projections. */
  lemma {:induction false} ListedForTablet(plans: seq<ServerPlan>, i: nat, j: nat)
    requires DistinctPlans(plans) && i < |plans| && j < |plans[i].extents|
    ensures ForTablet(plans, plans[i].address, plans[i].extents[j].extent) == plans[i].extents[j].mutations
  {
    if i > 0 {
      ListedForTablet(plans[1..], i - 1, j);
    } else {
      ListedForExtent(plans[0].extents, j);
    }
  }

  // ---- Order within a row ----

  /** Within this plan a row is always sent to the same place. */
  ghost predicate RoutesByRow(mutations: seq<Mutation>, route: nat -> Answer) {
    forall i, j :: 0 <= i < |mutations| && 0 <= j < |mutations| && mutations[i].row == mutations[j].row ==> route(i) == route(j)
  }

  /** No other tablet of this server holds mutations of the row. */
  ghost predicate OnlyExtent(extents: seq<ExtentPlan>, extent: Extent, row: Bytes) {
    forall x :: x in extents && OfRow(x.mutations, row) != [] ==> x.extent == extent
  }

  ghost predicate OnlyTablet(plans: seq<ServerPlan>, address: string, extent: Extent, row: Bytes) {
    && (forall x :: x in plans && OfRow(ExtentsMutations(x.extents), row) != [] ==> x.address == address)
    && (forall x :: x in plans ==> OnlyExtent(x.extents, extent, row))
  }

  lemma {:induction false} NoneOfRow(extents: seq<ExtentPlan>, row: Bytes)
    requires forall x :: x in extents ==> OfRow(x.mutations, row) == []
    ensures OfRow(ExtentsMutations(extents), row) == []
  {
    if extents != [] {
      OfRowConcat(extents[0].mutations, ExtentsMutations(extents[1..]), row);
      assert extents[0] in extents;
      NoneOfRow(extents[1..], row);
    }
  }

  lemma {:induction false} NoneOfRowInPlans(plans: seq<ServerPlan>, row: Bytes)
    requires forall x :: x in plans ==> OfRow(ExtentsMutations(x.extents), row) == []
    ensures OfRow(PlansMutations(plans), row) == []
  {
    if plans != [] {
      OfRowConcat(ExtentsMutations(plans[0].extents), PlansMutations(plans[1..]), row);
      assert plans[0] in plans;
      NoneOfRowInPlans(plans[1..], row);
    }
  }

  // A list that grows by one mutation, among lists that hold none of its row.

  lemma GrowFirst(list: seq<Mutation>, list': seq<Mutation>, m: Mutation, after: seq<Mutation>, row: Bytes)
    requires OfRow(list', row) == OfRow(list, row) + OfRow([m], row) && OfRow(after, m.row) == []
    ensures OfRow(list' + after, row) == OfRow(list + after, row) + OfRow([m], row)
  {
    hide OfRow;
    OfRowConcat(list', after, row);
    OfRowConcat(list, after, row);
    OfRowCons(m, [], row);
  }

  lemma GrowLater(list: seq<Mutation>, after: seq<Mutation>, after': seq<Mutation>, m: Mutation, row: Bytes)
    requires OfRow(after', row) == OfRow(after, row) + OfRow([m], row)
    ensures OfRow(list + after', row) == OfRow(list + after, row) + OfRow([m], row)
  {
    hide OfRow;
    OfRowConcat(list, after', row);
    OfRowConcat(list, after, row);
  }

  lemma {:induction false} AddToExtentsInOrder(extents: seq<ExtentPlan>, extent: Extent, m: Mutation, row: Bytes)
    requires DistinctExtents(extents) && OnlyExtent(extents, extent, m.row)
    ensures OfRow(ExtentsMutations(AddToExtents(extents, extent, m)), row)
            == OfRow(ExtentsMutations(extents), row) + OfRow([m], row)
  {
    hide ExtentsMutations, OfRow;
    NothingPlanned();
    if extents == [] {
      ExtentsCons(ExtentPlan(extent, [m]), []);
      OfRowConcat([], [m], row);
      assert [] + [m] == [m];
    } else {
      var first, rest := extents[0], extents[1..];
      assert extents == [first] + rest && first in extents && forall x :: x in rest ==> x in extents;
      ExtentsCons(first, rest);
      OfRowConcat(first.mutations, ExtentsMutations(rest), row);
      if first.extent == extent {
        ExtentsCons(ExtentPlan(extent, first.mutations + [m]), rest);
        OthersHaveNone(extents, m.row);
        OfRowConcat(first.mutations, [m], row);
        GrowFirst(first.mutations, first.mutations + [m], m, ExtentsMutations(rest), row);
      } else {
        AddToExtentsInOrder(rest, extent, m, row);
        ExtentsCons(first, AddToExtents(rest, extent, m));
        GrowLater(first.mutations, ExtentsMutations(rest), ExtentsMutations(AddToExtents(rest, extent, m)), m, row);
      }
    }
  }

  lemma OthersHaveNone(extents: seq<ExtentPlan>, row: Bytes)
    requires extents != [] && DistinctExtents(extents) && OnlyExtent(extents, extents[0].extent, row)
    ensures OfRow(ExtentsMutations(extents[1..]), row) == []
  {
    hide ExtentsMutations, OfRow;
    forall x | x in extents[1..] ensures OfRow(x.mutations, row) == [] {
      var k :| 0 <= k < |extents[1..]| && extents[1..][k] == x;
      assert extents[k + 1] == x;
    }
    NoneOfRow(extents[1..], row);
  }

  lemma {:induction false} AddToServersInOrder(plans: seq<ServerPlan>, address: string, extent: Extent, m: Mutation,
      row: Bytes)
    requires DistinctPlans(plans) && OnlyTablet(plans, address, extent, m.row)
    ensures OfRow(PlansMutations(AddToServers(plans, address, extent, m)), row)
            == OfRow(PlansMutations(plans), row) + OfRow([m], row)
  {
    hide PlansMutations, ExtentsMutations, AddToExtents, OfRow, DistinctExtents, OnlyExtent;
    NothingPlanned();
    if plans == [] {
      ExtentsCons(ExtentPlan(extent, [m]), []);
      PlansCons(ServerPlan(address, [ExtentPlan(extent, [m])]), []);
      OfRowConcat([], [m], row);
      assert [] + [m] == [m];
    } else {
      var first, rest := plans[0], plans[1..];
      assert plans == [first] + rest && first in plans && forall x :: x in rest ==> x in plans;
      PlansCons(first, rest);
      var list := ExtentsMutations(first.extents);
      if first.address == address {
        AddToExtentsInOrder(first.extents, extent, m, row);
        PlansCons(ServerPlan(address, AddToExtents(first.extents, extent, m)), rest);
        OtherServersHaveNone(plans, extent, m.row);
        GrowFirst(list, ExtentsMutations(AddToExtents(first.extents, extent, m)), m, PlansMutations(rest), row);
      } else {
        AddToServersInOrder(rest, address, extent, m, row);
        PlansCons(first, AddToServers(rest, address, extent, m));
        GrowLater(list, PlansMutations(rest), PlansMutations(AddToServers(rest, address, extent, m)), m, row);
      }
    }
  }

  lemma OtherServersHaveNone(plans: seq<ServerPlan>, extent: Extent, row: Bytes)
    requires plans != [] && DistinctPlans(plans) && OnlyTablet(plans, plans[0].address, extent, row)
    ensures OfRow(PlansMutations(plans[1..]), row) == []
  {
    hide ExtentsMutations, OfRow, DistinctExtents, OnlyExtent, PlansMutations;
    forall x | x in plans[1..] ensures OfRow(ExtentsMutations(x.extents), row) == [] {
      var k :| 0 <= k < |plans[1..]| && plans[1..][k] == x;
      assert plans[k + 1] == x;
    }
    NoneOfRowInPlans(plans[1..], row);
  }

  lemma {:induction false} RoutedAt(mutations: seq<Mutation>, route: nat -> Answer, address: string, extent: Extent,
      row: Bytes)
    requires OfRow(Routed(mutations, route, address, extent), row) != []
    ensures exists p :: 0 <= p < |mutations| && mutations[p].row == row && route(p) == Located(address, extent)
  {
    hide OfRow;
    if mutations == [] {
      NoRows(row);
    } else {
      var n := |mutations| - 1;
      var before := Routed(mutations[..n], route, address, extent);
      OfRowConcat(before, if route(n) == Located(address, extent) then [mutations[n]] else [], row);
      OfRowCons(mutations[n], [], row);
      NoRows(row);
      if OfRow(before, row) != [] { RoutedAt(mutations[..n], route, address, extent, row); }
    }
  }

  lemma NoRows(row: Bytes)
    ensures OfRow([], row) == []
  {
  }

  lemma RoutesToOnePlace(mutations: seq<Mutation>, route: nat -> Answer)
    requires mutations != [] && RoutesByRow(mutations, route) && route(|mutations| - 1).Located?
    requires PlanOf(mutations[..|mutations| - 1], route).Plans?
    ensures var n := |mutations| - 1;
            OnlyTablet(PlanOf(mutations[..n], route).plans, route(n).address, route(n).extent, mutations[n].row)
  {
    var n := |mutations| - 1;
    var address, extent, row := route(n).address, route(n).extent, mutations[n].row;
    var plans := PlanOf(mutations[..n], route).plans;
    forall x | x in plans
      ensures OnlyExtent(x.extents, extent, row)
      ensures OfRow(ExtentsMutations(x.extents), row) != [] ==> x.address == address
    {
      hide PlanOf, OfRow, ExtentsMutations, DistinctPlans;
      var i :| 0 <= i < |plans| && plans[i] == x;
      forall j | 0 <= j < |x.extents| && OfRow(x.extents[j].mutations, row) != []
        ensures x.extents[j].extent == extent && x.address == address
      {
        PlanProjects(mutations[..n], route, x.address, x.extents[j].extent);
        ListedForTablet(plans, i, j);
        RoutedAt(mutations[..n], route, x.address, x.extents[j].extent, row);
      }
      if forall y :: y in x.extents ==> OfRow(y.mutations, row) == [] { NoneOfRow(x.extents, row); }
    }
  }

  /** When routing depends only on the row, planning keeps every row's mutations in order. */
  lemma {:induction false} PlanKeepsRowOrder(mutations: seq<Mutation>, route: nat -> Answer, row: Bytes)
    requires PlanOf(mutations, route).Plans? && RoutesByRow(mutations, route)
    ensures OfRow(PlansMutations(PlanOf(mutations, route).plans), row) == OfRow(mutations, row)
  {
    hide OfRow, PlansMutations, DistinctPlans, OnlyTablet, AddToServers;
    NothingPlanned();
    if mutations != [] {
      var n := |mutations| - 1;
      var plans := PlanOf(mutations[..n], route).plans;
      PlanKeepsRowOrder(mutations[..n], route, row);
      PlanProjects(mutations[..n], route, route(n).address, route(n).extent);
      RoutesToOnePlace(mutations, route);
      AddToServersInOrder(plans, route(n).address, route(n).extent, mutations[n], row);
      OfRowConcat(mutations[..n], [mutations[n]], row);
      assert mutations == mutations[..n] + [mutations[n]];
    }
  }

  // ---- Planning with maps of indexes ----

  ghost predicate ExtentIndexes(extents: seq<ExtentPlan>, indexes: map<Extent, nat>) {
    && (forall e :: e in indexes ==> indexes[e] < |extents| && extents[indexes[e]].extent == e)
    && (forall i :: 0 <= i < |extents| ==> extents[i].extent in indexes && indexes[extents[i].extent] == i)
  }

  ghost predicate ServerIndexes(plans: seq<ServerPlan>, servers: map<string, nat>, indexes: seq<map<Extent, nat>>) {
    && |indexes| == |plans|
    && (forall a :: a in servers ==> servers[a] < |plans| && plans[servers[a]].address == a)
    && (forall i :: 0 <= i < |plans| ==>
          plans[i].address in servers && servers[plans[i].address] == i && ExtentIndexes(plans[i].extents, indexes[i]))
  }

  lemma {:induction false} AddToExtentsAt(extents: seq<ExtentPlan>, extent: Extent, m: Mutation, i: nat)
    requires i <= |extents| && (i < |extents| ==> extents[i].extent == extent)
    requires forall j :: 0 <= j < i ==> extents[j].extent != extent
    ensures AddToExtents(extents, extent, m)
            == if i == |extents| then extents + [ExtentPlan(extent, [m])]
               else extents[i := ExtentPlan(extent, extents[i].mutations + [m])]
  {
    if i > 0 {
      AddToExtentsAt(extents[1..], extent, m, i - 1);
      assert extents == [extents[0]] + extents[1..];
    }
  }

  lemma {:induction false} AddToServersAt(plans: seq<ServerPlan>, address: string, extent: Extent, m: Mutation, i: nat)
    requires i <= |plans| && (i < |plans| ==> plans[i].address == address)
    requires forall j :: 0 <= j < i ==> plans[j].address != address
    ensures AddToServers(plans, address, extent, m)
            == if i == |plans| then plans + [ServerPlan(address, [ExtentPlan(extent, [m])])]
               else plans[i := ServerPlan(address, AddToExtents(plans[i].extents, extent, m))]
  {
    hide AddToExtents;
    if i > 0 {
      var first, rest := plans[0], plans[1..];
      AddToServersAt(rest, address, extent, m, i - 1);
      assert AddToServers(plans, address, extent, m) == [first] + AddToServers(rest, address, extent, m);
      assert plans == [first] + rest;
    }
  }

  method AddToTablet(extents: seq<ExtentPlan>, indexes: map<Extent, nat>, extent: Extent, m: Mutation)
    returns (extents': seq<ExtentPlan>, indexes': map<Extent, nat>)
    requires ExtentIndexes(extents, indexes)
    ensures extents' == AddToExtents(extents, extent, m) && ExtentIndexes(extents', indexes')
  {
    hide AddToExtents;
    if extent !in indexes {
      AddToExtentsAt(extents, extent, m, |extents|);
      extents' := extents + [ExtentPlan(extent, [m])];
      indexes' := indexes[extent := |extents|];
    } else {
      var j := indexes[extent];
      AddToExtentsAt(extents, extent, m, j);
      extents' := extents[j := ExtentPlan(extent, extents[j].mutations + [m])];
      indexes' := indexes;
    }
  }

  method AddToServer(plans: seq<ServerPlan>, servers: map<string, nat>, indexes: seq<map<Extent, nat>>,
                     answer: Answer, m: Mutation)
    returns (plans': seq<ServerPlan>, servers': map<string, nat>, indexes': seq<map<Extent, nat>>)
    requires ServerIndexes(plans, servers, indexes) && answer.Located?
    ensures plans' == AddToServers(plans, answer.address, answer.extent, m) && ServerIndexes(plans', servers', indexes')
  {
    hide AddToExtents, AddToServers, ExtentIndexes;
    plans', servers', indexes' := plans, servers, indexes;
    if answer.address !in servers {
      AddToServersAt(plans, answer.address, answer.extent, m, |plans|);
      FirstExtentIndex(answer.extent, m);
      servers' := servers[answer.address := |plans|];
      plans' := plans + [ServerPlan(answer.address, [ExtentPlan(answer.extent, [m])])];
      indexes' := indexes + [map[answer.extent := 0]];
    } else {
      var i := servers[answer.address];
      AddToServersAt(plans, answer.address, answer.extent, m, i);
      var extents, known := AddToTablet(plans[i].extents, indexes[i], answer.extent, m);
      plans' := plans[i := ServerPlan(answer.address, extents)];
      indexes' := indexes[i := known];
    }
  }

  lemma FirstExtentIndex(extent: Extent, m: Mutation)
    ensures ExtentIndexes([ExtentPlan(extent, [m])], map[extent := 0])
  {
  }

  method Plan(mutations: seq<Mutation>, route: nat -> Answer) returns (planning: Planning)
    ensures planning == PlanOf(mutations, route)
  {
    hide AddToServers;
    var plans: seq<ServerPlan> := [];
    var servers: map<string, nat> := map[];
    var indexes: seq<map<Extent, nat>> := [];
    assert ServerIndexes(plans, servers, indexes);
    hide ServerIndexes;
    assert mutations[..|mutations|] == mutations;
    for n := 0 to |mutations|
      invariant PlanOf(mutations[..n], route) == Plans(plans)
      invariant ServerIndexes(plans, servers, indexes)
    {
      PlanSteps(mutations, route, n);
      var answer := route(n);
      if !answer.Located? {
        UnroutableEnds(mutations, route, n + 1);
        return Unroutable(mutations[n].row, answer);
      }
      plans, servers, indexes := AddToServer(plans, servers, indexes, answer, mutations[n]);
    }
    return Plans(plans);
  }

  lemma PlanSteps(mutations: seq<Mutation>, route: nat -> Answer, n: nat)
    requires n < |mutations|
    ensures PlanOf(mutations[..n], route).Plans? ==>
              PlanOf(mutations[..n + 1], route)
              == if route(n).Located?
                 then Plans(AddToServers(PlanOf(mutations[..n], route).plans, route(n).address, route(n).extent, mutations[n]))
                 else Unroutable(mutations[n].row, route(n))
  {
    assert mutations[..n + 1][..n] == mutations[..n];
  }

  lemma {:induction false} UnroutableEnds(mutations: seq<Mutation>, route: nat -> Answer, n: nat)
    requires n <= |mutations| && PlanOf(mutations[..n], route).Unroutable?
    ensures PlanOf(mutations, route) == PlanOf(mutations[..n], route)
    decreases |mutations| - n
  {
    if n < |mutations| {
      assert mutations[..n + 1][..n] == mutations[..n];
      UnroutableEnds(mutations, route, n + 1);
    } else {
      assert mutations[..n] == mutations;
    }
  }
}
