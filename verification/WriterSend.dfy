/** Sending one server's plan: batches, the update session, and what its response says was committed. */
module WriterSend {
  import opened Bytes
  import opened Wrappers
  import opened Tablets
  import opened WriterPlan

  function Min(a: nat, b: nat): (m: nat)
    ensures m <= a && m <= b && (m == a || m == b)
  {
    if a < b then a else b
  }

  // ---- Batches ----

  function Flatten(batches: seq<seq<Mutation>>): seq<Mutation> {
    if batches == [] then [] else batches[0] + Flatten(batches[1..])
  }

  /** Where the batch that starts `ms` ends, once its first `i` mutations of `size` bytes are in it. */
  function BatchEnd(ms: seq<Mutation>, i: nat, size: nat, maxBytes: nat): (end: nat)
    requires i <= |ms|
    ensures i <= end <= |ms| && (i == 0 && ms != [] ==> end > 0)
    decreases |ms| - i
  {
    if i < |ms| && (i == 0 || size + WireSize(ms[i]) <= maxBytes)
    then BatchEnd(ms, i + 1, size + WireSize(ms[i]), maxBytes)
    else i
  }

  function Batches(ms: seq<Mutation>, maxBytes: nat): seq<seq<Mutation>> {
    if ms == [] then []
    else
      var end := BatchEnd(ms, 0, 0, maxBytes);
      [ms[..end]] + Batches(ms[end..], maxBytes)
  }

  method MutationBatches(mutations: seq<Mutation>, maxBytes: nat) returns (batches: seq<seq<Mutation>>)
    ensures batches == Batches(mutations, maxBytes)
  {
    hide BatchEnd;
    batches := [];
    var rest := mutations;
    while |rest| > 0
      invariant batches + Batches(rest, maxBytes) == Batches(mutations, maxBytes)
    {
      var batch := NextBatch(rest, maxBytes);
      rest := rest[|batch|..];
      batches := batches + [batch];
    }
  }

  method NextBatch(mutations: seq<Mutation>, maxBytes: nat) returns (batch: seq<Mutation>)
    ensures batch == mutations[..BatchEnd(mutations, 0, 0, maxBytes)]
  {
    var size: nat := 0;
    batch := [];
    while |batch| < |mutations|
      invariant |batch| <= |mutations| && batch == mutations[..|batch|]
      invariant BatchEnd(mutations, |batch|, size, maxBytes) == BatchEnd(mutations, 0, 0, maxBytes)
    {
      var next := mutations[|batch|];
      if |batch| > 0 && size + WireSize(next) > maxBytes { break; }
      batch := batch + [next];
      size := size + WireSize(next);
    }
  }

  /** A full batch fits the limit unless it is a single mutation, and the next mutation did not fit. */
  lemma {:induction false} BatchIsMaximal(ms: seq<Mutation>, i: nat, maxBytes: nat)
    requires i <= |ms| && ms != [] && (i <= 1 || TotalSize(ms[..i]) <= maxBytes)
    ensures var end := BatchEnd(ms, i, TotalSize(ms[..i]), maxBytes);
            && (end == 1 || TotalSize(ms[..end]) <= maxBytes)
            && (end < |ms| ==> TotalSize(ms[..end]) + WireSize(ms[end]) > maxBytes)
    decreases |ms| - i
  {
    if i < |ms| {
      assert ms[..i + 1] == ms[..i] + [ms[i]];
      TotalSizeConcat(ms[..i], [ms[i]]);
      if i == 0 || TotalSize(ms[..i]) + WireSize(ms[i]) <= maxBytes { BatchIsMaximal(ms, i + 1, maxBytes); }
    } else {
      assert ms[..i] == ms;
    }
  }

  ghost predicate WithinLimit(batch: seq<Mutation>, maxBytes: nat) {
    batch != [] && (|batch| == 1 || TotalSize(batch) <= maxBytes)
  }

  /** The next batch could not have started one mutation earlier. */
  ghost predicate Overflows(batch: seq<Mutation>, next: seq<Mutation>, maxBytes: nat) {
    next != [] && TotalSize(batch) + WireSize(next[0]) > maxBytes
  }

  /** Batches concatenate back to the list, are never empty, exceed the limit only as singletons, and
      are as few as filling them in order allows. */
  lemma {:induction false} BatchesCut(ms: seq<Mutation>, maxBytes: nat)
    ensures Flatten(Batches(ms, maxBytes)) == ms
    ensures forall i :: 0 <= i < |Batches(ms, maxBytes)| ==> WithinLimit(Batches(ms, maxBytes)[i], maxBytes)
    ensures forall i, j :: 0 <= i && j == i + 1 < |Batches(ms, maxBytes)| ==>
              Overflows(Batches(ms, maxBytes)[i], Batches(ms, maxBytes)[j], maxBytes)
  {
    if ms != [] {
      var end := BatchEnd(ms, 0, 0, maxBytes);
      assert ms[..0] == [];
      BatchIsMaximal(ms, 0, maxBytes);
      var rest := Batches(ms[end..], maxBytes);
      BatchesCut(ms[end..], maxBytes);
      assert Batches(ms, maxBytes) == [ms[..end]] + rest;
      assert ([ms[..end]] + rest)[1..] == rest;
      assert ms[..end] + ms[end..] == ms;
      if rest != [] { assert rest[0][0] == ms[end..][0] == ms[end]; }
    }
  }

  // ---- Apply calls ----

  datatype ApplyCall = ApplyCall(extent: Extent, batch: seq<Mutation>)

  function CallsFor(extent: Extent, batches: seq<seq<Mutation>>): seq<ApplyCall> {
    if batches == [] then [] else [ApplyCall(extent, batches[0])] + CallsFor(extent, batches[1..])
  }

  /** Every Apply an update session of the plan needs, in order. */
  function ApplyCalls(extents: seq<ExtentPlan>, maxBytes: nat): seq<ApplyCall> {
    if extents == [] then []
    else CallsFor(extents[0].extent, Batches(extents[0].mutations, maxBytes)) + ApplyCalls(extents[1..], maxBytes)
  }

  /** What reached one tablet. */
  function SentTo(calls: seq<ApplyCall>, extent: Extent): seq<Mutation> {
    if calls == [] then [] else (if calls[0].extent == extent then calls[0].batch else []) + SentTo(calls[1..], extent)
  }

  lemma {:induction false} SentToConcat(a: seq<ApplyCall>, b: seq<ApplyCall>, extent: Extent)
    ensures SentTo(a + b, extent) == SentTo(a, extent) + SentTo(b, extent)
  {
    if a == [] {
      assert a + b == b;
    } else {
      hide SentTo;
      SentToConcat(a[1..], b, extent);
      SentToCons(a[0], a[1..], extent);
      SentToCons(a[0], a[1..] + b, extent);
      assert a + b == [a[0]] + (a[1..] + b) && a == [a[0]] + a[1..];
      Regroup(if a[0].extent == extent then a[0].batch else [], SentTo(a[1..], extent), SentTo(b, extent));
    }
  }

  lemma Regroup(x: seq<Mutation>, y: seq<Mutation>, z: seq<Mutation>)
    ensures x + (y + z) == (x + y) + z
  {
  }

  lemma SentToCons(call: ApplyCall, rest: seq<ApplyCall>, extent: Extent)
    ensures SentTo([call] + rest, extent) == (if call.extent == extent then call.batch else []) + SentTo(rest, extent)
  {
    assert ([call] + rest)[1..] == rest;
  }

  lemma {:induction false} CallsForSend(extent: Extent, batches: seq<seq<Mutation>>, other: Extent)
    ensures SentTo(CallsFor(extent, batches), other) == if other == extent then Flatten(batches) else []
  {
    if batches != [] {
      CallsForSend(extent, batches[1..], other);
      assert CallsFor(extent, batches)[1..] == CallsFor(extent, batches[1..]);
    }
  }

  /** The calls together send every tablet exactly its list, in order. */
  lemma {:induction false} CallsSendThePlan(extents: seq<ExtentPlan>, maxBytes: nat, j: nat)
    requires DistinctExtents(extents) && j < |extents|
    ensures SentTo(ApplyCalls(extents, maxBytes), extents[j].extent) == extents[j].mutations
  {
    hide SentTo, Batches, Flatten, CallsFor;
    var first, e := extents[0], extents[j].extent;
    var calls := CallsFor(first.extent, Batches(first.mutations, maxBytes));
    SentToConcat(calls, ApplyCalls(extents[1..], maxBytes), e);
    CallsForSend(first.extent, Batches(first.mutations, maxBytes), e);
    BatchesCut(first.mutations, maxBytes);
    if j == 0 {
      NothingElseSent(extents[1..], maxBytes, e);
    } else {
      CallsSendThePlan(extents[1..], maxBytes, j - 1);
    }
  }

  lemma {:induction false} NothingElseSent(extents: seq<ExtentPlan>, maxBytes: nat, e: Extent)
    requires forall j :: 0 <= j < |extents| ==> extents[j].extent != e
    ensures SentTo(ApplyCalls(extents, maxBytes), e) == []
  {
    if extents != [] {
      SentToConcat(CallsFor(extents[0].extent, Batches(extents[0].mutations, maxBytes)), ApplyCalls(extents[1..], maxBytes), e);
      CallsForSend(extents[0].extent, Batches(extents[0].mutations, maxBytes), e);
      NothingElseSent(extents[1..], maxBytes, e);
    }
  }

  /** What reached a tablet before an Apply failed is a prefix of its list. */
  lemma SentIsPrefix(extents: seq<ExtentPlan>, maxBytes: nat, k: nat, j: nat)
    requires DistinctExtents(extents) && j < |extents| && k <= |ApplyCalls(extents, maxBytes)|
    ensures SentTo(ApplyCalls(extents, maxBytes)[..k], extents[j].extent) <= extents[j].mutations
  {
    hide SentTo, ApplyCalls, DistinctExtents;
    var calls := ApplyCalls(extents, maxBytes);
    CallsSendThePlan(extents, maxBytes, j);
    SentToConcat(calls[..k], calls[k..], extents[j].extent);
    assert calls[..k] + calls[k..] == calls;
  }

  // ---- The closing response ----

  /** A response: committed counts for failed tablets, violated constraints, and tablets refused. An
      absent entry is Go's nil. */
  datatype UpdateErrors = UpdateErrors(
    failedExtents: seq<(Option<Extent>, int)>, violations: seq<Option<int>>, authorizationFailures: seq<Option<Extent>>)

  datatype Malformed = NilExtent | UnknownExtent | BadCount | DuplicateExtent | NilAuthorization

  datatype Update = Update(retry: seq<Mutation>, invalidateRows: seq<Bytes>, terminal: bool)

  function IndexOf(extents: seq<ExtentPlan>, extent: Extent): (index: int)
    ensures -1 <= index < |extents|
    ensures index >= 0 ==> extents[index].extent == extent
    ensures index < 0 ==> forall j :: 0 <= j < |extents| ==> extents[j].extent != extent
  {
    if extents == [] then -1
    else if extents[0].extent == extent then 0
    else
      var index := IndexOf(extents[1..], extent);
      assert index < 0 ==> forall j :: 1 <= j < |extents| ==> extents[j] == extents[1..][j - 1];
      if index < 0 then -1 else index + 1
  }

  function CheckEntry(extents: seq<ExtentPlan>, entry: (Option<Extent>, int), failed: map<Extent, nat>)
    : (r: Result<map<Extent, nat>, Malformed>)
  {
    if entry.0.None? then Err(NilExtent)
    else
      var index := IndexOf(extents, entry.0.value);
      if index < 0 then Err(UnknownExtent)
      else if !(0 <= entry.1 <= |extents[index].mutations|) then Err(BadCount)
      else if entry.0.value in failed then Err(DuplicateExtent)
      else Ok(failed[entry.0.value := entry.1])
  }

  function ReadFailures(extents: seq<ExtentPlan>, entries: seq<(Option<Extent>, int)>, failed: map<Extent, nat>)
    : Result<map<Extent, nat>, Malformed>
  {
    if entries == [] then Ok(failed)
    else
      match CheckEntry(extents, entries[0], failed)
      case Err(malformed) => Err(malformed)
      case Ok(failed') => ReadFailures(extents, entries[1..], failed')
  }

  /** How many of a tablet's mutations the response says are committed. */
  function Reported(failed: map<Extent, nat>, x: ExtentPlan): (count: nat)
    ensures count <= |x.mutations|
  {
    if x.extent in failed then Min(failed[x.extent], |x.mutations|) else |x.mutations|
  }

  function Suffixes(extents: seq<ExtentPlan>, failed: map<Extent, nat>): seq<Mutation> {
    if extents == [] then []
    else extents[0].mutations[Reported(failed, extents[0])..] + Suffixes(extents[1..], failed)
  }

  function SuffixRows(extents: seq<ExtentPlan>, failed: map<Extent, nat>): seq<Bytes> {
    if extents == [] then []
    else
      var suffix := extents[0].mutations[Reported(failed, extents[0])..];
      (if suffix == [] then [] else [suffix[0].row]) + SuffixRows(extents[1..], failed)
  }

  predicate Terminal(errors: UpdateErrors) {
    (exists v :: v in errors.violations && v.Some?) || errors.authorizationFailures != []
  }

  /** decodeMutationUpdateErrors. */
  function DecodeOf(extents: seq<ExtentPlan>, response: Option<UpdateErrors>): Result<Update, Malformed> {
    if response.None? then Ok(Update([], [], false))
    else
      var errors := response.value;
      match ReadFailures(extents, errors.failedExtents, map[])
      case Err(malformed) => Err(malformed)
      case Ok(failed) =>
        if None in errors.authorizationFailures then Err(NilAuthorization)
        else Ok(Update(Suffixes(extents, failed), SuffixRows(extents, failed), Terminal(errors)))
  }

  method ReadFailedExtents(extents: seq<ExtentPlan>, entries: seq<(Option<Extent>, int)>)
    returns (r: Result<map<Extent, nat>, Malformed>)
    requires DistinctExtents(extents)
    ensures r == ReadFailures(extents, entries, map[])
  {
    var submitted: map<Extent, nat> := map[];
    for index := 0 to |extents|
      invariant forall j :: 0 <= j < index ==> extents[j].extent in submitted && submitted[extents[j].extent] == j
      invariant forall e :: e in submitted ==> submitted[e] < index && extents[submitted[e]].extent == e
    {
      submitted := submitted[extents[index].extent := index];
    }
    hide IndexOf, ReadFailures;
    var failed: map<Extent, nat> := map[];
    assert entries[0..] == entries;
    for k := 0 to |entries|
      invariant ReadFailures(extents, entries[k..], failed) == ReadFailures(extents, entries, map[])
    {
      ReadFailuresSteps(extents, entries, k, failed);
      var (extent, committed) := entries[k];
      if extent.None? { return Err(NilExtent); }
      if extent.value !in submitted { return Err(UnknownExtent); }
      assert submitted[extent.value] == IndexOf(extents, extent.value);
      var count := |extents[submitted[extent.value]].mutations|;
      if committed < 0 || committed > count { return Err(BadCount); }
      if extent.value in failed { return Err(DuplicateExtent); }
      failed := failed[extent.value := committed];
    }
    ReadFailuresEnd(extents, failed);
    assert entries[|entries|..] == [];
    return Ok(failed);
  }

  lemma ReadFailuresSteps(extents: seq<ExtentPlan>, entries: seq<(Option<Extent>, int)>, k: nat,
      failed: map<Extent, nat>)
    requires k < |entries|
    ensures ReadFailures(extents, entries[k..], failed)
            == match CheckEntry(extents, entries[k], failed)
               case Err(malformed) => Err(malformed)
               case Ok(failed') => ReadFailures(extents, entries[k + 1..], failed')
  {
    assert entries[k..][1..] == entries[k + 1..];
  }

  lemma ReadFailuresEnd(extents: seq<ExtentPlan>, failed: map<Extent, nat>)
    ensures ReadFailures(extents, [], failed) == Ok(failed)
  {
  }

  method CollectRetry(extents: seq<ExtentPlan>, failed: map<Extent, nat>)
    returns (retry: seq<Mutation>, invalidateRows: seq<Bytes>)
    ensures retry == Suffixes(extents, failed) && invalidateRows == SuffixRows(extents, failed)
  {
    hide Suffixes, SuffixRows, Reported;
    retry, invalidateRows := [], [];
    assert extents[0..] == extents;
    for index := 0 to |extents|
      invariant retry + Suffixes(extents[index..], failed) == Suffixes(extents, failed)
      invariant invalidateRows + SuffixRows(extents[index..], failed) == SuffixRows(extents, failed)
    {
      var x := extents[index];
      SuffixesSteps(extents, index, failed);
      ReportedSteps(x, failed);
      if x.extent in failed {
        var committed := Reported(failed, x);
        if committed < |x.mutations| {
          var suffix := x.mutations[committed..];
          retry := retry + suffix;
          invalidateRows := invalidateRows + [suffix[0].row];
        }
      }
    }
    NothingLeft(failed);
    assert extents[|extents|..] == [];
  }

  lemma SuffixesSteps(extents: seq<ExtentPlan>, index: nat, failed: map<Extent, nat>)
    requires index < |extents|
    ensures var suffix := extents[index].mutations[Reported(failed, extents[index])..];
            && Suffixes(extents[index..], failed) == suffix + Suffixes(extents[index + 1..], failed)
            && SuffixRows(extents[index..], failed)
               == (if suffix == [] then [] else [suffix[0].row]) + SuffixRows(extents[index + 1..], failed)
  {
    assert extents[index..][1..] == extents[index + 1..];
  }

  lemma ReportedSteps(x: ExtentPlan, failed: map<Extent, nat>)
    ensures Reported(failed, x) <= |x.mutations| && (x.extent !in failed ==> Reported(failed, x) == |x.mutations|)
  {
  }

  lemma NothingLeft(failed: map<Extent, nat>)
    ensures Suffixes([], failed) == [] && SuffixRows([], failed) == []
  {
  }

  method DecodeUpdateErrors(extents: seq<ExtentPlan>,
      response: Option<UpdateErrors>) returns (r: Result<Update, Malformed>)
    requires DistinctExtents(extents)
    ensures r == DecodeOf(extents, response)
  {
    hide ReadFailures, Suffixes, SuffixRows, DistinctExtents;
    if response.None? { return Ok(Update([], [], false)); }
    var errors := response.value;
    var failed := ReadFailedExtents(extents, errors.failedExtents);
    if failed.Err? { return Err(failed.error); }
    var retry, invalidateRows := CollectRetry(extents, failed.value);
    var violated := exists v :: v in errors.violations && v.Some?;
    if None in errors.authorizationFailures { return Err(NilAuthorization); }
    return Ok(Update(retry, invalidateRows, violated || |errors.authorizationFailures| > 0));
  }
}
