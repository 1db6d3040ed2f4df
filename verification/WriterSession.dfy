/** Update sessions against a server that may fail but never lies: what commits, and what is retried. */
module WriterSession {
  import opened Bytes
  import opened Wrappers
  import opened Tablets
  import opened WriterPlan
  import opened WriterSend

  // ---- Which responses decode ----

  predicate EntryFits(extents: seq<ExtentPlan>, entry: (Option<Extent>, int)) {
    && entry.0.Some?
    && var j := IndexOf(extents, entry.0.value);
       j >= 0 && 0 <= entry.1 <= |extents[j].mutations|
  }

  /** Every entry names a tablet of the plan that no earlier entry named, with a count the plan allows. */
  ghost predicate WellFormed(extents: seq<ExtentPlan>, entries: seq<(Option<Extent>, int)>) {
    && (forall k :: 0 <= k < |entries| ==> EntryFits(extents, entries[k]))
    && (forall k, l :: 0 <= k < l < |entries| ==> entries[k].0 != entries[l].0)
  }

  ghost predicate NoneNamed(entries: seq<(Option<Extent>, int)>, failed: map<Extent, nat>) {
    forall k :: 0 <= k < |entries| && entries[k].0.Some? ==> entries[k].0.value !in failed
  }

  lemma {:induction false} ReadFailuresAccepts(extents: seq<ExtentPlan>, entries: seq<(Option<Extent>, int)>,
      failed: map<Extent, nat>)
    ensures ReadFailures(extents, entries, failed).Ok? <==> WellFormed(extents, entries) && NoneNamed(entries, failed)
  {
    if entries != [] {
      hide IndexOf;
      var entry, rest := entries[0], entries[1..];
      assert entries == [entry] + rest;
      if CheckEntry(extents, entry, failed).Ok? {
        ReadFailuresAccepts(extents, rest, failed[entry.0.value := entry.1]);
        WellFormedCons(extents, entry, rest, failed);
      } else {
        assert !EntryFits(extents, entries[0]) || entries[0].0.value in failed;
      }
    }
  }

  lemma WellFormedCons(extents: seq<ExtentPlan>, entry: (Option<Extent>, int), rest: seq<(Option<Extent>, int)>,
      failed: map<Extent, nat>)
    requires EntryFits(extents, entry) && entry.0.value !in failed
    ensures WellFormed(extents, [entry] + rest) && NoneNamed([entry] + rest, failed)
            <==> WellFormed(extents, rest) && NoneNamed(rest, failed[entry.0.value := entry.1])
  {
    hide EntryFits;
    var all := [entry] + rest;
    Fits(extents, entry);
    assert forall k :: 0 <= k < |rest| ==> all[k + 1] == rest[k];
    if WellFormed(extents, all) && NoneNamed(all, failed) {
      forall k | 0 <= k < |rest| ensures EntryFits(extents, rest[k]) && rest[k].0 != all[0].0 {
        assert EntryFits(extents, all[k + 1]);
        assert all[0].0 != all[k + 1].0;
      }
    }
    if WellFormed(extents, rest) && NoneNamed(rest, failed[entry.0.value := entry.1]) {
      forall k | 0 <= k < |rest| ensures rest[k].0 != entry.0 {
        Fits(extents, rest[k]);
      }
    }
  }

  lemma Fits(extents: seq<ExtentPlan>, entry: (Option<Extent>, int))
    requires EntryFits(extents, entry)
    ensures entry.0.Some? && entry.1 >= 0
  {
  }

  /** The count read for a tablet is the one its entry gives; a tablet without an entry has none. */
  lemma {:induction false} ReadFailuresReads(extents: seq<ExtentPlan>, entries: seq<(Option<Extent>, int)>,
      failed: map<Extent, nat>, e: Extent)
    requires ReadFailures(extents, entries, failed).Ok?
    ensures var read := ReadFailures(extents, entries, failed).value;
            && (e in read <==> e in failed || exists k :: 0 <= k < |entries| && entries[k].0 == Some(e))
            && (e in failed ==> read[e] == failed[e])
            && (forall k :: 0 <= k < |entries| && entries[k].0 == Some(e) ==> read[e] == entries[k].1)
  {
    if entries != [] {
      hide IndexOf;
      var entry, rest := entries[0], entries[1..];
      ReadFailuresReads(extents, rest, failed[entry.0.value := entry.1], e);
      assert forall k :: 0 <= k < |rest| ==> entries[k + 1] == rest[k];
      if k :| 0 <= k < |rest| && rest[k].0 == Some(e) { assert entries[k + 1].0 == Some(e); }
    }
  }

  /** A response decodes exactly when its failed extents are well formed and no refused tablet is nil. */
  lemma DecodeAccepts(extents: seq<ExtentPlan>, errors: UpdateErrors)
    ensures DecodeOf(extents, Some(errors)).Ok?
            <==> WellFormed(extents, errors.failedExtents) && None !in errors.authorizationFailures
  {
    ReadFailuresAccepts(extents, errors.failedExtents, map[]);
  }

  /** What a decoded response says was committed of a plan. */
  function ReportedPrefixes(extents: seq<ExtentPlan>, failed: map<Extent, nat>): seq<Mutation> {
    if extents == [] then []
    else extents[0].mutations[..Reported(failed, extents[0])] + ReportedPrefixes(extents[1..], failed)
  }

  lemma {:induction false} PrefixesAndSuffixes(extents: seq<ExtentPlan>, failed: map<Extent, nat>)
    ensures multiset(ReportedPrefixes(extents, failed)) + multiset(Suffixes(extents, failed)) == multiset(ExtentsMutations(extents))
  {
    if extents != [] {
      PrefixesAndSuffixes(extents[1..], failed);
      var ms, k := extents[0].mutations, Reported(failed, extents[0]);
      assert ms == ms[..k] + ms[k..];
    }
  }

  /** For every response that decodes, the committed prefixes and the retry list together are the plan. */
  lemma DecodedResponseSplitsPlan(extents: seq<ExtentPlan>, errors: UpdateErrors)
    requires WellFormed(extents, errors.failedExtents) && None !in errors.authorizationFailures
    ensures DecodeOf(extents, Some(errors)).Ok? && ReadFailures(extents, errors.failedExtents, map[]).Ok?
    ensures var failed := ReadFailures(extents, errors.failedExtents, map[]).value;
            multiset(ReportedPrefixes(extents, failed)) + multiset(DecodeOf(extents, Some(errors)).value.retry)
            == multiset(ExtentsMutations(extents))
  {
    hide ReadFailures, ReportedPrefixes, Suffixes, ExtentsMutations;
    DecodeAccepts(extents, errors);
    PrefixesAndSuffixes(extents, ReadFailures(extents, errors.failedExtents, map[]).value);
  }

  // ---- Committed prefixes and what is left ----

  /** A list of mutations, the part that became durable and the part that did not. */
  datatype Piece = Piece(all: seq<Mutation>, done: seq<Mutation>, left: seq<Mutation>)

  ghost predicate Conserved(p: Piece) {
    multiset(p.all) == multiset(p.done) + multiset(p.left)
  }

  ghost predicate InOrder(p: Piece, row: Bytes) {
    OfRow(p.all, row) == OfRow(p.done, row) + OfRow(p.left, row)
  }

  function Join(p: Piece, q: Piece): Piece {
    Piece(p.all + q.all, p.done + q.done, p.left + q.left)
  }

  lemma JoinConserved(p: Piece, q: Piece)
    requires Conserved(p) && Conserved(q)
    ensures Conserved(Join(p, q))
  {
  }

  /** A row that only one of two pieces holds stays in order when they are joined. */
  lemma JoinInOrder(p: Piece, q: Piece, row: Bytes)
    requires InOrder(p, row) && InOrder(q, row)
    requires OfRow(p.all, row) == [] || OfRow(q.all, row) == []
    ensures InOrder(Join(p, q), row)
  {
    hide OfRow;
    OfRowConcat(p.all, q.all, row);
    OfRowConcat(p.done, q.done, row);
    OfRowConcat(p.left, q.left, row);
  }

  function Cut(ms: seq<Mutation>, done: nat): (p: Piece)
    ensures p.all == ms
  {
    var k := Min(done, |ms|);
    Piece(ms, ms[..k], ms[k..])
  }

  lemma CutKeeps(ms: seq<Mutation>, done: nat, row: Bytes)
    ensures Conserved(Cut(ms, done)) && InOrder(Cut(ms, done), row)
  {
    var k := Min(done, |ms|);
    assert ms == ms[..k] + ms[k..];
    OfRowConcat(ms[..k], ms[k..], row);
  }

  /** Every tablet's list cut where the server stopped. */
  function CutExtents(extents: seq<ExtentPlan>, done: Extent -> nat): (p: Piece)
    ensures p.all == ExtentsMutations(extents)
  {
    if extents == [] then Piece([], [], [])
    else Join(Cut(extents[0].mutations, done(extents[0].extent)), CutExtents(extents[1..], done))
  }

  /** At most one tablet holds mutations of the row. */
  ghost predicate InOneExtent(extents: seq<ExtentPlan>, row: Bytes) {
    forall i, j :: 0 <= i < |extents| && 0 <= j < |extents| && i != j && OfRow(extents[i].mutations, row) != [] ==>
      OfRow(extents[j].mutations, row) == []
  }

  lemma {:induction false} CutExtentsConserved(extents: seq<ExtentPlan>, done: Extent -> nat)
    ensures Conserved(CutExtents(extents, done))
  {
    if extents != [] {
      CutExtentsConserved(extents[1..], done);
      CutKeeps(extents[0].mutations, done(extents[0].extent), []);
      JoinConserved(Cut(extents[0].mutations, done(extents[0].extent)), CutExtents(extents[1..], done));
    }
  }

  lemma {:induction false} CutExtentsInOrder(extents: seq<ExtentPlan>, done: Extent -> nat, row: Bytes)
    requires InOneExtent(extents, row)
    ensures InOrder(CutExtents(extents, done), row)
  {
    hide OfRow;
    NoRows(row);
    if extents != [] {
      var first, rest := extents[0], extents[1..];
      assert forall j :: 0 <= j < |rest| ==> rest[j] == extents[j + 1];
      CutExtentsInOrder(rest, done, row);
      CutKeeps(first.mutations, done(first.extent), row);
      if OfRow(first.mutations, row) != [] {
        forall x | x in rest ensures OfRow(x.mutations, row) == [] {
          var k :| 0 <= k < |rest| && rest[k] == x;
          assert extents[0] == first && extents[k + 1] == x;
        }
        NoneOfRow(rest, row);
      }
      JoinInOrder(Cut(first.mutations, done(first.extent)), CutExtents(rest, done), row);
    }
  }

  // ---- One server ----

  /** What will come of a session: it does not start; or one of its Apply calls may fail, some number of
      each tablet's mutations lands, and closing it may fail or be answered. */
  datatype Script =
    | StartFails
    | Starts(applyFailure: Option<nat>, landed: Extent -> nat, closing: Option<Option<UpdateErrors>>)

  datatype SendError = ApplyFailed | CloseFailed | MalformedResponse(malformed: Malformed) | Rejected

  datatype Send = Send(error: Option<SendError>, retry: seq<Mutation>, invalidateRows: seq<Bytes>, submitted: bool)

  function CallsMade(extents: seq<ExtentPlan>, script: Script, maxBytes: nat): seq<ApplyCall> {
    var calls := ApplyCalls(extents, maxBytes);
    if script.StartFails? then []
    else if script.applyFailure.Some? && script.applyFailure.value < |calls| then calls[..script.applyFailure.value + 1]
    else calls
  }

  /** The server commits a prefix of what each tablet received. */
  function DoneBy(script: Script, calls: seq<ApplyCall>): Extent -> nat {
    (e: Extent) => if script.StartFails? then 0 else Min(script.landed(e), |SentTo(calls, e)|)
  }

  function ServerPiece(extents: seq<ExtentPlan>, script: Script, maxBytes: nat): Piece {
    CutExtents(extents, DoneBy(script, CallsMade(extents, script, maxBytes)))
  }

  function FirstRows(extents: seq<ExtentPlan>): seq<Bytes> {
    if extents == [] then []
    else (if extents[0].mutations == [] then [] else [extents[0].mutations[0].row]) + FirstRows(extents[1..])
  }

  function Failed(error: SendError, submitted: bool): Send {
    Send(Some(error), [], [], submitted)
  }

  /** sendServer. */
  function SendOf(extents: seq<ExtentPlan>, script: Script, maxBytes: nat): Send {
    var calls := ApplyCalls(extents, maxBytes);
    if script.StartFails? then Send(None, ExtentsMutations(extents), FirstRows(extents), false)
    else if script.applyFailure.Some? && script.applyFailure.value < |calls| then Failed(ApplyFailed, true)
    else if script.closing.None? then Failed(CloseFailed, calls != [])
    else
      match DecodeOf(extents, script.closing.value)
      case Err(malformed) => Failed(MalformedResponse(malformed), calls != [])
      case Ok(update) =>
        if update.terminal then Failed(Rejected, calls != [])
        else Send(None, update.retry, update.invalidateRows, calls != [])
  }

  method SendServer(plan: ServerPlan, script: Script, maxBytes: nat) returns (send: Send, calls: seq<ApplyCall>)
    requires DistinctExtents(plan.extents)
    ensures send == SendOf(plan.extents, script, maxBytes)
    ensures calls == CallsMade(plan.extents, script, maxBytes)
  {
    hide ApplyCalls, DecodeOf, ExtentsMutations, FirstRows, DistinctExtents, Batches, CallsFor;
    calls := [];
    if script.StartFails? {
      return Send(None, ExtentsMutations(plan.extents), FirstRows(plan.extents), false), [];
    }
    ghost var all := ApplyCalls(plan.extents, maxBytes);
    assert plan.extents[0..] == plan.extents;
    for index := 0 to |plan.extents|
      invariant calls + ApplyCalls(plan.extents[index..], maxBytes) == all
      invariant script.applyFailure.Some? ==> |calls| <= script.applyFailure.value
    {
      var x := plan.extents[index];
      var batches := MutationBatches(x.mutations, maxBytes);
      ghost var before := calls;
      ApplyCallsSteps(plan.extents, index, maxBytes);
      assert batches[0..] == batches;
      for b := 0 to |batches|
        invariant calls + CallsFor(x.extent, batches[b..]) == before + CallsFor(x.extent, batches)
        invariant script.applyFailure.Some? ==> |calls| <= script.applyFailure.value
      {
        CallsForSteps(x.extent, batches, b);
        calls := calls + [ApplyCall(x.extent, batches[b])];
        assert calls <= all by { Prefixes(calls, x.extent, batches, b, before, plan.extents, index, maxBytes, all); }
        if script.applyFailure.Some? && script.applyFailure.value == |calls| - 1 {
          return Failed(ApplyFailed, true), calls;
        }
      }
      assert batches[|batches|..] == [];
      CallsForNothing(x.extent, maxBytes);
      assert calls == before + CallsFor(x.extent, batches);
      assert batches == Batches(x.mutations, maxBytes);
      assert calls + ApplyCalls(plan.extents[index + 1..], maxBytes)
             == before + (CallsFor(x.extent, batches) + ApplyCalls(plan.extents[index + 1..], maxBytes));
    }
    assert plan.extents[|plan.extents|..] == [];
    CallsForNothing(Extent(None, None), maxBytes);
    var submitted := calls != [];
    if script.closing.None? { return Failed(CloseFailed, submitted), calls; }
    var update := DecodeUpdateErrors(plan.extents, script.closing.value);
    if update.Err? { return Failed(MalformedResponse(update.error), submitted), calls; }
    if update.value.terminal { return Failed(Rejected, submitted), calls; }
    return Send(None, update.value.retry, update.value.invalidateRows, submitted), calls;
  }

  lemma ApplyCallsSteps(extents: seq<ExtentPlan>, index: nat, maxBytes: nat)
    requires index < |extents|
    ensures ApplyCalls(extents[index..], maxBytes)
            == CallsFor(extents[index].extent, Batches(extents[index].mutations, maxBytes)) + ApplyCalls(extents[index + 1..], maxBytes)
  {
    assert extents[index..][1..] == extents[index + 1..];
  }

  lemma CallsForSteps(extent: Extent, batches: seq<seq<Mutation>>, b: nat)
    requires b < |batches|
    ensures CallsFor(extent, batches[b..]) == [ApplyCall(extent, batches[b])] + CallsFor(extent, batches[b + 1..])
  {
    assert batches[b..][1..] == batches[b + 1..];
  }

  lemma CallsForNothing(extent: Extent, maxBytes: nat)
    ensures CallsFor(extent, []) == [] && ApplyCalls([], maxBytes) == []
  {
  }

  lemma Prefixes(calls: seq<ApplyCall>, extent: Extent, batches: seq<seq<Mutation>>, b: nat, before: seq<ApplyCall>,
                 extents: seq<ExtentPlan>, index: nat, maxBytes: nat, all: seq<ApplyCall>)
    requires b < |batches| && index < |extents|
    requires calls + CallsFor(extent, batches[b + 1..]) == before + CallsFor(extent, batches)
    requires before + (CallsFor(extent, batches) + ApplyCalls(extents[index + 1..], maxBytes)) == all
    ensures calls <= all
  {
    hide CallsFor, ApplyCalls;
    assert all == calls + CallsFor(extent, batches[b + 1..]) + ApplyCalls(extents[index + 1..], maxBytes);
  }

  // ---- When a send fails ----

  /** Every Apply of the session goes through. */
  predicate AppliesAll(extents: seq<ExtentPlan>, script: Script, maxBytes: nat) {
    script.Starts? && (script.applyFailure.None? || script.applyFailure.value >= |ApplyCalls(extents, maxBytes)|)
  }

  /** The response turns mutations away for good: a constraint was violated, or a tablet may not be written. */
  ghost predicate TurnsAway(errors: UpdateErrors) {
    || (exists k :: 0 <= k < |errors.violations| && errors.violations[k].Some?)
    || (exists k :: 0 <= k < |errors.authorizationFailures| && errors.authorizationFailures[k].Some?)
  }

  /** Every tablet named is one of the plan's, once, with a count it allows. */
  ghost predicate Decodable(extents: seq<ExtentPlan>, errors: UpdateErrors) {
    WellFormed(extents, errors.failedExtents) && None !in errors.authorizationFailures
  }

  /** The session goes through: it starts, every Apply does, and closing it is answered without an error, or
      with failed tablets only. */
  ghost predicate GoesThrough(extents: seq<ExtentPlan>, script: Script, maxBytes: nat) {
    && AppliesAll(extents, script, maxBytes)
    && script.closing.Some?
    && (script.closing.value.Some? ==> Decodable(extents, script.closing.value.value) && !TurnsAway(script.closing.value.value))
  }

  lemma TerminalTurnsAway(errors: UpdateErrors)
    requires None !in errors.authorizationFailures
    ensures Terminal(errors) <==> TurnsAway(errors)
  {
    if errors.authorizationFailures != [] {
      assert errors.authorizationFailures[0] in errors.authorizationFailures;
    }
    if v :| v in errors.violations && v.Some? {
      var k :| 0 <= k < |errors.violations| && errors.violations[k] == v;
    }
  }

  lemma DecodableDecodes(extents: seq<ExtentPlan>, errors: UpdateErrors)
    ensures DecodeOf(extents, Some(errors)).Ok? <==> Decodable(extents, errors)
    ensures Decodable(extents, errors) ==> None !in errors.authorizationFailures
  {
    DecodeAccepts(extents, errors);
  }

  /** A send reports no error exactly when its session does not start or goes through; else it reports what
      went wrong first. It counts as submitted exactly when it made an Apply. */
  lemma SendReports(extents: seq<ExtentPlan>, script: Script, maxBytes: nat)
    ensures var send := SendOf(extents, script, maxBytes);
            && (send.error.None? <==> script.StartFails? || GoesThrough(extents, script, maxBytes))
            && (send.error == Some(ApplyFailed) <==> script.Starts? && !AppliesAll(extents, script, maxBytes))
            && (send.error == Some(CloseFailed) <==> AppliesAll(extents, script, maxBytes) && script.closing.None?)
            && (send.error.Some? && send.error.value.MalformedResponse?
                <==> AppliesAll(extents, script, maxBytes) && script.closing.Some? && script.closing.value.Some?
                     && !Decodable(extents, script.closing.value.value))
            && (send.error == Some(Rejected)
                <==> AppliesAll(extents, script, maxBytes) && script.closing.Some? && script.closing.value.Some?
                     && Decodable(extents, script.closing.value.value) && TurnsAway(script.closing.value.value))
            && (send.submitted <==> CallsMade(extents, script, maxBytes) != [])
  {
    hide ApplyCalls, ReadFailures, Suffixes, SuffixRows, Decodable, TurnsAway, Terminal;
    if AppliesAll(extents, script, maxBytes) && script.closing.Some? && script.closing.value.Some? {
      var errors := script.closing.value.value;
      DecodableDecodes(extents, errors);
      if DecodeOf(extents, Some(errors)).Ok? { TerminalTurnsAway(errors); }
    }
  }

  /** A session that goes through tells the truth: of each tablet's list it committed what its entry says,
      and all of it without an entry. */
  ghost predicate Truthful(extents: seq<ExtentPlan>, script: Script, maxBytes: nat) {
    GoesThrough(extents, script, maxBytes) ==>
      forall x :: x in extents ==> Commits(script.landed(x.extent), script.closing.value, x)
  }

  ghost predicate Commits(landed: nat, response: Option<UpdateErrors>, x: ExtentPlan) {
    && (landed >= |x.mutations|
        || (response.Some? && exists k :: 0 <= k < |response.value.failedExtents| && response.value.failedExtents[k].0 == Some(x.extent)))
    && (response.Some? ==>
          forall k :: 0 <= k < |response.value.failedExtents| && response.value.failedExtents[k].0 == Some(x.extent) ==>
            Min(landed, |x.mutations|) == response.value.failedExtents[k].1)
  }

  /** That is the count read from its response. */
  lemma CommitsAreReported(extents: seq<ExtentPlan>, errors: UpdateErrors, landed: nat, x: ExtentPlan)
    requires Decodable(extents, errors) && Commits(landed, Some(errors), x) && x in extents
    ensures ReadFailures(extents, errors.failedExtents, map[]).Ok?
    ensures Min(landed, |x.mutations|) == Reported(ReadFailures(extents, errors.failedExtents, map[]).value, x)
  {
    hide ReadFailures;
    ReadFailuresAccepts(extents, errors.failedExtents, map[]);
    ReadFailuresReads(extents, errors.failedExtents, map[], x.extent);
  }

  lemma {:induction false} NothingFailed(extents: seq<ExtentPlan>, done: Extent -> nat)
    requires forall x :: x in extents ==> done(x.extent) >= |x.mutations|
    ensures CutExtents(extents, done).left == []
  {
    if extents != [] {
      assert extents[0] in extents;
      NothingFailed(extents[1..], done);
    }
  }

  lemma {:induction false} SuffixesAreLeft(extents: seq<ExtentPlan>, failed: map<Extent, nat>, done: Extent -> nat)
    requires forall x :: x in extents ==> Min(done(x.extent), |x.mutations|) == Reported(failed, x)
    ensures Suffixes(extents, failed) == CutExtents(extents, done).left
  {
    if extents != [] {
      assert extents[0] in extents;
      SuffixesAreLeft(extents[1..], failed, done);
    }
  }

  lemma {:induction false} NothingDone(extents: seq<ExtentPlan>, done: Extent -> nat)
    requires forall x :: x in extents ==> done(x.extent) == 0
    ensures CutExtents(extents, done).done == [] && CutExtents(extents, done).left == ExtentsMutations(extents)
  {
    if extents != [] {
      assert extents[0] in extents;
      NothingDone(extents[1..], done);
    }
  }

  ghost predicate Landed(landed: Extent -> nat, done: Extent -> nat, x: ExtentPlan) {
    done(x.extent) == Min(landed(x.extent), |x.mutations|)
  }

  lemma LandedIsDone(extents: seq<ExtentPlan>, script: Script, maxBytes: nat, x: ExtentPlan)
    requires DistinctExtents(extents) && AppliesAll(extents, script, maxBytes) && x in extents
    ensures Landed(script.landed, DoneBy(script, CallsMade(extents, script, maxBytes)), x)
  {
    hide ApplyCalls, DistinctExtents;
    var j :| 0 <= j < |extents| && extents[j] == x;
    CallsSendThePlan(extents, maxBytes, j);
  }

  /** What a send returns for retry is exactly what its server left uncommitted; a send that made no
      Apply committed nothing. */
  lemma RetryIsLeft(extents: seq<ExtentPlan>, script: Script, maxBytes: nat)
    requires DistinctExtents(extents) && Truthful(extents, script, maxBytes)
    ensures SendOf(extents, script, maxBytes).error.None? ==>
              SendOf(extents, script, maxBytes).retry == ServerPiece(extents, script, maxBytes).left
    ensures !SendOf(extents, script, maxBytes).submitted ==> ServerPiece(extents, script, maxBytes).done == []
  {
    hide CutExtents, ApplyCalls, DistinctExtents, Suffixes, SentTo, ReadFailures, Reported, Commits, Decodable, TurnsAway;
    var calls := CallsMade(extents, script, maxBytes);
    var done := DoneBy(script, calls);
    SendReports(extents, script, maxBytes);
    if script.StartFails? {
      NothingDone(extents, done);
    } else if SendOf(extents, script, maxBytes).error.None? {
      forall x | x in extents ensures Landed(script.landed, done, x) {
        LandedIsDone(extents, script, maxBytes, x);
      }
      LeftIsRetried(extents, script.closing.value, script.landed, done);
    }
    if script.Starts? && !SendOf(extents, script, maxBytes).submitted {
      assert calls == [];
      forall x | x in extents ensures done(x.extent) == 0 { NothingSent(script, x.extent); }
      NothingDone(extents, done);
    }
  }

  lemma LeftIsRetried(extents: seq<ExtentPlan>, response: Option<UpdateErrors>, landed: Extent -> nat, done: Extent -> nat)
    requires response.Some? ==> Decodable(extents, response.value)
    requires forall x :: x in extents ==> Commits(landed(x.extent), response, x)
    requires forall x :: x in extents ==> Landed(landed, done, x)
    ensures DecodeOf(extents, response).Ok? && DecodeOf(extents, response).value.retry == CutExtents(extents, done).left
  {
    hide CutExtents, Suffixes, ReadFailures, Reported;
    if response.None? {
      forall x | x in extents ensures done(x.extent) >= |x.mutations| {
        assert Commits(landed(x.extent), response, x);
      }
      NothingFailed(extents, done);
    } else {
      var errors := response.value;
      DecodeAccepts(extents, errors);
      var failed := ReadFailures(extents, errors.failedExtents, map[]).value;
      forall x | x in extents ensures Min(done(x.extent), |x.mutations|) == Reported(failed, x) {
        CommitsAreReported(extents, errors, landed(x.extent), x);
      }
      SuffixesAreLeft(extents, failed, done);
    }
  }

  lemma NothingSent(script: Script, e: Extent)
    ensures DoneBy(script, [])(e) == 0
  {
    assert SentTo([], e) == [];
  }

  // ---- What a send asks to be located again ----

  /** The tablet has mutations its server did not commit, the first of them of this row. */
  ghost predicate LeftFrom(x: ExtentPlan, done: Extent -> nat, row: Bytes) {
    done(x.extent) < |x.mutations| && x.mutations[done(x.extent)].row == row
  }

  /** A send asks for exactly the tablets with something left to be located again, each by its first row. */
  lemma RowsOfTheLeft(extents: seq<ExtentPlan>, script: Script, maxBytes: nat, row: Bytes)
    requires DistinctExtents(extents) && Truthful(extents, script, maxBytes)
    requires SendOf(extents, script, maxBytes).error.None?
    ensures row in SendOf(extents, script, maxBytes).invalidateRows
            <==> exists x :: x in extents && LeftFrom(x, DoneBy(script, CallsMade(extents, script, maxBytes)), row)
  {
    hide ApplyCalls, DistinctExtents, SuffixRows, SentTo, ReadFailures, Reported, Commits, Decodable, TurnsAway, DoneBy, LeftFrom;
    var done := DoneBy(script, CallsMade(extents, script, maxBytes));
    SendReports(extents, script, maxBytes);
    if script.StartFails? {
      forall x | x in extents ensures done(x.extent) == 0 { NothingStarted(x.extent); }
      FirstRowsAreLeft(extents, done, row);
    } else {
      forall x | x in extents ensures Landed(script.landed, done, x) {
        LandedIsDone(extents, script, maxBytes, x);
      }
      if script.closing.value.None? {
        forall x | x in extents ensures done(x.extent) >= |x.mutations| {
          AllCommitted(script.landed, done, x);
        }
        NoneLeftFrom(extents, done, row);
      } else {
        var errors := script.closing.value.value;
        DecodeAccepts(extents, errors);
        forall x | x in extents
          ensures Min(done(x.extent), |x.mutations|) == Reported(ReadFailures(extents, errors.failedExtents, map[]).value, x)
        {
          CommitsAreReported(extents, errors, script.landed(x.extent), x);
        }
        SuffixRowsAreLeft(extents, ReadFailures(extents, errors.failedExtents, map[]).value, done, row);
      }
    }
  }

  lemma AllCommitted(landed: Extent -> nat, done: Extent -> nat, x: ExtentPlan)
    requires Commits(landed(x.extent), None, x) && Landed(landed, done, x)
    ensures done(x.extent) >= |x.mutations|
  {
  }

  lemma NoneLeftFrom(extents: seq<ExtentPlan>, done: Extent -> nat, row: Bytes)
    requires forall x :: x in extents ==> done(x.extent) >= |x.mutations|
    ensures !exists x :: x in extents && LeftFrom(x, done, row)
  {
  }

  lemma NothingStarted(e: Extent)
    ensures DoneBy(StartFails, [])(e) == 0
  {
  }

  lemma {:induction false} FirstRowsAreLeft(extents: seq<ExtentPlan>, done: Extent -> nat, row: Bytes)
    requires forall x :: x in extents ==> done(x.extent) == 0
    ensures row in FirstRows(extents) <==> exists x :: x in extents && LeftFrom(x, done, row)
  {
    if extents != [] {
      assert extents[0] in extents && extents == [extents[0]] + extents[1..];
      FirstRowsAreLeft(extents[1..], done, row);
    }
  }

  lemma {:induction false} SuffixRowsAreLeft(extents: seq<ExtentPlan>, failed: map<Extent, nat>, done: Extent -> nat, row: Bytes)
    requires forall x :: x in extents ==> Min(done(x.extent), |x.mutations|) == Reported(failed, x)
    ensures row in SuffixRows(extents, failed) <==> exists x :: x in extents && LeftFrom(x, done, row)
  {
    hide Reported;
    if extents != [] {
      assert extents[0] in extents && extents == [extents[0]] + extents[1..];
      SuffixRowsAreLeft(extents[1..], failed, done, row);
    }
  }

  // ---- Why a response does not decode ----

  /** What is wrong with an entry after the ones before it, if anything. */
  ghost predicate Spoils(extents: seq<ExtentPlan>, entries: seq<(Option<Extent>, int)>, k: nat, malformed: Malformed)
    requires k < |entries|
  {
    var (extent, count) := entries[k];
    match malformed
    case NilExtent => extent.None?
    case UnknownExtent => extent.Some? && forall x :: x in extents ==> x.extent != extent.value
    case BadCount =>
      extent.Some? && exists j :: 0 <= j < |extents| && extents[j].extent == extent.value && !(0 <= count <= |extents[j].mutations|)
    case DuplicateExtent => EntryFits(extents, entries[k]) && exists l :: 0 <= l < k && entries[l].0 == extent
    case NilAuthorization => false
  }

  /** A response that does not decode is refused for the first entry that is wrong; only when none is, for a
      refused tablet without a name. */
  lemma MalformedIsFirst(extents: seq<ExtentPlan>, errors: UpdateErrors)
    requires DistinctExtents(extents) && DecodeOf(extents, Some(errors)).Err?
    ensures var malformed := DecodeOf(extents, Some(errors)).error;
            if WellFormed(extents, errors.failedExtents) then malformed == NilAuthorization
            else exists k :: 0 <= k < |errors.failedExtents| && WellFormed(extents, errors.failedExtents[..k])
                             && Spoils(extents, errors.failedExtents, k, malformed)
  {
    hide ReadFailures, DistinctExtents;
    ReadFailuresAccepts(extents, errors.failedExtents, map[]);
    if !WellFormed(extents, errors.failedExtents) {
      var k := FirstSpoilt(extents, errors.failedExtents, 0, map[]);
      assert WellFormed(extents, errors.failedExtents[..k]);
    }
  }

  /** The entries before i were read into `failed`. */
  lemma {:induction false} FirstSpoilt(extents: seq<ExtentPlan>, entries: seq<(Option<Extent>, int)>, i: nat,
      failed: map<Extent, nat>)
    returns (k: nat)
    requires DistinctExtents(extents) && i <= |entries| && WellFormed(extents, entries[..i])
    requires forall e :: e in failed <==> exists l :: 0 <= l < i && entries[l].0 == Some(e)
    requires ReadFailures(extents, entries[i..], failed).Err?
    ensures i <= k < |entries| && WellFormed(extents, entries[..k])
    ensures Spoils(extents, entries, k, ReadFailures(extents, entries[i..], failed).error)
    decreases |entries| - i
  {
    hide ReadFailures, EntryFits, Spoils;
    NotYetRead(extents, entries, i, failed);
    ReadFailuresSteps(extents, entries, i, failed);
    var checked := CheckEntry(extents, entries[i], failed);
    EntryChecked(extents, entries, i, failed);
    if checked.Err? {
      k := i;
    } else {
      assert entries[..i + 1] == entries[..i] + [entries[i]];
      k := FirstSpoilt(extents, entries, i + 1, checked.value);
    }
  }

  lemma NotYetRead(extents: seq<ExtentPlan>, entries: seq<(Option<Extent>, int)>, i: nat, failed: map<Extent, nat>)
    requires i <= |entries|
    ensures ReadFailures(extents, entries[i..], failed).Err? ==> i < |entries|
  {
    ReadFailuresEnd(extents, failed);
  }

  lemma EntryChecked(extents: seq<ExtentPlan>, entries: seq<(Option<Extent>, int)>, i: nat, failed: map<Extent, nat>)
    requires DistinctExtents(extents) && i < |entries| && WellFormed(extents, entries[..i])
    requires forall e :: e in failed <==> exists l :: 0 <= l < i && entries[l].0 == Some(e)
    ensures match CheckEntry(extents, entries[i], failed)
            case Err(malformed) => Spoils(extents, entries, i, malformed)
            case Ok(failed') => WellFormed(extents, entries[..i + 1])
                                && forall e :: e in failed' <==> exists l :: 0 <= l < i + 1 && entries[l].0 == Some(e)
  {
    hide IndexOf;
    if CheckEntry(extents, entries[i], failed).Ok? {
      var next := entries[..i + 1];
      assert next[..i] == entries[..i];
      forall k | 0 <= k < |next| ensures EntryFits(extents, next[k]) {
        if k < i { assert EntryFits(extents, entries[..i][k]); }
      }
      forall k, l | 0 <= k < l < |next| ensures next[k].0 != next[l].0 {
        if l < i { assert entries[..i][k].0 != entries[..i][l].0; }
      }
    } else if entries[i].0.Some? {
      var index := IndexOf(extents, entries[i].0.value);
      assert index < 0 ==> forall x :: x in extents ==> x.extent != entries[i].0.value;
    }
  }
}
