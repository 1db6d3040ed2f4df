/** Conditional writes: bounded retries that never send a mutation again once it may have taken effect. */
module ConditionalWriter {
  import opened Bytes
  import opened Wrappers
  import opened Tablets

  datatype Server = Server(hostPort: string, session: string, serverLock: string)

  datatype Tablet = Tablet(tableID: string, extent: Extent, server: Option<Server>)

  datatype Locating = Located(tablet: Tablet) | NotLocated | NotCovered | LocateFails

  datatype Status = Accepted | Rejected | Unknown

  /** What the RPC reports: its status, and whether the mutation was submitted. */
  datatype Outcome = Outcome(status: Status, submitted: bool, failed: bool)

  datatype SetupError = ContextEnded | NilWriter | NilMutation | Undiscovered | Unresolved | Unencodable

  datatype WriteError =
    | NotAttempted(reason: SetupError)
    | LocateError
    | CleanupFailed
    | ConditionalUnknown
    | RetryExhausted
    | InvalidateFailed
    | WaitEnded

  /** What will come of one attempt. */
  datatype Attempt = Attempt(locating: Locating, outcome: Outcome, invalidated: bool, waited: bool)

  /** What precedes the attempts: a failure, or a table and a mutation on a row that may not encode. */
  datatype Setup = Fails(reason: SetupError) | Ready(tableID: string, row: Bytes, encodes: bool)

  /** One RPC a call issued. */
  datatype Rpc = Rpc(id: nat, tablet: Tablet, outcome: Outcome)

  datatype Call = Call(status: Status, error: Option<WriteError>, rpcs: seq<Rpc>, attempts: nat)

  /** validateConditionalTablet. */
  predicate ValidTablet(tableID: string, row: Bytes, tablet: Tablet) {
    && tablet.tableID != "" && tablet.tableID == tableID
    && tablet.server.Some? && tablet.server.value.hostPort != "" && tablet.server.value.session != ""
    && tablet.server.value.serverLock != ""
    && ContainsRow(tablet.extent, row)
  }

  predicate Decided(outcome: Outcome) {
    !outcome.status.Unknown?
  }

  /** How a call ends that has reached an attempt, or nothing if it goes on to the next one. */
  function Ending(a: Attempt, tableID: string, row: Bytes, last: bool): Option<(Status, Option<WriteError>)> {
    if a.locating.LocateFails? then Some((Unknown, Some(LocateError)))
    else if Sends(a, tableID, row) && Decided(a.outcome) then
      Some((a.outcome.status, if a.outcome.failed then Some(CleanupFailed) else None))
    else if Sends(a, tableID, row) && a.outcome.submitted then Some((Unknown, Some(ConditionalUnknown)))
    else if last then Some((Unknown, Some(RetryExhausted)))
    else if !a.invalidated then Some((Unknown, Some(InvalidateFailed)))
    else if !a.waited then Some((Unknown, Some(WaitEnded)))
    else None
  }

  predicate Sends(a: Attempt, tableID: string, row: Bytes) {
    a.locating.Located? && ValidTablet(tableID, row, a.locating.tablet)
  }

  function RpcsOf(a: Attempt, tableID: string, row: Bytes, id: nat): seq<Rpc> {
    if Sends(a, tableID, row) then [Rpc(id, a.locating.tablet, a.outcome)] else []
  }

  function WriteFrom(tableID: string, row: Bytes, id: nat, attempt: nat, attempts: nat -> Attempt,
      maxRetries: nat): Call
    requires attempt <= maxRetries
    decreases maxRetries - attempt
  {
    var a := attempts(attempt);
    var rpcs := RpcsOf(a, tableID, row, id);
    match Ending(a, tableID, row, attempt == maxRetries)
    case Some((status, error)) => Call(status, error, rpcs, 1)
    case None =>
      var later := WriteFrom(tableID, row, id, attempt + 1, attempts, maxRetries);
      Call(later.status, later.error, rpcs + later.rpcs, 1 + later.attempts)
  }

  /** Write: the call, given the id its mutation takes. */
  function WriteOf(setup: Setup, id: nat, attempts: nat -> Attempt, maxRetries: nat): Call {
    match setup
    case Fails(reason) => Call(Unknown, Some(NotAttempted(reason)), [], 0)
    case Ready(tableID, row, encodes) =>
      if row == [] then Call(Unknown, Some(NotAttempted(NilMutation)), [], 0)
      else if !encodes then Call(Unknown, Some(NotAttempted(Unencodable)), [], 0)
      else WriteFrom(tableID, row, id, 0, attempts, maxRetries)
  }

  class Writer {
    const maxRetries: nat
    var nextID: nat

    constructor (maxRetries: nat)
      ensures this.maxRetries == maxRetries && nextID == 0
    {
      this.maxRetries := maxRetries;
      nextID := 0;
    }

    method Write(setup: Setup, attempts: nat -> Attempt) returns (call: Call)
      modifies this
      ensures call == WriteOf(setup, nextID, attempts, maxRetries)
      ensures nextID == old(nextID) + if setup.Ready? && setup.row != [] then 1 else 0
    {
      hide ValidTablet, WriteFrom, After;
      if setup.Fails? { return Call(Unknown, Some(NotAttempted(setup.reason)), [], 0); }
      var tableID, row := setup.tableID, setup.row;
      if |row| == 0 { return Call(Unknown, Some(NotAttempted(NilMutation)), [], 0); }
      nextID := nextID + 1;
      if !setup.encodes { return Call(Unknown, Some(NotAttempted(Unencodable)), [], 0); }
      var rpcs: seq<Rpc>, attempt := [], 0;
      AfterNothing(WriteFrom(tableID, row, nextID, 0, attempts, maxRetries));
      while attempt <= maxRetries
        invariant attempt <= maxRetries && nextID == old(nextID) + 1
        invariant WriteOf(setup, nextID, attempts, maxRetries)
                  == After(rpcs, attempt, WriteFrom(tableID, row, nextID, attempt, attempts, maxRetries))
        decreases maxRetries - attempt
      {
        var a := attempts(attempt);
        AfterSteps(rpcs, attempt, tableID, row, nextID, attempts, maxRetries);
        ghost var sent := rpcs + RpcsOf(a, tableID, row, nextID);
        assert !Sends(a, tableID, row) ==> sent == rpcs;
        attempt := attempt + 1;
        if a.locating.LocateFails? { return Call(Unknown, Some(LocateError), rpcs, attempt); }
        if a.locating.Located? && ValidTablet(tableID, row, a.locating.tablet) {
          rpcs := rpcs + [Rpc(nextID, a.locating.tablet, a.outcome)];
          if a.outcome.status.Accepted? || a.outcome.status.Rejected? {
            return Call(a.outcome.status, if a.outcome.failed then Some(CleanupFailed) else None, rpcs, attempt);
          }
          if a.outcome.submitted { return Call(Unknown, Some(ConditionalUnknown), rpcs, attempt); }
        }
        if attempt == maxRetries + 1 { return Call(Unknown, Some(RetryExhausted), rpcs, attempt); }
        if !a.invalidated { return Call(Unknown, Some(InvalidateFailed), rpcs, attempt); }
        if !a.waited { return Call(Unknown, Some(WaitEnded), rpcs, attempt); }
      }
      // The source panics here; the loop never ends this way.
      assert false;
    }
  }

  ghost function After(rpcs: seq<Rpc>, attempts: nat, later: Call): Call {
    later.(rpcs := rpcs + later.rpcs, attempts := attempts + later.attempts)
  }

  lemma AfterNothing(call: Call)
    ensures After([], 0, call) == call
  {
  }

  lemma AfterSteps(rpcs: seq<Rpc>, attempt: nat, tableID: string, row: Bytes, id: nat, attempts: nat -> Attempt,
      maxRetries: nat)
    requires attempt <= maxRetries
    ensures var a := attempts(attempt);
            var sent := rpcs + RpcsOf(a, tableID, row, id);
            After(rpcs, attempt, WriteFrom(tableID, row, id, attempt, attempts, maxRetries))
            == match Ending(a, tableID, row, attempt == maxRetries)
               case Some((status, error)) => Call(status, error, sent, attempt + 1)
               case None => After(sent, attempt + 1, WriteFrom(tableID, row, id, attempt + 1, attempts, maxRetries))
  {
    var a := attempts(attempt);
    var here := RpcsOf(a, tableID, row, id);
    if Ending(a, tableID, row, attempt == maxRetries).None? {
      var later := WriteFrom(tableID, row, id, attempt + 1, attempts, maxRetries).rpcs;
      assert rpcs + (here + later) == rpcs + here + later;
    }
  }

  /** The last RPC was submitted and its effect is not known. */
  predicate LeftUnknown(rpcs: seq<Rpc>) {
    rpcs != [] && !Decided(rpcs[|rpcs| - 1].outcome) && rpcs[|rpcs| - 1].outcome.submitted
  }

  /** Every RPC but the last was neither decided nor submitted. */
  predicate OnlyLastMayCount(rpcs: seq<Rpc>) {
    forall i :: 0 <= i < |rpcs| - 1 ==> !Decided(rpcs[i].outcome) && !rpcs[i].outcome.submitted
  }

  ghost predicate Settles(call: Call, tableID: string, row: Bytes, id: nat) {
    && |call.rpcs| <= call.attempts
    && OnlyLastMayCount(call.rpcs)
    && (call.error == Some(ConditionalUnknown) <==> LeftUnknown(call.rpcs))
    && (call.status != Unknown <==> call.rpcs != [] && Decided(call.rpcs[|call.rpcs| - 1].outcome))
    && (call.status != Unknown ==> call.status == call.rpcs[|call.rpcs| - 1].outcome.status)
    && (forall rpc :: rpc in call.rpcs ==> rpc.id == id && ValidTablet(tableID, row, rpc.tablet))
  }

  lemma {:induction false} WriteFromSettles(tableID: string, row: Bytes, id: nat, attempt: nat,
      attempts: nat -> Attempt, maxRetries: nat)
    requires attempt <= maxRetries
    ensures var call := WriteFrom(tableID, row, id, attempt, attempts, maxRetries);
            Settles(call, tableID, row, id) && call.attempts <= maxRetries + 1 - attempt
    decreases maxRetries - attempt
  {
    hide ValidTablet, Settles;
    var a := attempts(attempt);
    if Ending(a, tableID, row, attempt == maxRetries).None? {
      WriteFromSettles(tableID, row, id, attempt + 1, attempts, maxRetries);
      GoingOnSettles(a, WriteFrom(tableID, row, id, attempt + 1, attempts, maxRetries), tableID, row, id);
    } else {
      EndingSettles(a, tableID, row, id, attempt == maxRetries);
    }
  }

  lemma EndingSettles(a: Attempt, tableID: string, row: Bytes, id: nat, last: bool)
    requires Ending(a, tableID, row, last).Some?
    ensures var (status, error) := Ending(a, tableID, row, last).value;
            Settles(Call(status, error, RpcsOf(a, tableID, row, id), 1), tableID, row, id)
  {
    hide ValidTablet;
  }

  lemma GoingOnSettles(a: Attempt, later: Call, tableID: string, row: Bytes, id: nat)
    requires Ending(a, tableID, row, false).None? && Settles(later, tableID, row, id)
    ensures Settles(Call(later.status, later.error, RpcsOf(a, tableID, row, id) + later.rpcs, 1 + later.attempts), tableID, row, id)
  {
    hide ValidTablet;
    var rpcs := RpcsOf(a, tableID, row, id) + later.rpcs;
    if RpcsOf(a, tableID, row, id) == [] { assert rpcs == later.rpcs; }
  }

  /** At most maxRetries + 1 attempts are made; no RPC follows one that was decided or submitted; the call
      reports an unknown effect exactly when its last RPC was submitted and undecided, and a decision
      exactly when its last RPC made one; all RPCs carry the call's id to a tablet that holds the row. */
  lemma WriteSettles(setup: Setup, id: nat, attempts: nat -> Attempt, maxRetries: nat)
    ensures var call := WriteOf(setup, id, attempts, maxRetries);
            && call.attempts <= maxRetries + 1
            && (setup.Ready? ==> Settles(call, setup.tableID, setup.row, id))
            && (setup.Fails? ==> call.rpcs == [] && call.status == Unknown && call.error != Some(ConditionalUnknown))
  {
    if setup.Ready? { WriteFromSettles(setup.tableID, setup.row, id, 0, attempts, maxRetries); }
  }

  // ---- What each attempt leads to ----

  /** The attempt finds a tablet of the table that holds the row and has everything an RPC needs: a server's
      address, session and lock. */
  ghost predicate Reaches(a: Attempt, tableID: string, row: Bytes) {
    && a.locating.Located?
    && var tablet := a.locating.tablet;
       && tablet.tableID == tableID && tableID != "" && ContainsRow(tablet.extent, row)
       && tablet.server.Some? && "" !in {tablet.server.value.hostPort, tablet.server.value.session, tablet.server.value.serverLock}
  }

  /** The attempt settles nothing: no tablet is reached, or the RPC was neither decided nor submitted. */
  ghost predicate Tries(a: Attempt, tableID: string, row: Bytes) {
    && !a.locating.LocateFails?
    && (Reaches(a, tableID, row) ==> a.outcome.status.Unknown? && !a.outcome.submitted)
  }

  /** How an attempt ends the call, if it is the last one made. */
  ghost predicate EndsCall(a: Attempt, tableID: string, row: Bytes, last: bool, status: Status, error: Option<WriteError>) {
    var sent := Reaches(a, tableID, row);
    if a.locating.LocateFails? then status == Unknown && error == Some(LocateError)
    else if sent && !a.outcome.status.Unknown? then
      status == a.outcome.status && error == (if a.outcome.failed then Some(CleanupFailed) else None)
    else if sent && a.outcome.submitted then status == Unknown && error == Some(ConditionalUnknown)
    else
      && status == Unknown
      && (last ==> error == Some(RetryExhausted))
      && (!last ==> error == Some(if a.invalidated then WaitEnded else InvalidateFailed) && !(a.invalidated && a.waited))
  }

  /** The RPCs of the attempts before n. */
  ghost function SentBefore(attempts: nat -> Attempt, tableID: string, row: Bytes, id: nat, from: nat, n: nat): seq<Rpc>
    decreases n
  {
    if n <= from then []
    else
      SentBefore(attempts, tableID, row, id, from, n - 1)
      + if Reaches(attempts(n - 1), tableID, row) then [Rpc(id, attempts(n - 1).locating.tablet, attempts(n - 1).outcome)] else []
  }

  lemma ReachesIsSends(a: Attempt, tableID: string, row: Bytes)
    ensures Reaches(a, tableID, row) <==> Sends(a, tableID, row)
  {
  }

  lemma {:induction false} SentFirst(attempts: nat -> Attempt, tableID: string, row: Bytes, id: nat, from: nat, n: nat)
    requires from < n
    ensures SentBefore(attempts, tableID, row, id, from, n)
            == RpcsOf(attempts(from), tableID, row, id) + SentBefore(attempts, tableID, row, id, from + 1, n)
    decreases n
  {
    hide Reaches, Sends;
    ReachesIsSends(attempts(n - 1), tableID, row);
    if from + 1 < n { SentFirst(attempts, tableID, row, id, from, n - 1); }
  }

  /** From any attempt on: the call goes on exactly while attempts settle nothing, the location can be
      invalidated and the wait goes through; then it ends as its last attempt says, having made exactly the
      RPCs of its attempts. */
  lemma {:induction false} WriteFromReports(tableID: string, row: Bytes, id: nat, attempt: nat, attempts: nat -> Attempt,
      maxRetries: nat)
    requires attempt <= maxRetries
    ensures var call := WriteFrom(tableID, row, id, attempt, attempts, maxRetries);
            var last := attempt + call.attempts - 1;
            && attempt <= last <= maxRetries
            && (forall k: nat :: attempt <= k < last ==>
                  Tries(attempts(k), tableID, row) && attempts(k).invalidated && attempts(k).waited)
            && EndsCall(attempts(last), tableID, row, last == maxRetries, call.status, call.error)
            && call.rpcs == SentBefore(attempts, tableID, row, id, attempt, last + 1)
    decreases maxRetries - attempt
  {
    hide ValidTablet, Reaches;
    var a := attempts(attempt);
    ReachesIsSends(a, tableID, row);
    if Ending(a, tableID, row, attempt == maxRetries).None? {
      WriteFromReports(tableID, row, id, attempt + 1, attempts, maxRetries);
    } else {
      assert SentBefore(attempts, tableID, row, id, attempt + 1, attempt + 1) == [];
    }
    SentFirst(attempts, tableID, row, id, attempt, attempt + WriteFrom(tableID, row, id, attempt, attempts, maxRetries).attempts);
  }

  /** A call that fails before its first attempt says why and makes none; any other is decided by its
      attempts. */
  lemma WriteReports(setup: Setup, id: nat, attempts: nat -> Attempt, maxRetries: nat)
    ensures var call := WriteOf(setup, id, attempts, maxRetries);
            && (call.attempts == 0 <==> setup.Fails? || setup.row == [] || !setup.encodes)
            && (call.attempts == 0 ==>
                  call.status == Unknown && call.rpcs == []
                  && call.error == Some(NotAttempted(if setup.Fails? then setup.reason
                                                     else if setup.row == [] then NilMutation else Unencodable)))
            && (call.attempts > 0 ==>
                  var last := call.attempts - 1;
                  && last <= maxRetries
                  && (forall k: nat :: k < last ==>
                        Tries(attempts(k), setup.tableID, setup.row) && attempts(k).invalidated && attempts(k).waited)
                  && EndsCall(attempts(last), setup.tableID, setup.row, last == maxRetries, call.status, call.error)
                  && call.rpcs == SentBefore(attempts, setup.tableID, setup.row, id, 0, call.attempts))
  {
    hide WriteFrom, EndsCall, Tries;
    if setup.Ready? && setup.row != [] && setup.encodes {
      WriteFromReports(setup.tableID, setup.row, id, 0, attempts, maxRetries);
    }
  }
}
