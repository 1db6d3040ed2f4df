/** One flush: plan what remains, send it to every server, and try again what no server committed. */
module WriterFlush {
  import opened Bytes
  import opened Wrappers
  import opened Tablets
  import opened WriterPlan
  import opened WriterSend
  import opened WriterSession

  datatype Options = Options(maxMemoryBytes: nat, maxBatchBytes: nat, maxLatency: nat, maxRetries: nat)

  // ---- One round of sends ----

  /** The outcomes of all servers put together; a failed server's retry list does not count. */
  datatype Round = Round(submitted: bool, error: Option<SendError>, retry: seq<Mutation>, invalidateRows: seq<Bytes>)

  function Combine(send: Send, later: Round): Round {
    Round(send.submitted || later.submitted, if send.error.Some? then send.error else later.error,
          (if send.error.None? then send.retry else []) + later.retry,
          (if send.error.None? then send.invalidateRows else []) + later.invalidateRows)
  }

  /** `sessions(address)` is what will come of the session on that server. */
  function SendAll(plans: seq<ServerPlan>, sessions: string -> Script, maxBytes: nat): Round {
    if plans == [] then Round(false, None, [], [])
    else Combine(SendOf(plans[0].extents, sessions(plans[0].address), maxBytes), SendAll(plans[1..], sessions, maxBytes))
  }

  /** What the servers committed of a round, and what they did not. */
  function RoundPiece(plans: seq<ServerPlan>, sessions: string -> Script, maxBytes: nat): (p: Piece)
    ensures p.all == PlansMutations(plans)
  {
    if plans == [] then Piece([], [], [])
    else Join(ServerPiece(plans[0].extents, sessions(plans[0].address), maxBytes), RoundPiece(plans[1..], sessions, maxBytes))
  }

  /** sendServerPlans: workers take plans in any order and write each outcome to its own slot. */
  method SendServerPlans(plans: seq<ServerPlan>, sessions: string -> Script, maxBytes: nat, schedule: seq<nat>)
    returns (round: Round)
    requires DistinctPlans(plans)
    requires forall i :: i in schedule ==> i < |plans|
    requires forall i :: 0 <= i < |plans| ==> i in schedule
    ensures round == SendAll(plans, sessions, maxBytes)
  {
    hide SendOf, DistinctExtents;
    var outcomes := new Send[|plans|](_ => Send(None, [], [], false));
    for step := 0 to |schedule|
      invariant forall i :: i in schedule[..step] ==>
                  i < |plans| && outcomes[i] == SendOf(plans[i].extents, sessions(plans[i].address), maxBytes)
    {
      assert schedule[..step + 1] == schedule[..step] + [schedule[step]];
      assert schedule[step] in schedule;
      var plan := plans[schedule[step]];
      var send, _ := SendServer(plan, sessions(plan.address), maxBytes);
      outcomes[schedule[step]] := send;
    }
    assert schedule[..|schedule|] == schedule;
    assert forall i :: 0 <= i < |plans| ==> i in schedule;
    round := Gather(plans, sessions, maxBytes, outcomes[..]);
  }

  method Gather(plans: seq<ServerPlan>, sessions: string -> Script, maxBytes: nat,
      outcomes: seq<Send>) returns (round: Round)
    requires |outcomes| == |plans|
    requires forall i :: 0 <= i < |plans| ==> outcomes[i] == SendOf(plans[i].extents, sessions(plans[i].address), maxBytes)
    ensures round == SendAll(plans, sessions, maxBytes)
  {
    hide SendOf, SendAll, Extend, Combine;
    round := Round(false, None, [], []);
    ExtendSteps(round, SendAll(plans, sessions, maxBytes));
    assert plans[0..] == plans;
    for index := 0 to |plans|
      invariant Extend(round, SendAll(plans[index..], sessions, maxBytes)) == SendAll(plans, sessions, maxBytes)
    {
      SendAllSteps(plans, sessions, maxBytes, index);
      ExtendCombine(round, outcomes[index], SendAll(plans[index + 1..], sessions, maxBytes));
      round := Extend(round, Combine(outcomes[index], Round(false, None, [], [])));
    }
    assert plans[|plans|..] == [];
    SendNothing(sessions, maxBytes);
    ExtendSteps(round, round);
  }

  lemma SendAllSteps(plans: seq<ServerPlan>, sessions: string -> Script, maxBytes: nat, index: nat)
    requires index < |plans|
    ensures SendAll(plans[index..], sessions, maxBytes)
            == Combine(SendOf(plans[index].extents, sessions(plans[index].address), maxBytes),
                       SendAll(plans[index + 1..], sessions, maxBytes))
  {
    assert plans[index..][1..] == plans[index + 1..];
  }

  lemma SendNothing(sessions: string -> Script, maxBytes: nat)
    ensures SendAll([], sessions, maxBytes) == Round(false, None, [], [])
  {
  }

  lemma ExtendSteps(earlier: Round, later: Round)
    ensures Extend(Round(false, None, [], []), later) == later
    ensures Extend(earlier, Round(false, None, [], [])) == earlier
  {
  }

  function Extend(earlier: Round, later: Round): Round {
    Round(earlier.submitted || later.submitted, if earlier.error.Some? then earlier.error else later.error,
          earlier.retry + later.retry, earlier.invalidateRows + later.invalidateRows)
  }

  lemma ExtendCombine(earlier: Round, send: Send, later: Round)
    ensures Extend(Extend(earlier, Combine(send, Round(false, None, [], []))), later) == Extend(earlier, Combine(send, later))
  {
  }

  /** Every session of the round is truthful. */
  ghost predicate TruthfulRound(plans: seq<ServerPlan>, sessions: string -> Script, maxBytes: nat) {
    forall plan :: plan in plans ==> Truthful(plan.extents, sessions(plan.address), maxBytes)
  }

  lemma {:induction false} RoundConserves(plans: seq<ServerPlan>, sessions: string -> Script, maxBytes: nat)
    ensures Conserved(RoundPiece(plans, sessions, maxBytes))
  {
    hide ServerPiece, Conserved;
    if plans == [] {
      NothingConserved();
    } else {
      RoundConserves(plans[1..], sessions, maxBytes);
      ServerConserves(plans[0].extents, sessions(plans[0].address), maxBytes);
      JoinConserved(ServerPiece(plans[0].extents, sessions(plans[0].address), maxBytes),
                    RoundPiece(plans[1..], sessions, maxBytes));
    }
  }

  lemma NothingConserved()
    ensures Conserved(Piece([], [], []))
  {
  }

  lemma ServerConserves(extents: seq<ExtentPlan>, script: Script, maxBytes: nat)
    ensures Conserved(ServerPiece(extents, script, maxBytes)) && ServerPiece(extents, script, maxBytes).all == ExtentsMutations(extents)
  {
    CutExtentsConserved(extents, DoneBy(script, CallsMade(extents, script, maxBytes)));
  }

  /** The retry list of a round without failures is what its servers left; a round without an Apply
      committed nothing. */
  lemma {:induction false} RoundRetriesLeft(plans: seq<ServerPlan>, sessions: string -> Script, maxBytes: nat)
    requires DistinctPlans(plans) && TruthfulRound(plans, sessions, maxBytes)
    ensures var round, p := SendAll(plans, sessions, maxBytes), RoundPiece(plans, sessions, maxBytes);
            (round.error.None? ==> round.retry == p.left) && (!round.submitted ==> p.done == [])
  {
    hide SendOf, ServerPiece, DistinctExtents, Truthful;
    if plans != [] {
      assert plans[0] in plans && forall x :: x in plans[1..] ==> x in plans;
      assert DistinctExtents(plans[0].extents) && Truthful(plans[0].extents, sessions(plans[0].address), maxBytes);
      RetryIsLeft(plans[0].extents, sessions(plans[0].address), maxBytes);
      RoundRetriesLeft(plans[1..], sessions, maxBytes);
    }
  }

  /** A session that starts and does not go through: an Apply or its closing fails, or the response cannot be
      decoded or turns mutations away. */
  ghost predicate SessionFails(plan: ServerPlan, sessions: string -> Script, maxBytes: nat) {
    sessions(plan.address).Starts? && !GoesThrough(plan.extents, sessions(plan.address), maxBytes)
  }

  ghost predicate SomeSessionFails(plans: seq<ServerPlan>, sessions: string -> Script, maxBytes: nat) {
    exists plan :: plan in plans && SessionFails(plan, sessions, maxBytes)
  }

  /** A round fails exactly when one of its sessions does, and counts as submitted exactly when one of them
      made an Apply. */
  lemma {:induction false} RoundReports(plans: seq<ServerPlan>, sessions: string -> Script, maxBytes: nat)
    ensures var round := SendAll(plans, sessions, maxBytes);
            && (round.error.Some? <==> SomeSessionFails(plans, sessions, maxBytes))
            && (round.submitted <==>
                  exists plan :: plan in plans && CallsMade(plan.extents, sessions(plan.address), maxBytes) != [])
  {
    hide SendOf, SessionFails, CallsMade;
    if plans != [] {
      assert plans == [plans[0]] + plans[1..];
      assert forall plan :: plan in plans <==> plan == plans[0] || plan in plans[1..];
      SessionReports(plans[0], sessions, maxBytes);
      RoundReports(plans[1..], sessions, maxBytes);
    }
  }

  lemma SessionReports(plan: ServerPlan, sessions: string -> Script, maxBytes: nat)
    ensures var send := SendOf(plan.extents, sessions(plan.address), maxBytes);
            && (send.error.Some? <==> SessionFails(plan, sessions, maxBytes))
            && (send.submitted <==> CallsMade(plan.extents, sessions(plan.address), maxBytes) != [])
  {
    hide SendOf, GoesThrough, CallsMade;
    SendReports(plan.extents, sessions(plan.address), maxBytes);
  }

  /** A planned session that fails has made an Apply. */
  lemma FailedSessionSubmits(plan: ServerPlan, sessions: string -> Script, maxBytes: nat)
    requires plan.extents != [] && DistinctExtents(plan.extents) && SessionFails(plan, sessions, maxBytes)
    ensures CallsMade(plan.extents, sessions(plan.address), maxBytes) != []
  {
    var first := plan.extents[0];
    BatchesCut(first.mutations, maxBytes);
    assert Batches(first.mutations, maxBytes) != [];
  }

  /** At most one tablet of one server holds mutations of the row. */
  ghost predicate InOneTablet(plans: seq<ServerPlan>, row: Bytes) {
    && (forall x :: x in plans ==> InOneExtent(x.extents, row))
    && (forall i, j :: 0 <= i < |plans| && 0 <= j < |plans| && i != j && OfRow(ExtentsMutations(plans[i].extents), row) != [] ==>
          OfRow(ExtentsMutations(plans[j].extents), row) == [])
  }

  lemma {:induction false} RoundInOrder(plans: seq<ServerPlan>, sessions: string -> Script, maxBytes: nat, row: Bytes)
    requires InOneTablet(plans, row)
    ensures InOrder(RoundPiece(plans, sessions, maxBytes), row)
  {
    hide OfRow, ServerPiece, ExtentsMutations, InOneExtent, InOrder;
    if plans == [] {
      NothingInOrder(row);
    } else {
      var first, rest := plans[0], plans[1..];
      assert first in plans && forall x :: x in rest ==> x in plans;
      assert forall j :: 0 <= j < |rest| ==> rest[j] == plans[j + 1];
      RoundInOrder(rest, sessions, maxBytes, row);
      ServerInOrder(first.extents, sessions(first.address), maxBytes, row);
      if OfRow(ExtentsMutations(first.extents), row) != [] {
        forall x | x in rest ensures OfRow(ExtentsMutations(x.extents), row) == [] {
          var k :| 0 <= k < |rest| && rest[k] == x;
          assert plans[0] == first && plans[k + 1] == x;
        }
        NoneOfRowInPlans(rest, row);
      }
      JoinInOrder(ServerPiece(first.extents, sessions(first.address), maxBytes), RoundPiece(rest, sessions, maxBytes), row);
    }
  }

  lemma NothingInOrder(row: Bytes)
    ensures InOrder(Piece([], [], []), row)
  {
  }

  lemma ServerInOrder(extents: seq<ExtentPlan>, script: Script, maxBytes: nat, row: Bytes)
    requires InOneExtent(extents, row)
    ensures InOrder(ServerPiece(extents, script, maxBytes), row)
    ensures ServerPiece(extents, script, maxBytes).all == ExtentsMutations(extents)
  {
    CutExtentsInOrder(extents, DoneBy(script, CallsMade(extents, script, maxBytes)), row);
  }

  /** Routing by row leaves every row in one tablet of the plan. */
  lemma RowInOneTablet(mutations: seq<Mutation>, route: nat -> Answer, row: Bytes)
    requires PlanOf(mutations, route).Plans? && RoutesByRow(mutations, route)
    ensures InOneTablet(PlanOf(mutations, route).plans, row)
  {
    hide PlanOf, OfRow, ExtentsMutations, RoutesByRow, Routed, DistinctExtents;
    var plans := PlanOf(mutations, route).plans;
    forall i, j, k, l
      | 0 <= i < |plans| && 0 <= j < |plans| && 0 <= k < |plans[i].extents| && 0 <= l < |plans[j].extents|
        && OfRow(plans[i].extents[k].mutations, row) != [] && OfRow(plans[j].extents[l].mutations, row) != []
      ensures plans[i].address == plans[j].address && plans[i].extents[k].extent == plans[j].extents[l].extent
    {
      RouteOfListed(mutations, route, row, i, k);
      RouteOfListed(mutations, route, row, j, l);
      RoutedAlike(mutations, route, row);
    }
    PlanProjects(mutations, route, "", Extent(None, None));
    OnePlaceIsOneTablet(plans, row);
  }

  /** Some mutation of the row was routed to the tablet that lists one. */
  lemma RouteOfListed(mutations: seq<Mutation>, route: nat -> Answer, row: Bytes, i: nat, k: nat)
    requires PlanOf(mutations, route).Plans?
    requires i < |PlanOf(mutations, route).plans| && k < |PlanOf(mutations, route).plans[i].extents|
    requires OfRow(PlanOf(mutations, route).plans[i].extents[k].mutations, row) != []
    ensures var x := PlanOf(mutations, route).plans[i];
            exists p :: 0 <= p < |mutations| && mutations[p].row == row && route(p) == Located(x.address, x.extents[k].extent)
  {
    hide PlanOf, OfRow, Routed;
    var x := PlanOf(mutations, route).plans[i];
    PlanProjects(mutations, route, x.address, x.extents[k].extent);
    ListedForTablet(PlanOf(mutations, route).plans, i, k);
    RoutedAt(mutations, route, x.address, x.extents[k].extent, row);
  }

  lemma RoutedAlike(mutations: seq<Mutation>, route: nat -> Answer, row: Bytes)
    requires RoutesByRow(mutations, route)
    ensures forall p, q :: 0 <= p < |mutations| && 0 <= q < |mutations| && mutations[p].row == row == mutations[q].row ==>
              route(p) == route(q)
  {
  }

  lemma OnePlaceIsOneTablet(plans: seq<ServerPlan>, row: Bytes)
    requires DistinctPlans(plans)
    requires forall i, j, k, l ::
               0 <= i < |plans| && 0 <= j < |plans| && 0 <= k < |plans[i].extents| && 0 <= l < |plans[j].extents|
               && OfRow(plans[i].extents[k].mutations, row) != [] && OfRow(plans[j].extents[l].mutations, row) != []
               ==> plans[i].address == plans[j].address && plans[i].extents[k].extent == plans[j].extents[l].extent
    ensures InOneTablet(plans, row)
  {
    hide OfRow, ExtentsMutations;
    forall x | x in plans ensures InOneExtent(x.extents, row) {
      var i :| 0 <= i < |plans| && plans[i] == x;
    }
    forall i, j | 0 <= i < |plans| && 0 <= j < |plans| && i != j && OfRow(ExtentsMutations(plans[i].extents), row) != []
      ensures OfRow(ExtentsMutations(plans[j].extents), row) == []
    {
      if forall x :: x in plans[i].extents ==> OfRow(x.mutations, row) == [] { NoneOfRow(plans[i].extents, row); }
      var k :| 0 <= k < |plans[i].extents| && OfRow(plans[i].extents[k].mutations, row) != [];
      assert plans[i].address != plans[j].address by {
        if i < j { assert plans[i].address != plans[j].address; } else { assert plans[j].address != plans[i].address; }
      }
      forall x | x in plans[j].extents ensures OfRow(x.mutations, row) == [] {
        var l :| 0 <= l < |plans[j].extents| && plans[j].extents[l] == x;
      }
      NoneOfRow(plans[j].extents, row);
    }
  }

  // ---- Attempts ----

  /** What will come of one attempt: where each mutation is located, each server's session, whether the
      stale locations could be invalidated, and whether the wait before the next attempt went through. */
  datatype Attempt = Attempt(route: nat -> Answer, sessions: string -> Script, invalidated: bool, waited: bool)

  datatype FlushScript = FlushScript(resolved: bool, attempts: nat -> Attempt)

  datatype Cause =
    | TableUnresolved
    | Unlocated(answer: Answer)
    | InvalidateFailed
    | RetryExhausted
    | WaitEnded
    | SendFailed(error: SendError)

  datatype Step = Done | Ended(cause: Cause) | Retry(mutations: seq<Mutation>)

  /** An attempt: how it goes on, whether it made an Apply, and what its servers did. */
  datatype Tried = Tried(step: Step, submitted: bool, sessions: nat, done: seq<Mutation>, left: seq<Mutation>)

  function Again(attempt: nat, a: Attempt, mutations: seq<Mutation>, o: Options): Step {
    if !a.invalidated then Ended(InvalidateFailed)
    else if attempt >= o.maxRetries then Ended(RetryExhausted)
    else if !a.waited then Ended(WaitEnded)
    else Retry(mutations)
  }

  function Try(remaining: seq<Mutation>, attempt: nat, a: Attempt, o: Options): (r: Tried)
    ensures r.step.Retry? ==> attempt < o.maxRetries
  {
    match PlanOf(remaining, a.route)
    case Unroutable(_, answer) =>
      Tried(if answer.LocateFails? then Ended(Unlocated(answer)) else Again(attempt, a, remaining, o), false, 0, [], remaining)
    case Plans(plans) =>
      var round, p := SendAll(plans, a.sessions, o.maxBatchBytes), RoundPiece(plans, a.sessions, o.maxBatchBytes);
      var step := if round.error.Some? then Ended(SendFailed(round.error.value))
                  else if round.retry == [] then Done
                  else Again(attempt, a, round.retry, o);
      Tried(step, round.submitted, |plans|, p.done, p.left)
  }

  ghost predicate TruthfulTry(remaining: seq<Mutation>, a: Attempt, o: Options) {
    PlanOf(remaining, a.route).Plans? ==> TruthfulRound(PlanOf(remaining, a.route).plans, a.sessions, o.maxBatchBytes)
  }

  /** One attempt commits part of what remained; the rest is what the next attempt sends, if there is one. */
  lemma TryConserves(remaining: seq<Mutation>, attempt: nat, a: Attempt, o: Options)
    requires TruthfulTry(remaining, a, o)
    ensures var r := Try(remaining, attempt, a, o);
            && multiset(remaining) == multiset(r.done) + multiset(r.left)
            && (r.step.Done? ==> r.left == [])
            && (r.step.Retry? ==> r.step.mutations == r.left)
            && (!r.submitted ==> r.done == [])
  {
    hide SendAll, RoundPiece, TruthfulRound, DistinctPlans;
    if PlanOf(remaining, a.route).Plans? {
      var plans := PlanOf(remaining, a.route).plans;
      PlanIsPermutation(remaining, a.route);
      PlanProjects(remaining, a.route, "", Extent(None, None));
      RoundConserves(plans, a.sessions, o.maxBatchBytes);
      RoundRetriesLeft(plans, a.sessions, o.maxBatchBytes);
    }
  }

  /** There is something to try again: a tablet could not be routed to, or servers left mutations. */
  ghost predicate HasMore(remaining: seq<Mutation>, attempt: nat, a: Attempt, o: Options) {
    match PlanOf(remaining, a.route)
    case Unroutable(_, answer) => !answer.LocateFails?
    case Plans(plans) =>
      !SomeSessionFails(plans, a.sessions, o.maxBatchBytes) && RoundPiece(plans, a.sessions, o.maxBatchBytes).left != []
  }

  /** How an attempt ends: by the locator, by a failed session, by all mutations committed - or with more to
      try, which may not be invalidated, be one attempt too many, end while waiting, or go on. */
  lemma TryReports(remaining: seq<Mutation>, attempt: nat, a: Attempt, o: Options)
    requires TruthfulTry(remaining, a, o)
    ensures var step, plan := Try(remaining, attempt, a, o).step, PlanOf(remaining, a.route);
            var more := HasMore(remaining, attempt, a, o);
            && (step.Ended? && step.cause.Unlocated? <==> plan.Unroutable? && plan.answer.LocateFails?)
            && (step.Ended? && step.cause.SendFailed? <==>
                  plan.Plans? && SomeSessionFails(plan.plans, a.sessions, o.maxBatchBytes))
            && (step.Done? <==> plan.Plans? && !more && !SomeSessionFails(plan.plans, a.sessions, o.maxBatchBytes))
            && (step == Ended(InvalidateFailed) <==> more && !a.invalidated)
            && (step == Ended(RetryExhausted) <==> more && a.invalidated && attempt >= o.maxRetries)
            && (step == Ended(WaitEnded) <==> more && a.invalidated && attempt < o.maxRetries && !a.waited)
            && (step.Retry? <==> more && a.invalidated && attempt < o.maxRetries && a.waited)
  {
    hide SendAll, RoundPiece, TruthfulRound, DistinctPlans, SomeSessionFails;
    if PlanOf(remaining, a.route).Plans? {
      var plans := PlanOf(remaining, a.route).plans;
      PlanProjects(remaining, a.route, "", Extent(None, None));
      RoundRetriesLeft(plans, a.sessions, o.maxBatchBytes);
      RoundReports(plans, a.sessions, o.maxBatchBytes);
    }
  }

  lemma TryInOrder(remaining: seq<Mutation>, attempt: nat, a: Attempt, o: Options, row: Bytes)
    requires RoutesByRow(remaining, a.route)
    ensures var r := Try(remaining, attempt, a, o);
            OfRow(remaining, row) == OfRow(r.done, row) + OfRow(r.left, row)
  {
    hide SendAll, RoundPiece, RoutesByRow, InOneTablet;
    if PlanOf(remaining, a.route).Plans? {
      var plans := PlanOf(remaining, a.route).plans;
      PlanKeepsRowOrder(remaining, a.route, row);
      RowInOneTablet(remaining, a.route, row);
      RoundInOrder(plans, a.sessions, o.maxBatchBytes, row);
    }
  }

  // ---- A whole flush ----

  /** Why a flush failed, if it did; whether it made an Apply; the sessions it started; and what the
      servers committed and left. */
  datatype Flush = Flush(cause: Option<Cause>, submitted: bool, sessions: nat, done: seq<Mutation>, left: seq<Mutation>)

  function FlushFrom(remaining: seq<Mutation>, attempt: nat, script: FlushScript, o: Options): Flush
    requires attempt <= o.maxRetries
    decreases o.maxRetries - attempt
  {
    var r := Try(remaining, attempt, script.attempts(attempt), o);
    match r.step
    case Done => Flush(None, r.submitted, r.sessions, r.done, r.left)
    case Ended(cause) => Flush(Some(cause), r.submitted, r.sessions, r.done, r.left)
    case Retry(mutations) =>
      var next := FlushFrom(mutations, attempt + 1, script, o);
      Flush(next.cause, r.submitted || next.submitted, r.sessions + next.sessions, r.done + next.done, next.left)
  }

  /** Every session of the flush is truthful. */
  ghost predicate TruthfulFlush(remaining: seq<Mutation>, attempt: nat, script: FlushScript, o: Options)
    requires attempt <= o.maxRetries
    decreases o.maxRetries - attempt
  {
    && TruthfulTry(remaining, script.attempts(attempt), o)
    && var step := Try(remaining, attempt, script.attempts(attempt), o).step;
       (step.Retry? ==> TruthfulFlush(step.mutations, attempt + 1, script, o))
  }

  /** Within every attempt of the flush, a row is always located in the same place. */
  ghost predicate RowRouted(remaining: seq<Mutation>, attempt: nat, script: FlushScript, o: Options)
    requires attempt <= o.maxRetries
    decreases o.maxRetries - attempt
  {
    && RoutesByRow(remaining, script.attempts(attempt).route)
    && var step := Try(remaining, attempt, script.attempts(attempt), o).step;
       (step.Retry? ==> RowRouted(step.mutations, attempt + 1, script, o))
  }

  /** A flush commits each mutation at most once; it succeeds only when every one is committed; and if it
      made no Apply, nothing is. */
  lemma {:induction false} FlushConserves(remaining: seq<Mutation>, attempt: nat, script: FlushScript, o: Options)
    requires attempt <= o.maxRetries && TruthfulFlush(remaining, attempt, script, o)
    ensures var f := FlushFrom(remaining, attempt, script, o);
            && multiset(remaining) == multiset(f.done) + multiset(f.left)
            && (f.cause.None? ==> f.left == [])
            && (!f.submitted ==> f.done == [])
    decreases o.maxRetries - attempt
  {
    hide Try, TruthfulTry;
    TryConserves(remaining, attempt, script.attempts(attempt), o);
    var step := Try(remaining, attempt, script.attempts(attempt), o).step;
    if step.Retry? { FlushConserves(step.mutations, attempt + 1, script, o); }
  }

  /** Some session of the flush fails. */
  ghost predicate FailsIn(remaining: seq<Mutation>, attempt: nat, script: FlushScript, o: Options)
    requires attempt <= o.maxRetries
    decreases o.maxRetries - attempt
  {
    var a := script.attempts(attempt);
    || (PlanOf(remaining, a.route).Plans? && SomeSessionFails(PlanOf(remaining, a.route).plans, a.sessions, o.maxBatchBytes))
    || (HasMore(remaining, attempt, a, o) && a.invalidated && attempt < o.maxRetries && a.waited
        && FailsIn(Try(remaining, attempt, a, o).left, attempt + 1, script, o))
  }

  /** A flush fails for its sessions exactly when one of them fails, and has then made an Apply. */
  lemma {:induction false} FlushReports(remaining: seq<Mutation>, attempt: nat, script: FlushScript, o: Options)
    requires attempt <= o.maxRetries && TruthfulFlush(remaining, attempt, script, o)
    ensures var f := FlushFrom(remaining, attempt, script, o);
            && (f.cause.Some? && f.cause.value.SendFailed? <==> FailsIn(remaining, attempt, script, o))
            && (FailsIn(remaining, attempt, script, o) ==> f.submitted)
    decreases o.maxRetries - attempt
  {
    hide Try, TruthfulTry, HasMore, SomeSessionFails;
    var a := script.attempts(attempt);
    TryReports(remaining, attempt, a, o);
    TryConserves(remaining, attempt, a, o);
    var step := Try(remaining, attempt, a, o).step;
    if step.Retry? {
      FlushReports(step.mutations, attempt + 1, script, o);
    } else if step.Ended? && step.cause.SendFailed? {
      FailedTrySubmits(remaining, attempt, a, o);
    }
  }

  lemma FailedTrySubmits(remaining: seq<Mutation>, attempt: nat, a: Attempt, o: Options)
    requires PlanOf(remaining, a.route).Plans?
    requires SomeSessionFails(PlanOf(remaining, a.route).plans, a.sessions, o.maxBatchBytes)
    ensures Try(remaining, attempt, a, o).submitted
  {
    hide SendAll, RoundPiece, SessionFails, DistinctExtents;
    var plans := PlanOf(remaining, a.route).plans;
    PlanProjects(remaining, a.route, "", Extent(None, None));
    RoundReports(plans, a.sessions, o.maxBatchBytes);
    var plan :| plan in plans && SessionFails(plan, a.sessions, o.maxBatchBytes);
    FailedSessionSubmits(plan, a.sessions, o.maxBatchBytes);
  }

  /** Each row's mutations are committed in the order they were given, whatever is retried. */
  lemma {:induction false} FlushInOrder(remaining: seq<Mutation>, attempt: nat, script: FlushScript, o: Options,
      row: Bytes)
    requires attempt <= o.maxRetries && TruthfulFlush(remaining, attempt, script, o) && RowRouted(remaining, attempt, script, o)
    ensures var f := FlushFrom(remaining, attempt, script, o);
            OfRow(remaining, row) == OfRow(f.done, row) + OfRow(f.left, row)
    decreases o.maxRetries - attempt
  {
    hide Try, TruthfulTry, OfRow, RoutesByRow;
    var a := script.attempts(attempt);
    TryConserves(remaining, attempt, a, o);
    TryInOrder(remaining, attempt, a, o, row);
    var step := Try(remaining, attempt, a, o).step;
    if step.Retry? {
      FlushInOrder(step.mutations, attempt + 1, script, o, row);
      OfRowConcat(Try(remaining, attempt, a, o).done, FlushFrom(step.mutations, attempt + 1, script, o).done, row);
    }
  }

  /** How many attempts a flush makes. */
  function Attempts(remaining: seq<Mutation>, attempt: nat, script: FlushScript, o: Options): nat
    requires attempt <= o.maxRetries
    decreases o.maxRetries - attempt
  {
    var step := Try(remaining, attempt, script.attempts(attempt), o).step;
    if step.Retry? then 1 + Attempts(step.mutations, attempt + 1, script, o) else 1
  }

  /** A flush makes at most one attempt more than the configured retries, and gives up retrying only when
      it has made them all; each attempt starts at most one session for each mutation. */
  lemma {:induction false} FlushIsBounded(remaining: seq<Mutation>, attempt: nat, script: FlushScript, o: Options)
    requires attempt <= o.maxRetries && TruthfulFlush(remaining, attempt, script, o)
    ensures var f, n := FlushFrom(remaining, attempt, script, o), Attempts(remaining, attempt, script, o);
            && n <= o.maxRetries + 1 - attempt
            && (f.cause == Some(RetryExhausted) ==> n == o.maxRetries + 1 - attempt)
            && f.sessions <= n * |remaining|
    decreases o.maxRetries - attempt
  {
    hide PlanOf, SendAll, RoundPiece, TruthfulRound, DistinctPlans;
    var a := script.attempts(attempt);
    var r := Try(remaining, attempt, a, o);
    TryConserves(remaining, attempt, a, o);
    TrySessions(remaining, attempt, a, o);
    if r.step.Retry? {
      FlushIsBounded(r.step.mutations, attempt + 1, script, o);
      var n := Attempts(r.step.mutations, attempt + 1, script, o);
      assert |multiset(remaining)| == |remaining| && |multiset(r.left)| == |r.left|;
      AtMostEach(n, |r.left|, |remaining|);
    }
  }

  lemma AtMostEach(n: nat, a: nat, b: nat)
    requires a <= b
    ensures n * a <= n * b && b + n * b == (1 + n) * b
  {
  }

  lemma TrySessions(remaining: seq<Mutation>, attempt: nat, a: Attempt, o: Options)
    ensures Try(remaining, attempt, a, o).sessions <= |remaining|
  {
    hide SendAll, RoundPiece, DistinctPlans;
    if PlanOf(remaining, a.route).Plans? {
      PlanIsPermutation(remaining, a.route);
      PlanProjects(remaining, a.route, "", Extent(None, None));
      var plans := PlanOf(remaining, a.route).plans;
      NoMorePlans(plans);
      assert |multiset(PlansMutations(plans))| == |PlansMutations(plans)|;
      assert |multiset(remaining)| == |remaining|;
    }
  }

  lemma {:induction false} NoMorePlans(plans: seq<ServerPlan>)
    requires DistinctPlans(plans)
    ensures |plans| <= |PlansMutations(plans)|
  {
    if plans != [] {
      NoMorePlans(plans[1..]);
      assert plans[0].extents != [] && plans[0].extents[0].mutations != [];
    }
  }
}
