/** Adding split rows in bounded rounds against a manager that other clients use at the same time. */
module AddSplits {
  import opened Bytes
  import opened Wrappers
  import opened Tablets
  import opened SplitPlan

  datatype SplitError =
    | InvalidTableName | Invalid(reason: InvalidSplit) | ConnectorClosed | DiscoveryUnavailable
    | TableNotFound | ResolveFailed | IdentityChanged | StateUnreadable | TableOffline
    | ManagerUnavailable | ManagerUnknown
    | ContextEnded | LocateFailed | OperationFailed | WaitEnded | Incomplete(left: nat)

  /** What will come of splitting one group: the context ended before it, its request could not be
      encoded, or the rows that become split points, whether the manager reports success, and whether an
      error is reported with it. */
  datatype GroupAnswer = GroupAnswer(contextEnded: bool, encoded: bool, landed: set<Bytes>, succeeded: bool, failed: bool)

  /** What will come of one round: the tablets found, the rows other clients have split at by then, the
      extents the manager reports refreshed, and an answer for each group. */
  datatype Round = Round(
    contextEnded: bool, tablets: Option<seq<Extent>>, others: set<Bytes>,
    updated: seq<Extent>, updateFailed: bool, groups: nat -> GroupAnswer, waited: bool)

  /** The rows a plan's operations confirmed, whether any failed, and the table's split points after. */
  datatype Applied = Applied(completed: seq<Bytes>, failed: bool, splits: set<Bytes>)

  function RefreshedRows(updated: seq<Extent>): seq<Bytes> {
    if updated == [] then []
    else
      RefreshedRows(updated[..|updated| - 1])
      + match updated[|updated| - 1].end case None => [] case Some(row) => if row == [] then [] else [row]
  }

  /** `first` is the number of the first of these groups. */
  function ApplyGroups(groups: seq<Group>, first: nat, answers: nat -> GroupAnswer, splits: set<Bytes>): Applied {
    if groups == [] then Applied([], false, splits)
    else
      var a := answers(first);
      if a.contextEnded then Applied([], true, splits)
      else if !a.encoded then ApplyGroups(groups[1..], first + 1, answers, splits).(failed := true)
      else
        var later := ApplyGroups(groups[1..], first + 1, answers, splits + Landed(groups[0], a));
        Applied((if a.succeeded then groups[0].rows else []) + later.completed, a.failed || later.failed, later.splits)
  }

  function Landed(group: Group, a: GroupAnswer): set<Bytes> {
    set row | row in group.rows && row in a.landed
  }

  function ApplyPlan(plan: Plan, round: Round, splits: set<Bytes>): Applied {
    var refreshed := if plan.existing == [] then [] else RefreshedRows(round.updated);
    var applied := ApplyGroups(plan.groups, 0, round.groups, splits);
    Applied(refreshed + applied.completed, (plan.existing != [] && round.updateFailed) || applied.failed, applied.splits)
  }

  method RefreshExistingSplits(updated: seq<Extent>) returns (rows: seq<Bytes>)
    ensures rows == RefreshedRows(updated)
  {
    rows := [];
    for i := 0 to |updated|
      invariant rows == RefreshedRows(updated[..i])
    {
      assert updated[..i + 1][..i] == updated[..i];
      if updated[i].end.Some? && |updated[i].end.value| > 0 {
        rows := rows + [updated[i].end.value];
      }
    }
    assert updated[..|updated|] == updated;
  }

  /** applySplitPlan: every group is attempted even after an earlier one failed. */
  method ApplySplitPlan(plan: Plan, round: Round, ghost splits: set<Bytes>)
    returns (completed: seq<Bytes>, failed: bool, ghost after: set<Bytes>)
    ensures completed == ApplyPlan(plan, round, splits).completed && failed == ApplyPlan(plan, round, splits).failed
    ensures after == ApplyPlan(plan, round, splits).splits
  {
    hide ApplyGroups, Extended, Landed;
    completed, failed, after := [], false, splits;
    if |plan.existing| > 0 {
      completed := RefreshExistingSplits(round.updated);
      failed := round.updateFailed;
    }
    ghost var all := ApplyPlan(plan, round, splits);
    assert plan.groups[0..] == plan.groups;
    ExtendedSteps(completed, failed, ApplyGroups(plan.groups, 0, round.groups, splits));
    for g := 0 to |plan.groups|
      invariant all == Extended(completed, failed, ApplyGroups(plan.groups[g..], g, round.groups, after))
    {
      var answer := round.groups(g);
      GroupsSteps(completed, failed, plan.groups, g, round.groups, after);
      if answer.contextEnded { return completed, true, after; }
      if !answer.encoded {
        failed := true;
        continue;
      }
      after := after + Landed(plan.groups[g], answer);
      completed := completed + if answer.succeeded then plan.groups[g].rows else [];
      failed := failed || answer.failed;
    }
    assert plan.groups[|plan.groups|..] == [];
    GroupsEnd(completed, failed, |plan.groups|, round.groups, after);
  }

  lemma ExtendedSteps(completed: seq<Bytes>, failed: bool, later: Applied)
    ensures Extended(completed, failed, later) == Applied(completed + later.completed, failed || later.failed, later.splits)
  {
  }

  lemma GroupsEnd(completed: seq<Bytes>, failed: bool, first: nat, answers: nat -> GroupAnswer, splits: set<Bytes>)
    ensures Extended(completed, failed, ApplyGroups([], first, answers, splits)) == Applied(completed, failed, splits)
  {
  }

  /** What one group adds to what the plan has done so far. */
  lemma GroupsSteps(completed: seq<Bytes>, failed: bool, groups: seq<Group>, g: nat, answers: nat -> GroupAnswer,
      splits: set<Bytes>)
    requires g < |groups|
    ensures var a := answers(g);
            Extended(completed, failed, ApplyGroups(groups[g..], g, answers, splits))
            == if a.contextEnded then Applied(completed, true, splits)
               else if !a.encoded then Extended(completed, true, ApplyGroups(groups[g + 1..], g + 1, answers, splits))
               else Extended(completed + (if a.succeeded then groups[g].rows else []), failed || a.failed,
                             ApplyGroups(groups[g + 1..], g + 1, answers, splits + Landed(groups[g], a)))
  {
    hide Landed;
    assert groups[g..][1..] == groups[g + 1..];
    var a := answers(g);
    var rows := if a.succeeded then groups[g].rows else [];
    var later := ApplyGroups(groups[g + 1..], g + 1, answers, splits + Landed(groups[g], a)).completed;
    assert completed + (rows + later) == completed + rows + later;
  }

  ghost function Extended(completed: seq<Bytes>, failed: bool, later: Applied): Applied {
    Applied(completed + later.completed, failed || later.failed, later.splits)
  }

  // ---- Rounds ----

  /** How the rounds end: the rows still pending, the rows confirmed, the table's split points, and how
      many rounds were started. */
  datatype Ending = Ending(error: Option<SplitError>, pending: seq<Bytes>, confirmed: seq<Bytes>, splits: set<Bytes>, rounds: nat)

  function Rounds(pending: seq<Bytes>, attempt: nat, splits: set<Bytes>, rounds: nat -> Round, attempts: nat): Ending
    requires attempt <= attempts
    decreases attempts - attempt
  {
    if attempt == attempts then Ending(Some(Incomplete(|pending|)), pending, [], splits, 0)
    else
      var round := rounds(attempt);
      if round.contextEnded then Ending(Some(ContextEnded), pending, [], splits, 1)
      else if round.tablets.None? then Ending(Some(LocateFailed), pending, [], splits, 1)
      else
        var applied := ApplyPlan(PlanRows(round.tablets.value, pending), round, splits + round.others);
        var left := Without(pending, applied.completed);
        if applied.failed then Ending(Some(OperationFailed), left, applied.completed, applied.splits, 1)
        else if left == [] then Ending(None, left, applied.completed, applied.splits, 1)
        else if attempt + 1 == attempts then Ending(Some(Incomplete(|left|)), left, applied.completed, applied.splits, 1)
        else if !round.waited then Ending(Some(WaitEnded), left, applied.completed, applied.splits, 1)
        else
          var later := Rounds(left, attempt + 1, applied.splits, rounds, attempts);
          later.(confirmed := applied.completed + later.confirmed, rounds := 1 + later.rounds)
  }

  /** addSplits, over the slice that holds the first `length` pending rows. */
  method AddSplitRows(pending: array<Bytes>, length: nat, rounds: nat -> Round, attempts: nat, ghost splits: set<Bytes>)
    returns (error: Option<SplitError>, left: nat, ghost ending: Ending)
    requires length <= pending.Length
    modifies pending
    ensures ending == Rounds(old(pending[..length]), 0, splits, rounds, attempts)
    ensures error == ending.error && left <= length && pending[..left] == ending.pending
  {
    hide PlanRows, ApplyPlan, Without;
    left := length;
    ghost var after, confirmed: seq<Bytes> := splits, [];
    ending := Rounds(pending[..length], 0, splits, rounds, attempts);
    for attempt := 0 to attempts
      invariant left <= length
      invariant ending == Onward(confirmed, attempt, Rounds(pending[..left], attempt, after, rounds, attempts))
    {
      var round := rounds(attempt);
      if round.contextEnded { return Some(ContextEnded), left, ending; }
      if round.tablets.None? { return Some(LocateFailed), left, ending; }
      var plan := PlanTableSplits(round.tablets.value, pending[..left]);
      ghost var later := Rounds(pending[..left], attempt, after, rounds, attempts);
      var completed, failed, after' := ApplySplitPlan(plan, round, after + round.others);
      left := RemoveSplitRows(pending, left, completed);
      OnwardSteps(confirmed, completed, attempt, Rounds(pending[..left], attempt + 1, after', rounds, attempts));
      after, confirmed := after', confirmed + completed;
      if failed { return Some(OperationFailed), left, ending; }
      if left == 0 { return None, left, ending; }
      if attempt + 1 == attempts { break; }
      if !round.waited { return Some(WaitEnded), left, ending; }
    }
    return Some(Incomplete(left)), left, ending;
  }

  ghost function Onward(confirmed: seq<Bytes>, started: nat, later: Ending): Ending {
    later.(confirmed := confirmed + later.confirmed, rounds := started + later.rounds)
  }

  lemma OnwardSteps(confirmed: seq<Bytes>, completed: seq<Bytes>, attempt: nat, later: Ending)
    ensures Onward(confirmed, attempt, later.(confirmed := completed + later.confirmed, rounds := 1 + later.rounds))
            == Onward(confirmed + completed, attempt + 1, later)
  {
    assert confirmed + (completed + later.confirmed) == confirmed + completed + later.confirmed;
  }

  // ---- What a plan does ----

  /** No group before g finds the context ended. */
  ghost predicate Reached(answers: nat -> GroupAnswer, g: nat) {
    forall h: nat :: h < g ==> !answers(h).contextEnded
  }

  /** The manager is asked to split the group. */
  ghost predicate Asked(answers: nat -> GroupAnswer, g: nat) {
    Reached(answers, g) && !answers(g).contextEnded && answers(g).encoded
  }

  /** The group is reached and goes wrong: the context has ended, its request cannot be encoded, or its
      operation comes with an error. */
  ghost predicate GroupFails(answers: nat -> GroupAnswer, g: nat) {
    Reached(answers, g) && (answers(g).contextEnded || !answers(g).encoded || answers(g).failed)
  }

  /** The manager reports the group split, and the row is one of it. */
  ghost predicate GroupConfirms(groups: seq<Group>, answers: nat -> GroupAnswer, row: Bytes, g: nat) {
    g < |groups| && Asked(answers, g) && answers(g).succeeded && row in groups[g].rows
  }

  /** The row is one of the group, and the group's operation makes it a split point. */
  ghost predicate GroupLands(groups: seq<Group>, answers: nat -> GroupAnswer, row: Bytes, g: nat) {
    g < |groups| && Asked(answers, g) && row in answers(g).landed && row in groups[g].rows
  }

  ghost predicate SomeGroupFails(groups: seq<Group>, answers: nat -> GroupAnswer, from: nat) {
    exists g: nat :: from <= g < |groups| && GroupFails(answers, g)
  }

  ghost predicate SomeGroupConfirms(groups: seq<Group>, answers: nat -> GroupAnswer, row: Bytes, from: nat) {
    exists g: nat :: from <= g && GroupConfirms(groups, answers, row, g)
  }

  ghost predicate SomeGroupLands(groups: seq<Group>, answers: nat -> GroupAnswer, row: Bytes, from: nat) {
    exists g: nat :: from <= g && GroupLands(groups, answers, row, g)
  }

  /** Something goes wrong with the plan: the refresh, or a group. */
  ghost predicate Fails(plan: Plan, round: Round) {
    (plan.existing != [] && round.updateFailed) || SomeGroupFails(plan.groups, round.groups, 0)
  }

  /** The row is confirmed: by a refreshed extent that ends in it, or by a group that succeeded. */
  ghost predicate ConfirmsRow(plan: Plan, round: Round, row: Bytes) {
    || (plan.existing != [] && row != [] && exists extent :: extent in round.updated && extent.end == Some(row))
    || SomeGroupConfirms(plan.groups, round.groups, row, 0)
  }

  lemma {:induction false} RefreshedAreEnds(updated: seq<Extent>, row: Bytes)
    ensures row in RefreshedRows(updated) <==> row != [] && exists extent :: extent in updated && extent.end == Some(row)
  {
    if updated != [] {
      var front, last := updated[..|updated| - 1], updated[|updated| - 1];
      assert updated == front + [last];
      RefreshedAreEnds(front, row);
      assert forall extent :: extent in updated <==> extent in front || extent == last;
    }
  }

  lemma SomeGroupSteps(groups: seq<Group>, answers: nat -> GroupAnswer, row: Bytes, k: nat)
    requires k < |groups|
    ensures SomeGroupFails(groups, answers, k) <==> GroupFails(answers, k) || SomeGroupFails(groups, answers, k + 1)
    ensures SomeGroupConfirms(groups, answers, row, k)
            <==> GroupConfirms(groups, answers, row, k) || SomeGroupConfirms(groups, answers, row, k + 1)
    ensures SomeGroupLands(groups, answers, row, k)
            <==> GroupLands(groups, answers, row, k) || SomeGroupLands(groups, answers, row, k + 1)
  {
    hide GroupFails, GroupConfirms, GroupLands;
  }

  /** Nothing follows the last group, or one that finds the context ended. */
  lemma NoGroupAfter(groups: seq<Group>, answers: nat -> GroupAnswer, row: Bytes, k: nat)
    requires k >= |groups| || (k > 0 && answers(k - 1).contextEnded)
    ensures !SomeGroupFails(groups, answers, k)
    ensures !SomeGroupConfirms(groups, answers, row, k) && !SomeGroupLands(groups, answers, row, k)
  {
  }

  /** The groups from k on, asked in turn. */
  lemma {:induction false} GroupsReport(groups: seq<Group>, k: nat, answers: nat -> GroupAnswer, splits: set<Bytes>, row: Bytes)
    requires k <= |groups| && Reached(answers, k)
    ensures var applied := ApplyGroups(groups[k..], k, answers, splits);
            && (applied.failed <==> SomeGroupFails(groups, answers, k))
            && (row in applied.completed <==> SomeGroupConfirms(groups, answers, row, k))
            && (row in applied.splits <==> row in splits || SomeGroupLands(groups, answers, row, k))
    decreases |groups| - k
  {
    hide SomeGroupFails, SomeGroupConfirms, SomeGroupLands, Reached;
    if k == |groups| {
      NoGroupAfter(groups, answers, row, k);
    } else {
      var a := answers(k);
      assert groups[k..][0] == groups[k] && groups[k..][1..] == groups[k + 1..];
      SomeGroupSteps(groups, answers, row, k);
      if a.contextEnded {
        NoGroupAfter(groups, answers, row, k + 1);
      } else {
        NextIsReached(answers, k);
        GroupsReport(groups, k + 1, answers, if a.encoded then splits + Landed(groups[k], a) else splits, row);
      }
    }
  }

  lemma NextIsReached(answers: nat -> GroupAnswer, k: nat)
    requires Reached(answers, k) && !answers(k).contextEnded
    ensures Reached(answers, k + 1)
  {
  }

  /** A plan reports failure, confirms rows and splits the table exactly as the manager's answers say. */
  lemma PlanReports(plan: Plan, round: Round, splits: set<Bytes>, row: Bytes)
    ensures var applied := ApplyPlan(plan, round, splits);
            && (applied.failed <==> Fails(plan, round))
            && (row in applied.completed <==> ConfirmsRow(plan, round, row))
            && (row in applied.splits <==> row in splits || SomeGroupLands(plan.groups, round.groups, row, 0))
  {
    hide ApplyGroups, RefreshedRows, Reached, SomeGroupFails, SomeGroupConfirms, SomeGroupLands;
    FirstIsReached(round.groups);
    assert plan.groups[0..] == plan.groups;
    GroupsReport(plan.groups, 0, round.groups, splits, row);
    RefreshedAreEnds(round.updated, row);
  }

  lemma FirstIsReached(answers: nat -> GroupAnswer)
    ensures Reached(answers, 0)
  {
  }

  // ---- How the rounds end ----

  /** The rows a round that locates its tablets leaves. */
  function Left(pending: seq<Bytes>, round: Round): seq<Bytes>
    requires round.tablets.Some?
  {
    Without(pending, ApplyPlan(PlanRows(round.tablets.value, pending), round, {}).completed)
  }

  /** A round that locates its tablets and in which nothing goes wrong. */
  ghost predicate Succeeds(pending: seq<Bytes>, round: Round) {
    !round.contextEnded && round.tablets.Some? && !Fails(PlanRows(round.tablets.value, pending), round)
  }

  /** One more round follows. */
  ghost predicate GoesOn(pending: seq<Bytes>, round: Round) {
    Succeeds(pending, round) && Left(pending, round) != [] && round.waited
  }

  /** How a round ends the call, if it is the last one made. */
  ghost predicate EndsCall(pending: seq<Bytes>, round: Round, last: bool, error: Option<SplitError>) {
    && (error.None? || error.value in {ContextEnded, LocateFailed, OperationFailed, WaitEnded} || error.value.Incomplete?)
    && (error == Some(ContextEnded) <==> round.contextEnded)
    && (error == Some(LocateFailed) <==> !round.contextEnded && round.tablets.None?)
    && (error == Some(OperationFailed) <==>
          !round.contextEnded && round.tablets.Some? && Fails(PlanRows(round.tablets.value, pending), round))
    && (error == None <==> Succeeds(pending, round) && Left(pending, round) == [])
    && (error.Some? && error.value.Incomplete? <==> Succeeds(pending, round) && Left(pending, round) != [] && last)
    && (error.Some? && error.value.Incomplete? ==> error.value.left == |Left(pending, round)|)
    && (error == Some(WaitEnded) <==> Succeeds(pending, round) && Left(pending, round) != [] && !last && !round.waited)
  }

  /** What is pending at round k, if every round before it went on. */
  function PendingAt(pending: seq<Bytes>, rounds: nat -> Round, k: nat): seq<Bytes>
    decreases k
  {
    if k == 0 then pending
    else
      var before := PendingAt(pending, rounds, k - 1);
      if rounds(k - 1).tablets.None? then before else Left(before, rounds(k - 1))
  }

  lemma CompletedAlike(plan: Plan, round: Round, splits: set<Bytes>)
    ensures ApplyPlan(plan, round, splits).completed == ApplyPlan(plan, round, {}).completed
  {
    hide ApplyGroups;
    GroupsCompleteAlike(plan.groups, 0, round.groups, splits, {});
  }

  lemma {:induction false} GroupsCompleteAlike(groups: seq<Group>, first: nat, answers: nat -> GroupAnswer,
      splits: set<Bytes>, others: set<Bytes>)
    ensures ApplyGroups(groups, first, answers, splits).completed == ApplyGroups(groups, first, answers, others).completed
  {
    if groups != [] {
      var a := answers(first);
      GroupsCompleteAlike(groups[1..], first + 1, answers, splits, others);
      GroupsCompleteAlike(groups[1..], first + 1, answers, splits + Landed(groups[0], a), others + Landed(groups[0], a));
    }
  }

  /** One round: it ends the call, or the rounds go on with what it leaves. */
  lemma RoundSteps(pending: seq<Bytes>, attempt: nat, splits: set<Bytes>, rounds: nat -> Round, attempts: nat)
    returns (after: set<Bytes>)
    requires attempt < attempts
    ensures var ending, last := Rounds(pending, attempt, splits, rounds, attempts), attempt + 1 == attempts;
            if GoesOn(pending, rounds(attempt)) && !last then
              var later := Rounds(Left(pending, rounds(attempt)), attempt + 1, after, rounds, attempts);
              ending.error == later.error && ending.rounds == 1 + later.rounds
            else ending.rounds == 1 && EndsCall(pending, rounds(attempt), last, ending.error)
  {
    hide PlanRows, ApplyPlan, Without, Fails;
    after := splits;
    var round := rounds(attempt);
    if !round.contextEnded && round.tablets.Some? {
      var plan := PlanRows(round.tablets.value, pending);
      PlanReports(plan, round, splits + round.others, []);
      CompletedAlike(plan, round, splits + round.others);
      after := ApplyPlan(plan, round, splits + round.others).splits;
    }
  }

  /** The call makes rounds for as long as they go on; the last one ends it. */
  lemma {:induction false} RoundsEnd(start: seq<Bytes>, attempt: nat, splits: set<Bytes>, rounds: nat -> Round, attempts: nat)
    requires attempt < attempts
    ensures var ending := Rounds(PendingAt(start, rounds, attempt), attempt, splits, rounds, attempts);
            var last := attempt + ending.rounds - 1;
            && attempt <= last < attempts
            && (forall k: nat :: attempt <= k < last ==> GoesOn(PendingAt(start, rounds, k), rounds(k)))
            && EndsCall(PendingAt(start, rounds, last), rounds(last), last + 1 == attempts, ending.error)
    decreases attempts - attempt
  {
    hide Rounds, EndsCall, GoesOn, PendingAt, Left;
    var pending := PendingAt(start, rounds, attempt);
    var after := RoundSteps(pending, attempt, splits, rounds, attempts);
    if GoesOn(pending, rounds(attempt)) && attempt + 1 < attempts {
      NextPending(start, rounds, attempt);
      RoundsEnd(start, attempt + 1, after, rounds, attempts);
    }
  }

  lemma NextPending(start: seq<Bytes>, rounds: nat -> Round, k: nat)
    requires GoesOn(PendingAt(start, rounds, k), rounds(k))
    ensures rounds(k).tablets.Some? && PendingAt(start, rounds, k + 1) == Left(PendingAt(start, rounds, k), rounds(k))
  {
    hide Fails, PlanRows, Left;
  }

  /** Every round before n goes on. */
  ghost predicate AllGoOn(pending: seq<Bytes>, rounds: nat -> Round, n: nat) {
    forall k: nat :: k < n ==> GoesOn(PendingAt(pending, rounds, k), rounds(k))
  }

  /** Round n is made and something goes wrong with its plan. */
  ghost predicate FailsAt(pending: seq<Bytes>, rounds: nat -> Round, n: nat) {
    && AllGoOn(pending, rounds, n) && !rounds(n).contextEnded && rounds(n).tablets.Some?
    && Fails(PlanRows(rounds(n).tablets.value, PendingAt(pending, rounds, n)), rounds(n))
  }

  /** Round n is made, nothing goes wrong, and it leaves nothing pending. */
  ghost predicate FinishesAt(pending: seq<Bytes>, rounds: nat -> Round, n: nat) {
    && AllGoOn(pending, rounds, n) && Succeeds(PendingAt(pending, rounds, n), rounds(n))
    && Left(PendingAt(pending, rounds, n), rounds(n)) == []
  }

  /** A failure the manager reports ends the call in its round; and the call succeeds exactly when a round in
      which nothing goes wrong, after others like it, leaves nothing pending. */
  lemma RoundsReport(pending: seq<Bytes>, splits: set<Bytes>, rounds: nat -> Round, attempts: nat)
    ensures var error := Rounds(pending, 0, splits, rounds, attempts).error;
            && (error == Some(OperationFailed) <==> exists n: nat :: n < attempts && FailsAt(pending, rounds, n))
            && (error == None <==> exists n: nat :: n < attempts && FinishesAt(pending, rounds, n))
  {
    hide PlanRows, Fails, PendingAt, Left, Rounds;
    if attempts > 0 {
      FirstPending(pending, rounds);
      RoundsEnd(pending, 0, splits, rounds, attempts);
      var last: nat := Rounds(pending, 0, splits, rounds, attempts).rounds - 1;
      assert AllGoOn(pending, rounds, last);
      forall n: nat | n < attempts && (FailsAt(pending, rounds, n) || FinishesAt(pending, rounds, n)) ensures n == last {
        OnlyLastEnds(pending, rounds, n, last, attempts, Rounds(pending, 0, splits, rounds, attempts).error);
      }
      var error := Rounds(pending, 0, splits, rounds, attempts).error;
      assert error == Some(OperationFailed) <==> FailsAt(pending, rounds, last);
      assert error == None <==> FinishesAt(pending, rounds, last);
    } else {
      NoRounds(pending, splits, rounds);
    }
  }

  /** A round that fails or finishes the call is the last one made. */
  lemma OnlyLastEnds(pending: seq<Bytes>, rounds: nat -> Round, n: nat, last: nat, attempts: nat, error: Option<SplitError>)
    requires n < attempts && last < attempts && AllGoOn(pending, rounds, last)
    requires EndsCall(PendingAt(pending, rounds, last), rounds(last), last + 1 == attempts, error)
    requires FailsAt(pending, rounds, n) || FinishesAt(pending, rounds, n)
    ensures n == last
  {
    hide PlanRows, Fails, PendingAt, Left;
    assert n < last ==> GoesOn(PendingAt(pending, rounds, n), rounds(n));
    assert last < n ==> GoesOn(PendingAt(pending, rounds, last), rounds(last));
  }

  lemma NoRounds(pending: seq<Bytes>, splits: set<Bytes>, rounds: nat -> Round)
    ensures Rounds(pending, 0, splits, rounds, 0).error == Some(Incomplete(|pending|))
  {
  }

  lemma FirstPending(pending: seq<Bytes>, rounds: nat -> Round)
    ensures PendingAt(pending, rounds, 0) == pending
  {
  }

  // ---- A truthful manager ----

  /** The manager confirms only what holds: a refreshed extent's end row is a split point, and a group
      that succeeded has become split points. */
  ghost predicate Truthful(plan: Plan, round: Round, splits: set<Bytes>) {
    && (plan.existing != [] ==> forall row :: row in RefreshedRows(round.updated) ==> row in splits)
    && (forall g :: 0 <= g < |plan.groups| && round.groups(g).succeeded ==>
          forall row :: row in plan.groups[g].rows ==> row in round.groups(g).landed)
  }

  ghost predicate TruthfulRounds(pending: seq<Bytes>, attempt: nat, splits: set<Bytes>, rounds: nat -> Round,
      attempts: nat)
    requires attempt <= attempts
    decreases attempts - attempt
  {
    attempt < attempts && rounds(attempt).tablets.Some? ==>
      var round := rounds(attempt);
      var plan := PlanRows(round.tablets.value, pending);
      var applied := ApplyPlan(plan, round, splits + round.others);
      && Truthful(plan, round, splits + round.others)
      && TruthfulRounds(Without(pending, applied.completed), attempt + 1, applied.splits, rounds, attempts)
  }

  lemma {:induction false} GroupsConfirmed(groups: seq<Group>, first: nat, answers: nat -> GroupAnswer,
      splits: set<Bytes>)
    requires forall g :: 0 <= g < |groups| && answers(first + g).succeeded ==>
               forall row :: row in groups[g].rows ==> row in answers(first + g).landed
    ensures var applied := ApplyGroups(groups, first, answers, splits);
            splits <= applied.splits && forall row :: row in applied.completed ==> row in applied.splits
  {
    if groups != [] {
      assert answers(first + 0) == answers(first);
      forall g | 0 <= g < |groups[1..]| && answers(first + 1 + g).succeeded
        ensures forall row :: row in groups[1..][g].rows ==> row in answers(first + 1 + g).landed
      {
        assert groups[1..][g] == groups[g + 1] && first + 1 + g == first + (g + 1);
      }
      GroupsConfirmed(groups[1..], first + 1, answers, splits);
      GroupsConfirmed(groups[1..], first + 1, answers, splits + Landed(groups[0], answers(first)));
    }
  }

  lemma PlanConfirmed(plan: Plan, round: Round, splits: set<Bytes>)
    requires Truthful(plan, round, splits)
    ensures var applied := ApplyPlan(plan, round, splits);
            splits <= applied.splits && forall row :: row in applied.completed ==> row in applied.splits
  {
    hide ApplyGroups, RefreshedRows;
    GroupsConfirmed(plan.groups, 0, round.groups, splits);
  }

  /** However many rounds ran: the pending rows are exactly those not yet confirmed, still in order; every
      confirmed row is a split point; and no more rounds ran than allowed. */
  lemma {:induction false} RoundsConfirm(pending: seq<Bytes>, attempt: nat, splits: set<Bytes>, rounds: nat -> Round,
      attempts: nat)
    requires attempt <= attempts && TruthfulRounds(pending, attempt, splits, rounds, attempts)
    ensures var ending := Rounds(pending, attempt, splits, rounds, attempts);
            && ending.pending == Without(pending, ending.confirmed)
            && (forall row :: row in ending.confirmed ==> row in ending.splits)
            && splits <= ending.splits && ending.rounds <= attempts - attempt
            && (ending.error.None? ==> ending.pending == [])
    decreases attempts - attempt
  {
    hide PlanRows, ApplyPlan, Without, Truthful;
    WithoutNothing(pending);
    if attempt < attempts && rounds(attempt).tablets.Some? {
      var round := rounds(attempt);
      var plan := PlanRows(round.tablets.value, pending);
      var applied := ApplyPlan(plan, round, splits + round.others);
      PlanConfirmed(plan, round, splits + round.others);
      var left := Without(pending, applied.completed);
      RoundsConfirm(left, attempt + 1, applied.splits, rounds, attempts);
      WithoutTwice(pending, applied.completed, Rounds(left, attempt + 1, applied.splits, rounds, attempts).confirmed);
    }
  }

  /** Adding splits reports success only when every row the caller asked for is a split point; whatever
      happens, the rows left are the requested ones not confirmed, strictly ascending. */
  lemma SuccessSplitsEveryRow(requested: seq<Bytes>, splits: set<Bytes>, rounds: nat -> Round, attempts: nat)
    requires NormalizedRows(requested).Ok?
    requires TruthfulRounds(NormalizedRows(requested).value, 0, splits, rounds, attempts)
    ensures var ending := Rounds(NormalizedRows(requested).value, 0, splits, rounds, attempts);
            && (ending.error.None? ==> forall row :: row in requested ==> row in ending.splits)
            && (forall row :: row in ending.pending <==> row in requested && row !in ending.confirmed)
            && StrictlySorted(ending.pending)
            && ending.rounds <= attempts
  {
    hide Rounds, NormalizedRows, Without, Compare;
    var rows := NormalizedRows(requested).value;
    NormalizedRowsAre(requested);
    RoundsConfirm(rows, 0, splits, rounds, attempts);
    WithoutIsFilter(rows, Rounds(rows, 0, splits, rounds, attempts).confirmed);
  }

  // ---- The whole call ----

  datatype Resolution = NotNamed | Unresolved | Resolved(id: string)

  datatype TableState = NotTracked | Unreadable | Missing | Offline | Online

  datatype Manager = Leaderless | Undiscovered | Address

  /** What a call finds before its first round: the name's validity, the context, the connector, the table's
      identity against the expected one (empty when the caller expects none), its state, and the manager. */
  datatype Setup = Setup(
    validName: bool, contextEnded: bool, closed: bool, discovery: bool,
    resolution: Resolution, expected: string, state: TableState, manager: Manager)
  {
    /** The table the caller means, online as far as is known, with a manager to ask. */
    predicate IsReady() {
      && !contextEnded && !closed && discovery
      && resolution.Resolved? && (expected == "" || resolution.id == expected)
      && (state.NotTracked? || state.Online?) && manager.Address?
    }

    /** What is wrong first, in the order things are looked up. */
    function Fault(): (error: Option<SplitError>)
      ensures error.None? <==> IsReady()
    {
      if contextEnded then Some(ContextEnded)
      else if closed then Some(ConnectorClosed)
      else if !discovery then Some(DiscoveryUnavailable)
      else if !resolution.Resolved? then Some(if resolution.NotNamed? then TableNotFound else ResolveFailed)
      else if expected != "" && resolution.id != expected then Some(IdentityChanged)
      else
        match state
        case Unreadable => Some(StateUnreadable)
        case Missing => Some(TableNotFound)
        case Offline => Some(TableOffline)
        case _ =>
          match manager
          case Leaderless => Some(ManagerUnavailable)
          case Undiscovered => Some(ManagerUnknown)
          case Address => None
    }
  }

  /** Each fault is reported exactly when everything looked up before it was in order. */
  lemma FaultIsFirst(s: Setup)
    ensures s.Fault() == Some(ContextEnded) <==> s.contextEnded
    ensures s.Fault() == Some(ConnectorClosed) <==> !s.contextEnded && s.closed
    ensures s.Fault() == Some(DiscoveryUnavailable) <==> !s.contextEnded && !s.closed && !s.discovery
    ensures var connected := !s.contextEnded && !s.closed && s.discovery;
            var named := connected && s.resolution.Resolved?;
            var meant := named && (s.expected == "" || s.resolution.id == s.expected);
            var online := meant && (s.state.NotTracked? || s.state.Online?);
            && (s.Fault() == Some(ResolveFailed) <==> connected && s.resolution.Unresolved?)
            && (s.Fault() == Some(IdentityChanged) <==> named && !meant)
            && (s.Fault() == Some(TableNotFound) <==> (connected && s.resolution.NotNamed?) || (meant && s.state.Missing?))
            && (s.Fault() == Some(StateUnreadable) <==> meant && s.state.Unreadable?)
            && (s.Fault() == Some(TableOffline) <==> meant && s.state.Offline?)
            && (s.Fault() == Some(ManagerUnavailable) <==> online && s.manager.Leaderless?)
            && (s.Fault() == Some(ManagerUnknown) <==> online && s.manager.Undiscovered?)
  {
  }

  /** The rounds fail in their own ways. */
  lemma {:induction false} RoundsFail(pending: seq<Bytes>, attempt: nat, splits: set<Bytes>, rounds: nat -> Round,
      attempts: nat)
    requires attempt <= attempts
    ensures var error := Rounds(pending, attempt, splits, rounds, attempts).error;
            error.Some? ==> error.value.ContextEnded? || error.value.LocateFailed? || error.value.OperationFailed?
                            || error.value.WaitEnded? || error.value.Incomplete?
    decreases attempts - attempt
  {
    hide ApplyPlan, PlanRows, Without;
    if attempt < attempts && rounds(attempt).tablets.Some? {
      var applied := ApplyPlan(PlanRows(rounds(attempt).tablets.value, pending), rounds(attempt), splits + rounds(attempt).others);
      RoundsFail(Without(pending, applied.completed), attempt + 1, applied.splits, rounds, attempts);
    }
  }

  /** addTableSplits: the name is checked before the rows, and both before anything is looked up; only then
      do the rounds decide. */
  method AddTableSplits(requested: seq<Bytes>, setup: Setup, rounds: nat -> Round, attempts: nat, ghost splits: set<Bytes>)
    returns (error: Option<SplitError>, ghost ending: Option<Ending>)
    ensures ending.Some? <==> setup.validName && NormalizedRows(requested).Ok? && setup.IsReady()
    ensures ending.Some? ==>
              && ending.value == Rounds(NormalizedRows(requested).value, 0, splits, rounds, attempts)
              && error == ending.value.error
    ensures ending.None? ==> error.Some?
    ensures error == Some(InvalidTableName) <==> !setup.validName
    ensures setup.validName && NormalizedRows(requested).Err? ==> error == Some(Invalid(NormalizedRows(requested).error))
    ensures setup.validName && NormalizedRows(requested).Ok? && !setup.IsReady() ==> error == setup.Fault()
  {
    hide Rounds;
    ending := None;
    if !setup.validName { return Some(InvalidTableName), None; }
    var rows := NormalizeSplitRows(requested);
    if rows.Err? { return Some(Invalid(rows.error)), None; }
    if setup.contextEnded { return Some(ContextEnded), None; }
    if setup.closed { return Some(ConnectorClosed), None; }
    if !setup.discovery { return Some(DiscoveryUnavailable), None; }
    if setup.resolution.NotNamed? { return Some(TableNotFound), None; }
    if setup.resolution.Unresolved? { return Some(ResolveFailed), None; }
    if setup.expected != "" && setup.resolution.id != setup.expected { return Some(IdentityChanged), None; }
    match setup.state {
      case NotTracked | Online =>
      case Unreadable => return Some(StateUnreadable), None;
      case Missing => return Some(TableNotFound), None;
      case Offline => return Some(TableOffline), None;
    }
    if setup.manager.Leaderless? { return Some(ManagerUnavailable), None; }
    if setup.manager.Undiscovered? { return Some(ManagerUnknown), None; }
    var pending := new Bytes[|rows.value|](i requires 0 <= i < |rows.value| => rows.value[i]);
    assert pending[..pending.Length] == rows.value;
    ghost var ran;
    var left;
    error, left, ran := AddSplitRows(pending, pending.Length, rounds, attempts, splits);
    RoundsFail(rows.value, 0, splits, rounds, attempts);
    ending := Some(ran);
  }
}
