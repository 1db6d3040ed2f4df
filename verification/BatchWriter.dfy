/** The buffered writer: Add, Flush, Close and the automatic flush, one at a time under the writer's gate. */
module BatchWriter {
  import opened Wrappers
  import opened Tablets
  import opened WriterPlan
  import opened WriterFlush

  datatype WriterError =
    | ContextEnded
    | WriterClosed
    | NilMutation
    | EmptyMutation
    | Unencodable
    | NotSubmitted(cause: Cause)
    | WriterFailed(cause: Cause)
    | AutoFlushFailed(error: WriterError)

  /** A caller's context: alive, ended on arrival, or ended while waiting for the writer. */
  datatype Context = Live | EndedBefore | EndsWaiting

  datatype Submission = Nil | Empty | Malformed | Encoded(mutation: Mutation)

  /** The writer's fields, with the history of what it was handed, what was committed, and how many
      sessions it started. */
  datatype State = State(
    pending: seq<Mutation>, pendingBytes: nat, pendingSince: Option<nat>,
    failure: Option<WriterError>, closed: bool, closeError: Option<WriterError>,
    handed: seq<Mutation>, committed: seq<Mutation>, sessions: nat)

  type Outcome = (State, Option<WriterError>)

  function Initial(): State {
    State([], 0, None, None, false, None, [], [], 0)
  }

  function Cleared(s: State): State {
    s.(pending := [], pendingBytes := 0, pendingSince := None)
  }

  // ---- What each operation does ----

  function LockedFlush(s: State, script: FlushScript, o: Options): Outcome {
    if s.failure.Some? then (s, s.failure)
    else if s.pending == [] then (s, None)
    else if !script.resolved then (s, Some(NotSubmitted(TableUnresolved)))
    else
      var f := FlushFrom(s.pending, 0, script, o);
      var s' := s.(committed := s.committed + f.done, sessions := s.sessions + f.sessions);
      if f.cause.None? then (Cleared(s'), None)
      else if !f.submitted then (s', Some(NotSubmitted(f.cause.value)))
      else (Cleared(s').(failure := Some(WriterFailed(f.cause.value))), Some(WriterFailed(f.cause.value)))
  }

  /** Why a mutation is turned away before it is looked at further, if it is. */
  function Refusal(s: State, submission: Submission, context: Context): Option<WriterError> {
    if context.EndedBefore? then Some(ContextEnded)
    else if submission.Nil? then Some(NilMutation)
    else if context.EndsWaiting? then Some(ContextEnded)
    else if s.closed then Some(WriterClosed)
    else if s.failure.Some? then s.failure
    else if submission.Empty? then Some(EmptyMutation)
    else if submission.Malformed? then Some(Unencodable)
    else None
  }

  predicate NeedsRoom(s: State, m: Mutation, o: Options) {
    s.pendingBytes > 0 && s.pendingBytes + WireSize(m) > o.maxMemoryBytes
  }

  function MakeRoom(s: State, m: Mutation, script: FlushScript, o: Options): Outcome {
    if NeedsRoom(s, m, o) then LockedFlush(s, script, o) else (s, None)
  }

  function Buffered(s: State, m: Mutation, now: nat): State {
    s.(pending := s.pending + [m], pendingBytes := s.pendingBytes + WireSize(m),
       pendingSince := if s.pending == [] then Some(now) else s.pendingSince,
       handed := s.handed + [m])
  }

  /** Buffers the mutation and flushes a full buffer; a flush that submitted nothing takes it out again. */
  function Buffer(s: State, m: Mutation, now: nat, script: FlushScript, o: Options): Outcome {
    var s' := Buffered(s, m, now);
    if s'.pendingBytes < o.maxMemoryBytes then (s', None)
    else
      var (s'', error) := LockedFlush(s', script, o);
      if error.Some? && s''.failure.None?
      then (s''.(pending := s.pending, pendingBytes := s.pendingBytes, pendingSince := s.pendingSince, handed := s.handed), error)
      else (s'', error)
  }

  function AddStep(s: State, submission: Submission, context: Context, now: nat, before: FlushScript,
      after: FlushScript, o: Options): Outcome {
    var refusal := Refusal(s, submission, context);
    if refusal.Some? then (s, refusal)
    else
      var (s', error) := MakeRoom(s, submission.mutation, before, o);
      if error.Some? then (s', error) else Buffer(s', submission.mutation, now, after, o)
  }

  function FlushStep(s: State, context: Context, script: FlushScript, o: Options): Outcome {
    if !context.Live? then (s, Some(ContextEnded))
    else if s.closed then (s, Some(WriterClosed))
    else LockedFlush(s, script, o)
  }

  function CloseStep(s: State, context: Context, script: FlushScript, o: Options): Outcome {
    if !context.Live? then (s, Some(ContextEnded))
    else if s.closed then (s, s.closeError)
    else
      var (s', error) := LockedFlush(s.(closed := true), script, o);
      var s'' := s'.(closeError := error);
      (if error.Some? && s''.failure.None? then Cleared(s'') else s'', error)
  }

  function Stamped(s: State, now: nat): State {
    if s.pendingSince.None? then s.(pendingSince := Some(now)) else s
  }

  predicate Idle(s: State) {
    s.closed || s.failure.Some? || s.pending == []
  }

  /** How long the oldest mutation may still wait, or zero. */
  function Delay(s: State, now: nat, o: Options): nat
    requires s.pendingSince.Some?
  {
    var due := s.pendingSince.value + o.maxLatency;
    if due > now then due - now else 0
  }

  /** automaticFlushStep: the new state, and the delay after which to look again. */
  function AutoFlushStep(s: State, locked: bool, now: nat, script: FlushScript, o: Options): (State, Option<nat>) {
    if !locked || Idle(s) then (s, None)
    else
      var s' := Stamped(s, now);
      if Delay(s', now, o) > 0 then (s', Some(Delay(s', now, o)))
      else
        var (s'', error) := LockedFlush(s', script, o);
        (if error.Some? then Cleared(s''.(failure := Some(AutoFlushFailed(error.value)))) else s'', None)
  }

  // ---- The writer ----

  class Writer {
    const options: Options
    var pending: seq<Mutation>
    var pendingBytes: nat
    var pendingSince: Option<nat>
    var failure: Option<WriterError>
    var closed: bool
    var closeErr: Option<WriterError>
    ghost var handed: seq<Mutation>
    ghost var committed: seq<Mutation>
    ghost var sessions: nat

    ghost function Now(): State
      reads this
    {
      State(pending, pendingBytes, pendingSince, failure, closed, closeErr, handed, committed, sessions)
    }

    constructor (options: Options)
      ensures Now() == Initial() && this.options == options
    {
      this.options := options;
      pending, pendingBytes, pendingSince := [], 0, None;
      failure, closed, closeErr := None, false, None;
      handed, committed, sessions := [], [], 0;
    }

    method ClearPending()
      modifies this
      ensures Now() == Cleared(old(Now()))
    {
      pending := [];
      pendingBytes := 0;
      pendingSince := None;
    }

    method FinishSubmissionFailure(submitted: bool, cause: Cause) returns (error: WriterError)
      modifies this
      ensures !submitted ==> error == NotSubmitted(cause) && Now() == old(Now())
      ensures submitted ==> error == WriterFailed(cause) && Now() == Cleared(old(Now())).(failure := Some(error))
    {
      if !submitted { return NotSubmitted(cause); }
      failure := Some(WriterFailed(cause));
      ClearPending();
      return WriterFailed(cause);
    }

    /** Plans what remains and sends it; the servers' commits are recorded as they happen. */
    method TryOnce(remaining: seq<Mutation>, attempt: nat, a: Attempt) returns (step: Step, submitted: bool)
      modifies this`committed, this`sessions
      ensures var r := Try(remaining, attempt, a, options);
              && step == r.step && submitted == r.submitted
              && committed == old(committed) + r.done && sessions == old(sessions) + r.sessions
    {
      hide PlanOf, SendAll, RoundPiece, DistinctPlans;
      var planning := Plan(remaining, a.route);
      if planning.Unroutable? {
        if planning.answer.LocateFails? { return Ended(Unlocated(planning.answer)), false; }
        if !a.invalidated { return Ended(InvalidateFailed), false; }
        if attempt >= options.maxRetries { return Ended(RetryExhausted), false; }
        if !a.waited { return Ended(WaitEnded), false; }
        return Retry(remaining), false;
      }
      var plans := planning.plans;
      PlanProjects(remaining, a.route, "", Extent(None, None));
      var order := seq(|plans|, i => i);
      forall i | 0 <= i < |plans| ensures i in order { assert order[i] == i; }
      var round := SendServerPlans(plans, a.sessions, options.maxBatchBytes, order);
      committed := committed + RoundPiece(plans, a.sessions, options.maxBatchBytes).done;
      sessions := sessions + |plans|;
      if round.error.Some? { return Ended(SendFailed(round.error.value)), round.submitted; }
      if |round.retry| == 0 { return Done, round.submitted; }
      if !a.invalidated { return Ended(InvalidateFailed), round.submitted; }
      if attempt >= options.maxRetries { return Ended(RetryExhausted), round.submitted; }
      if !a.waited { return Ended(WaitEnded), round.submitted; }
      return Retry(round.retry), round.submitted;
    }

    method FlushLocked(script: FlushScript) returns (error: Option<WriterError>)
      modifies this
      ensures (Now(), error) == LockedFlush(old(Now()), script, options)
    {
      hide Try, Cleared, FlushFrom, Continued;
      if failure.Some? { return failure; }
      if |pending| == 0 { return None; }
      if !script.resolved { return Some(NotSubmitted(TableUnresolved)); }
      var remaining := pending;
      var submitted := false;
      var attempt := 0;
      ghost var done: seq<Mutation>, started: nat := [], 0;
      ContinuedNothing(FlushFrom(remaining, attempt, script, options));
      while true
        invariant attempt <= options.maxRetries
        invariant FlushFrom(pending, 0, script, options)
                  == Continued(submitted, started, done, FlushFrom(remaining, attempt, script, options))
        invariant Now() == old(Now()).(committed := old(committed) + done, sessions := old(sessions) + started)
        decreases options.maxRetries - attempt
      {
        ghost var r := Try(remaining, attempt, script.attempts(attempt), options);
        ContinuedSteps(submitted, started, done, remaining, attempt, script, options);
        var step, sent := TryOnce(remaining, attempt, script.attempts(attempt));
        submitted := submitted || sent;
        done, started := done + r.done, started + r.sessions;
        assert committed == old(committed) + done;
        assert done + [] == done;
        match step
        case Done =>
          ClearPending();
          return None;
        case Ended(cause) =>
          var failed := FinishSubmissionFailure(submitted, cause);
          return Some(failed);
        case Retry(mutations) =>
          remaining := mutations;
          attempt := attempt + 1;
      }
    }

    /** Add, under the writer's gate. */
    method Add(submission: Submission, context: Context, now: nat, before: FlushScript, after: FlushScript)
      returns (error: Option<WriterError>)
      modifies this
      ensures (Now(), error) == AddStep(old(Now()), submission, context, now, before, after, options)
    {
      hide LockedFlush;
      if context.EndedBefore? { return Some(ContextEnded); }
      if submission.Nil? { return Some(NilMutation); }
      if context.EndsWaiting? { return Some(ContextEnded); }
      if closed { return Some(WriterClosed); }
      if failure.Some? { return failure; }
      if submission.Empty? { return Some(EmptyMutation); }
      if submission.Malformed? { return Some(Unencodable); }
      var m := submission.mutation;
      if pendingBytes > 0 && pendingBytes + WireSize(m) > options.maxMemoryBytes {
        error := FlushLocked(before);
        if error.Some? { return; }
      }
      var previous, previousBytes, previousSince := pending, pendingBytes, pendingSince;
      if |previous| == 0 { pendingSince := Some(now); }
      pending := pending + [m];
      pendingBytes := pendingBytes + WireSize(m);
      handed := handed + [m];
      if pendingBytes >= options.maxMemoryBytes {
        ghost var offered := handed[..|handed| - 1];
        error := FlushLocked(after);
        if error.Some? && failure.None? {
          pending, pendingBytes, pendingSince := previous, previousBytes, previousSince;
          handed := offered;
        }
        return;
      }
      return None;
    }

    method Flush(context: Context, script: FlushScript) returns (error: Option<WriterError>)
      modifies this
      ensures (Now(), error) == FlushStep(old(Now()), context, script, options)
    {
      if !context.Live? { return Some(ContextEnded); }
      if closed { return Some(WriterClosed); }
      error := FlushLocked(script);
    }

    method Close(context: Context, script: FlushScript) returns (error: Option<WriterError>)
      modifies this
      ensures (Now(), error) == CloseStep(old(Now()), context, script, options)
    {
      hide LockedFlush;
      if !context.Live? { return Some(ContextEnded); }
      if closed { return closeErr; }
      closed := true;
      error := FlushLocked(script);
      closeErr := error;
      if error.Some? && failure.None? { ClearPending(); }
    }

    method AutomaticFlushStep(locked: bool, now: nat, script: FlushScript) returns (delay: Option<nat>)
      modifies this
      ensures (Now(), delay) == AutoFlushStep(old(Now()), locked, now, script, options)
    {
      hide LockedFlush;
      if !locked { return None; }
      if closed || failure.Some? || |pending| == 0 { return None; }
      if pendingSince.None? { pendingSince := Some(now); }
      var due := pendingSince.value + options.maxLatency;
      if due > now { return Some(due - now); }
      var error := FlushLocked(script);
      if error.Some? {
        failure := Some(AutoFlushFailed(error.value));
        ClearPending();
      }
      return None;
    }
  }

  /** A flush that has come some way and goes on as `f`. */
  ghost function Continued(submitted: bool, started: nat, done: seq<Mutation>, f: Flush): Flush {
    Flush.Flush(f.cause, submitted || f.submitted, started + f.sessions, done + f.done, f.left)
  }

  lemma ContinuedNothing(f: Flush)
    ensures Continued(false, 0, [], f) == f
  {
    assert [] + f.done == f.done;
  }

  lemma ContinuedSteps(submitted: bool, started: nat, done: seq<Mutation>, remaining: seq<Mutation>, attempt: nat,
                       script: FlushScript, o: Options)
    requires attempt <= o.maxRetries
    ensures var r := Try(remaining, attempt, script.attempts(attempt), o);
            Continued(submitted, started, done, FlushFrom(remaining, attempt, script, o))
            == match r.step
               case Done => Flush.Flush(None, submitted || r.submitted, started + r.sessions, done + r.done, r.left)
               case Ended(cause) => Flush.Flush(Some(cause), submitted || r.submitted, started + r.sessions, done + r.done, r.left)
               case Retry(mutations) =>
                 Continued(submitted || r.submitted, started + r.sessions, done + r.done, FlushFrom(mutations, attempt + 1, script, o))
  {
    hide Try;
    var r := Try(remaining, attempt, script.attempts(attempt), o);
    if r.step.Retry? {
      var next := FlushFrom(r.step.mutations, attempt + 1, script, o).done;
      assert done + (r.done + next) == done + r.done + next;
    }
  }
}
