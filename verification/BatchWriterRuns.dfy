/** What holds over every run of a batch writer against truthful servers. */
module BatchWriterRuns {
  import opened Bytes
  import opened Wrappers
  import opened WriterPlan
  import opened WriterFlush
  import opened BatchWriter

  datatype Op =
    | AddOp(submission: Submission, context: Context, now: nat, before: FlushScript, after: FlushScript)
    | FlushOp(context: Context, script: FlushScript)
    | CloseOp(context: Context, script: FlushScript)
    | TickOp(locked: bool, now: nat, script: FlushScript)

  function Step(s: State, op: Op, o: Options): Outcome {
    match op
    case AddOp(submission, context, now, before, after) => AddStep(s, submission, context, now, before, after, o)
    case FlushOp(context, script) => FlushStep(s, context, script, o)
    case CloseOp(context, script) => CloseStep(s, context, script, o)
    case TickOp(locked, now, script) => (AutoFlushStep(s, locked, now, script, o).0, None)
  }

  function Run(s: State, ops: seq<Op>, o: Options): State
    decreases ops
  {
    if ops == [] then s else Run(Step(s, ops[0], o).0, ops[1..], o)
  }

  // ---- The flushes an operation makes ----

  /** The buffers an operation flushes, and what will come of it. */
  function Flushes(s: State, op: Op, o: Options): seq<(seq<Mutation>, FlushScript)> {
    match op
    case AddOp(submission, context, now, before, after) =>
      if Refusal(s, submission, context).Some? then []
      else
        var m := submission.mutation;
        var (s', error) := MakeRoom(s, m, before, o);
        (if NeedsRoom(s, m, o) then FlushOfBuffer(s, before) else [])
        + (if error.None? && Buffered(s', m, now).pendingBytes >= o.maxMemoryBytes
           then FlushOfBuffer(Buffered(s', m, now), after) else [])
    case FlushOp(context, script) => if context.Live? && !s.closed then FlushOfBuffer(s, script) else []
    case CloseOp(context, script) => if context.Live? && !s.closed then FlushOfBuffer(s, script) else []
    case TickOp(locked, now, script) =>
      if locked && !Idle(s) && Delay(Stamped(s, now), now, o) == 0 then FlushOfBuffer(s, script) else []
  }

  function FlushOfBuffer(s: State, script: FlushScript): seq<(seq<Mutation>, FlushScript)> {
    if s.failure.None? && s.pending != [] && script.resolved then [(s.pending, script)] else []
  }

  /** Every session is truthful; and when one row is looked at, it is located in the same place throughout
      each attempt. */
  ghost predicate TruthfulOp(s: State, op: Op, row: Option<Bytes>, o: Options) {
    forall flush :: flush in Flushes(s, op, o) ==> Dependable(flush, row, o)
  }

  ghost predicate Dependable(flush: (seq<Mutation>, FlushScript), row: Option<Bytes>, o: Options) {
    TruthfulFlush(flush.0, 0, flush.1, o) && (row.Some? ==> RowRouted(flush.0, 0, flush.1, o))
  }

  ghost predicate TruthfulRun(s: State, ops: seq<Op>, row: Option<Bytes>, o: Options)
    decreases ops
  {
    ops != [] ==> TruthfulOp(s, ops[0], row, o) && TruthfulRun(Step(s, ops[0], o).0, ops[1..], row, o)
  }

  // ---- The ledger ----

  /** Nothing has gone wrong for good. */
  predicate Healthy(s: State) {
    s.failure.None? && s.closeError.None?
  }

  /** Nothing is committed that was not handed over, or more often; while the writer is healthy, what is
      not yet committed is still buffered. */
  ghost predicate Ledger(s: State, row: Option<Bytes>) {
    && multiset(s.committed) <= multiset(s.handed)
    && (Healthy(s) ==> multiset(s.handed) == multiset(s.committed) + multiset(s.pending))
    && (row.Some? ==> RowLedger(s, row.value))
  }

  /** The row's mutations are committed in the order they were handed over; while the writer is healthy,
      the rest are buffered in that order. */
  predicate RowLedger(s: State, row: Bytes) {
    && OfRow(s.committed, row) <= OfRow(s.handed, row)
    && (Healthy(s) ==> OfRow(s.handed, row) == OfRow(s.committed, row) + OfRow(s.pending, row))
  }

  predicate Accounts(s: State) {
    && s.pendingBytes == TotalSize(s.pending)
    && (s.pending != [] <==> s.pendingSince.Some?)
    && (s.failure.Some? ==> s.pending == [])
  }

  /** What holds of a writer between calls. */
  ghost predicate Inv(s: State, row: Option<Bytes>, o: Options) {
    && Ledger(s, row) && Accounts(s)
    && s.pendingBytes < o.maxMemoryBytes
    && (s.closed ==> s.pending == [])
    && (s.closeError.Some? ==> s.closed)
    && (s.closed && s.closeError.None? ==> s.failure.None?)
  }

  lemma LockedFlushKeeps(s: State, row: Option<Bytes>, script: FlushScript, o: Options)
    requires Ledger(s, row) && Accounts(s) && s.closeError.None?
    requires forall flush :: flush in FlushOfBuffer(s, script) ==> Dependable(flush, row, o)
    ensures var (s', error) := LockedFlush(s, script, o);
            && Ledger(s', row) && Accounts(s')
            && s'.handed == s.handed && s'.closed == s.closed && s'.closeError.None?
            && (error.None? || s'.failure.Some? ==> s'.pending == [] && s'.pendingBytes == 0)
            && (error.None? ==> Healthy(s'))
            && (error.Some? && s'.failure.None? ==> s' == s.(sessions := s'.sessions))
  {
    hide FlushFrom, TruthfulFlush, RowRouted, Ledger;
    if FlushOfBuffer(s, script) != [] {
      assert (s.pending, script) in FlushOfBuffer(s, script);
      FlushConserves(s.pending, 0, script, o);
      var f := FlushFrom(s.pending, 0, script, o);
      assert f.done == [] ==> s.committed + f.done == s.committed;
      if row.Some? { FlushInOrder(s.pending, 0, script, o, row.value); }
      LedgerAfter(s, row, f.done, f.left, LockedFlush(s, script, o).0);
    }
  }

  lemma LedgerAfter(s: State, row: Option<Bytes>, done: seq<Mutation>, left: seq<Mutation>, s': State)
    requires Ledger(s, row) && Healthy(s) && multiset(s.pending) == multiset(done) + multiset(left)
    requires s'.committed == s.committed + done && s'.handed == s.handed
    requires Healthy(s') ==> multiset(s'.pending) == multiset(left)
    requires row.Some? ==> OfRow(s.pending, row.value) == OfRow(done, row.value) + OfRow(left, row.value)
    requires row.Some? && Healthy(s') ==> OfRow(s'.pending, row.value) == OfRow(left, row.value)
    ensures Ledger(s', row)
  {
    hide OfRow;
    if row.Some? { OfRowConcat(s.committed, done, row.value); }
  }

  lemma BufferedKeeps(s: State, row: Option<Bytes>, m: Mutation, now: nat, o: Options)
    requires Ledger(s, row) && Accounts(s) && Healthy(s)
    ensures Ledger(Buffered(s, m, now), row) && Accounts(Buffered(s, m, now))
  {
    hide OfRow;
    TotalSizeConcat(s.pending, [m]);
    if row.Some? {
      OfRowConcat(s.pending, [m], row.value);
      OfRowConcat(s.handed, [m], row.value);
    }
    assert TotalSize([m]) == WireSize(m) + TotalSize([m][1..]);
  }

  lemma AddKeeps(s: State, row: Option<Bytes>, op: Op, o: Options)
    requires op.AddOp? && Inv(s, row, o) && TruthfulOp(s, op, row, o)
    ensures Inv(Step(s, op, o).0, row, o)
  {
    hide LockedFlush, Dependable, Ledger, Accounts, Buffer;
    if Refusal(s, op.submission, op.context).None? {
      var m := op.submission.mutation;
      if NeedsRoom(s, m, o) {
        assert forall flush :: flush in FlushOfBuffer(s, op.before) ==> flush in Flushes(s, op, o);
        LockedFlushKeeps(s, row, op.before, o);
        FailedFlushKeeps(s, row, LockedFlush(s, op.before, o).0);
      }
      var (s', error) := MakeRoom(s, m, op.before, o);
      if error.None? {
        var b := Buffered(s', m, op.now);
        assert b.pendingBytes >= o.maxMemoryBytes ==>
                 forall flush :: flush in FlushOfBuffer(b, op.after) ==> flush in Flushes(s, op, o);
        BufferKeeps(s', row, m, op.now, op.after, o);
      }
    }
  }

  lemma BufferKeeps(s: State, row: Option<Bytes>, m: Mutation, now: nat, script: FlushScript, o: Options)
    requires Inv(s, row, o) && Healthy(s) && !s.closed
    requires Buffered(s, m, now).pendingBytes >= o.maxMemoryBytes ==>
               forall flush :: flush in FlushOfBuffer(Buffered(s, m, now), script) ==> Dependable(flush, row, o)
    ensures Inv(Buffer(s, m, now, script, o).0, row, o)
  {
    hide LockedFlush, Dependable, Ledger, Accounts, FlushOfBuffer;
    BufferedKeeps(s, row, m, now, o);
    var b := Buffered(s, m, now);
    if b.pendingBytes >= o.maxMemoryBytes {
      LockedFlushKeeps(b, row, script, o);
      FailedFlushKeeps(s, row, LockedFlush(b, script, o).0);
    }
  }

  /** The started sessions are no part of the books. */
  lemma FailedFlushKeeps(s: State, row: Option<Bytes>, s': State)
    requires Ledger(s, row) && Accounts(s)
    ensures Ledger(s.(sessions := s'.sessions), row) && Accounts(s.(sessions := s'.sessions))
  {
  }

  lemma GivenUpKeeps(s: State, row: Option<Bytes>, failure: WriterError)
    requires Ledger(s, row)
    ensures var s' := Cleared(s.(failure := Some(failure)));
            Ledger(s', row) && Accounts(s')
  {
  }

  lemma FlushKeeps(s: State, row: Option<Bytes>, op: Op, o: Options)
    requires op.FlushOp? && Inv(s, row, o) && TruthfulOp(s, op, row, o)
    ensures Inv(Step(s, op, o).0, row, o)
  {
    hide LockedFlush, Dependable, Ledger, Accounts;
    if op.context.Live? && !s.closed {
      LockedFlushKeeps(s, row, op.script, o);
      FailedFlushKeeps(s, row, Step(s, op, o).0);
    }
  }

  lemma CloseKeeps(s: State, row: Option<Bytes>, op: Op, o: Options)
    requires op.CloseOp? && Inv(s, row, o) && TruthfulOp(s, op, row, o)
    ensures Inv(Step(s, op, o).0, row, o)
  {
    hide LockedFlush, Dependable;
    if op.context.Live? && !s.closed { LockedFlushKeeps(s.(closed := true), row, op.script, o); }
  }

  lemma TickKeeps(s: State, row: Option<Bytes>, op: Op, o: Options)
    requires op.TickOp? && Inv(s, row, o) && TruthfulOp(s, op, row, o)
    ensures Inv(Step(s, op, o).0, row, o)
  {
    hide LockedFlush, Dependable, Ledger;
    if op.locked && !Idle(s) {
      assert Stamped(s, op.now) == s;
      if Delay(s, op.now, o) == 0 {
        LockedFlushKeeps(s, row, op.script, o);
        var (s', error) := LockedFlush(s, op.script, o);
        if error.Some? { GivenUpKeeps(s', row, AutoFlushFailed(error.value)); }
      }
    }
  }

  lemma StepKeeps(s: State, row: Option<Bytes>, op: Op, o: Options)
    requires Inv(s, row, o) && TruthfulOp(s, op, row, o)
    ensures Inv(Step(s, op, o).0, row, o)
  {
    hide Step, TruthfulOp, Inv;
    match op
    case AddOp(_, _, _, _, _) => AddKeeps(s, row, op, o);
    case FlushOp(_, _) => FlushKeeps(s, row, op, o);
    case CloseOp(_, _) => CloseKeeps(s, row, op, o);
    case TickOp(_, _, _) => TickKeeps(s, row, op, o);
  }

  /** In every reachable state: nothing is committed twice or uncalled for, the size count is right and
      below the limit, and a failed or closed writer holds nothing. */
  lemma {:induction false} RunKeeps(s: State, row: Option<Bytes>, ops: seq<Op>, o: Options)
    requires Inv(s, row, o) && TruthfulRun(s, ops, row, o)
    ensures Inv(Run(s, ops, o), row, o)
    decreases ops
  {
    if ops != [] {
      hide Inv, TruthfulOp, Step;
      StepKeeps(s, row, ops[0], o);
      RunKeeps(Step(s, ops[0], o).0, row, ops[1..], o);
    }
  }

  lemma InitialKeeps(row: Option<Bytes>, o: Options)
    requires o.maxMemoryBytes > 0
    ensures Inv(Initial(), row, o)
  {
  }

  /** Over every run of a new writer each mutation handed over is committed at most once, and a Flush or
      Close that reports no error has left every one of them committed exactly once. */
  lemma SuccessCommitsAll(ops: seq<Op>, op: Op, o: Options)
    requires o.maxMemoryBytes > 0 && TruthfulRun(Initial(), ops, None, o)
    requires TruthfulOp(Run(Initial(), ops, o), op, None, o)
    ensures var (s, error) := Step(Run(Initial(), ops, o), op, o);
            && multiset(s.committed) <= multiset(s.handed)
            && ((op.FlushOp? || op.CloseOp?) && error.None? ==> multiset(s.committed) == multiset(s.handed) && s.pending == [])
  {
    hide Run, TruthfulRun, LockedFlush, Dependable;
    InitialKeeps(None, o);
    RunKeeps(Initial(), None, ops, o);
    var s := Run(Initial(), ops, o);
    StepKeeps(s, None, op, o);
    if (op.FlushOp? || op.CloseOp?) && Step(s, op, o).1.None? { SuccessIsHealthy(s, op, o); }
  }

  lemma SuccessIsHealthy(s: State, op: Op, o: Options)
    requires Inv(s, None, o) && (op.FlushOp? || op.CloseOp?) && Step(s, op, o).1.None?
    ensures Healthy(Step(s, op, o).0) && Step(s, op, o).0.pending == []
  {
    hide FlushFrom;
  }

  /** When a row is always located in one place within an attempt, its mutations commit in the order they
      were handed over, and a successful Flush or Close has committed the row's whole history. */
  lemma RowsCommitInOrder(ops: seq<Op>, op: Op, row: Bytes, o: Options)
    requires o.maxMemoryBytes > 0 && TruthfulRun(Initial(), ops, Some(row), o)
    requires TruthfulOp(Run(Initial(), ops, o), op, Some(row), o)
    ensures var (s, error) := Step(Run(Initial(), ops, o), op, o);
            && OfRow(s.committed, row) <= OfRow(s.handed, row)
            && ((op.FlushOp? || op.CloseOp?) && error.None? ==> OfRow(s.committed, row) == OfRow(s.handed, row))
  {
    hide Run, TruthfulRun, LockedFlush, Dependable, OfRow, Step, TruthfulOp;
    InitialKeeps(Some(row), o);
    RunKeeps(Initial(), Some(row), ops, o);
    var s := Run(Initial(), ops, o);
    StepKeeps(s, Some(row), op, o);
    if (op.FlushOp? || op.CloseOp?) && Step(s, op, o).1.None? {
      SuccessIsHealthy(s, op, o);
      NoRows(row);
    }
  }

  /** An Add that reports no error has handed its mutation over; one that reports an error without
      failing the writer has not. */
  lemma AddHandsOver(s: State, op: Op, o: Options)
    requires op.AddOp?
    ensures var (s', error) := Step(s, op, o);
            && (error.None? ==> op.submission.Encoded? && s'.handed == s.handed + [op.submission.mutation])
            && (error.Some? && s'.failure.None? ==> s'.handed == s.handed)
            && (s'.handed == s.handed || (op.submission.Encoded? && s'.handed == s.handed + [op.submission.mutation]))
  {
    hide FlushFrom;
  }

  // ---- What an operation answers ----

  /** What a call finds before it does anything: its context ended, a writer closed or failed. */
  predicate Open(s: State, context: Context) {
    context.Live? && !s.closed && s.failure.None?
  }

  /** An Add looks at its mutation exactly when the writer is open and the mutation can be sent; otherwise
      nothing changes, and it reports what is wrong first. */
  lemma AddRefuses(s: State, op: Op, o: Options)
    requires op.AddOp?
    ensures Refusal(s, op.submission, op.context).None? <==> Open(s, op.context) && op.submission.Encoded?
    ensures !(Open(s, op.context) && op.submission.Encoded?) ==>
              var (s', error) := Step(s, op, o);
              && s' == s && error.Some?
              && (op.context.EndedBefore? ==> error.value == ContextEnded)
              && (!op.context.EndedBefore? && op.submission.Nil? ==> error.value == NilMutation)
              && (op.context.EndsWaiting? && !op.submission.Nil? ==> error.value == ContextEnded)
              && (op.context.Live? && !op.submission.Nil? && s.closed ==> error.value == WriterClosed)
              && (op.context.Live? && !op.submission.Nil? && !s.closed && s.failure.Some? ==> error == s.failure)
              && (Open(s, op.context) && op.submission.Empty? ==> error.value == EmptyMutation)
              && (Open(s, op.context) && op.submission.Malformed? ==> error.value == Unencodable)
  {
  }

  /** A Flush or Close of a writer that is not open does not flush: it reports the ended context, the closed
      writer or the first Close's result, or the failure; only a first Close then closes the writer. */
  lemma FlushAndCloseRefuse(s: State, context: Context, script: FlushScript, o: Options)
    requires !Open(s, context)
    ensures var (s', error) := Step(s, FlushOp(context, script), o);
            && s' == s
            && error == Some(if !context.Live? then ContextEnded else if s.closed then WriterClosed else s.failure.value)
    ensures var (s', error) := Step(s, CloseOp(context, script), o);
            && (!context.Live? ==> s' == s && error == Some(ContextEnded))
            && (context.Live? && s.closed ==> s' == s && error == s.closeError)
            && (context.Live? && !s.closed ==> s' == s.(closed := true, closeError := s.failure) && error == s.failure)
  {
  }

  /** An Add of a small mutation only buffers it, and dates the buffer when it is the first. */
  lemma SmallAddBuffers(s: State, op: Op, o: Options)
    requires op.AddOp? && Open(s, op.context) && op.submission.Encoded?
    requires s.pendingBytes + WireSize(op.submission.mutation) < o.maxMemoryBytes
    ensures Flushes(s, op, o) == []
    ensures var (s', error) := Step(s, op, o);
            && error.None? && s'.pending == s.pending + [op.submission.mutation]
            && s'.pendingBytes == s.pendingBytes + WireSize(op.submission.mutation)
            && s'.pendingSince == (if s.pending == [] then Some(op.now) else s.pendingSince)
            && s'.handed == s.handed + [op.submission.mutation] && s'.committed == s.committed
  {
  }

  /** One that fills the buffer exactly, or finds it empty of bytes, is flushed with it; one that does not fit
      has the buffer flushed first. */
  lemma FullAddFlushes(s: State, op: Op, o: Options)
    requires op.AddOp? && Open(s, op.context) && op.submission.Encoded?
    requires op.before.resolved && op.after.resolved
    ensures var m := op.submission.mutation;
            && (s.pendingBytes + WireSize(m) >= o.maxMemoryBytes && (s.pendingBytes == 0 || s.pendingBytes + WireSize(m) == o.maxMemoryBytes) ==>
                  Flushes(s, op, o) == [(s.pending + [m], op.after)])
            && (s.pendingBytes + WireSize(m) > o.maxMemoryBytes && s.pendingBytes > 0 && s.pending != [] ==>
                  Flushes(s, op, o) != [] && Flushes(s, op, o)[0] == (s.pending, op.before))
  {
    hide FlushFrom;
  }

  /** Whether it succeeds or fails, the commits and sessions of a flush are recorded, and nothing else is. */
  lemma FlushIsRecorded(s: State, script: FlushScript, o: Options)
    ensures var s' := LockedFlush(s, script, o).0;
            if s.failure.Some? || s.pending == [] || !script.resolved then s' == s
            else
              var f := FlushFrom(s.pending, 0, script, o);
              && s'.committed == s.committed + f.done && s'.sessions == s.sessions + f.sessions
              && s'.handed == s.handed && s'.closed == s.closed && s'.closeError == s.closeError
              && (s'.failure.Some? <==> f.cause.Some? && f.submitted)
              && s'.pending == if f.cause.None? || f.submitted then [] else s.pending
  {
    hide FlushFrom;
  }

  /** The automatic flush is due exactly once the oldest mutation has waited the configured latency; until
      then the next look is set for that moment. */
  lemma TickIsDue(s: State, op: Op, o: Options)
    requires op.TickOp? && op.locked && Open(s, Live) && s.pending != [] && s.pendingSince.Some?
    ensures var due := s.pendingSince.value + o.maxLatency;
            var (s', delay) := AutoFlushStep(s, op.locked, op.now, op.script, o);
            if op.now < due then s' == s && delay == Some(due - op.now) && Flushes(s, op, o) == []
            else
              var error := LockedFlush(s, op.script, o).1;
              && delay.None? && s'.pending == []
              && (op.script.resolved ==> Flushes(s, op, o) == [(s.pending, op.script)])
              && s'.failure == if error.Some? then Some(AutoFlushFailed(error.value)) else None
  {
    hide FlushFrom;
  }

  /** Without the writer, or with nothing buffered in an open one, it does nothing and sets no next look. */
  lemma TickIdles(s: State, op: Op, o: Options)
    requires op.TickOp? && !(op.locked && Open(s, Live) && s.pending != [])
    ensures AutoFlushStep(s, op.locked, op.now, op.script, o) == (s, None) && Flushes(s, op, o) == []
  {
  }

  // ---- After a failure ----

  /** A flush that made an Apply and failed. */
  predicate FailedAfterApply(flush: (seq<Mutation>, FlushScript), o: Options) {
    var f := FlushFrom(flush.0, 0, flush.1, o);
    f.submitted && f.cause.Some?
  }

  lemma FailureSticks(s: State, op: Op, o: Options)
    requires exists flush :: flush in Flushes(s, op, o) && FailedAfterApply(flush, o)
    ensures Step(s, op, o).0.failure.Some?
  {
    hide FlushFrom;
    var flush :| flush in Flushes(s, op, o) && FailedAfterApply(flush, o);
  }

  /** When a session of one of its flushes fails - and so when a server turns mutations away - an operation
      reports an error and the writer has failed for good. */
  lemma RejectionFails(s: State, op: Op, o: Options, flush: (seq<Mutation>, FlushScript))
    requires flush in Flushes(s, op, o) && TruthfulFlush(flush.0, 0, flush.1, o) && FailsIn(flush.0, 0, flush.1, o)
    ensures Step(s, op, o).0.failure.Some? && (!op.TickOp? ==> Step(s, op, o).1.Some?)
  {
    hide FlushFrom, FailsIn, TruthfulFlush;
    FlushReports(flush.0, 0, flush.1, o);
    assert FailedAfterApply(flush, o);
    FailureSticks(s, op, o);
  }

  /** No session is started and nothing more is committed once a writer has failed. */
  lemma {:induction false} FailedIsFinal(s: State, ops: seq<Op>, o: Options)
    requires s.failure.Some?
    ensures var s' := Run(s, ops, o);
            s'.sessions == s.sessions && s'.committed == s.committed && s'.failure == s.failure && s'.handed == s.handed
    decreases ops
  {
    if ops != [] {
      hide FlushFrom;
      FailedIsFinal(Step(s, ops[0], o).0, ops[1..], o);
    }
  }

  /** After a flush that made an Apply and failed, no session is ever started again. */
  lemma NoSessionAfterFailure(s: State, op: Op, later: seq<Op>, o: Options)
    requires exists flush :: flush in Flushes(s, op, o) && FailedAfterApply(flush, o)
    ensures var s' := Step(s, op, o).0;
            Run(s', later, o).sessions == s'.sessions && Run(s', later, o).committed == s'.committed
  {
    hide Run, Step, Flushes, FailedAfterApply;
    FailureSticks(s, op, o);
    FailedIsFinal(Step(s, op, o).0, later, o);
  }

  /** A flush that fails without an Apply leaves the buffer as it was. */
  lemma UnsubmittedKeepsBuffer(s: State, script: FlushScript, o: Options)
    requires s.failure.None? && s.pending != []
    requires script.resolved ==> TruthfulFlush(s.pending, 0, script, o)
    requires script.resolved ==> var f := FlushFrom(s.pending, 0, script, o); f.cause.Some? && !f.submitted
    ensures var (s', error) := LockedFlush(s, script, o);
            error.Some? && error.value.NotSubmitted? && s' == s.(sessions := s'.sessions)
  {
    hide FlushFrom;
    if script.resolved {
      FlushConserves(s.pending, 0, script, o);
      assert s.committed + [] == s.committed;
    }
  }

  /** An Add that commits nothing leaves the deadline of the oldest buffered mutation where it was. */
  lemma AddKeepsDeadline(s: State, op: Op, o: Options)
    requires op.AddOp? && Inv(s, None, o) && TruthfulOp(s, op, None, o) && s.pending != []
    requires Step(s, op, o).0.committed == s.committed && Step(s, op, o).0.failure.None?
    ensures Step(s, op, o).0.pendingSince == s.pendingSince && s.pending <= Step(s, op, o).0.pending
  {
    hide LockedFlush, Dependable;
    if Refusal(s, op.submission, op.context).None? {
      var m := op.submission.mutation;
      if NeedsRoom(s, m, o) {
        assert forall flush :: flush in FlushOfBuffer(s, op.before) ==> flush in Flushes(s, op, o);
        FlushGrows(s, op.before, o);
      }
      var (s', error) := MakeRoom(s, m, op.before, o);
      if error.None? && Buffered(s', m, op.now).pendingBytes >= o.maxMemoryBytes {
        var b := Buffered(s', m, op.now);
        assert forall flush :: flush in FlushOfBuffer(b, op.after) ==> flush in Flushes(s, op, o);
        FlushGrows(b, op.after, o);
      }
    }
  }

  /** A flush only ever adds to what is committed, and adds something when it succeeds on a full buffer. */
  lemma FlushGrows(s: State, script: FlushScript, o: Options)
    requires forall flush :: flush in FlushOfBuffer(s, script) ==> Dependable(flush, None, o)
    ensures var (s', error) := LockedFlush(s, script, o);
            && |s'.committed| >= |s.committed|
            && (error.None? && s.pending != [] ==> |s'.committed| > |s.committed|)
            && (error.Some? && s'.failure.None? ==> s' == s.(sessions := s'.sessions))
  {
    hide FlushFrom, TruthfulFlush;
    if FlushOfBuffer(s, script) != [] {
      assert (s.pending, script) in FlushOfBuffer(s, script);
      FlushConserves(s.pending, 0, script, o);
      var f := FlushFrom(s.pending, 0, script, o);
      assert f.done == [] ==> s.committed + f.done == s.committed;
      assert |multiset(s.pending)| == |s.pending|;
    }
  }

  /** Once room is made the mutation fits the limit, or the buffer is empty of bytes. */
  lemma RoomIsMade(s: State, m: Mutation, script: FlushScript, o: Options)
    requires Inv(s, None, o) && Healthy(s)
    requires NeedsRoom(s, m, o) ==> forall flush :: flush in FlushOfBuffer(s, script) ==> Dependable(flush, None, o)
    requires MakeRoom(s, m, script, o).1.None?
    ensures var s' := MakeRoom(s, m, script, o).0;
            && Ledger(s', None) && Accounts(s') && Healthy(s')
            && (s'.pendingBytes == 0 || s'.pendingBytes + WireSize(m) <= o.maxMemoryBytes)
  {
    hide LockedFlush, Dependable, Ledger, Accounts;
    if NeedsRoom(s, m, o) { LockedFlushKeeps(s, None, script, o); }
  }

  /** No flush sends more than the memory limit, except what a single mutation needs by itself. */
  lemma FlushesFitMemory(s: State, op: Op, o: Options, flush: (seq<Mutation>, FlushScript))
    requires Inv(s, None, o) && TruthfulOp(s, op, None, o) && flush in Flushes(s, op, o)
    ensures flush.0 != []
    ensures TotalSize(flush.0) <= o.maxMemoryBytes || TotalSize(flush.0[..|flush.0| - 1]) == 0
  {
    hide LockedFlush, MakeRoom, Dependable, TotalSize, Ledger;
    if flush in FlushOfBuffer(s, flush.1) {
      assert flush.0 == s.pending;
    } else {
      var m := op.submission.mutation;
      var (s', error) := MakeRoom(s, m, op.before, o);
      assert NeedsRoom(s, m, o) ==> forall flush :: flush in FlushOfBuffer(s, op.before) ==> flush in Flushes(s, op, o);
      RoomIsMade(s, m, op.before, o);
      BufferedKeeps(s', None, m, op.now, o);
      assert flush.0 == s'.pending + [m];
      assert flush.0[..|flush.0| - 1] == s'.pending;
    }
  }
}
