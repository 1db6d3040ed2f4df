/** From queued segments to delivered entries: what a stream opens while tablets move, and delivers. */
module StreamScan {
  import opened Wrappers
  import opened Keys
  import opened Ranges
  import opened ScanPlan
  import opened ScanSources
  import L = LocatedScan
  import R = ResultStreams

  /** What a session answers, and whether releasing it fails. */
  datatype Answers = Answers(fetches: seq<R.Fetch>, closeFails: bool)

  /** A session: the number of the opening that started it, and the segment with the tablet it reads. */
  datatype Opened = Opened(number: nat, segment: Segment)

  /** A queue as the stream meets it: each source with what comes of opening it, the number of the next
      opening, the sessions opened, and the failure that ends it, behind which nothing is opened. */
  datatype Unfolding = Unfolding(sources: seq<R.Source>, next: nat, sessions: seq<Opened>, error: Option<R.Report>)

  function ErrorOf(error: OpenError): R.Report {
    match error
    case NotLocated => [R.ScanFailed(0)]
    case SpansTablets => [R.ScanFailed(1)]
    case StartFailed => [R.ScanFailed(2)]
    case InvalidateFailed => [R.ScanFailed(3)]
    case LocateFailed(_) => [R.ScanFailed(4)]
  }

  function OpeningOf(source: Source, script: Script): Opening {
    OpenFrom(source, source.segment.tablet, 0, script, script.moments)
  }

  ghost predicate AllPlanned(queue: seq<Source>) {
    forall source :: source in queue ==> Planned(source)
  }

  /** Sources replanned from the first of a queue are planned, and all one level above it. */
  lemma ReplannedOneLevelUp(queue: seq<Source>, script: Script, level: nat)
    requires AllPlanned(queue) && queue != [] && OpeningOf(queue[0], script).Replanned?
    ensures AllPlanned(OpeningOf(queue[0], script).sources)
    ensures queue[0].replans < MAX_SEGMENT_REPLANS
    ensures level <= queue[0].replans ==> AtLevel(OpeningOf(queue[0], script).sources, level) == 0
    ensures level == queue[0].replans ==> AtLevel(queue, level) > 0
  {
    hide AtLevel, PlanRange, OpenFrom;
    var source := queue[0];
    assert source in queue;
    OpenedOnItsTablet(source, source.segment.tablet, 0, script, script.moments);
    var sources := OpeningOf(source, script).sources;
    var left :| PlannedAgain(source, sources, left);
    ReplannedAreSources(source, sources, left);
    if level <= source.replans { NoneAtLevel(sources, level); }
    LevelOfFirst(queue, level);
  }

  lemma LevelOfFirst(queue: seq<Source>, level: nat)
    requires queue != []
    ensures AtLevel(queue, level) == (if queue[0].replans == level then 1 else 0) + AtLevel(queue[1..], level)
  {
  }

  /** What working through the queue comes to: opening n is answered by `scripts(n)`, and the session it may
      start by `answers(n)`. */
  ghost function Unfold(queue: seq<Source>, scripts: nat -> Script, answers: nat -> Answers, n: nat): Unfolding
    requires AllPlanned(queue)
    decreases AtLevel(queue, 0), AtLevel(queue, 1), AtLevel(queue, 2), AtLevel(queue, 3)
  {
    if queue == [] then Unfolding([], n, [], None)
    else
      var source, rest := queue[0], queue[1..];
      assert source in queue && source.replans <= MAX_SEGMENT_REPLANS;
      assert AllPlanned(rest);
      match OpeningOf(source, scripts(n))
      case Failed(error) => Unfolding([R.Refuses(ErrorOf(error))], n + 1, [], Some(ErrorOf(error)))
      case Session(tablet) =>
        var later := Unfold(rest, scripts, answers, n + 1);
        Unfolding([R.Opens(answers(n).fetches, R.Follow([]), answers(n).closeFails)] + later.sources, later.next,
                  [Opened(n, source.segment.(tablet := tablet))] + later.sessions, later.error)
      case Replanned(sources) =>
        ReplannedOneLevelUp(queue, scripts(n), 0);
        ReplannedOneLevelUp(queue, scripts(n), 1);
        ReplannedOneLevelUp(queue, scripts(n), 2);
        ReplannedOneLevelUp(queue, scripts(n), 3);
        var inner := Unfold(sources, scripts, answers, n + 1);
        if inner.error.Some? then inner.(sources := [R.Replans(inner.sources)])
        else
          var later := Unfold(rest, scripts, answers, inner.next);
          Unfolding([R.Replans(inner.sources)] + later.sources, later.next, inner.sessions + later.sessions, later.error)
  }

  // ---- The sources drain to the sessions' answers ----

  function SessionOutcome(answers: Answers): R.Outcome {
    R.DrainedSession(answers.fetches, R.Follow([]), [])
  }

  /** What the sessions deliver one after the other, up to the first failure. */
  function Delivered(sessions: seq<Opened>, answers: nat -> Answers): R.Outcome {
    if sessions == [] then R.Outcome([], None)
    else R.Then(SessionOutcome(answers(sessions[0].number)), Delivered(sessions[1..], answers))
  }

  lemma ThenThen(a: R.Outcome, b: R.Outcome, c: R.Outcome)
    ensures R.Then(R.Then(a, b), c) == R.Then(a, R.Then(b, c))
  {
    assert a.entries + (b.entries + c.entries) == a.entries + b.entries + c.entries;
  }

  lemma {:induction false} DeliveredConcat(a: seq<Opened>, b: seq<Opened>, answers: nat -> Answers)
    ensures Delivered(a + b, answers) == R.Then(Delivered(a, answers), Delivered(b, answers))
  {
    hide R.Then, SessionOutcome;
    if a == [] {
      assert a + b == b;
      R.ThenNothing(Delivered(b, answers));
    } else {
      DeliveredConcat(a[1..], b, answers);
      assert (a + b)[1..] == a[1..] + b;
      ThenThen(SessionOutcome(answers(a[0].number)), Delivered(a[1..], answers), Delivered(b, answers));
    }
  }

  lemma SourceDrains(source: R.Source)
    ensures source.Replans? ==> R.Drained([source]) == R.Drained(source.sources)
    ensures source.Refuses? ==> R.Drained([source]) == R.Outcome([], Some(source.error))
    ensures source.Opens? ==> R.Drained([source]) == R.DrainedSession(source.fetches, source.followers, [])
  {
    hide R.Drained, R.DrainedSession;
    R.QueueSteps([source]);
    assert [source][1..] == [];
    if source.Replans? { assert source.sources + [] == source.sources; }
  }

  /** However sources were replanned, draining the queue delivers the sessions' answers in order, then
      the failure that ended the opening, if any. */
  lemma {:induction false} UnfoldingDrains(queue: seq<Source>, scripts: nat -> Script, answers: nat -> Answers, n: nat)
    requires AllPlanned(queue)
    ensures var u := Unfold(queue, scripts, answers, n);
            R.Drained(u.sources) == R.Then(Delivered(u.sessions, answers), R.Outcome([], u.error))
    decreases AtLevel(queue, 0), AtLevel(queue, 1), AtLevel(queue, 2), AtLevel(queue, 3)
  {
    hide R.Drained, R.DrainedSession, R.Then, Planned, OpenFrom;
    var u := Unfold(queue, scripts, answers, n);
    if queue == [] {
      R.QueueSteps([]);
      R.ThenNothing(R.Outcome([], None));
    } else {
      var rest := queue[1..];
      assert AllPlanned(rest);
      LevelOfFirst(queue, 0);
      LevelOfFirst(queue, 1);
      LevelOfFirst(queue, 2);
      LevelOfFirst(queue, 3);
      FirstLevel(queue);
      SourceDrains(u.sources[0]);
      match OpeningOf(queue[0], scripts(n))
      case Failed(error) =>
        R.ThenNothing(R.Outcome([], u.error));
      case Session(tablet) =>
        var later := Unfold(rest, scripts, answers, n + 1);
        UnfoldingDrains(rest, scripts, answers, n + 1);
        R.DrainedConcat([u.sources[0]], later.sources);
        ThenThen(SessionOutcome(answers(n)), Delivered(later.sessions, answers), R.Outcome([], later.error));
        assert u.sessions[1..] == later.sessions;
      case Replanned(sources) =>
        ReplannedOneLevelUp(queue, scripts(n), 0);
        ReplannedOneLevelUp(queue, scripts(n), 1);
        ReplannedOneLevelUp(queue, scripts(n), 2);
        ReplannedOneLevelUp(queue, scripts(n), 3);
        var inner := Unfold(sources, scripts, answers, n + 1);
        UnfoldingDrains(sources, scripts, answers, n + 1);
        if inner.error.None? {
          var later := Unfold(rest, scripts, answers, inner.next);
          UnfoldingDrains(rest, scripts, answers, inner.next);
          R.DrainedConcat([u.sources[0]], later.sources);
          R.ThenNothing(Delivered(inner.sessions, answers));
          DeliveredConcat(inner.sessions, later.sessions, answers);
          ThenThen(Delivered(inner.sessions, answers), Delivered(later.sessions, answers), R.Outcome([], later.error));
        }
    }
  }

  lemma FirstLevel(queue: seq<Source>)
    requires AllPlanned(queue) && queue != []
    ensures queue[0].replans <= MAX_SEGMENT_REPLANS
  {
    assert queue[0] in queue;
  }

  // ---- The sessions are those opening the queue starts ----

  function SegmentsOf(sessions: seq<Opened>): (segments: seq<Segment>)
    ensures |segments| == |sessions| && forall i :: 0 <= i < |sessions| ==> segments[i] == sessions[i].segment
  {
    seq(|sessions|, i requires 0 <= i < |sessions| => sessions[i].segment)
  }

  lemma OpenAllSteps(p: Progress, scripts: nat -> Script, n: nat)
    requires Queued(p) && p.queue != [] && p.failure.None?
    ensures var next := OpenNext(p, scripts(n));
            && (next.failure.Some? ==> OpenAll(p, scripts, n) == (next, n + 1))
            && (next.failure.None? ==> Queued(next) && OpenAll(p, scripts, n) == OpenAll(next, scripts, n + 1))
  {
    hide Planned, OpenFrom, Queued;
    if OpenNext(p, scripts(n)).failure.None? { OpeningKeepsCoverage(p, scripts(n), []); }
  }

  /** Where opening leads when the unfolding's sources have `behind` queued behind them: past its sessions
      to what is behind, or to a failure. */
  ghost predicate Leads(u: Unfolding, behind: seq<Source>, sessions: seq<Segment>, scripts: nat -> Script,
      reached: (Progress, nat))
  {
    && (u.error.Some? ==> reached.0.failure.Some?)
    && (u.error.None? ==>
          var p := Progress(sessions + SegmentsOf(u.sessions), behind, None);
          Queued(p) && reached == OpenAll(p, scripts, u.next))
  }

  lemma LeadsNowhere(n: nat, behind: seq<Source>, sessions: seq<Segment>, scripts: nat -> Script)
    requires Queued(Progress(sessions, behind, None))
    ensures Leads(Unfolding([], n, [], None), behind, sessions, scripts, OpenAll(Progress(sessions, behind, None), scripts, n))
  {
    assert sessions + SegmentsOf([]) == sessions;
  }

  lemma LeadsPastSession(later: Unfolding, u: Unfolding, first: Opened, behind: seq<Source>, sessions: seq<Segment>,
      scripts: nat -> Script, reached: (Progress, nat))
    requires Leads(later, behind, sessions + [first.segment], scripts, reached)
    requires u.sessions == [first] + later.sessions && u.next == later.next && u.error == later.error
    ensures Leads(u, behind, sessions, scripts, reached)
  {
    hide Queued, OpenAll;
    assert sessions + [first.segment] + SegmentsOf(later.sessions) == sessions + SegmentsOf(u.sessions);
  }

  lemma LeadsPastBoth(inner: Unfolding, later: Unfolding, u: Unfolding, behind: seq<Source>, sessions: seq<Segment>,
      scripts: nat -> Script, reached: (Progress, nat))
    requires Leads(later, behind, sessions + SegmentsOf(inner.sessions), scripts, reached)
    requires u.sessions == inner.sessions + later.sessions && u.next == later.next && u.error == later.error
    ensures Leads(u, behind, sessions, scripts, reached)
  {
    hide Queued, OpenAll;
    assert sessions + SegmentsOf(inner.sessions) + SegmentsOf(later.sessions) == sessions + SegmentsOf(u.sessions);
  }

  /** Opening a queue with more behind it starts the unfolded sessions, and then goes on behind it - unless
      one of its sources failed. */
  lemma {:induction false} UnfoldingOpens(queue: seq<Source>, behind: seq<Source>, sessions: seq<Segment>,
      scripts: nat -> Script, answers: nat -> Answers, n: nat)
    requires Queued(Progress(sessions, queue + behind, None)) && AllPlanned(queue)
    ensures Leads(Unfold(queue, scripts, answers, n), behind, sessions, scripts,
                  OpenAll(Progress(sessions, queue + behind, None), scripts, n))
    decreases AtLevel(queue, 0), AtLevel(queue, 1), AtLevel(queue, 2), AtLevel(queue, 3)
  {
    hide OpenAll, Planned, OpenFrom, Queued, AtLevel;
    var u := Unfold(queue, scripts, answers, n);
    var p := Progress(sessions, queue + behind, None);
    if queue == [] {
      assert queue + behind == behind;
      LeadsNowhere(n, behind, sessions, scripts);
    } else {
      var rest := queue[1..];
      assert AllPlanned(rest);
      assert p.queue[0] == queue[0] && p.queue[1..] == rest + behind;
      LevelOfFirst(queue, 0);
      LevelOfFirst(queue, 1);
      LevelOfFirst(queue, 2);
      LevelOfFirst(queue, 3);
      FirstLevel(queue);
      OpenAllSteps(p, scripts, n);
      match OpeningOf(queue[0], scripts(n))
      case Failed(error) =>
      case Session(tablet) =>
        var first := Opened(n, queue[0].segment.(tablet := tablet));
        UnfoldingOpens(rest, behind, sessions + [first.segment], scripts, answers, n + 1);
        LeadsPastSession(Unfold(rest, scripts, answers, n + 1), u, first, behind, sessions, scripts, OpenAll(p, scripts, n));
      case Replanned(sources) =>
        ReplannedOneLevelUp(queue, scripts(n), 0);
        ReplannedOneLevelUp(queue, scripts(n), 1);
        ReplannedOneLevelUp(queue, scripts(n), 2);
        ReplannedOneLevelUp(queue, scripts(n), 3);
        var inner := Unfold(sources, scripts, answers, n + 1);
        UnfoldingOpens(sources, rest + behind, sessions, scripts, answers, n + 1);
        if inner.error.None? {
          UnfoldingOpens(rest, behind, sessions + SegmentsOf(inner.sessions), scripts, answers, inner.next);
          LeadsPastBoth(inner, Unfold(rest, scripts, answers, inner.next), u, behind, sessions, scripts, OpenAll(p, scripts, n));
        }
    }
  }

  // ---- What the stream delivers ----

  /** A session with sound answers gives, in their batches, what its tablet holds of its segment. */
  ghost predicate TruthfulSessions(table: seq<Key>, sessions: seq<Opened>, answers: nat -> Answers) {
    forall i :: 0 <= i < |sessions| ==>
      var fetches := answers(sessions[i].number).fetches;
      R.Sound(fetches) ==> R.Batches(fetches) == TabletRead(table, sessions[i].segment)
  }

  lemma {:induction false} DeliveredIsScanAll(table: seq<Key>, sessions: seq<Opened>, answers: nat -> Answers)
    requires TruthfulSessions(table, sessions, answers) && Delivered(sessions, answers).failure.None?
    ensures Delivered(sessions, answers).entries == ScanAll(table, SegmentsOf(sessions))
  {
    if sessions != [] {
      hide R.DrainedSession, R.Sound, R.Batches, TabletRead;
      R.SoundSessionsDeliver(answers(sessions[0].number).fetches);
      assert TruthfulSessions(table, sessions[1..], answers) by {
        assert forall i :: 0 <= i < |sessions[1..]| ==> sessions[1..][i] == sessions[i + 1];
      }
      DeliveredIsScanAll(table, sessions[1..], answers);
      assert SegmentsOf(sessions)[1..] == SegmentsOf(sessions[1..]);
    }
  }

  /** The queue of a freshly planned range. */
  function PlannedQueue(r: Range, moments: seq<seq<Tablet>>): seq<Source>
    requires PlanRange(r, moments).0.Ok?
  {
    SourcesOf(PlanRange(r, moments).0.value, 0)
  }

  lemma PlannedQueueIsQueued(r: Range, moments: seq<seq<Tablet>>)
    requires Constructed(r) && PlanRange(r, moments).0.Ok?
    ensures AllPlanned(PlannedQueue(r, moments)) && Queued(Progress([], PlannedQueue(r, moments), None))
  {
    hide PlanRange;
    var segments := PlanRange(r, moments).0.value;
    PlannedSegmentsFit(r, moments);
    forall source | source in PlannedQueue(r, moments) ensures Planned(source) {
      assert source.segment in segments;
    }
  }

  /** A stream over a planned range that ends without failure has delivered what the tablets of the sessions
      that opening the queue starts hold, in order. */
  lemma StreamDeliversItsSessions(r: Range, moments: seq<seq<Tablet>>, scripts: nat -> Script,
      answers: nat -> Answers, table: seq<Key>)
    requires Constructed(r) && PlanRange(r, moments).0.Ok?
    requires AllPlanned(PlannedQueue(r, moments)) && Queued(Progress([], PlannedQueue(r, moments), None))
    requires TruthfulSessions(table, Unfold(PlannedQueue(r, moments), scripts, answers, 0).sessions, answers)
    ensures var drained := R.Drained(Unfold(PlannedQueue(r, moments), scripts, answers, 0).sources);
            var end := OpenAll(Progress([], PlannedQueue(r, moments), None), scripts, 0).0;
            drained.failure.None? ==> end.failure.None? && drained.entries == ScanAll(table, end.sessions)
  {
    hide Unfold, R.Drained, Planned, Queued, PlanRange, SessionOutcome, PlannedQueue;
    var queue := PlannedQueue(r, moments);
    var u := Unfold(queue, scripts, answers, 0);
    UnfoldingDrains(queue, scripts, answers, 0);
    assert queue + [] == queue && [] + SegmentsOf(u.sessions) == SegmentsOf(u.sessions);
    UnfoldingOpens(queue, [], [], scripts, answers, 0);
    if R.Drained(u.sources).failure.None? {
      DeliveredIsScanAll(table, u.sessions, answers);
      assert Delivered(u.sessions, answers).entries + [] == Delivered(u.sessions, answers).entries;
    }
  }

  /** End to end: however tablets move and split, and however often segments are replanned, a stream over a
      range that cannot overhang delivers exactly the live table's entries in the range, in order, if it
      ends without failure. Only single sessions are assumed truthful. */
  lemma StreamReadsTheRange(r: Range, moments: seq<seq<Tablet>>, scripts: nat -> Script, answers: nat -> Answers,
      table: seq<Key>)
    requires LiveTable(table) && Constructed(r) && !MayOverhang(r) && PlanRange(r, moments).0.Ok?
    ensures AllPlanned(PlannedQueue(r, moments))
    ensures var u := Unfold(PlannedQueue(r, moments), scripts, answers, 0);
            TruthfulSessions(table, u.sessions, answers) && R.Drained(u.sources).failure.None? ==>
              R.Drained(u.sources).entries == Select(table, r)
  {
    hide Unfold, R.Drained, Planned, PlanRange, Queued, TruthfulSessions, LiveTable, MayOverhang, Constructed, Select, ScanAll, OpenAll;
    PlannedQueueIsQueued(r, moments);
    if TruthfulSessions(table, Unfold(PlannedQueue(r, moments), scripts, answers, 0).sessions, answers) {
      StreamDeliversItsSessions(r, moments, scripts, answers, table);
      InsideSessionsReturnTheRange(r, moments, scripts, table);
    }
  }

  /** A stream and a batch scan of one range that may not overhang, each with its own view of tablets that
      move and split, return the same entries when neither fails. */
  lemma StreamEqualsBatchScan(r: Range, moments: seq<seq<Tablet>>, scripts: nat -> Script, answers: nat -> Answers,
      moments': seq<seq<Tablet>>, tries: nat -> seq<L.Try>, table: seq<Key>)
    requires LiveTable(table) && Constructed(r) && !MayOverhang(r)
    requires PlanRange(r, moments).0.Ok? && PlanRange(r, moments').0.Ok?
    requires L.TruthfulWorkers(table, PlanRange(r, moments').0.value, tries)
    ensures AllPlanned(PlannedQueue(r, moments))
    ensures var u := Unfold(PlannedQueue(r, moments), scripts, answers, 0);
            var scanned := L.Joined(L.ResultsOf(L.Results(PlanRange(r, moments').0.value, tries)));
            TruthfulSessions(table, u.sessions, answers) && R.Drained(u.sources).failure.None? && scanned.failure.None? ==>
              R.Drained(u.sources).entries == scanned.values
  {
    hide Unfold, R.Drained, PlanRange, TruthfulSessions, LiveTable, MayOverhang, Constructed, Select;
    StreamReadsTheRange(r, moments, scripts, answers, table);
    L.BatchScanReadsTheRange(r, moments', tries, table);
  }

  lemma StartedOpens(source: Source, script: Script)
    requires FitsTablet(source.segment.range, source.segment.tablet.extent) && script.starts(0) == Started
    ensures OpeningOf(source, script)
            == if source.segment.tablet.server.None? then Failed(NotLocated) else Session(source.segment.tablet)
  {
  }

  /** When every start succeeds at once the stream reads the queued segments themselves. */
  lemma {:induction false} StartedAreQueued(queue: seq<Source>, scripts: nat -> Script, answers: nat -> Answers, n: nat)
    requires AllPlanned(queue) && forall k: nat :: scripts(k).starts(0) == Started
    requires forall source :: source in queue ==> FitsTablet(source.segment.range, source.segment.tablet.extent)
    ensures var u := Unfold(queue, scripts, answers, n);
            u.error.None? ==> SegmentsOf(u.sessions) == Segments(queue)
    decreases |queue|
  {
    hide Planned, FitsTablet, AtLevel, OpeningOf;
    if queue != [] {
      assert queue[0] in queue;
      StartedOpens(queue[0], scripts(n));
      var rest := queue[1..];
      assert AllPlanned(rest);
      StartedAreQueued(rest, scripts, answers, n + 1);
      var segment := queue[0].segment;
      assert segment.(tablet := segment.tablet) == segment;
      assert Segments(queue) == [segment] + Segments(rest);
    }
  }

  /** When no scan is stale at first the batch scan reads the planned segments themselves. */
  lemma {:induction false} UnmovedAreReadFrom(segments: seq<Segment>, results: seq<L.Scanned>)
    requires |segments| == |results|
    requires forall i :: 0 <= i < |segments| ==> results[i].tablet == segments[i].tablet
    ensures L.ReadFrom(segments, results) == segments
  {
    if segments != [] {
      forall i | 0 <= i < |segments[1..]| ensures results[1..][i].tablet == segments[1..][i].tablet {
        assert segments[1..][i] == segments[i + 1] && results[1..][i] == results[i + 1];
      }
      UnmovedAreReadFrom(segments[1..], results[1..]);
      assert segments[0].(tablet := results[0].tablet) == segments[0];
    }
  }

  /** No scan of a segment finds its tablet moved. */
  ghost predicate NoneStale(segments: seq<Segment>, tries: nat -> seq<L.Try>) {
    forall i :: 0 <= i < |segments| && tries(i) != [] ==>
      !L.TabletScanned(segments[i].tablet, tries(i)[0].answers).IsStale()
  }

  lemma UnmovedTablet(segment: Segment, tries: seq<L.Try>)
    requires tries != [] ==> !L.TabletScanned(segment.tablet, tries[0].answers).IsStale()
    ensures L.ScanFrom(segment.range, segment.routingRow, segment.tablet, tries, []).tablet == segment.tablet
  {
  }

  /** On tablets that stay put - every session starts at once, and no scan is stale - the two return the same
      entries for every range: what the segments' tablets hold, overhanging or not. */
  lemma SteadyStreamEqualsBatchScan(r: Range, moments: seq<seq<Tablet>>, scripts: nat -> Script,
      answers: nat -> Answers, tries: nat -> seq<L.Try>, table: seq<Key>)
    requires Constructed(r) && PlanRange(r, moments).0.Ok?
    requires forall n: nat :: scripts(n).starts(0) == Started
    requires NoneStale(PlanRange(r, moments).0.value, tries)
    requires L.TruthfulWorkers(table, PlanRange(r, moments).0.value, tries)
    ensures AllPlanned(PlannedQueue(r, moments))
    ensures var u := Unfold(PlannedQueue(r, moments), scripts, answers, 0);
            var scanned := L.Joined(L.ResultsOf(L.Results(PlanRange(r, moments).0.value, tries)));
            TruthfulSessions(table, u.sessions, answers) && R.Drained(u.sources).failure.None? && scanned.failure.None? ==>
              R.Drained(u.sources).entries == scanned.values
  {
    hide R.Drained, PlanRange, Unfold, ScanAll, TabletRead, SessionOutcome, L.ScanFrom, L.TruthfulTries, Planned, FitsTablet;
    var segments := PlanRange(r, moments).0.value;
    var results := L.Results(segments, tries);
    PlannedQueueIsQueued(r, moments);
    PlannedSegmentsFit(r, moments);
    var queue := PlannedQueue(r, moments);
    var u := Unfold(queue, scripts, answers, 0);
    UnfoldingDrains(queue, scripts, answers, 0);
    if TruthfulSessions(table, u.sessions, answers) && R.Drained(u.sources).failure.None? && L.Joined(L.ResultsOf(results)).failure.None? {
      forall source | source in queue ensures FitsTablet(source.segment.range, source.segment.tablet.extent) {
        assert source.segment in segments;
      }
      StartedAreQueued(queue, scripts, answers, 0);
      DeliveredIsScanAll(table, u.sessions, answers);
      forall i | 0 <= i < |segments|
        ensures results[i].failure.None? ==> results[i].values == TabletRead(table, segments[i].(tablet := results[i].tablet))
        ensures results[i].tablet == segments[i].tablet
      {
        assert segments[i] in segments;
        UnmovedTablet(segments[i], tries(i));
        L.ScanEndsInRoutedTablet(table, segments[i].range, segments[i].routingRow, segments[i].tablet, tries(i), []);
      }
      L.JoinedIsScanAll(table, segments, results);
      UnmovedAreReadFrom(segments, results);
      assert Segments(queue) == segments;
      assert Delivered(u.sessions, answers).entries + [] == Delivered(u.sessions, answers).entries;
    }
  }

  /** Iterates a new stream over the sources to its end. */
  method ReadAll(sources: seq<R.Source>, patience: nat -> nat)
    returns (entries: seq<R.Entry>, failure: Option<R.Report>)
    ensures failure.None? ==> R.Drained(sources) == R.Outcome(entries, None)
    ensures entries <= R.Drained(sources).entries
  {
    var stream := new R.ResultStream(sources);
    entries, failure := R.Collect(stream, patience);
  }
}
