/** Streaming multi-scan groups: a session's failed ranges become sources ahead of the groups still queued. */
module MultiStream {
  import opened Wrappers
  import opened Keys
  import opened Tablets
  import opened Ranges
  import opened ScanPlan
  import opened MultiScan
  import opened StreamScan
  import L = LocatedScan
  import M = MultiBatchScan
  import R = ResultStreams
  import S = ScanSources

  // ---- One session ----

  /** multiSession.fetch: a range read in part is a failure of the last answer. */
  function Fetched<W>(fetch: M.Fetch<W>, noScan: bool): R.Fetch {
    match fetch.answer
    case None => R.Fetch([], false, fetch.rpcError, false, false)
    case Some(a) =>
      if fetch.rpcError.None? && !a.undecoded && !a.more && a.part
      then R.Fetch(a.entries, false, Some(R.Incomplete), false, false)
      else R.Fetch(a.entries, a.more, fetch.rpcError, a.undecoded, noScan)
  }

  function FetchedAll<W>(fetches: seq<M.Fetch<W>>, noScan: bool): seq<R.Fetch> {
    if fetches == [] then [] else [Fetched(fetches[0], noScan)] + FetchedAll(fetches[1..], noScan)
  }

  /** Nothing is wrong with any answer up to the last: no call fails, every entry can be decoded, more is
      announced only with a scan to continue, and the last answer leaves no range read in part. */
  predicate Sound<W>(fetches: seq<M.Fetch<W>>, noScan: bool) {
    fetches == []
    || (fetches[0].rpcError.None?
        && (fetches[0].answer.None?
            || var a := fetches[0].answer.value;
               !a.undecoded && if a.more then !noScan && Sound(fetches[1..], noScan) else !a.part))
  }

  /** What will come of one failed range: whether its location could be invalidated, the tablet lists seen
      while planning it, and the openings and answers of the sources it becomes. */
  datatype Replan =
    Replan(invalidated: bool, moments: seq<seq<Tablet>>, scripts: nat -> S.Script, answers: nat -> Answers)

  /** What will come of a group: it does not open, or its session's answers, the order in which the reported
      ranges are walked, and what comes of each. */
  datatype Script<!W> =
    | Refused(error: R.Report)
    | Started(fetches: seq<M.Fetch<W>>, noScan: bool, closeFails: bool, walk: seq<Failure<W>> -> seq<Failure<W>>,
              replans: nat -> Replan)

  ghost function Unfolded(s: Segment, replan: Replan): Unfolding
    requires Constructed(s.range) && PlanRange(s.range, replan.moments).0.Ok?
  {
    PlannedQueueIsQueued(s.range, replan.moments);
    Unfold(PlannedQueue(s.range, replan.moments), replan.scripts, replan.answers, 0)
  }

  /** The failed segments from k on, planned anew one after the other; any failure is the session's. */
  ghost function FollowersFrom(failed: seq<Segment>, replans: nat -> Replan, k: nat): R.Followers
    requires forall s :: s in failed ==> Constructed(s.range)
    decreases |failed| - k
  {
    if k >= |failed| then R.Follow([])
    else if !replans(k).invalidated then R.FollowersFail([R.ScanFailed(3)])
    else
      match PlanRange(failed[k].range, replans(k).moments).0
      case Err(_) => R.FollowersFail([R.ScanFailed(4)])
      case Ok(_) =>
        match FollowersFrom(failed, replans, k + 1)
        case FollowersFail(error) => R.FollowersFail(error)
        case Follow(later) => R.Follow(Unfolded(failed[k], replans(k)).sources + later)
  }

  /** multiSession.followers. */
  ghost function FollowersOf<W>(segments: seq<Segment>, wire: Range -> W, script: Script<W>): R.Followers
    requires script.Started? && forall s :: s in segments ==> Constructed(s.range)
  {
    match MatchedSegments(segments, wire, script.walk(M.Reported(script.fetches)))
    case None => R.FollowersFail([R.ScanFailed(5)])
    case Some(failed) =>
      MatchedAreTheirs(segments, wire, script.walk(M.Reported(script.fetches)));
      FollowersFrom(failed, script.replans, 0)
  }

  ghost function SourceOf<W>(segments: seq<Segment>, wire: Range -> W, script: Script<W>): R.Source
    requires forall s :: s in segments ==> Constructed(s.range)
  {
    match script
    case Refused(error) => R.Refuses(error)
    case Started(fetches, noScan, closeFails, _, _) =>
      R.Opens(FetchedAll(fetches, noScan), FollowersOf(segments, wire, script), closeFails)
  }

  /** The segments that the failed ones from k on are planned anew as. */
  function PlannedAgain(failed: seq<Segment>, replans: nat -> Replan, k: nat): Result<seq<Segment>, R.Report>
    decreases |failed| - k
  {
    if k >= |failed| then Ok([])
    else if !replans(k).invalidated then Err([R.ScanFailed(3)])
    else
      match PlanRange(failed[k].range, replans(k).moments).0
      case Err(_) => Err([R.ScanFailed(4)])
      case Ok(plan) =>
        match PlannedAgain(failed, replans, k + 1)
        case Err(error) => Err(error)
        case Ok(later) => Ok(plan + later)
  }

  /** There are followers exactly when every failed segment can be invalidated and planned anew. */
  lemma {:induction false} FollowersArePlanned(failed: seq<Segment>, replans: nat -> Replan, k: nat)
    requires forall s :: s in failed ==> Constructed(s.range)
    ensures match PlannedAgain(failed, replans, k)
            case Err(error) => FollowersFrom(failed, replans, k) == R.FollowersFail(error)
            case Ok(_) => FollowersFrom(failed, replans, k).Follow?
    ensures PlannedAgain(failed, replans, k).Ok? <==> forall m: nat :: k <= m < |failed| ==> CanPlan(failed[m], replans(m))
    decreases |failed| - k
  {
    hide PlanRange, Unfolded;
    if k < |failed| { FollowersArePlanned(failed, replans, k + 1); }
  }

  predicate CanPlan(s: Segment, replan: Replan) {
    replan.invalidated && PlanRange(s.range, replan.moments).0.Ok?
  }

  /** An open session: the answers still to come, and the ranges reported as failed so far. */
  class MultiSession<W(==)> {
    const noScan: bool
    var later: seq<M.Fetch<W>>
    var failures: seq<Failure<W>>

    constructor (fetches: seq<M.Fetch<W>>, noScan: bool)
      ensures this.noScan == noScan && later == fetches && failures == []
    {
      this.noScan := noScan;
      later, failures := fetches, [];
    }

    /** fetch: while nothing fails, what was reported and what will be stays the same. */
    method Fetch() returns (fetch: R.Fetch)
      modifies this
      ensures fetch == Fetched(M.FirstFetch(old(later)), noScan) && later == M.LaterFetches(old(later))
      ensures fetch.Failure().None? ==>
                failures + (if fetch.more then M.Reported(later) else []) == old(failures) + M.Reported(old(later))
    {
      var next := M.FirstFetch(later);
      later := M.LaterFetches(later);
      fetch := Fetched(next, noScan);
      if next.answer.None? || next.rpcError.Some? || next.answer.value.undecoded { return; }
      failures := failures + next.answer.value.failed;
    }

    /** followers: what was reported is matched and planned anew, once. */
    method Followers(segments: seq<Segment>, wire: Range -> W, walk: seq<Failure<W>> -> seq<Failure<W>>,
        replans: nat -> Replan)
      returns (plan: Result<seq<Segment>, R.Report>)
      modifies this
      ensures failures == [] && later == old(later)
      ensures old(failures) == [] ==> plan == Ok([])
      ensures old(failures) != [] ==>
                plan == match MatchedSegments(segments, wire, walk(old(failures)))
                        case None => Err([R.ScanFailed(5)])
                        case Some(failed) => PlannedAgain(failed, replans, 0)
    {
      hide MatchFrom, PlanRange;
      if |failures| == 0 { return Ok([]); }
      var reported := failures;
      failures := [];
      var matched := MatchFailedSegments(segments, wire, walk(reported));
      if matched.None? { return Err([R.ScanFailed(5)]); }
      MatchedInRange(segments, wire, walk(reported));
      var failed := Picked(segments, matched.value);
      var planned: seq<Segment> := [];
      PrependedTwice([], [], PlannedAgain(failed, replans, 0));
      for k := 0 to |failed|
        invariant failures == [] && later == old(later)
        invariant Prepended(planned, PlannedAgain(failed, replans, k)) == PlannedAgain(failed, replans, 0)
      {
        if !replans(k).invalidated { return Err([R.ScanFailed(3)]); }
        var locator := new Locator(replans(k).moments);
        M.PlansOne(failed[k].range, replans(k).moments);
        var plan := PlanBatchScan(locator, [Some(failed[k].range)]);
        if plan.Err? { return Err([R.ScanFailed(4)]); }
        PrependedTwice(planned, plan.value, PlannedAgain(failed, replans, k + 1));
        planned := planned + plan.value;
      }
      assert planned + [] == planned;
      return Ok(planned);
    }
  }

  function Prepended(segments: seq<Segment>, plan: Result<seq<Segment>, R.Report>): Result<seq<Segment>, R.Report> {
    match plan
    case Err(error) => plan
    case Ok(later) => Ok(segments + later)
  }

  lemma PrependedTwice(a: seq<Segment>, b: seq<Segment>, plan: Result<seq<Segment>, R.Report>)
    ensures Prepended(a, Prepended(b, plan)) == Prepended(a + b, plan)
    ensures Prepended([], plan) == plan
  {
    if plan.Ok? { assert a + (b + plan.value) == a + b + plan.value && [] + plan.value == plan.value; }
  }

  // ---- A session and its followers ----

  /** What a session answers by itself. */
  function OwnOutcome(fetches: seq<R.Fetch>): R.Outcome {
    R.DrainedSession(fetches, R.Follow([]), [])
  }

  /** A session drains to its own answers, then to its followers. */
  lemma {:induction false} FollowersComeAfter(fetches: seq<R.Fetch>, followers: R.Followers)
    ensures R.DrainedSession(fetches, followers, []) == R.Then(OwnOutcome(fetches), R.Finished(followers, []))
  {
    hide R.DrainedSession, R.Finished, R.Then;
    R.FetchSteps(fetches, followers, []);
    R.FetchSteps(fetches, R.Follow([]), []);
    R.NothingFollows();
    var fetch := R.FirstFetch(fetches);
    if fetch.Failure().Some? {
      R.FailedThen(R.Outcome(fetch.entries, fetch.Failure()), R.Finished(followers, []));
      R.AfterFailed(fetch.entries, fetch.Failure());
    } else if fetch.more {
      FollowersComeAfter(fetches[1..], followers);
      R.AfterThen(fetch.entries, OwnOutcome(fetches[1..]), R.Finished(followers, []));
    } else {
      R.ThenNothing(R.Finished(followers, []));
      R.AfterThen(fetch.entries, R.Outcome([], None), R.Finished(followers, []));
    }
  }

  /** A session drains without failure exactly when its answers are sound, and then to all their entries. */
  lemma {:induction false} SoundSessionsDeliver<W>(fetches: seq<M.Fetch<W>>, noScan: bool)
    ensures var own := OwnOutcome(FetchedAll(fetches, noScan));
            (own.failure.None? <==> Sound(fetches, noScan)) && (Sound(fetches, noScan) ==> own.entries == M.Entries(fetches))
  {
    hide R.DrainedSession, R.Finished;
    R.NothingFollows();
    R.FetchSteps(FetchedAll(fetches, noScan), R.Follow([]), []);
    if fetches != [] {
      SoundSessionsDeliver(fetches[1..], noScan);
      assert FetchedAll(fetches, noScan)[1..] == FetchedAll(fetches[1..], noScan);
    }
  }

  /** Every session that a failed segment is read again by answers truthfully. */
  ghost predicate TruthfulReplans(table: seq<Key>, failed: seq<Segment>, replans: nat -> Replan) {
    forall k :: 0 <= k < |failed| && Constructed(failed[k].range)
                && PlanRange(failed[k].range, replans(k).moments).0.Ok? ==>
      TruthfulSessions(table, Unfolded(failed[k], replans(k)).sessions, replans(k).answers)
  }

  /** The followers drain to exactly what the failed segments hold, in order. */
  lemma {:induction false} FollowersRead(table: seq<Key>, failed: seq<Segment>, replans: nat -> Replan, k: nat)
    requires LiveTable(table) && k <= |failed| && (forall s :: s in failed ==> L.Fitting(s))
    requires TruthfulReplans(table, failed, replans)
    ensures forall s :: s in failed ==> Constructed(s.range)
    ensures var drained := R.Finished(FollowersFrom(failed, replans, k), []);
            drained.failure.None? ==> drained.entries == SelectAll(table, failed[k..])
    decreases |failed| - k
  {
    hide LiveTable, PlanRange, Unfold, R.Drained, R.Then, TruthfulSessions, Select, MayOverhang, FitsTablet, ContainsRow;
    var followers := FollowersFrom(failed, replans, k);
    R.FinishSteps(followers, []);
    if k == |failed| {
      R.NothingFollows();
    } else if followers.Follow? {
      assert failed[k] in failed && failed[k..][1..] == failed[k + 1..] && followers.sources + [] == followers.sources;
      var later := FollowersFrom(failed, replans, k + 1);
      var first := Unfolded(failed[k], replans(k)).sources;
      R.FinishSteps(later, []);
      assert later.sources + [] == later.sources;
      FollowersRead(table, failed, replans, k + 1);
      R.DrainedConcat(first, later.sources);
      ThenSteps(R.Drained(first), R.Drained(later.sources));
      StreamReadsTheRange(failed[k].range, replans(k).moments, replans(k).scripts, replans(k).answers, table);
    }
  }

  lemma ThenSteps(a: R.Outcome, b: R.Outcome)
    ensures R.Then(a, b).failure.None? ==>
              a.failure.None? && b.failure.None? && R.Then(a, b).entries == a.entries + b.entries
  {
  }

  // ---- One group ----

  /** A session with sound answers read, in any order, the segments it served from their tablets, and reported
      exactly the others, in whatever order they are walked; and the sessions after it are truthful. */
  ghost predicate TruthfulGroup<W(!new)>(table: seq<Key>, segments: seq<Segment>, wire: Range -> W, script: Script<W>,
      served: seq<nat>, failed: seq<nat>)
  {
    script.Started? && Sound(script.fetches, script.noScan) ==>
      var reported := M.Reported(script.fetches);
      && multiset(script.walk(reported)) == multiset(reported)
      && NamesExactly(segments, wire, reported, failed)
      && DistinctIndexes(served) && (forall i: nat :: i in served <==> i < |segments| && i !in failed)
      && (forall k :: 0 <= k < |served| ==> served[k] < |segments|)
      && multiset(M.Entries(script.fetches)) == multiset(ScanAll(table, Picked(segments, served)))
      && var matched := MatchedSegments(segments, wire, script.walk(reported));
         (matched.Some? ==> TruthfulReplans(table, matched.value, script.replans))
  }

  lemma GroupStreams<W(!new)>(table: seq<Key>, segments: seq<Segment>, wire: Range -> W, script: Script<W>,
      served: seq<nat>, failed: seq<nat>)
    requires LiveTable(table) && M.Readable(segments) && DistinctNames(segments, wire)
    requires TruthfulGroup(table, segments, wire, script, served, failed)
    ensures forall s :: s in segments ==> Constructed(s.range)
    ensures var drained := R.Drained([SourceOf(segments, wire, script)]);
            drained.failure.None? ==> multiset(drained.entries) == multiset(SelectAll(table, segments))
  {
    hide LiveTable, DistinctNames, NamesExactly, DistinctIndexes, MatchedSegments, R.Drained, R.DrainedSession, R.Finished;
    hide R.Then, SelectAll, ScanAll, TruthfulReplans, FollowersFrom, MayOverhang, FitsTablet, ContainsRow, FetchedAll, Sound;
    hide M.Entries, M.Reported;
    SourceDrains(SourceOf(segments, wire, script));
    if script.Started? {
      SoundSessionsDeliver(script.fetches, script.noScan);
      var fetches := FetchedAll(script.fetches, script.noScan);
      var followers := FollowersOf(segments, wire, script);
      FollowersComeAfter(fetches, followers);
      ThenSteps(OwnOutcome(fetches), R.Finished(followers, []));
      if R.Drained([SourceOf(segments, wire, script)]).failure.None? {
        var walked := script.walk(M.Reported(script.fetches));
        M.WalkedNames(segments, wire, M.Reported(script.fetches), walked, failed);
        ServedAndFailedReadTheGroup(segments, wire, walked, failed, served, table);
        var again := MatchedSegments(segments, wire, walked).value;
        MatchedAreTheirs(segments, wire, walked);
        M.AllFitting(segments, again);
        M.AllFitting(segments, Picked(segments, served));
        M.ReadableIsSelected(table, Picked(segments, served));
        FollowersRead(table, again, script.replans, 0);
        assert again[0..] == again;
      }
    }
  }

  // ---- The whole stream ----

  /** The sources of the groups, as the stream will meet them. */
  ghost function SourcesOf<W>(groups: seq<Group>, wire: Range -> W, scripts: seq<Script<W>>): seq<R.Source>
    requires |scripts| == |groups|
    requires forall i :: 0 <= i < |groups| ==> M.Readable(groups[i].segments)
  {
    if groups == [] then []
    else
      assert M.Readable(groups[0].segments);
      [SourceOf(groups[0].segments, wire, scripts[0])] + SourcesOf(groups[1..], wire, scripts[1..])
  }

  ghost predicate TruthfulGroups<W(!new)>(table: seq<Key>, groups: seq<Group>, wire: Range -> W, scripts: seq<Script<W>>,
      served: seq<seq<nat>>, failed: seq<seq<nat>>)
  {
    && |groups| == |scripts| == |served| == |failed|
    && forall i :: 0 <= i < |groups| ==>
         TruthfulGroup(table, groups[i].segments, wire, scripts[i], served[i], failed[i])
  }

  lemma {:induction false} GroupsStream<W(!new)>(table: seq<Key>, groups: seq<Group>, wire: Range -> W,
      scripts: seq<Script<W>>, served: seq<seq<nat>>, failed: seq<seq<nat>>)
    requires LiveTable(table) && TruthfulGroups(table, groups, wire, scripts, served, failed)
    requires forall i :: 0 <= i < |groups| ==> M.Readable(groups[i].segments) && DistinctNames(groups[i].segments, wire)
    ensures var drained := R.Drained(SourcesOf(groups, wire, scripts));
            drained.failure.None? ==> multiset(drained.entries) == multiset(SelectAll(table, M.AllSegments(groups)))
  {
    hide LiveTable, M.Readable, DistinctNames, TruthfulGroup, SourceOf, SelectAll, R.Drained, R.Then;
    R.QueueSteps([]);
    if groups != [] {
      assert TruthfulGroups(table, groups[1..], wire, scripts[1..], served[1..], failed[1..]);
      GroupsStream(table, groups[1..], wire, scripts[1..], served[1..], failed[1..]);
      GroupStreams(table, groups[0].segments, wire, scripts[0], served[0], failed[0]);
      SelectAllConcat(table, groups[0].segments, M.AllSegments(groups[1..]));
      var first, later := [SourceOf(groups[0].segments, wire, scripts[0])], SourcesOf(groups[1..], wire, scripts[1..]);
      R.DrainedConcat(first, later);
      ThenSteps(R.Drained(first), R.Drained(later));
    } else {
      NothingSelected(table);
    }
  }

  lemma NothingSelected(table: seq<Key>)
    ensures SelectAll(table, []) == []
  {
  }

  /** However tablets move while planning, scanning and planning again, a multi-scan stream without failure
      over a range that cannot overhang delivers exactly the live table's entries in the range, none twice. */
  lemma MultiStreamReadsTheRange<W(!new)>(r: Range, moments: seq<seq<Tablet>>, wire: Range -> W, scripts: seq<Script<W>>,
      served: seq<seq<nat>>, failed: seq<seq<nat>>, table: seq<Key>)
    requires LiveTable(table) && Constructed(r) && !MayOverhang(r) && PlanRange(r, moments).0.Ok?
    requires TruthfulGroups(table, M.PlannedGroups(r, moments), wire, scripts, served, failed)
    ensures forall i :: 0 <= i < |M.PlannedGroups(r, moments)| ==> M.Readable(M.PlannedGroups(r, moments)[i].segments)
    ensures var drained := R.Drained(SourcesOf(M.PlannedGroups(r, moments), wire, scripts));
            drained.failure.None? ==> multiset(drained.entries) == multiset(Select(table, r))
  {
    hide LiveTable, MayOverhang, Constructed, PlanRange, GroupsOf, TruthfulGroup, DistinctNames, SourcesOf, R.Drained, Select;
    hide L.Fitting, SelectAll;
    var segments, groups := PlanRange(r, moments).0.value, M.PlannedGroups(r, moments);
    M.PlanIsReadable(r, moments, table);
    M.PlannedNamesDiffer(r, moments, wire);
    forall i | 0 <= i < |groups| ensures M.Readable(groups[i].segments) {
      M.GroupIsOnServer(segments, i);
    }
    GroupsStream(table, groups, wire, scripts, served, failed);
    M.GroupsHoldSegments(segments);
    SameSegmentsSameReads(table, M.AllSegments(groups), segments);
  }
}
