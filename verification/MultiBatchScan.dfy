/** Batch scans over multi-scan sessions, one for each server, with failed ranges read again by tablet. */
module MultiBatchScan {
  import opened Bytes
  import opened Wrappers
  import opened Keys
  import opened Tablets
  import opened Ranges
  import opened ScanPlan
  import opened MultiScan
  import L = LocatedScan
  import R = ResultStreams

  // ---- One session ----

  /** An answer of a session: its entries, whether one could not be decoded, the ranges reported as failed,
      whether more follow, and whether a range was read in part. */
  datatype Answer<W> =
    Answer(entries: seq<Key>, undecoded: bool, failed: seq<Failure<W>>, more: bool, part: bool)

  /** What a call to the session returns: an answer, an error, both, or neither. */
  datatype Fetch<W> = Fetch(answer: Option<Answer<W>>, rpcError: Option<R.StreamError>)

  /** The entries paged, the ranges reported as failed, and every failure on the way. */
  datatype Pages<W> = Pages(entries: seq<Key>, failed: seq<Failure<W>>, failures: R.Report) {
    function After(entries: seq<Key>, failed: seq<Failure<W>>, failures: R.Report): Pages<W> {
      Pages(entries + this.entries, failed + this.failed, failures + this.failures)
    }
  }

  function FirstFetch<W>(fetches: seq<Fetch<W>>): Fetch<W> {
    if fetches == [] then Fetch(None, None) else fetches[0]
  }

  function LaterFetches<W>(fetches: seq<Fetch<W>>): seq<Fetch<W>> {
    if fetches == [] then [] else fetches[1..]
  }

  /** The check of the last answer received. */
  function PartFailures<W>(answer: Option<Answer<W>>): R.Report {
    if answer.Some? && answer.value.part then [R.Incomplete] else []
  }

  /** The loop of scanMultiGroup from an answer on. The answer of a failed continue is not read, but still
      checked for a range read in part. */
  function PagesFrom<W>(answer: Option<Answer<W>>, later: seq<Fetch<W>>): Pages<W>
    decreases |later|, if answer.Some? then 1 else 0
  {
    match answer
    case None => Pages([], [], [])
    case Some(a) =>
      var failures := if a.undecoded then [R.Undecodable] else [];
      if a.undecoded || !a.more then Pages(a.entries, a.failed, failures + PartFailures(answer))
      else
        var next := FirstFetch(later);
        if next.rpcError.Some? then Pages(a.entries, a.failed, [next.rpcError.value] + PartFailures(next.answer))
        else PagesFrom(next.answer, LaterFetches(later)).After(a.entries, a.failed, [])
  }

  /** A failed start is reported, and read on from all the same. */
  function Paged<W>(fetches: seq<Fetch<W>>): Pages<W> {
    var first := FirstFetch(fetches);
    PagesFrom(first.answer, LaterFetches(fetches)).After([], [], R.Listed(first.rpcError))
  }

  lemma AfterTwice<W>(pages: Pages<W>, a: Pages<W>, b: Pages<W>)
    ensures pages.After(b.entries, b.failed, b.failures).After(a.entries, a.failed, a.failures)
            == pages.After(a.entries + b.entries, a.failed + b.failed, a.failures + b.failures)
  {
    assert a.entries + (b.entries + pages.entries) == a.entries + b.entries + pages.entries;
    assert a.failed + (b.failed + pages.failed) == a.failed + b.failed + pages.failed;
    assert a.failures + (b.failures + pages.failures) == a.failures + b.failures + pages.failures;
  }

  lemma PagesSteps<W>(answer: Option<Answer<W>>, later: seq<Fetch<W>>)
    ensures answer.None? ==> PagesFrom(answer, later) == Pages([], [], PartFailures(answer))
    ensures answer.Some? ==>
              var (a, next) := (answer.value, FirstFetch(later));
              PagesFrom(answer, later)
              == if a.undecoded then Pages(a.entries, a.failed, [R.Undecodable] + PartFailures(answer))
                 else if !a.more then Pages(a.entries, a.failed, PartFailures(answer))
                 else if next.rpcError.Some? then Pages(a.entries, a.failed, [next.rpcError.value] + PartFailures(next.answer))
                 else PagesFrom(next.answer, LaterFetches(later)).After(a.entries, a.failed, [])
  {
  }

  method PageSession<W>(fetches: seq<Fetch<W>>) returns (pages: Pages<W>)
    ensures pages == Paged(fetches)
  {
    hide PagesFrom, PartFailures;
    var answer, later := FirstFetch(fetches).answer, LaterFetches(fetches);
    var values: seq<Key>, failed: seq<Failure<W>>, failures := [], [], R.Listed(FirstFetch(fetches).rpcError);
    while true
      invariant PagesFrom(answer, later).After(values, failed, failures) == Paged(fetches)
      decreases |later|, if answer.Some? then 1 else 0
    {
      PagesSteps(answer, later);
      if answer.None? { break; }
      var a := answer.value;
      AfterTwice(PagesFrom(FirstFetch(later).answer, LaterFetches(later)), Pages(values, failed, failures),
                 Pages(a.entries, a.failed, []));
      values, failed := values + a.entries, failed + a.failed;
      if a.undecoded { failures := failures + [R.Undecodable]; }
      if a.undecoded || !a.more { break; }
      var next := FirstFetch(later);
      answer := next.answer;
      if next.rpcError.Some? {
        failures := failures + [next.rpcError.value];
        break;
      }
      later := LaterFetches(later);
    }
    return Pages(values, failed, failures + PartFailures(answer));
  }

  /** Nothing is wrong with any answer up to the last: no call fails, every entry can be decoded, and the last
      answer leaves no range read in part. */
  predicate Sound<W>(fetches: seq<Fetch<W>>) {
    fetches == []
    || (fetches[0].rpcError.None?
        && (fetches[0].answer.None?
            || var a := fetches[0].answer.value;
               !a.undecoded && if a.more then Sound(fetches[1..]) else !a.part))
  }

  /** The entries up to the last answer. */
  function Entries<W>(fetches: seq<Fetch<W>>): seq<Key> {
    if fetches == [] || fetches[0].answer.None? then []
    else fetches[0].answer.value.entries + if fetches[0].answer.value.more then Entries(fetches[1..]) else []
  }

  /** The ranges reported as failed up to the last answer. */
  function Reported<W>(fetches: seq<Fetch<W>>): seq<Failure<W>> {
    if fetches == [] || fetches[0].answer.None? then []
    else fetches[0].answer.value.failed + if fetches[0].answer.value.more then Reported(fetches[1..]) else []
  }

  /** Paging reports no failure exactly when the answers are sound, and then collects them all. */
  lemma {:induction false} SoundSessionsPage<W>(fetches: seq<Fetch<W>>)
    ensures Paged(fetches).failures == [] <==> Sound(fetches)
    ensures Sound(fetches) ==> Paged(fetches).entries == Entries(fetches) && Paged(fetches).failed == Reported(fetches)
    decreases |fetches|
  {
    var first, later := FirstFetch(fetches), LaterFetches(fetches);
    PagesSteps(first.answer, later);
    if first.answer.Some? && first.answer.value.more { SoundSessionsPage(later); }
  }

  // ---- Failed ranges are read again ----

  /** What will come of reading one failed segment again: whether its location could be invalidated, the
      tablet lists seen while planning it, and the tries of scanning each planned segment. */
  datatype Rescan = Rescan(invalidated: bool, moments: seq<seq<Tablet>>, tries: nat -> seq<L.Try>)

  datatype GroupFailure =
    | SessionFailed(failures: R.Report)
    | UnknownRange
    | NotInvalidated
    | NotPlanned(error: ScanError)
    | NotScanned(failure: L.ScanFailure)

  type Returned = L.Returned<GroupFailure>

  function OfGroup(result: L.Returned<L.ScanFailure>): Returned {
    L.Returned(result.values, if result.failure.None? then None else Some(NotScanned(result.failure.value)), result.cleanups)
  }

  /** The results in order, up to and including the first with any error, be it only a failure to release a
      session. */
  function Strictly(results: seq<L.Returned<L.ScanFailure>>): Returned {
    if results == [] then L.Returned([], None, [])
    else if !results[0].IsClean() then OfGroup(results[0])
    else L.Before(results[0].values, [], Strictly(results[1..]))
  }

  /** The scans of a failed segment's plan. */
  function Scans(plan: seq<Segment>, rescan: Rescan): (results: seq<L.Returned<L.ScanFailure>>)
    ensures |results| == |plan|
  {
    L.ResultsOf(L.Results(plan, rescan.tries))
  }

  /** The failed segments from k on, each planned anew and scanned, up to the first error. */
  function ReadAgain(failed: seq<Segment>, rescans: nat -> Rescan, k: nat): Returned
    decreases |failed| - k
  {
    if k >= |failed| then L.Returned([], None, [])
    else if !rescans(k).invalidated then L.Returned([], Some(NotInvalidated), [])
    else
      match PlanRange(failed[k].range, rescans(k).moments).0
      case Err(error) => L.Returned([], Some(NotPlanned(error)), [])
      case Ok(plan) =>
        var result := Strictly(Scans(plan, rescans(k)));
        if !result.IsClean() then result else L.Before(result.values, [], ReadAgain(failed, rescans, k + 1))
  }

  /** What will come of a group: no session, or its answers and whether it could be released; the order in
      which the reported ranges are walked; and what comes of reading failed segments again. */
  datatype Session<W> = NoSession(error: R.StreamError) | Session(fetches: seq<Fetch<W>>, closing: Option<R.StreamError>)

  datatype Script<!W> =
    Script(session: Session<W>, walk: seq<Failure<W>> -> seq<Failure<W>>, rescans: nat -> Rescan)

  /** scanMultiGroup. */
  function ScanGroup<W(==)>(segments: seq<Segment>, wire: Range -> W, script: Script<W>): Returned {
    match script.session
    case NoSession(error) => L.Returned([], Some(SessionFailed([error])), [])
    case Session(fetches, closing) =>
      var pages := Paged(fetches);
      if pages.failures != [] then L.Returned(pages.entries, Some(SessionFailed(pages.failures)), R.Listed(closing))
      else
        match MatchedSegments(segments, wire, script.walk(pages.failed))
        case None => L.Returned(pages.entries, Some(UnknownRange), R.Listed(closing))
        case Some(failed) =>
          var again := ReadAgain(failed, script.rescans, 0);
          L.Returned(pages.entries + again.values, again.failure, again.cleanups + R.Listed(closing))
  }

  method ScanMultiGroup<W(==)>(segments: seq<Segment>, wire: Range -> W, script: Script<W>) returns (result: Returned)
    ensures result == ScanGroup(segments, wire, script)
  {
    hide L.ScanFrom, MatchFrom, Paged;
    if script.session.NoSession? { return L.Returned([], Some(SessionFailed([script.session.error])), []); }
    var pages := PageSession(script.session.fetches);
    var values, cleanups := pages.entries, R.Listed(script.session.closing);
    if pages.failures != [] { return L.Returned(values, Some(SessionFailed(pages.failures)), cleanups); }
    var matched := MatchFailedSegments(segments, wire, script.walk(pages.failed));
    if matched.None? { return L.Returned(values, Some(UnknownRange), cleanups); }
    MatchedInRange(segments, wire, script.walk(pages.failed));
    var again := ReadFailedAgain(Picked(segments, matched.value), script.rescans);
    return L.Returned(values + again.values, again.failure, again.cleanups + cleanups);
  }

  /** The outer loop over the failed segments. */
  method ReadFailedAgain(failed: seq<Segment>, rescans: nat -> Rescan) returns (result: Returned)
    ensures result == ReadAgain(failed, rescans, 0)
  {
    hide PlanRange, Scans, Strictly, L.Before;
    ghost var all := ReadAgain(failed, rescans, 0);
    var values: seq<Key> := [];
    L.BeforeTwice([], [], [], [], all);
    for k := 0 to |failed|
      invariant all == L.Before(values, [], ReadAgain(failed, rescans, k))
    {
      var rescan := rescans(k);
      L.EndsWith(values, [], ReadAgain(failed, rescans, k));
      if !rescan.invalidated { return L.Returned(values, Some(NotInvalidated), []); }
      var locator := new Locator(rescan.moments);
      PlansOne(failed[k].range, rescan.moments);
      var plan := PlanBatchScan(locator, [Some(failed[k].range)]);
      if plan.Err? { return L.Returned(values, Some(NotPlanned(plan.error)), []); }
      var part := ReadStrictly(plan.value, rescan);
      if !part.IsClean() { return L.Returned(values + part.values, part.failure, part.cleanups); }
      L.BeforeTwice(values, [], part.values, [], ReadAgain(failed, rescans, k + 1));
      values := values + part.values;
    }
    L.EndsWith(values, [], ReadAgain(failed, rescans, |failed|));
    return L.Returned(values, None, []);
  }

  lemma PlansOne(r: Range, moments: seq<seq<Tablet>>)
    ensures PlanRanges([Some(r)], moments).0 == PlanRange(r, moments).0
  {
    hide PlanRange;
    var (plan, left) := PlanRange(r, moments);
    assert [Some(r)][1..] == [] && PlanRanges([], left) == (Ok([]), left);
    if plan.Ok? { assert plan.value + [] == plan.value; }
  }

  /** The inner loop: the planned segments are scanned in order, up to the first error. */
  method ReadStrictly(plan: seq<Segment>, rescan: Rescan) returns (result: Returned)
    ensures result == Strictly(Scans(plan, rescan))
  {
    hide L.ScanFrom;
    ghost var all := Scans(plan, rescan);
    var values: seq<Key> := [];
    assert all[0..] == all;
    L.BeforeTwice([], [], [], [], Strictly(all));
    for i := 0 to |plan|
      invariant Strictly(all) == L.Before(values, [], Strictly(all[i..]))
    {
      assert all[i..][0] == all[i] && all[i..][1..] == all[i + 1..];
      var s := plan[i];
      var scanned := L.ScanLocated(s.range, s.routingRow, s.tablet, rescan.tries(i));
      var part := OfGroup(scanned.Result());
      if !part.IsClean() { return L.Returned(values + part.values, part.failure, part.cleanups); }
      L.BeforeTwice(values, [], part.values, [], Strictly(all[i + 1..]));
      values := values + part.values;
    }
    assert values + [] == values;
    return L.Returned(values, None, []);
  }

  // ---- When a group fails ----

  /** Scanning stops at the first result with an error, and reports that one. */
  lemma {:induction false} StrictlyReports(results: seq<L.Returned<L.ScanFailure>>, n: nat)
    requires n <= |results| && forall k :: 0 <= k < n ==> results[k].IsClean()
    ensures n == |results| ==> Strictly(results).IsClean()
    ensures n < |results| && !results[n].IsClean() ==>
              && Strictly(results).cleanups == results[n].cleanups
              && Strictly(results).failure
                 == match results[n].failure case None => None case Some(failure) => Some(NotScanned(failure))
    decreases n
  {
    if n > 0 {
      assert forall k :: 0 <= k < n - 1 ==> results[1..][k] == results[k + 1];
      StrictlyReports(results[1..], n - 1);
    }
  }

  /** The failed segment is invalidated, planned and scanned without any error. */
  ghost predicate ReadsClean(s: Segment, rescan: Rescan) {
    && rescan.invalidated && PlanRange(s.range, rescan.moments).0.Ok?
    && Strictly(Scans(PlanRange(s.range, rescan.moments).0.value, rescan)).IsClean()
  }

  /** Reading again stops at the first segment with an error, and reports that one. */
  lemma {:induction false} AgainReports(failed: seq<Segment>, rescans: nat -> Rescan, k: nat, n: nat)
    requires k <= n <= |failed| && forall m: nat :: k <= m < n ==> ReadsClean(failed[m], rescans(m))
    ensures n == |failed| ==> ReadAgain(failed, rescans, k).IsClean()
    ensures n < |failed| && !ReadsClean(failed[n], rescans(n)) ==>
              var again, plan := ReadAgain(failed, rescans, k), PlanRange(failed[n].range, rescans(n).moments).0;
              && (!rescans(n).invalidated ==> again.failure == Some(NotInvalidated))
              && (rescans(n).invalidated && plan.Err? ==> again.failure == Some(NotPlanned(plan.error)))
              && (rescans(n).invalidated && plan.Ok? ==>
                    var result := Strictly(Scans(plan.value, rescans(n)));
                    again.failure == result.failure && again.cleanups == result.cleanups)
    decreases n - k
  {
    hide PlanRange, Scans, Strictly;
    if k < n {
      assert ReadsClean(failed[k], rescans(k));
      AgainReports(failed, rescans, k + 1, n);
    }
  }

  /** A group fails for its session exactly when none is started or its answers are not sound, for an unknown
      range exactly when one was reported, and otherwise as reading again does. */
  lemma GroupReports<W>(segments: seq<Segment>, wire: Range -> W, script: Script<W>)
    ensures var result := ScanGroup(segments, wire, script);
            if script.session.NoSession? then result == L.Returned([], Some(SessionFailed([script.session.error])), [])
            else
              var fetches := script.session.fetches;
              var matched := MatchedSegments(segments, wire, script.walk(Reported(fetches)));
              && (result.failure.Some? && result.failure.value.SessionFailed? <==> !Sound(fetches))
              && (result.failure == Some(UnknownRange) <==> Sound(fetches) && matched.None?)
              && (Sound(fetches) && matched.Some? ==>
                    var again := ReadAgain(matched.value, script.rescans, 0);
                    && result.failure == again.failure
                    && result.values == Entries(fetches) + again.values
                    && result.cleanups == again.cleanups + R.Listed(script.session.closing))
  {
    hide MatchedSegments, Paged, Sound, Entries, Reported, ReadAgain;
    if script.session.Session? {
      SoundSessionsPage(script.session.fetches);
      var matched := MatchedSegments(segments, wire, script.walk(Reported(script.session.fetches)));
      if matched.Some? { AgainFailsItself(matched.value, script.rescans, 0); }
    }
  }

  lemma {:induction false} AgainFailsItself(failed: seq<Segment>, rescans: nat -> Rescan, k: nat)
    ensures var failure := ReadAgain(failed, rescans, k).failure;
            failure.Some? ==> !failure.value.SessionFailed? && !failure.value.UnknownRange?
    decreases |failed| - k
  {
    hide PlanRange, Scans;
    if k < |failed| && PlanRange(failed[k].range, rescans(k).moments).0.Ok? {
      StrictlyFailsItself(Scans(PlanRange(failed[k].range, rescans(k).moments).0.value, rescans(k)));
      AgainFailsItself(failed, rescans, k + 1);
    }
  }

  lemma {:induction false} StrictlyFailsItself(results: seq<L.Returned<L.ScanFailure>>)
    ensures Strictly(results).failure.Some? ==> Strictly(results).failure.value.NotScanned?
  {
    if results != [] { StrictlyFailsItself(results[1..]); }
  }

  // ---- One group ----

  /** Planned segments no tablet of which they can overhang. */
  ghost predicate Readable(segments: seq<Segment>) {
    forall s :: s in segments ==> L.Fitting(s) && s.routingRow == RoutingRow(s.range)
  }

  /** What a scan without failure of one segment returns, however often it started over. */
  lemma SegmentIsRead(table: seq<Key>, s: Segment, tries: seq<L.Try>)
    requires LiveTable(table) && L.Fitting(s) && s.routingRow == RoutingRow(s.range)
    requires L.TruthfulTries(table, s.range, s.routingRow, s.tablet, tries)
    ensures var scanned := L.ScanFrom(s.range, s.routingRow, s.tablet, tries, []);
            scanned.failure.None? ==> scanned.values == Select(table, s.range)
  {
    hide L.ScanFrom, L.TruthfulTries, LiveTable, Select, MayOverhang, Constructed, FitsTablet, Overhangs;
    L.ScanReadsTheRange(table, s.range, s.tablet, tries);
    L.ScanEndsInRoutedTablet(table, s.range, s.routingRow, s.tablet, tries, []);
    var scanned := L.ScanFrom(s.range, s.routingRow, s.tablet, tries, []);
    if scanned.failure.None? && Overhangs(s.range, scanned.tablet.extent) {
      OverhangingMay(s.range, scanned.tablet.extent);
    }
  }

  /** A plan of a range that cannot overhang reads the range by readable segments. */
  lemma PlanIsReadable(r: Range, moments: seq<seq<Tablet>>, table: seq<Key>)
    requires LiveTable(table) && Constructed(r) && !MayOverhang(r) && PlanRange(r, moments).0.Ok?
    ensures Readable(PlanRange(r, moments).0.value)
    ensures SelectAll(table, PlanRange(r, moments).0.value) == Select(table, r)
  {
    hide PlanRange, MayOverhang, Constructed, FitsTablet, ContainsRow, Select;
    LiveIsSorted(table);
    PlannedSegmentsFit(r, moments);
    PlannedRangesStayInside(r, moments);
    PlanKeepsReads(r, moments, table);
  }

  /** The planned segments behind the first error. */
  function LeftBehind(plan: seq<Segment>, results: seq<L.Returned<L.ScanFailure>>): seq<Segment>
    requires |plan| == |results|
  {
    if plan == [] then [] else if !results[0].IsClean() then plan[1..] else LeftBehind(plan[1..], results[1..])
  }

  lemma {:induction false} StrictlyReads(table: seq<Key>, plan: seq<Segment>, results: seq<L.Returned<L.ScanFailure>>)
    requires |plan| == |results|
    requires forall i :: 0 <= i < |plan| && results[i].failure.None? ==> results[i].values == Select(table, plan[i].range)
    ensures Strictly(results).failure.None? ==>
              Strictly(results).values + SelectAll(table, LeftBehind(plan, results)) == SelectAll(table, plan)
    ensures Strictly(results).IsClean() ==> LeftBehind(plan, results) == []
  {
    if plan != [] {
      hide Select;
      forall i | 0 <= i < |plan[1..]| && results[1..][i].failure.None?
        ensures results[1..][i].values == Select(table, plan[1..][i].range)
      {
        assert plan[1..][i] == plan[i + 1] && results[1..][i] == results[i + 1];
      }
      StrictlyReads(table, plan[1..], results[1..]);
      var later, left := Strictly(results[1..]).values, SelectAll(table, LeftBehind(plan[1..], results[1..]));
      assert results[0].values + later + left == results[0].values + (later + left);
    }
  }

  /** What is not read again of the failed segments from k on: what is left of a plan, and the failed
      segments after it. */
  function Skipped(failed: seq<Segment>, rescans: nat -> Rescan, k: nat): seq<Segment>
    decreases |failed| - k
  {
    if k >= |failed| then []
    else
      match PlanRange(failed[k].range, rescans(k).moments).0
      case Err(_) => []
      case Ok(plan) =>
        if Strictly(Scans(plan, rescans(k))).IsClean() then Skipped(failed, rescans, k + 1)
        else LeftBehind(plan, Scans(plan, rescans(k))) + failed[k + 1..]
  }

  ghost predicate TruthfulRescans(table: seq<Key>, failed: seq<Segment>, rescans: nat -> Rescan) {
    forall k :: 0 <= k < |failed| && PlanRange(failed[k].range, rescans(k).moments).0.Ok? ==>
      L.TruthfulWorkers(table, PlanRange(failed[k].range, rescans(k).moments).0.value, rescans(k).tries)
  }

  /** Reading one failed segment again reads it, but for what is left behind. */
  lemma OneIsReadAgain(table: seq<Key>, s: Segment, rescan: Rescan)
    requires LiveTable(table) && L.Fitting(s) && PlanRange(s.range, rescan.moments).0.Ok?
    requires L.TruthfulWorkers(table, PlanRange(s.range, rescan.moments).0.value, rescan.tries)
    ensures var plan := PlanRange(s.range, rescan.moments).0.value;
            var result := Strictly(Scans(plan, rescan));
            && (result.failure.None? ==>
                  result.values + SelectAll(table, LeftBehind(plan, Scans(plan, rescan))) == Select(table, s.range))
            && (result.IsClean() ==> LeftBehind(plan, Scans(plan, rescan)) == [])
  {
    hide PlanRange, LiveTable, L.TruthfulTries, L.ScanFrom, Strictly, LeftBehind, Select, SelectAll;
    var plan := PlanRange(s.range, rescan.moments).0.value;
    PlanIsReadable(s.range, rescan.moments, table);
    forall i | 0 <= i < |plan| && Scans(plan, rescan)[i].failure.None?
      ensures Scans(plan, rescan)[i].values == Select(table, plan[i].range)
    {
      assert plan[i] in plan;
      SegmentIsRead(table, plan[i], rescan.tries(i));
    }
    StrictlyReads(table, plan, Scans(plan, rescan));
  }

  /** What is read again and what is skipped are the failed segments, in order. */
  lemma {:induction false} AgainReads(table: seq<Key>, failed: seq<Segment>, rescans: nat -> Rescan, k: nat)
    requires LiveTable(table) && k <= |failed| && (forall s :: s in failed ==> L.Fitting(s))
    requires TruthfulRescans(table, failed, rescans)
    ensures var again := ReadAgain(failed, rescans, k);
            && (again.failure.None? ==>
                  again.values + SelectAll(table, Skipped(failed, rescans, k)) == SelectAll(table, failed[k..]))
            && (again.IsClean() ==> Skipped(failed, rescans, k) == [])
    decreases |failed| - k
  {
    hide LiveTable, L.Fitting, L.TruthfulWorkers, Strictly, Scans, PlanRange, Select;
    if k < |failed| {
      assert failed[k] in failed && failed[k..][1..] == failed[k + 1..];
      var rescan := rescans(k);
      if rescan.invalidated && PlanRange(failed[k].range, rescan.moments).0.Ok? {
        OneIsReadAgain(table, failed[k], rescan);
        AgainReads(table, failed, rescans, k + 1);
        SelectAllConcat(table, LeftBehind(PlanRange(failed[k].range, rescan.moments).0.value,
                                          Scans(PlanRange(failed[k].range, rescan.moments).0.value, rescan)), failed[k + 1..]);
      }
    }
  }

  /** What a group's scan skips. */
  function SkippedIn<W(==)>(segments: seq<Segment>, wire: Range -> W, script: Script<W>): seq<Segment> {
    if script.session.NoSession? then []
    else
      match MatchedSegments(segments, wire, script.walk(Paged(script.session.fetches).failed))
      case None => []
      case Some(failed) => Skipped(failed, script.rescans, 0)
  }

  /** A session with sound answers read, in any order, the segments it served from their tablets, and reported
      exactly the others, in whatever order they are walked; and what is read again is read truthfully. */
  ghost predicate TruthfulGroup<W(!new)>(table: seq<Key>, segments: seq<Segment>, wire: Range -> W, script: Script<W>,
      served: seq<nat>, failed: seq<nat>)
  {
    script.session.Session? && Sound(script.session.fetches) ==>
      var reported := Reported(script.session.fetches);
      && multiset(script.walk(reported)) == multiset(reported)
      && NamesExactly(segments, wire, reported, failed)
      && DistinctIndexes(served) && (forall i: nat :: i in served <==> i < |segments| && i !in failed)
      && (forall k :: 0 <= k < |served| ==> served[k] < |segments|)
      && multiset(Entries(script.session.fetches)) == multiset(ScanAll(table, Picked(segments, served)))
      && var matched := MatchedSegments(segments, wire, script.walk(reported));
         (matched.Some? ==> TruthfulRescans(table, matched.value, script.rescans))
  }

  lemma WalkedNames<W(!new)>(segments: seq<Segment>, wire: Range -> W, failures: seq<Failure<W>>,
      walked: seq<Failure<W>>, failed: seq<nat>)
    requires multiset(walked) == multiset(failures) && NamesExactly(segments, wire, failures, failed)
    ensures NamesExactly(segments, wire, walked, failed)
  {
    hide NameOf;
    forall f: Failure<W> ensures f in walked <==> f in failures {
      assert f in walked <==> f in multiset(walked);
    }
  }

  lemma ReadableIsSelected(table: seq<Key>, segments: seq<Segment>)
    requires LiveTable(table) && forall s :: s in segments ==> L.Fitting(s)
    ensures ScanAll(table, segments) == SelectAll(table, segments)
  {
    hide LiveTable, MayOverhang, Overhangs, Constructed, FitsTablet, ContainsRow, ScanAll, SelectAll;
    forall i | 0 <= i < |segments| ensures !Overhangs(segments[i].range, segments[i].tablet.extent) {
      var s := segments[i];
      assert L.Fitting(s);
      if Overhangs(s.range, s.tablet.extent) { OverhangingMay(s.range, s.tablet.extent); }
    }
    ScanAllIsSelectAll(table, segments);
  }

  /** A group's entries and those of what it skips are its segments' entries. */
  lemma GroupReads<W(!new)>(table: seq<Key>, segments: seq<Segment>, wire: Range -> W, script: Script<W>,
      served: seq<nat>, failed: seq<nat>)
    requires LiveTable(table) && Readable(segments) && DistinctNames(segments, wire)
    requires TruthfulGroup(table, segments, wire, script, served, failed)
    ensures var result := ScanGroup(segments, wire, script);
            && (result.failure.None? ==>
                  multiset(result.values) + multiset(SelectAll(table, SkippedIn(segments, wire, script)))
                  == multiset(SelectAll(table, segments)))
            && (result.IsClean() ==> SkippedIn(segments, wire, script) == [])
  {
    hide LiveTable, L.Fitting, DistinctNames, NamesExactly, DistinctIndexes, MatchedSegments, Paged, ReadAgain, Skipped;
    hide SelectAll, ScanAll, TruthfulRescans, Sound, Entries, Reported;
    if script.session.Session? { SoundSessionsPage(script.session.fetches); }
    if ScanGroup(segments, wire, script).failure.None? {
      var pages := Paged(script.session.fetches);
      var walked := script.walk(pages.failed);
      WalkedNames(segments, wire, pages.failed, walked, failed);
      ServedAndFailedReadTheGroup(segments, wire, walked, failed, served, table);
      var again := MatchedSegments(segments, wire, walked).value;
      MatchedAreTheirs(segments, wire, walked);
      AllFitting(segments, again);
      AllFitting(segments, Picked(segments, served));
      ReadableIsSelected(table, Picked(segments, served));
      AgainReads(table, again, script.rescans, 0);
      assert again[0..] == again;
      var reread := ReadAgain(again, script.rescans, 0);
      assert multiset(reread.values + SelectAll(table, Skipped(again, script.rescans, 0)))
             == multiset(reread.values) + multiset(SelectAll(table, Skipped(again, script.rescans, 0)));
      CleanParts(reread.cleanups, R.Listed(script.session.closing));
    }
  }

  lemma AllFitting(segments: seq<Segment>, some: seq<Segment>)
    requires Readable(segments) && forall s :: s in some ==> s in segments
    ensures forall s :: s in some ==> L.Fitting(s)
  {
  }

  lemma CleanParts(a: seq<R.StreamError>, b: seq<R.StreamError>)
    ensures a + b == [] ==> a == [] && b == []
  {
  }

  // ---- All groups ----

  /** What the workers find for the groups, in group order. */
  function Results<W(==)>(groups: seq<Group>, wire: Range -> W, scripts: seq<Script<W>>): (results: seq<Returned>)
    requires |scripts| == |groups|
    ensures |results| == |groups|
    ensures forall i :: 0 <= i < |groups| ==> results[i] == ScanGroup(groups[i].segments, wire, scripts[i])
  {
    seq(|groups|, i requires 0 <= i < |groups| => ScanGroup(groups[i].segments, wire, scripts[i]))
  }

  /** BatchScanner.Scan over multi-scan groups: workers take groups in any order and write each result to its
      own slot; the results are then put together up to the first failure. */
  method ExecuteMultiBatchScan<W(==)>(groups: seq<Group>, wire: Range -> W, scripts: seq<Script<W>>, schedule: seq<nat>)
    returns (result: Returned)
    requires |scripts| == |groups|
    requires forall i :: i in schedule ==> i < |groups|
    requires forall i :: 0 <= i < |groups| ==> i in schedule
    ensures result == L.Joined(Results(groups, wire, scripts))
  {
    hide ScanGroup;
    ghost var all := Results(groups, wire, scripts);
    var results := new Returned[|groups|](_ => L.Returned([], None, []));
    for step := 0 to |schedule|
      invariant forall i :: i in schedule[..step] ==> i < |groups| && results[i] == all[i]
    {
      assert schedule[..step + 1] == schedule[..step] + [schedule[step]];
      assert schedule[step] in schedule;
      var i := schedule[step];
      var scanned := ScanMultiGroup(groups[i].segments, wire, scripts[i]);
      results[i] := scanned;
    }
    assert schedule[..|schedule|] == schedule;
    forall i | 0 <= i < |groups| ensures results[i] == all[i] {
      assert i in schedule;
    }
    assert results[..] == all;
    result := L.JoinResults(results[..]);
  }

  /** The segments of all groups, group by group. */
  function AllSegments(groups: seq<Group>): seq<Segment> {
    if groups == [] then [] else groups[0].segments + AllSegments(groups[1..])
  }

  function AllSkipped<W(==)>(groups: seq<Group>, wire: Range -> W, scripts: seq<Script<W>>): seq<Segment>
    requires |scripts| == |groups|
  {
    if groups == [] then []
    else SkippedIn(groups[0].segments, wire, scripts[0]) + AllSkipped(groups[1..], wire, scripts[1..])
  }

  /** The groups' segments are readable and look different to their server; their sessions are truthful. */
  ghost predicate TruthfulGroups<W(!new)>(table: seq<Key>, groups: seq<Group>, wire: Range -> W, scripts: seq<Script<W>>,
      served: seq<seq<nat>>, failed: seq<seq<nat>>)
  {
    && |groups| == |scripts| == |served| == |failed|
    && forall i :: 0 <= i < |groups| ==>
         TruthfulGroup(table, groups[i].segments, wire, scripts[i], served[i], failed[i])
  }

  lemma JoinedNothing()
    ensures L.Joined<GroupFailure>([]) == L.Returned([], None, [])
  {
  }

  lemma JoinedSteps(results: seq<Returned>)
    requires results != [] && L.Joined(results).failure.None?
    ensures var later := L.Joined(results[1..]);
            && results[0].failure.None? && later.failure.None?
            && L.Joined(results).values == results[0].values + later.values
            && (L.Joined(results).IsClean() ==> results[0].IsClean() && later.IsClean())
  {
    CleanParts(results[0].cleanups, L.Joined(results[1..]).cleanups);
  }

  lemma Together(read: seq<Key>, skipped: seq<Key>, all: seq<Key>, read': seq<Key>, skipped': seq<Key>, all': seq<Key>)
    requires multiset(read) + multiset(skipped) == multiset(all)
    requires multiset(read') + multiset(skipped') == multiset(all')
    ensures multiset(read + read') + multiset(skipped + skipped') == multiset(all + all')
  {
  }

  lemma {:induction false} AllGroupsRead<W(!new)>(table: seq<Key>, groups: seq<Group>, wire: Range -> W,
      scripts: seq<Script<W>>, served: seq<seq<nat>>, failed: seq<seq<nat>>)
    requires LiveTable(table) && TruthfulGroups(table, groups, wire, scripts, served, failed)
    requires forall i :: 0 <= i < |groups| ==> Readable(groups[i].segments) && DistinctNames(groups[i].segments, wire)
    ensures var result := L.Joined(Results(groups, wire, scripts));
            && (result.failure.None? ==>
                  multiset(result.values) + multiset(SelectAll(table, AllSkipped(groups, wire, scripts)))
                  == multiset(SelectAll(table, AllSegments(groups))))
            && (result.IsClean() ==> AllSkipped(groups, wire, scripts) == [])
  {
    hide LiveTable, Readable, DistinctNames, TruthfulGroup, ScanGroup, SkippedIn, SelectAll, L.Joined;
    JoinedNothing();
    if groups != [] {
      assert TruthfulGroups(table, groups[1..], wire, scripts[1..], served[1..], failed[1..]);
      assert Results(groups, wire, scripts)[1..] == Results(groups[1..], wire, scripts[1..]);
      AllGroupsRead(table, groups[1..], wire, scripts[1..], served[1..], failed[1..]);
      GroupReads(table, groups[0].segments, wire, scripts[0], served[0], failed[0]);
      var skipped, later := SkippedIn(groups[0].segments, wire, scripts[0]), AllSkipped(groups[1..], wire, scripts[1..]);
      SelectAllConcat(table, skipped, later);
      SelectAllConcat(table, groups[0].segments, AllSegments(groups[1..]));
      var results := Results(groups, wire, scripts);
      if L.Joined(results).failure.None? {
        JoinedSteps(results);
        Together(results[0].values, SelectAll(table, skipped), SelectAll(table, groups[0].segments),
                 L.Joined(results[1..]).values, SelectAll(table, later), SelectAll(table, AllSegments(groups[1..])));
      }
    }
  }

  // ---- A whole scan ----

  lemma {:induction false} GroupedOnce(groups: seq<Group>, address: string, segment: Segment)
    ensures multiset(AllSegments(AddToGroups(groups, address, segment))) == multiset(AllSegments(groups)) + multiset{segment}
  {
    if groups != [] && groups[0].address != address { GroupedOnce(groups[1..], address, segment); }
  }

  /** Grouping keeps every segment, once. */
  lemma {:induction false} GroupsHoldSegments(segments: seq<Segment>)
    requires Assigned(segments)
    ensures multiset(AllSegments(GroupsOf(segments))) == multiset(segments)
  {
    if segments != [] {
      hide AddToGroups, AllSegments;
      var front, last := segments[..|segments| - 1], segments[|segments| - 1];
      assert segments == front + [last];
      GroupsHoldSegments(front);
      GroupedOnce(GroupsOf(front), last.tablet.server.value, last);
    }
  }

  lemma {:induction false} GroupIsListed(groups: seq<Group>, i: nat)
    requires DistinctGroups(groups) && i < |groups|
    ensures Grouped(groups, groups[i].address) == groups[i].segments
    ensures forall s :: s in groups[i].segments ==> s in AllSegments(groups)
  {
    if i > 0 {
      assert forall j :: 0 <= j < |groups[1..]| ==> groups[1..][j] == groups[j + 1];
      GroupIsListed(groups[1..], i - 1);
    }
  }

  /** A group is the segments of its server. */
  lemma GroupIsOnServer(segments: seq<Segment>, i: nat)
    requires Assigned(segments) && i < |GroupsOf(segments)|
    ensures GroupsOf(segments)[i].segments == OnServer(segments, GroupsOf(segments)[i].address)
    ensures forall s :: s in GroupsOf(segments)[i].segments ==> s in segments
  {
    hide GroupsOf, Grouped, OnServer, DistinctGroups, AllSegments;
    var groups := GroupsOf(segments);
    GroupsPartition(segments, groups[i].address);
    GroupIsListed(groups, i);
    GroupsHoldSegments(segments);
    forall s | s in groups[i].segments ensures s in segments {
      assert s in multiset(AllSegments(groups));
    }
  }

  /** In every group the segments look different to the server. */
  ghost predicate DistinctInGroups<W(!new)>(segments: seq<Segment>, wire: Range -> W)
    requires Assigned(segments)
  {
    forall i :: 0 <= i < |GroupsOf(segments)| ==> DistinctNames(GroupsOf(segments)[i].segments, wire)
  }

  /** What a multi-scan returns and what it skips are the entries of its segments; and it skips nothing unless
      it reports that a session could not be released. */
  lemma GroupsReadSegments<W(!new)>(table: seq<Key>, segments: seq<Segment>, wire: Range -> W,
      scripts: seq<Script<W>>, served: seq<seq<nat>>, failed: seq<seq<nat>>)
    requires LiveTable(table) && Readable(segments) && Assigned(segments) && DistinctInGroups(segments, wire)
    requires TruthfulGroups(table, GroupsOf(segments), wire, scripts, served, failed)
    ensures var result, skipped := L.Joined(Results(GroupsOf(segments), wire, scripts)),
                                   AllSkipped(GroupsOf(segments), wire, scripts);
            && (result.failure.None? ==>
                  multiset(result.values) + multiset(SelectAll(table, skipped)) == multiset(SelectAll(table, segments)))
            && (result.IsClean() ==> skipped == [])
  {
    hide LiveTable, L.Fitting, DistinctNames, GroupsOf, TruthfulGroup, L.Joined, AllSkipped, SelectAll;
    var groups := GroupsOf(segments);
    forall i | 0 <= i < |groups| ensures Readable(groups[i].segments) && DistinctNames(groups[i].segments, wire) {
      GroupIsOnServer(segments, i);
    }
    AllGroupsRead(table, groups, wire, scripts, served, failed);
    GroupsHoldSegments(segments);
    SameSegmentsSameReads(table, AllSegments(groups), segments);
  }

  // ---- The segments of one range look different by themselves ----

  ghost predicate DistinctExtents(segments: seq<Segment>) {
    forall i, j :: 0 <= i < j < |segments| ==> segments[i].tablet.extent != segments[j].tablet.extent
  }

  lemma {:induction false} PlanStartsInOrder(r: Range, moments: seq<seq<Tablet>>)
    requires Constructed(r) && PlanRange(r, moments).0.Ok?
    ensures Assigned(PlanRange(r, moments).0.value)
    ensures forall s :: s in PlanRange(r, moments).0.value ==>
              AtMost(RoutingRow(r), s.routingRow) && ContainsRow(s.tablet.extent, s.routingRow)
    ensures DistinctExtents(PlanRange(r, moments).0.value)
    decreases |moments|
  {
    hide FitsTablet, Clipped, Compare;
    var (located, left) := LocateTablet(moments, RoutingRow(r));
    var tablet := located.value;
    CompareAntisymmetric(RoutingRow(r), RoutingRow(r));
    if !FitsTablet(r, tablet.extent) {
      CutSplits(r, tablet.extent, FirstKey([]));
      var remaining := Remaining(r, tablet.extent);
      PlanStartsInOrder(remaining, left);
      var rest := PlanRange(remaining, left).0.value;
      var end := tablet.extent.end.value;
      assert RoutingRow(remaining) == Successor(end);
      SuccessorIsNext(end, end);
      forall s | s in rest
        ensures AtMost(RoutingRow(r), s.routingRow) && s.tablet.extent != tablet.extent
      {
        StartsBehind(RoutingRow(r), end, s.routingRow);
      }
    }
  }

  lemma StartsBehind(row: Bytes, end: Bytes, later: Bytes)
    requires AtMost(row, end) && AtMost(Successor(end), later)
    ensures AtMost(row, later) && !AtMost(later, end)
  {
    SuccessorIsNext(end, later);
    CompareAntisymmetric(end, later);
    CompareTransitive(row, end, later);
  }

  lemma {:induction false} DistinctOnServer(segments: seq<Segment>, address: string)
    requires DistinctExtents(segments)
    ensures DistinctExtents(OnServer(segments, address))
    ensures forall s :: s in OnServer(segments, address) ==> s in segments
  {
    if segments != [] {
      var front, last := segments[..|segments| - 1], segments[|segments| - 1];
      assert segments == front + [last];
      DistinctOnServer(front, address);
      var mine := OnServer(front, address);
      forall i | 0 <= i < |mine| ensures mine[i].tablet.extent != last.tablet.extent {
        assert mine[i] in front;
      }
    }
  }

  /** The segments planned for one range name different tablets, so no two of them look alike. */
  lemma PlannedNamesDiffer<W(!new)>(r: Range, moments: seq<seq<Tablet>>, wire: Range -> W)
    requires Constructed(r) && PlanRange(r, moments).0.Ok?
    ensures Assigned(PlanRange(r, moments).0.value) && DistinctInGroups(PlanRange(r, moments).0.value, wire)
  {
    hide PlanRange, OnServer, GroupsOf;
    var segments := PlanRange(r, moments).0.value;
    PlanStartsInOrder(r, moments);
    forall i | 0 <= i < |GroupsOf(segments)| ensures DistinctNames(GroupsOf(segments)[i].segments, wire) {
      GroupIsOnServer(segments, i);
      DistinctOnServer(segments, GroupsOf(segments)[i].address);
    }
  }

  // ---- What a multi-scan returns ----

  function PlannedGroups(r: Range, moments: seq<seq<Tablet>>): seq<Group>
    requires Constructed(r) && PlanRange(r, moments).0.Ok?
  {
    PlanStartsInOrder(r, moments);
    GroupsOf(PlanRange(r, moments).0.value)
  }

  /** However tablets move while planning, scanning and scanning again, a multi-scan that reports no error
      for a range that cannot overhang returns exactly the live table's entries in the range, none twice. If
      it only reports sessions it could not release, the entries missing are exactly those of the segments
      it skipped. */
  lemma MultiScanReadsTheRange<W(!new)>(r: Range, moments: seq<seq<Tablet>>, wire: Range -> W, scripts: seq<Script<W>>,
      served: seq<seq<nat>>, failed: seq<seq<nat>>, table: seq<Key>)
    requires LiveTable(table) && Constructed(r) && !MayOverhang(r) && PlanRange(r, moments).0.Ok?
    requires TruthfulGroups(table, PlannedGroups(r, moments), wire, scripts, served, failed)
    ensures var groups := PlannedGroups(r, moments);
            var result, skipped := L.Joined(Results(groups, wire, scripts)), AllSkipped(groups, wire, scripts);
            && (result.IsClean() ==> skipped == [] && multiset(result.values) == multiset(Select(table, r)))
            && (result.failure.None? ==>
                  && multiset(result.values) + multiset(SelectAll(table, skipped)) == multiset(Select(table, r))
                  && (multiset(result.values) == multiset(Select(table, r)) <==> SelectAll(table, skipped) == []))
  {
    hide LiveTable, MayOverhang, Constructed, PlanRange, GroupsOf, TruthfulGroup, DistinctInGroups, Results, L.Joined;
    hide AllSkipped, Select;
    PlanIsReadable(r, moments, table);
    PlannedNamesDiffer(r, moments, wire);
    GroupsReadSegments(table, PlanRange(r, moments).0.value, wire, scripts, served, failed);
    var groups := PlannedGroups(r, moments);
    NothingMissing(L.Joined(Results(groups, wire, scripts)).values, SelectAll(table, AllSkipped(groups, wire, scripts)),
                   Select(table, r));
  }

  lemma NothingMissing(read: seq<Key>, skipped: seq<Key>, all: seq<Key>)
    ensures multiset(read) + multiset(skipped) == multiset(all) ==> (multiset(read) == multiset(all) <==> skipped == [])
  {
    if multiset(read) + multiset(skipped) == multiset(all) {
      assert |multiset(read)| == |read| && |multiset(skipped)| == |skipped| && |multiset(all)| == |all|;
      assert |multiset(read) + multiset(skipped)| == |read| + |skipped|;
    }
  }

  function Each(ranges: seq<Range>): (each: seq<Option<Range>>)
    ensures |each| == |ranges| && forall i :: 0 <= i < |ranges| ==> each[i] == Some(ranges[i])
  {
    seq(|ranges|, i requires 0 <= i < |ranges| => Some(ranges[i]))
  }

  function SelectEach(table: seq<Key>, ranges: seq<Range>): seq<Key> {
    if ranges == [] then [] else Select(table, ranges[0]) + SelectEach(table, ranges[1..])
  }

  lemma {:induction false} PlansAreReadable(ranges: seq<Range>, moments: seq<seq<Tablet>>, table: seq<Key>)
    requires LiveTable(table) && (forall r :: r in ranges ==> Constructed(r) && !MayOverhang(r))
    requires PlanRanges(Each(ranges), moments).0.Ok?
    ensures var segments := PlanRanges(Each(ranges), moments).0.value;
            Assigned(segments) && Readable(segments) && SelectAll(table, segments) == SelectEach(table, ranges)
  {
    hide LiveTable, MayOverhang, Constructed, PlanRange, L.Fitting, Select;
    if ranges != [] {
      assert ranges[0] in ranges && Each(ranges)[1..] == Each(ranges[1..]);
      var (first, left) := PlanRange(ranges[0], moments);
      PlanIsReadable(ranges[0], moments, table);
      PlanStartsInOrder(ranges[0], moments);
      PlansAreReadable(ranges[1..], left, table);
      SelectAllConcat(table, first.value, PlanRanges(Each(ranges[1..]), left).0.value);
    }
  }

  /** Several ranges are read alike, when no two segments of a group look alike to their server. */
  lemma MultiScanReadsTheRanges<W(!new)>(ranges: seq<Range>, moments: seq<seq<Tablet>>, wire: Range -> W,
      scripts: seq<Script<W>>, served: seq<seq<nat>>, failed: seq<seq<nat>>, table: seq<Key>)
    requires LiveTable(table) && (forall r :: r in ranges ==> Constructed(r) && !MayOverhang(r))
    requires PlanRanges(Each(ranges), moments).0.Ok? && Assigned(PlanRanges(Each(ranges), moments).0.value)
    requires DistinctInGroups(PlanRanges(Each(ranges), moments).0.value, wire)
    requires TruthfulGroups(table, GroupsOf(PlanRanges(Each(ranges), moments).0.value), wire, scripts, served, failed)
    ensures var groups := GroupsOf(PlanRanges(Each(ranges), moments).0.value);
            var result, skipped := L.Joined(Results(groups, wire, scripts)), AllSkipped(groups, wire, scripts);
            && (result.IsClean() ==> skipped == [] && multiset(result.values) == multiset(SelectEach(table, ranges)))
            && (result.failure.None? ==>
                  multiset(result.values) + multiset(SelectAll(table, skipped)) == multiset(SelectEach(table, ranges)))
  {
    hide LiveTable, MayOverhang, Constructed, PlanRanges, GroupsOf, TruthfulGroups, DistinctInGroups, Results, L.Joined;
    hide AllSkipped, SelectEach;
    PlansAreReadable(ranges, moments, table);
    GroupsReadSegments(table, PlanRanges(Each(ranges), moments).0.value, wire, scripts, served, failed);
  }

  // ---- A session that cannot be released loses entries ----

  /** A server that reports both segments as failed; the first is read again, but its session cannot be
      released. */
  function LosingScript<W>(first: Failure<W>, second: Failure<W>, moments: seq<seq<Tablet>>, k: Key,
      error: R.StreamError): Script<W>
  {
    var answer := Answer([], false, [first, second], false, false);
    var last := R.Result([R.Fetch([k], false, None, false, false)], Some(error));
    Script(Session([Fetch(Some(answer), None)], None), failed => failed,
           _ => Rescan(true, moments, _ => [L.Try(last, true, [])]))
  }

  /** The scan stops there, and its error tells of nothing but the session: the second segment's entries are
      missing. */
  lemma ReleaseLosesEntries<W(!new)>(segments: seq<Segment>, wire: Range -> W, moments: seq<seq<Tablet>>, k: Key,
      error: R.StreamError)
    requires |segments| == 2 && DistinctNames(segments, wire) && error != R.Stale
    requires PlanRange(segments[0].range, moments).0 == Ok([segments[0]])
    requires segments[0].tablet.server.Some? && FitsTablet(segments[0].range, segments[0].tablet.extent)
    ensures var script := LosingScript(NameOf(segments[0], wire), NameOf(segments[1], wire), moments, k, error);
            && ScanGroup(segments, wire, script) == L.Returned([k], None, [error])
            && SkippedIn(segments, wire, script) == [segments[1]]
  {
    hide NameOf, PlanRange, FitsTablet, DistinctNames, MatchedSegments;
    var first, second := NameOf(segments[0], wire), NameOf(segments[1], wire);
    var script := LosingScript(first, second, moments, k, error);
    assert Paged(script.session.fetches).failed == [first, second];
    BothMatched(segments, wire);
    assert [k] + [] == [k] && [] + [k] == [k] && [] + [error] == [error] && [error] + [] == [error];
  }

  lemma BothMatched<W(!new)>(segments: seq<Segment>, wire: Range -> W)
    requires |segments| == 2 && DistinctNames(segments, wire)
    ensures MatchedSegments(segments, wire, [NameOf(segments[0], wire), NameOf(segments[1], wire)]) == Some(segments)
  {
    hide NameOf, FirstNamed, DistinctNames;
    var first, second := NameOf(segments[0], wire), NameOf(segments[1], wire);
    NamedOnce(segments, wire, 0);
    NamedOnce(segments, wire, 1);
    assert [first, second][..1] == [first] && [first][..0] == [];
    var none: seq<nat>, one: seq<nat> := [], [0];
    assert none + [0] == one && one + [1] == [0, 1];
    assert MatchFrom(segments, wire, []) == Some(none);
    assert MatchFrom(segments, wire, [first]) == Some(one);
    assert MatchFrom(segments, wire, [first, second]) == Some([0, 1]);
    assert Picked(segments, [0, 1]) == segments;
  }
}
