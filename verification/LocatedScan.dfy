/** Scanning a range in one tablet, starting over whenever the tablet turns out to have moved. */
module LocatedScan {
  import opened Bytes
  import opened Wrappers
  import opened Keys
  import opened Tablets
  import opened Ranges
  import opened ScanPlan
  import opened ResultStreams

  datatype ScanFailure =
    | ContextOver
    | RangeSpansTablets
    | Reporting(failures: Report)
    | Invalidating(failures: Report)
    | Locating(reason: ScanError)

  /** What will come of one try: what the tablet's server answers, whether a stale location could be
      invalidated, and the tablet lists seen while locating again. */
  datatype Try = Try(answers: TabletAnswers, invalidated: bool, moments: seq<seq<Tablet>>)

  /** What a scan returns: the entries, the failure if any, and the failures to release sessions, which leave
      the entries usable. */
  datatype Returned<F> = Returned(values: seq<Entry>, failure: Option<F>, cleanups: seq<StreamError>) {
    /** The error returned is nil. */
    predicate IsClean() {
      failure.None? && cleanups == []
    }
  }

  /** What scanLocated returns; and the tablet last scanned, after how many restarts. */
  datatype Scanned =
    Scanned(values: seq<Entry>, failure: Option<ScanFailure>, cleanups: seq<StreamError>, tablet: Tablet, restarts: nat)
  {
    function After(earlier: nat): Scanned {
      this.(restarts := earlier + restarts)
    }

    function Result(): Returned<ScanFailure> {
      Returned(values, failure, cleanups)
    }
  }

  /** scanTablet for a tablet that may have no server. */
  function TabletScanned(tablet: Tablet, answers: TabletAnswers): TabletScan {
    if tablet.server.None? then TabletScan([], [Stale], None) else Scanning(answers)
  }

  /** scanLocated, after tries that left failures to release their sessions; running out of tries is the
      context ending. */
  function ScanFrom(r: Range, row: Bytes, tablet: Tablet, tries: seq<Try>, cleanups: seq<StreamError>): Scanned
    decreases tries
  {
    if tries == [] then Scanned([], Some(ContextOver), cleanups, tablet, 0)
    else if !FitsTablet(r, tablet.extent) then Scanned([], Some(RangeSpansTablets), [], tablet, 0)
    else
      var scan := TabletScanned(tablet, tries[0].answers);
      var all := cleanups + Listed(scan.cleanup);
      if !scan.IsStale() then
        Scanned(scan.entries, if scan.failures == [] then None else Some(Reporting(scan.failures)), all, tablet, 0)
      else if !tries[0].invalidated then Scanned(scan.entries, Some(Invalidating(scan.failures)), all, tablet, 0)
      else
        match LocateTablet(tries[0].moments, row).0
        case Err(error) => Scanned([], Some(Locating(error)), all, tablet, 0)
        case Ok(located) => ScanFrom(r, row, located, tries[1..], all).After(1)
  }

  method ScanLocated(r: Range, row: Bytes, tablet: Tablet, tries: seq<Try>) returns (scanned: Scanned)
    ensures scanned == ScanFrom(r, row, tablet, tries, [])
  {
    hide FitsTablet, LocateTablet, Scanning;
    var current, next, cleanups := tablet, 0, [];
    assert tries[0..] == tries;
    while next < |tries|
      invariant next <= |tries|
      invariant ScanFrom(r, row, current, tries[next..], cleanups).After(next) == ScanFrom(r, row, tablet, tries, [])
    {
      var attempt := tries[next];
      assert tries[next..][0] == attempt && tries[next..][1..] == tries[next + 1..];
      if !FitsTablet(r, current.extent) { return Scanned([], Some(RangeSpansTablets), [], current, next); }
      var scan := TabletScan([], [Stale], None);
      if current.server.Some? { scan := ScanTablet(attempt.answers); }
      cleanups := cleanups + Listed(scan.cleanup);
      if !scan.IsStale() {
        var failure := if scan.failures == [] then None else Some(Reporting(scan.failures));
        return Scanned(scan.entries, failure, cleanups, current, next);
      }
      if !attempt.invalidated { return Scanned(scan.entries, Some(Invalidating(scan.failures)), cleanups, current, next); }
      var locator := new Locator(attempt.moments);
      var located := locator.Locate(row);
      if located.Err? { return Scanned([], Some(Locating(located.error)), cleanups, current, next); }
      current, next := located.value, next + 1;
    }
    return Scanned([], Some(ContextOver), cleanups, current, next);
  }

  /** A session with sound answers gives, in their batches, what its tablet holds of the range. */
  ghost predicate TruthfulTries(table: seq<Key>, r: Range, row: Bytes, tablet: Tablet, tries: seq<Try>)
    decreases tries
  {
    tries != [] ==>
      && (tablet.server.Some? && tries[0].answers.Result? && Sound(tries[0].answers.fetches) ==>
            Batches(tries[0].answers.fetches) == TabletRead(table, Segment(row, tablet, r)))
      && var located := LocateTablet(tries[0].moments, row).0;
         (located.Ok? ==> TruthfulTries(table, r, row, located.value, tries[1..]))
  }

  lemma {:induction false} ScanEndsInRoutedTablet(table: seq<Key>, r: Range, row: Bytes, tablet: Tablet,
      tries: seq<Try>, cleanups: seq<StreamError>)
    requires ContainsRow(tablet.extent, row) && TruthfulTries(table, r, row, tablet, tries)
    ensures var scanned := ScanFrom(r, row, tablet, tries, cleanups);
            scanned.failure.None? ==>
              && ContainsRow(scanned.tablet.extent, row) && FitsTablet(r, scanned.tablet.extent)
              && scanned.values == TabletRead(table, Segment(row, scanned.tablet, r))
    decreases tries
  {
    hide FitsTablet, Paged, Sound, Batches, TabletRead;
    if tries != [] {
      if tries[0].answers.Result? { SoundPagesCollect(tries[0].answers.fetches); }
      var located := LocateTablet(tries[0].moments, row).0;
      var all := cleanups + Listed(TabletScanned(tablet, tries[0].answers).cleanup);
      if located.Ok? { ScanEndsInRoutedTablet(table, r, row, located.value, tries[1..], all); }
    }
  }

  /** However often the tablet moves, a scan without failure returns exactly the live table's entries in
      the range, none twice - unless the range overhangs the tablet it was read from. */
  lemma ScanReadsTheRange(table: seq<Key>, r: Range, tablet: Tablet, tries: seq<Try>)
    requires LiveTable(table) && Constructed(r) && ContainsRow(tablet.extent, RoutingRow(r))
    requires TruthfulTries(table, r, RoutingRow(r), tablet, tries)
    ensures var scanned := ScanFrom(r, RoutingRow(r), tablet, tries, []);
            scanned.failure.None? && !Overhangs(r, scanned.tablet.extent) ==> scanned.values == Select(table, r)
  {
    hide LiveTable, FitsTablet, ContainsRow, Constructed, TabletRead, Select, ScanFrom, TruthfulTries, Overhangs;
    ScanEndsInRoutedTablet(table, r, RoutingRow(r), tablet, tries, []);
    var scanned := ScanFrom(r, RoutingRow(r), tablet, tries, []);
    if scanned.failure.None? && !Overhangs(r, scanned.tablet.extent) {
      FittingRangeInTablet(r, scanned.tablet.extent);
      TabletReadIsSelect(table, Segment(RoutingRow(r), scanned.tablet, r));
    }
  }

  // ---- A batch scan: one located scan for each segment ----

  /** What the workers find for the segments, in segment order. */
  function Results(segments: seq<Segment>, tries: nat -> seq<Try>): (results: seq<Scanned>)
    ensures |results| == |segments|
    ensures forall i :: 0 <= i < |segments| ==>
              results[i] == ScanFrom(segments[i].range, segments[i].routingRow, segments[i].tablet, tries(i), [])
  {
    seq(|segments|, i requires 0 <= i < |segments| =>
      ScanFrom(segments[i].range, segments[i].routingRow, segments[i].tablet, tries(i), []))
  }

  function ResultsOf(scans: seq<Scanned>): (results: seq<Returned<ScanFailure>>)
    ensures |results| == |scans| && forall i :: 0 <= i < |scans| ==> results[i] == scans[i].Result()
  {
    seq(|scans|, i requires 0 <= i < |scans| => scans[i].Result())
  }

  /** The results in order, up to and including the first that failed; results that only failed to release
      their sessions do not end the scan. */
  function Joined<F>(results: seq<Returned<F>>): Returned<F> {
    if results == [] then Returned([], None, [])
    else if results[0].failure.Some? then results[0]
    else Before(results[0].values, results[0].cleanups, Joined(results[1..]))
  }

  /** The entries of the first n results. */
  function FirstValues<F>(results: seq<Returned<F>>, n: nat): seq<Entry>
    requires n <= |results|
  {
    if n == 0 then [] else results[0].values + FirstValues(results[1..], n - 1)
  }

  /** A batch scan fails exactly when one of its results does: with the first failure, and the entries up to and
      including that result's. */
  lemma {:induction false} JoinedReports<F>(results: seq<Returned<F>>, n: nat)
    requires n <= |results| && forall k :: 0 <= k < n ==> results[k].failure.None?
    ensures n == |results| ==> Joined(results).failure.None? && Joined(results).values == FirstValues(results, n)
    ensures n < |results| && results[n].failure.Some? ==>
              Joined(results).failure == results[n].failure && Joined(results).values == FirstValues(results, n + 1)
    decreases n
  {
    if n > 0 {
      assert forall k :: 0 <= k < n - 1 ==> results[1..][k] == results[k + 1];
      JoinedReports(results[1..], n - 1);
    } else if results != [] {
      assert results[0].values + [] == results[0].values;
    }
  }

  function Before<F>(values: seq<Entry>, cleanups: seq<StreamError>, later: Returned<F>): Returned<F> {
    Returned(values + later.values, later.failure, cleanups + later.cleanups)
  }

  lemma BeforeTwice<F>(a: seq<Entry>, b: seq<StreamError>, c: seq<Entry>, d: seq<StreamError>, later: Returned<F>)
    ensures Before(a, b, Before(c, d, later)) == Before(a + c, b + d, later)
    ensures Before([], [], later) == later
  {
    assert a + (c + later.values) == a + c + later.values && b + (d + later.cleanups) == b + d + later.cleanups;
  }

  /** BatchScanner.Scan over planned segments: workers take segments in any order and write each result to
      its own slot; the results are then put together up to the first failure. */
  method ExecuteBatchScan(segments: seq<Segment>, tries: nat -> seq<Try>, schedule: seq<nat>)
    returns (result: Returned<ScanFailure>)
    requires forall i :: i in schedule ==> i < |segments|
    requires forall i :: 0 <= i < |segments| ==> i in schedule
    ensures result == Joined(ResultsOf(Results(segments, tries)))
  {
    hide ScanFrom;
    ghost var all := ResultsOf(Results(segments, tries));
    var results := new Returned<ScanFailure>[|segments|](_ => Returned([], None, []));
    for step := 0 to |schedule|
      invariant forall i :: i in schedule[..step] ==> i < |segments| && results[i] == all[i]
    {
      assert schedule[..step + 1] == schedule[..step] + [schedule[step]];
      assert schedule[step] in schedule;
      var s := segments[schedule[step]];
      var scanned := ScanLocated(s.range, s.routingRow, s.tablet, tries(schedule[step]));
      results[schedule[step]] := scanned.Result();
    }
    assert schedule[..|schedule|] == schedule;
    forall i | 0 <= i < |segments| ensures results[i] == all[i] {
      assert i in schedule;
    }
    assert results[..] == all;
    result := JoinResults(results[..]);
  }

  /** The result loop of BatchScanner.Scan. */
  method JoinResults<F>(results: seq<Returned<F>>) returns (result: Returned<F>)
    ensures result == Joined(results)
  {
    hide Before;
    var values: seq<Entry>, cleanups: seq<StreamError> := [], [];
    assert results[0..] == results;
    BeforeTwice([], [], [], [], Joined(results));
    for index := 0 to |results|
      invariant Joined(results) == Before(values, cleanups, Joined(results[index..]))
    {
      assert results[index..][0] == results[index] && results[index..][1..] == results[index + 1..];
      BeforeTwice(values, cleanups, results[index].values, results[index].cleanups, Joined(results[index + 1..]));
      EndsWith(values, cleanups, Joined(results[index..]));
      values, cleanups := values + results[index].values, cleanups + results[index].cleanups;
      if results[index].failure.Some? { return Returned(values, results[index].failure, cleanups); }
    }
    assert results[|results|..] == [];
    EndsWith(values, cleanups, Joined(results[|results|..]));
    return Returned(values, None, cleanups);
  }

  lemma EndsWith<F>(values: seq<Entry>, cleanups: seq<StreamError>, last: Returned<F>)
    ensures Before(values, cleanups, last) == Returned(values + last.values, last.failure, cleanups + last.cleanups)
    ensures values + [] == values && cleanups + [] == cleanups && [] + last.cleanups == last.cleanups
  {
  }

  /** Every worker's scans are truthful. */
  ghost predicate TruthfulWorkers(table: seq<Key>, segments: seq<Segment>, tries: nat -> seq<Try>) {
    forall i :: 0 <= i < |segments| ==>
      TruthfulTries(table, segments[i].range, segments[i].routingRow, segments[i].tablet, tries(i))
  }

  /** The segments with the tablets they were read from in the end. */
  function ReadFrom(segments: seq<Segment>, results: seq<Scanned>): seq<Segment>
    requires |segments| == |results|
  {
    if segments == [] then []
    else [segments[0].(tablet := results[0].tablet)] + ReadFrom(segments[1..], results[1..])
  }

  /** A batch scan without failure returns, in segment order, what the tablets it read hold. */
  lemma {:induction false} JoinedIsScanAll(table: seq<Key>, segments: seq<Segment>, results: seq<Scanned>)
    requires |segments| == |results| && Joined(ResultsOf(results)).failure.None?
    requires forall i :: 0 <= i < |segments| && results[i].failure.None? ==>
               results[i].values == TabletRead(table, segments[i].(tablet := results[i].tablet))
    ensures forall i :: 0 <= i < |results| ==> results[i].failure.None?
    ensures Joined(ResultsOf(results)).values == ScanAll(table, ReadFrom(segments, results))
  {
    if segments != [] {
      hide TabletRead;
      forall i | 0 <= i < |segments[1..]| && results[1..][i].failure.None?
        ensures results[1..][i].values == TabletRead(table, segments[1..][i].(tablet := results[1..][i].tablet))
      {
        assert segments[1..][i] == segments[i + 1] && results[1..][i] == results[i + 1];
      }
      assert ResultsOf(results)[1..] == ResultsOf(results[1..]);
      JoinedIsScanAll(table, segments[1..], results[1..]);
      assert forall i :: 0 < i < |results| ==> results[i] == results[1..][i - 1];
      var first := segments[0].(tablet := results[0].tablet);
      var rest := ReadFrom(segments[1..], results[1..]);
      assert ([first] + rest)[1..] == rest;
    }
  }

  /** However tablets move while planning and scanning, a batch scan without failure of a range that cannot
      overhang returns exactly the live table's entries in the range, in order. */
  lemma BatchScanReadsTheRange(r: Range, moments: seq<seq<Tablet>>, tries: nat -> seq<Try>, table: seq<Key>)
    requires LiveTable(table) && Constructed(r) && !MayOverhang(r) && PlanRange(r, moments).0.Ok?
    requires TruthfulWorkers(table, PlanRange(r, moments).0.value, tries)
    ensures var result := Joined(ResultsOf(Results(PlanRange(r, moments).0.value, tries)));
            result.failure.None? ==> result.values == Select(table, r)
  {
    hide PlanRange, LiveTable, MayOverhang, Constructed, Select, TabletRead, ScanFrom, TruthfulTries, ContainsRow, FitsTablet;
    var segments := PlanRange(r, moments).0.value;
    var results := Results(segments, tries);
    PlannedSegmentsFit(r, moments);
    PlannedRangesStayInside(r, moments);
    if Joined(ResultsOf(results)).failure.None? {
      forall i | 0 <= i < |segments| && results[i].failure.None?
        ensures results[i].values == TabletRead(table, segments[i].(tablet := results[i].tablet))
        ensures Fitting(segments[i].(tablet := results[i].tablet))
      {
        assert segments[i] in segments;
        ScanEndsInRoutedTablet(table, segments[i].range, segments[i].routingRow, segments[i].tablet, tries(i), []);
      }
      JoinedIsScanAll(table, segments, results);
      FittingSegmentsSelect(table, segments, results);
      LiveIsSorted(table);
      PlanKeepsReads(r, moments, table);
    }
  }

  /** A segment routed to its tablet and fitting it, whose range cannot overhang. */
  ghost predicate Fitting(segment: Segment) {
    && Constructed(segment.range) && !MayOverhang(segment.range)
    && FitsTablet(segment.range, segment.tablet.extent)
    && ContainsRow(segment.tablet.extent, RoutingRow(segment.range))
  }

  lemma {:induction false} FittingSegmentsSelect(table: seq<Key>, segments: seq<Segment>, results: seq<Scanned>)
    requires LiveTable(table) && |segments| == |results|
    requires forall i :: 0 <= i < |segments| ==> Fitting(segments[i].(tablet := results[i].tablet))
    ensures ScanAll(table, ReadFrom(segments, results)) == SelectAll(table, segments)
  {
    if segments != [] {
      hide LiveTable, TabletRead, Select, MayOverhang, Overhangs, FitsTablet, ContainsRow, Constructed;
      var first := segments[0].(tablet := results[0].tablet);
      assert Fitting(first);
      if Overhangs(first.range, first.tablet.extent) { OverhangingMay(first.range, first.tablet.extent); }
      FittingRangeInTablet(first.range, first.tablet.extent);
      TabletReadIsSelect(table, first);
      forall i | 0 <= i < |segments[1..]| ensures Fitting(segments[1..][i].(tablet := results[1..][i].tablet)) {
        assert segments[1..][i] == segments[i + 1] && results[1..][i] == results[i + 1];
      }
      FittingSegmentsSelect(table, segments[1..], results[1..]);
      var rest := ReadFrom(segments[1..], results[1..]);
      assert ([first] + rest)[1..] == rest;
    }
  }

  // ---- How often a scan starts over ----

  /** The tablet that try k of a scan finds, if the scan starts over after every try before. */
  function TabletAt(row: Bytes, tablet: Tablet, tries: seq<Try>, k: nat): Option<Tablet>
    requires k <= |tries|
    decreases k
  {
    if k == 0 then Some(tablet)
    else
      match LocateTablet(tries[0].moments, row).0
      case Err(_) => None
      case Ok(located) => TabletAt(row, located, tries[1..], k - 1)
  }

  /** The range fits the tablet, its server turns the scan away as stale, the location can be invalidated,
      and the row is located again. */
  predicate StartsOver(r: Range, row: Bytes, tablet: Tablet, attempt: Try) {
    && FitsTablet(r, tablet.extent)
    && TabletScanned(tablet, attempt.answers).IsStale()
    && attempt.invalidated
    && LocateTablet(attempt.moments, row).0.Ok?
  }

  /** Every try before k, on the tablet it finds, starts the scan over. */
  ghost predicate AllStartOver(r: Range, row: Bytes, tablet: Tablet, tries: seq<Try>, k: nat) {
    && k <= |tries|
    && forall i :: 0 <= i < k ==>
         TabletAt(row, tablet, tries, i).Some? && StartsOver(r, row, TabletAt(row, tablet, tries, i).value, tries[i])
  }

  /** A scan starts over more than n times exactly when each of its first n + 1 tries finds a tablet the range
      fits, is turned away as stale, and can invalidate and locate again. */
  lemma {:induction false} StartsOverExactly(r: Range, row: Bytes, tablet: Tablet, tries: seq<Try>,
      cleanups: seq<StreamError>, n: nat)
    ensures ScanFrom(r, row, tablet, tries, cleanups).restarts > n <==> AllStartOver(r, row, tablet, tries, n + 1)
    decreases n
  {
    hide FitsTablet, LocateTablet, Scanning;
    if tries != [] {
      assert TabletAt(row, tablet, tries, 0) == Some(tablet);
      if StartsOver(r, row, tablet, tries[0]) {
        var located := LocateTablet(tries[0].moments, row).0.value;
        LaterStartOver(r, row, tablet, tries, n);
        if n > 0 {
          StartsOverExactly(r, row, located, tries[1..], cleanups + Listed(TabletScanned(tablet, tries[0].answers).cleanup), n - 1);
        }
      }
    }
  }

  lemma LaterStartOver(r: Range, row: Bytes, tablet: Tablet, tries: seq<Try>, n: nat)
    requires tries != [] && StartsOver(r, row, tablet, tries[0])
    ensures AllStartOver(r, row, tablet, tries, n + 1)
            <==> AllStartOver(r, row, LocateTablet(tries[0].moments, row).0.value, tries[1..], n)
  {
    hide StartsOver, LocateTablet;
    LocatesAgain(r, row, tablet, tries[0]);
    var located := LocateTablet(tries[0].moments, row).0.value;
    assert TabletAt(row, tablet, tries, 0) == Some(tablet);
    if AllStartOver(r, row, tablet, tries, n + 1) {
      forall i | 0 <= i < n
        ensures TabletAt(row, located, tries[1..], i).Some?
        ensures StartsOver(r, row, TabletAt(row, located, tries[1..], i).value, tries[1..][i])
      {
        assert TabletAt(row, tablet, tries, i + 1).Some?;
      }
    }
    if AllStartOver(r, row, located, tries[1..], n) {
      forall i | 0 < i <= n
        ensures TabletAt(row, tablet, tries, i).Some? && StartsOver(r, row, TabletAt(row, tablet, tries, i).value, tries[i])
      {
        assert TabletAt(row, located, tries[1..], i - 1).Some?;
      }
    }
  }

  lemma LocatesAgain(r: Range, row: Bytes, tablet: Tablet, attempt: Try)
    requires StartsOver(r, row, tablet, attempt)
    ensures LocateTablet(attempt.moments, row).0.Ok?
  {
  }

  /** A try starts the scan over exactly when the range fits its tablet, the tablet has no server or its server
      turns the scan away as stale, and the location can be invalidated and found again. */
  lemma StartsOverWhen(r: Range, row: Bytes, tablet: Tablet, attempt: Try)
    ensures StartsOver(r, row, tablet, attempt)
            <==> && FitsTablet(r, tablet.extent)
                 && (tablet.server.None? || TurnedAway(attempt.answers))
                 && attempt.invalidated && LocateTablet(attempt.moments, row).0.Ok?
  {
    hide FitsTablet, LocateTablet, Scanning, TurnedAway;
    StaleExactly(attempt.answers);
  }

  /** The failures to release sessions of the first n tries. */
  ghost function CleanupsBefore(row: Bytes, tablet: Tablet, tries: seq<Try>, n: nat): seq<StreamError>
    requires n <= |tries|
    decreases n
  {
    if n == 0 then []
    else
      Listed(TabletScanned(tablet, tries[0].answers).cleanup)
      + match LocateTablet(tries[0].moments, row).0
        case Err(_) => []
        case Ok(located) => CleanupsBefore(row, located, tries[1..], n - 1)
  }

  /** How a try ends the scan that does not start it over. */
  ghost predicate EndsScan(r: Range, row: Bytes, attempt: Try, scanned: Scanned) {
    var scan := TabletScanned(scanned.tablet, attempt.answers);
    if !FitsTablet(r, scanned.tablet.extent) then scanned.values == [] && scanned.failure == Some(RangeSpansTablets)
    else if !scan.IsStale() then
      && scanned.values == scan.entries
      && (scanned.failure.None? <==> scan.failures == [])
      && (scan.failures != [] ==> scanned.failure == Some(Reporting(scan.failures)))
    else if !attempt.invalidated then scanned.values == scan.entries && scanned.failure == Some(Invalidating(scan.failures))
    else
      && LocateTablet(attempt.moments, row).0.Err?
      && scanned.values == [] && scanned.failure == Some(Locating(LocateTablet(attempt.moments, row).0.error))
  }

  /** A scan starts over for as long as its tries say so; then the next try ends it, or its context has. It
      reports the failures to release the sessions of all its tries, unless the range spans tablets. */
  lemma {:induction false} ScanEnds(r: Range, row: Bytes, tablet: Tablet, tries: seq<Try>, cleanups: seq<StreamError>)
    ensures var scanned := ScanFrom(r, row, tablet, tries, cleanups);
            var n := scanned.restarts;
            && n <= |tries| && AllStartOver(r, row, tablet, tries, n) && TabletAt(row, tablet, tries, n) == Some(scanned.tablet)
            && (n == |tries| ==> scanned.values == [] && scanned.failure == Some(ContextOver)
                                 && scanned.cleanups == cleanups + CleanupsBefore(row, tablet, tries, n))
            && (n < |tries| ==> !StartsOver(r, row, scanned.tablet, tries[n]) && EndsScan(r, row, tries[n], scanned)
                                && scanned.cleanups == if scanned.failure == Some(RangeSpansTablets) then []
                                                       else cleanups + CleanupsBefore(row, tablet, tries, n + 1))
    decreases tries
  {
    hide FitsTablet, LocateTablet, Scanning;
    if tries == [] {
      assert cleanups + [] == cleanups;
    } else {
      var own := Listed(TabletScanned(tablet, tries[0].answers).cleanup);
      if StartsOver(r, row, tablet, tries[0]) {
        var located := LocateTablet(tries[0].moments, row).0.value;
        ScanEnds(r, row, located, tries[1..], cleanups + own);
        var n := ScanFrom(r, row, located, tries[1..], cleanups + own).restarts;
        LaterStartOver(r, row, tablet, tries, n);
        assert TabletAt(row, tablet, tries, n + 1) == TabletAt(row, located, tries[1..], n);
        assert n < |tries[1..]| ==> tries[1..][n] == tries[n + 1];
        CleanupsJoin(cleanups, own, CleanupsBefore(row, located, tries[1..], n));
        if n < |tries[1..]| { CleanupsJoin(cleanups, own, CleanupsBefore(row, located, tries[1..], n + 1)); }
      } else {
        NoMoreCleanups(row, tablet, tries);
      }
    }
  }

  lemma CleanupsJoin(a: seq<StreamError>, b: seq<StreamError>, c: seq<StreamError>)
    ensures a + (b + c) == a + b + c
  {
  }

  lemma NoMoreCleanups(row: Bytes, tablet: Tablet, tries: seq<Try>)
    requires tries != []
    ensures CleanupsBefore(row, tablet, tries, 1) == Listed(TabletScanned(tablet, tries[0].answers).cleanup)
  {
    hide LocateTablet, Scanning;
    var own := Listed(TabletScanned(tablet, tries[0].answers).cleanup);
    assert own + [] == own;
  }

  /** The promise of one retry is kept exactly when not both of the first two tries start over. */
  lemma RetriesOnce(r: Range, row: Bytes, tablet: Tablet, tries: seq<Try>)
    ensures ScanFrom(r, row, tablet, tries, []).restarts <= 1
            <==> !(|tries| >= 2 && StartsOver(r, row, tablet, tries[0])
                   && StartsOver(r, row, LocateTablet(tries[0].moments, row).0.value, tries[1]))
  {
    hide FitsTablet, LocateTablet, Scanning;
    if tries != [] && StartsOver(r, row, tablet, tries[0]) {
      var located := LocateTablet(tries[0].moments, row).0.value;
      StartsOverExactly(r, row, located, tries[1..], [] + Listed(TabletScanned(tablet, tries[0].answers).cleanup), 0);
      if |tries| >= 2 { assert TabletAt(row, located, tries[1..], 0) == Some(located); }
    }
  }

  /** A failure that a stream of the same answers does not report can make a scan start over. */
  lemma LaterFailureStartsOver(r: Range, row: Bytes, tablet: Tablet, code: int)
    requires FitsTablet(r, tablet.extent) && ContainsRow(tablet.extent, row) && tablet.server.Some?
    ensures var fetches := [Fetch([], true, Some(ScanFailed(code)), false, false),
                            Fetch([], false, Some(Stale), false, false)];
            && Drained([Opens(fetches, Follow([]), false)]).failure == Some([ScanFailed(code)])
            && StartsOver(r, row, tablet, Try(Result(fetches, None), true, [[tablet]]))
  {
    hide FitsTablet, ContainsRow, LocateTablet;
    var fetches := [Fetch([], true, Some(ScanFailed(code)), false, false), Fetch([], false, Some(Stale), false, false)];
    QueueSteps([Opens(fetches, Follow([]), false)]);
    FetchSteps(fetches, Follow([]), []);
    LocatedAgain(tablet, row);
    assert fetches[1..] == [fetches[1]];
    assert Continued(fetches[1..]) == Pages([], [Stale]);
    assert Paged(fetches).failures == [ScanFailed(code)] + [Stale];
  }

  /** A tablet server that turns the scan away, after which the same tablet is located again. */
  function StaleTry(tablet: Tablet): Try {
    Try(NoResult(Stale), true, [[tablet]])
  }

  function StaleTries(tablet: Tablet, n: nat, last: Try): seq<Try> {
    if n == 0 then [last] else [StaleTry(tablet)] + StaleTries(tablet, n - 1, last)
  }

  lemma LocatedAgain(tablet: Tablet, row: Bytes)
    requires ContainsRow(tablet.extent, row) && tablet.server.Some?
    ensures LocateTablet([[tablet]], row).0 == Ok(tablet)
  {
    assert Reaches(Extents([tablet]), row)(0);
  }

  /** There is no bound on the retries: for every n a scan can find its tablet stale n times, start over
      each time, and then return what the tablet holds. */
  lemma {:induction false} StartsOverAnyNumberOfTimes(r: Range, row: Bytes, tablet: Tablet, n: nat, last: Try)
    requires FitsTablet(r, tablet.extent) && ContainsRow(tablet.extent, row) && tablet.server.Some?
    requires Scanning(last.answers).failures == [] && !Scanning(last.answers).IsStale()
    ensures var tries := StaleTries(tablet, n, last);
            && |tries| == n + 1
            && ScanFrom(r, row, tablet, tries, [])
               == Scanned(Scanning(last.answers).entries, None, Listed(Scanning(last.answers).cleanup), tablet, n)
  {
    hide FitsTablet, ContainsRow, LocateTablet;
    if n == 0 {
      assert [] + Listed(Scanning(last.answers).cleanup) == Listed(Scanning(last.answers).cleanup);
    } else {
      LocatedAgain(tablet, row);
      assert [] + Listed(None) == [];
      StartsOverAnyNumberOfTimes(r, row, tablet, n - 1, last);
    }
  }
}
