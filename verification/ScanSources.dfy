/** Opening queued scan sources while tablets move and split underneath. */
module ScanSources {
  import opened Wrappers
  import opened Keys
  import opened Tablets
  import opened Ranges
  import opened ScanPlan

  const MAX_SEGMENT_REPLANS := 3

  /** A queued segment; `replans` counts how often planning has split it again. */
  datatype Source = TabletSource(segment: Segment, replannable: bool, replans: nat)

  /** How starting a session ends: it starts, the assignment was stale, or it fails otherwise. */
  datatype Start = Started | Stale | Refused

  /** What the cluster answers while one source is opened: both starts, the tablet list at every moment
      it is consulted, and whether invalidating the cached tablet works. */
  datatype Script = Script(starts: nat -> Start, invalidated: bool, moments: seq<seq<Tablet>>)

  datatype OpenError = NotLocated | SpansTablets | StartFailed | InvalidateFailed | LocateFailed(scan: ScanError)

  datatype Opening =
    | Session(tablet: Tablet)
    | Replanned(sources: seq<Source>)
    | Failed(error: OpenError)

  function SourcesOf(segments: seq<Segment>, replans: nat): (sources: seq<Source>)
    ensures |sources| == |segments|
    ensures forall i :: 0 <= i < |segments| ==> sources[i] == TabletSource(segments[i], true, replans)
  {
    seq(|segments|, i requires 0 <= i < |segments| => TabletSource(segments[i], true, replans))
  }

  /** handleSplitTablet: plan the segment again over the tablets of now, at most three times. */
  function HandleSplit(source: Source, moments: seq<seq<Tablet>>): Opening {
    if !source.replannable || source.replans >= MAX_SEGMENT_REPLANS then Failed(SpansTablets)
    else
      match PlanRange(source.segment.range, moments).0
      case Err(error) => Failed(LocateFailed(error))
      case Ok(segments) => Replanned(SourcesOf(segments, source.replans + 1))
  }

  /** tabletSource.open from a given attempt on. */
  function OpenFrom(source: Source, tablet: Tablet, attempt: nat, script: Script, moments: seq<seq<Tablet>>): Opening
    requires attempt < 2
    decreases 2 - attempt
  {
    if tablet.server.None? then Failed(NotLocated)
    else if !FitsTablet(source.segment.range, tablet.extent) then HandleSplit(source, moments)
    else if script.starts(attempt) == Started then Session(tablet)
    else if attempt == 1 || script.starts(attempt) != Stale then Failed(StartFailed)
    else if !script.invalidated then Failed(InvalidateFailed)
    else
      match LocateTablet(moments, source.segment.routingRow)
      case (Err(error), _) => Failed(LocateFailed(error))
      case (Ok(located), left) => OpenFrom(source, located, attempt + 1, script, left)
  }

  method Open(source: Source, script: Script) returns (opening: Opening)
    ensures opening == OpenFrom(source, source.segment.tablet, 0, script, script.moments)
  {
    var tablet := source.segment.tablet;
    var locator := new Locator(script.moments);
    var attempt := 0;
    while true
      invariant attempt < 2
      invariant OpenFrom(source, tablet, attempt, script, locator.moments)
                == OpenFrom(source, source.segment.tablet, 0, script, script.moments)
      decreases 2 - attempt
    {
      if tablet.server.None? { return Failed(NotLocated); }
      if !FitsTablet(source.segment.range, tablet.extent) {
        if !source.replannable || source.replans >= MAX_SEGMENT_REPLANS { return Failed(SpansTablets); }
        var plan := PlanBatchScan(locator, [Some(source.segment.range)]);
        if plan.Err? { return Failed(LocateFailed(plan.error)); }
        return Replanned(SourcesOf(plan.value, source.replans + 1));
      }
      if script.starts(attempt) == Started { return Session(tablet); }
      if attempt == 1 || script.starts(attempt) != Stale { return Failed(StartFailed); }
      if !script.invalidated { return Failed(InvalidateFailed); }
      var located := locator.Locate(source.segment.routingRow);
      if located.Err? { return Failed(LocateFailed(located.error)); }
      tablet := located.value;
      attempt := attempt + 1;
    }
  }

  // ---- How a source opens ----

  /** The tablet has a server and still holds the whole segment. */
  predicate Serves(source: Source, tablet: Tablet) {
    tablet.server.Some? && FitsTablet(source.segment.range, tablet.extent)
  }

  /** The first start is turned away as stale, and the tablet is located again. */
  predicate Retries(source: Source, script: Script) {
    && Serves(source, source.segment.tablet) && script.starts(0) == Stale && script.invalidated
    && LocateTablet(script.moments, source.segment.routingRow).0.Ok?
  }

  /** The tablet a source is opened on in the end. */
  function OpenedOn(source: Source, script: Script): Tablet {
    if Retries(source, script) then LocateTablet(script.moments, source.segment.routingRow).0.value
    else source.segment.tablet
  }

  /** A stale start is retried once, on the tablet located then. A session opens exactly when that tablet - or the
      first, without a retry - serves the segment and its start succeeds. A tablet that no longer holds the
      segment splits it again, at most three times; everything else fails. */
  lemma OpensExactly(source: Source, script: Script)
    ensures var opening := OpenFrom(source, source.segment.tablet, 0, script, script.moments);
            var retried, tablet := Retries(source, script), OpenedOn(source, script);
            var start := script.starts(if retried then 1 else 0);
            && (opening.Session? <==> Serves(source, tablet) && start == Started)
            && (opening.Session? ==> opening.tablet == tablet)
            && (opening == Failed(NotLocated) <==> tablet.server.None?)
            && (opening == Failed(SpansTablets) <==>
                  tablet.server.Some? && !Serves(source, tablet) && !(source.replannable && source.replans < MAX_SEGMENT_REPLANS))
            && (opening == Failed(StartFailed) <==> Serves(source, tablet) && (start == Refused || (start == Stale && retried)))
            && (opening == Failed(InvalidateFailed) <==>
                  Serves(source, tablet) && !retried && start == Stale && !script.invalidated)
            && (opening.Replanned? ==>
                  && tablet.server.Some? && !Serves(source, tablet) && source.replannable && source.replans < MAX_SEGMENT_REPLANS
                  && forall again :: again in opening.sources ==> again.replannable && again.replans == source.replans + 1)
            && (opening.Failed? && opening.error.LocateFailed? ==>
                  (Serves(source, tablet) && start == Stale && script.invalidated)
                  || (tablet.server.Some? && !Serves(source, tablet) && source.replannable))
  {
    hide PlanRange, LocateTablet, FitsTablet;
    if Retries(source, script) {
      var (located, left) := LocateTablet(script.moments, source.segment.routingRow);
      assert OpenFrom(source, source.segment.tablet, 0, script, script.moments) == OpenFrom(source, located.value, 1, script, left);
    }
  }

  // ---- Coverage ----

  /** A source as planning makes it: routed by its range's start, which lies in its tablet. */
  ghost predicate Planned(source: Source) {
    && Constructed(source.segment.range)
    && source.segment.routingRow == RoutingRow(source.segment.range)
    && ContainsRow(source.segment.tablet.extent, source.segment.routingRow)
    && source.replans <= MAX_SEGMENT_REPLANS
  }

  function Segments(queue: seq<Source>): (segments: seq<Segment>)
    ensures |segments| == |queue| && forall i :: 0 <= i < |queue| ==> segments[i] == queue[i].segment
  {
    seq(|queue|, i requires 0 <= i < |queue| => queue[i].segment)
  }

  /** Sessions opened so far, with the tablets they were opened on, and the sources still queued. */
  datatype Progress = Progress(sessions: seq<Segment>, queue: seq<Source>, failure: Option<OpenError>)

  function OpenNext(p: Progress, script: Script): Progress {
    if p.queue == [] || p.failure.Some? then p
    else
      var source, rest := p.queue[0], p.queue[1..];
      match OpenFrom(source, source.segment.tablet, 0, script, script.moments)
      case Session(tablet) => Progress(p.sessions + [source.segment.(tablet := tablet)], rest, None)
      case Replanned(sources) => Progress(p.sessions, sources + rest, None)
      case Failed(error) => Progress(p.sessions, rest, Some(error))
  }

  ghost predicate Queued(p: Progress) {
    && (forall source :: source in p.queue ==> Planned(source))
    && (forall segment :: segment in p.sessions ==>
          Constructed(segment.range) && FitsTablet(segment.range, segment.tablet.extent)
          && ContainsRow(segment.tablet.extent, RoutingRow(segment.range)))
  }

  /** Everything the opened sessions and the queued sources read from a table. */
  function Coverage(p: Progress, table: seq<Key>): seq<Key> {
    SelectAll(table, p.sessions + Segments(p.queue))
  }

  lemma {:induction false} OpenedOnItsTablet(source: Source, tablet: Tablet, attempt: nat, script: Script,
      moments: seq<seq<Tablet>>)
    requires attempt < 2 && Planned(source) && ContainsRow(tablet.extent, source.segment.routingRow)
    ensures var result := OpenFrom(source, tablet, attempt, script, moments);
            && (result.Session? ==> ContainsRow(result.tablet.extent, source.segment.routingRow)
                                    && FitsTablet(source.segment.range, result.tablet.extent))
            && (result.Replanned? ==> exists left :: PlannedAgain(source, result.sources, left))
    decreases 2 - attempt
  {
    if tablet.server.Some? && !FitsTablet(source.segment.range, tablet.extent) {
      if HandleSplit(source, moments).Replanned? {
        assert PlannedAgain(source, HandleSplit(source, moments).sources, moments);
      }
    } else if attempt == 0 {
      var (located, left) := LocateTablet(moments, source.segment.routingRow);
      if located.Ok? { OpenedOnItsTablet(source, located.value, 1, script, left); }
    }
  }

  ghost predicate PlannedAgain(source: Source, sources: seq<Source>, moments: seq<seq<Tablet>>) {
    && PlanRange(source.segment.range, moments).0.Ok?
    && source.replans < MAX_SEGMENT_REPLANS
    && sources == SourcesOf(PlanRange(source.segment.range, moments).0.value, source.replans + 1)
  }

  lemma ReplanKeepsCoverage(p: Progress, sources: seq<Source>, moments: seq<seq<Tablet>>, table: seq<Key>)
    requires Queued(p) && p.queue != [] && SortedKeys(table)
    requires PlannedAgain(p.queue[0], sources, moments)
    ensures Queued(Progress(p.sessions, sources + p.queue[1..], None))
    ensures Coverage(Progress(p.sessions, sources + p.queue[1..], None), table) == Coverage(p, table)
  {
    hide Planned, PlanRange, SelectAll, Select, ContainsRow, FitsTablet, Constructed, SortedKeys;
    var source, rest := p.queue[0], p.queue[1..];
    assert source in p.queue && forall s :: s in rest ==> s in p.queue;
    var segments := PlanRange(source.segment.range, moments).0.value;
    ReplannedAreSources(source, sources, moments);
    assert source.segment.range == p.queue[0].segment.range;
    PlanKeepsReads(source.segment.range, moments, table);
    assert Segments(sources + rest) == segments + Segments(rest);
    assert Segments(p.queue) == [source.segment] + Segments(rest);
    CoverageOfParts(p.sessions, segments, Segments(rest), table);
    CoverageOfParts(p.sessions, [source.segment], Segments(rest), table);
    SelectOne(source.segment, table);
  }

  lemma ReplannedAreSources(source: Source, sources: seq<Source>, moments: seq<seq<Tablet>>)
    requires Planned(source) && PlannedAgain(source, sources, moments)
    ensures Constructed(source.segment.range) && forall s :: s in sources ==> Planned(s)
  {
    var segments := PlanRange(source.segment.range, moments).0.value;
    PlannedSegmentsFit(source.segment.range, moments);
    forall s | s in sources ensures Planned(s) {
      var i :| 0 <= i < |sources| && sources[i] == s;
      assert segments[i] in segments;
    }
  }

  lemma CoverageOfParts(a: seq<Segment>, b: seq<Segment>, c: seq<Segment>, table: seq<Key>)
    ensures SelectAll(table, a + (b + c)) == SelectAll(table, a) + (SelectAll(table, b) + SelectAll(table, c))
  {
    SelectAllConcat(table, a, b + c);
    SelectAllConcat(table, b, c);
  }

  lemma SelectOne(segment: Segment, table: seq<Key>)
    ensures SelectAll(table, [segment]) == Select(table, segment.range)
  {
    assert SelectAll(table, [segment]) == Select(table, segment.range) + [];
  }

  /** Opening the next source keeps the keys of opened sessions and queued sources exactly as they were,
      in order, however its tablet moved or split - unless it fails. */
  lemma OpeningKeepsCoverage(p: Progress, script: Script, table: seq<Key>)
    requires Queued(p) && SortedKeys(table) && OpenNext(p, script).failure.None?
    ensures Queued(OpenNext(p, script))
    ensures Coverage(OpenNext(p, script), table) == Coverage(p, table)
  {
    if p.queue != [] && p.failure.None? {
      var source, rest := p.queue[0], p.queue[1..];
      assert source in p.queue;
      OpenedOnItsTablet(source, source.segment.tablet, 0, script, script.moments);
      match OpenFrom(source, source.segment.tablet, 0, script, script.moments)
      case Session(tablet) =>
        SessionKeepsCoverage(p, tablet, table);
      case Replanned(sources) =>
        var left :| PlannedAgain(source, sources, left);
        ReplanKeepsCoverage(p, sources, left, table);
      case Failed(_) =>
    }
  }

  lemma SessionKeepsCoverage(p: Progress, tablet: Tablet, table: seq<Key>)
    requires Queued(p) && p.queue != []
    requires ContainsRow(tablet.extent, p.queue[0].segment.routingRow) && FitsTablet(p.queue[0].segment.range, tablet.extent)
    ensures var p' := Progress(p.sessions + [p.queue[0].segment.(tablet := tablet)], p.queue[1..], None);
            Queued(p') && Coverage(p', table) == Coverage(p, table)
  {
    hide Select, SelectAll, ContainsRow, FitsTablet, Constructed, RoutingRow;
    var source, rest := p.queue[0], p.queue[1..];
    assert source in p.queue && forall s :: s in rest ==> s in p.queue;
    var segment := source.segment.(tablet := tablet);
    assert Segments(p.queue) == [source.segment] + Segments(rest);
    assert p.sessions + [segment] + Segments(rest) == p.sessions + ([segment] + Segments(rest));
    CoverageOfParts(p.sessions, [segment], Segments(rest), table);
    CoverageOfParts(p.sessions, [source.segment], Segments(rest), table);
    SelectOne(segment, table);
    SelectOne(source.segment, table);
  }

  // ---- Finitely many openings ----

  /** How many queued sources have been replanned `level` times. */
  function AtLevel(queue: seq<Source>, level: nat): nat {
    if queue == [] then 0 else (if queue[0].replans == level then 1 else 0) + AtLevel(queue[1..], level)
  }

  lemma {:induction false} AtLevelConcat(a: seq<Source>, b: seq<Source>, level: nat)
    ensures AtLevel(a + b, level) == AtLevel(a, level) + AtLevel(b, level)
  {
    if a == [] {
      assert a + b == b;
    } else {
      AtLevelConcat(a[1..], b, level);
      assert (a + b)[1..] == a[1..] + b;
    }
  }

  lemma {:induction false} NoneAtLevel(queue: seq<Source>, level: nat)
    requires forall i :: 0 <= i < |queue| ==> queue[i].replans != level
    ensures AtLevel(queue, level) == 0
  {
    if queue != [] { NoneAtLevel(queue[1..], level); }
  }

  /** Replanning trades one source for any number of sources one level up. */
  lemma OpeningDescends(p: Progress, script: Script, level: nat)
    requires Queued(p) && p.queue != [] && p.failure.None?
    ensures var replans, q := p.queue[0].replans, OpenNext(p, script).queue;
            && (level < replans ==> AtLevel(q, level) == AtLevel(p.queue, level))
            && (level == replans ==> AtLevel(q, level) < AtLevel(p.queue, level))
  {
    var source, rest := p.queue[0], p.queue[1..];
    assert source in p.queue;
    OpenedOnItsTablet(source, source.segment.tablet, 0, script, script.moments);
    match OpenFrom(source, source.segment.tablet, 0, script, script.moments)
    case Replanned(sources) =>
      var left :| PlannedAgain(source, sources, left);
      if level <= source.replans { NoneAtLevel(sources, level); }
      AtLevelConcat(sources, rest, level);
    case _ =>
  }

  /** Opens sources until the queue is empty or one fails; `scripts(n)` answers the n-th opening. The
      termination measure is the number of sources at each replan level, most significant first. */
  ghost function OpenAll(p: Progress, scripts: nat -> Script, n: nat): (Progress, nat)
    requires Queued(p)
    decreases AtLevel(p.queue, 0), AtLevel(p.queue, 1), AtLevel(p.queue, 2), AtLevel(p.queue, 3), p.failure.None?
  {
    if p.queue == [] || p.failure.Some? then (p, n)
    else
      OpeningDescends(p, scripts(n), 0);
      OpeningDescends(p, scripts(n), 1);
      OpeningDescends(p, scripts(n), 2);
      OpeningDescends(p, scripts(n), 3);
      assert p.queue[0] in p.queue;
      var next := OpenNext(p, scripts(n));
      if next.failure.Some? then (next, n + 1)
      else
        OpeningKeepsCoverage(p, scripts(n), []);
        OpenAll(next, scripts, n + 1)
  }

  /** When the queue runs empty without a failure, the opened sessions read exactly what was requested. */
  lemma {:induction false} OpenedSessionsReadTheRequest(p: Progress, scripts: nat -> Script, n: nat, table: seq<Key>)
    requires Queued(p) && SortedKeys(table) && p.failure.None?
    ensures var end := OpenAll(p, scripts, n).0;
            end.failure.None? ==> end.queue == [] && Queued(end) && SelectAll(table, end.sessions) == Coverage(p, table)
    decreases AtLevel(p.queue, 0), AtLevel(p.queue, 1), AtLevel(p.queue, 2), AtLevel(p.queue, 3)
  {
    if p.queue == [] {
      assert p.sessions + Segments(p.queue) == p.sessions;
    } else {
      OpeningDescends(p, scripts(n), 0);
      OpeningDescends(p, scripts(n), 1);
      OpeningDescends(p, scripts(n), 2);
      OpeningDescends(p, scripts(n), 3);
      assert p.queue[0] in p.queue;
      var next := OpenNext(p, scripts(n));
      if next.failure.None? {
        OpeningKeepsCoverage(p, scripts(n), table);
        OpeningKeepsCoverage(p, scripts(n), []);
        OpenedSessionsReadTheRequest(next, scripts, n + 1, table);
      }
    }
  }

  /** For a planned range: every session opened, whatever was replanned on the way, reads its part, and
      all of them together read the range. */
  lemma StreamCoversRange(r: Range, moments: seq<seq<Tablet>>, scripts: nat -> Script, table: seq<Key>)
    requires Constructed(r) && PlanRange(r, moments).0.Ok? && SortedKeys(table)
    ensures var p := Progress([], SourcesOf(PlanRange(r, moments).0.value, 0), None);
            Queued(p) &&
            (OpenAll(p, scripts, 0).0.failure.None? ==>
               SelectAll(table, OpenAll(p, scripts, 0).0.sessions) == Select(table, r))
  {
    var segments := PlanRange(r, moments).0.value;
    var p := Progress([], SourcesOf(segments, 0), None);
    PlannedSegmentsFit(r, moments);
    forall source | source in p.queue ensures Planned(source) {
      assert source.segment in segments;
    }
    OpenedSessionsReadTheRequest(p, scripts, 0, table);
    PlanKeepsReads(r, moments, table);
    assert [] + Segments(p.queue) == segments;
  }

  // ---- What the opened sessions return ----

  /** When the sessions of a planned range were all opened and none overhangs its tablet, what their tablets
      hold is, in order, the live table filtered by the range. */
  lemma SessionsReturnTheRange(r: Range, moments: seq<seq<Tablet>>, scripts: nat -> Script, table: seq<Key>)
    requires Constructed(r) && PlanRange(r, moments).0.Ok? && LiveTable(table)
    ensures var p := Progress([], SourcesOf(PlanRange(r, moments).0.value, 0), None);
            Queued(p) &&
            var end := OpenAll(p, scripts, 0).0;
            (end.failure.None? && !OverhangingPlan(end.sessions) ==> ScanAll(table, end.sessions) == Select(table, r))
  {
    hide PlanRange, OpenAll, ScanAll, Select, SelectAll, OverhangingPlan, Overhangs, FitsTablet, ContainsRow, Constructed;
    var p := Progress([], SourcesOf(PlanRange(r, moments).0.value, 0), None);
    LiveIsSorted(table);
    StreamCoversRange(r, moments, scripts, table);
    OpenedSessionsReadTheRequest(p, scripts, 0, table);
    var end := OpenAll(p, scripts, 0).0;
    if end.failure.None? && !OverhangingPlan(end.sessions) { ScanAllIsSelectAll(table, end.sessions); }
  }

  /** Nothing queued or opened has a range that may overhang. */
  ghost predicate StaysInside(p: Progress) {
    && (forall source :: source in p.queue ==> !MayOverhang(source.segment.range))
    && (forall segment :: segment in p.sessions ==> !MayOverhang(segment.range))
  }

  lemma OpeningStaysInside(p: Progress, script: Script)
    requires Queued(p) && StaysInside(p)
    ensures StaysInside(OpenNext(p, script))
  {
    hide MayOverhang, OpenFrom, ContainsRow, Constructed, RoutingRow;
    if p.queue != [] && p.failure.None? {
      var source, rest := p.queue[0], p.queue[1..];
      assert source in p.queue && forall s :: s in rest ==> s in p.queue;
      OpenedOnItsTablet(source, source.segment.tablet, 0, script, script.moments);
      match OpenFrom(source, source.segment.tablet, 0, script, script.moments)
      case Session(tablet) =>
      case Replanned(sources) =>
        var left :| PlannedAgain(source, sources, left);
        var segments := PlanRange(source.segment.range, left).0.value;
        ReplannedAreSources(source, sources, left);
        PlannedRangesStayInside(source.segment.range, left);
        forall s | s in sources ensures !MayOverhang(s.segment.range) {
          var i :| 0 <= i < |sources| && sources[i] == s;
          assert s.segment == segments[i] && segments[i] in segments;
        }
      case Failed(_) =>
    }
  }

  lemma {:induction false} OpenAllStaysInside(p: Progress, scripts: nat -> Script, n: nat)
    requires Queued(p) && StaysInside(p) && p.failure.None?
    ensures StaysInside(OpenAll(p, scripts, n).0)
    decreases AtLevel(p.queue, 0), AtLevel(p.queue, 1), AtLevel(p.queue, 2), AtLevel(p.queue, 3)
  {
    hide StaysInside, Planned, Queued;
    if p.queue != [] {
      OpeningDescends(p, scripts(n), 0);
      OpeningDescends(p, scripts(n), 1);
      OpeningDescends(p, scripts(n), 2);
      OpeningDescends(p, scripts(n), 3);
      FirstIsPlanned(p);
      OpeningStaysInside(p, scripts(n));
      var next := OpenNext(p, scripts(n));
      if next.failure.None? {
        OpeningKeepsCoverage(p, scripts(n), []);
        OpenAllStaysInside(next, scripts, n + 1);
      }
    }
  }

  lemma FirstIsPlanned(p: Progress)
    requires Queued(p) && p.queue != []
    ensures p.queue[0].replans <= MAX_SEGMENT_REPLANS
  {
    assert p.queue[0] in p.queue;
  }

  /** A range that cannot overhang is always returned whole, however its segments are replanned. */
  lemma InsideSessionsReturnTheRange(r: Range, moments: seq<seq<Tablet>>, scripts: nat -> Script, table: seq<Key>)
    requires Constructed(r) && !MayOverhang(r) && PlanRange(r, moments).0.Ok? && LiveTable(table)
    ensures var p := Progress([], SourcesOf(PlanRange(r, moments).0.value, 0), None);
            Queued(p) &&
            var end := OpenAll(p, scripts, 0).0;
            (end.failure.None? ==> ScanAll(table, end.sessions) == Select(table, r))
  {
    hide PlanRange, OpenAll, ScanAll, Select, SelectAll, MayOverhang, Overhangs, FitsTablet, ContainsRow, Constructed;
    var segments := PlanRange(r, moments).0.value;
    var p := Progress([], SourcesOf(segments, 0), None);
    SessionsReturnTheRange(r, moments, scripts, table);
    PlannedRangesStayInside(r, moments);
    forall source | source in p.queue ensures !MayOverhang(source.segment.range) {
      assert source.segment in segments;
    }
    OpenAllStaysInside(p, scripts, 0);
    LiveIsSorted(table);
    OpenedSessionsReadTheRequest(p, scripts, 0, table);
    var end := OpenAll(p, scripts, 0).0;
    if end.failure.None? {
      forall i | 0 <= i < |end.sessions| ensures !Overhangs(end.sessions[i].range, end.sessions[i].tablet.extent) {
        var s := end.sessions[i];
        assert s in end.sessions;
        if Overhangs(s.range, s.tablet.extent) { OverhangingMay(s.range, s.tablet.extent); }
      }
    }
  }
}
