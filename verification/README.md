# The Go Accumulo client, modelled and proved in Dafny

This project models the parts of the Go client under `accumulo/` that decide hard properties by
themselves, and proves those properties. The network is replaced by oracles: what a call to a server,
to the tablet locator or to the manager will come back with is a parameter, quantified over in every
theorem, and constrained only where a theorem says so ("truthful"). Such a constraint speaks of the
oracles' answers alone: a server is bound by what it was sent and what it replied, never by what the
client makes of the reply.

The source's form is kept. Objects whose methods update fields (`BatchWriter`, `ResultStream`, the
visibility parser, its cache and evaluator, the authorization set, the conditional writer) are classes;
loops are loops, in-place compaction works on arrays. Each such method is proved equal to a function of
its inputs and the old state, and the theorems are about those functions, over whole runs and all
interleavings.

- **Column visibility** (`Visibility*.dfy`, `Auths.dfy`): the cursor parser accepts exactly an
  independently stated grammar and builds its tree; evaluation decides the formula the grammar assigns;
  normalization is idempotent, meaning-preserving and canonical; printing and parsing are inverse on
  normal forms; the decision cache refines a recency list; and every interleaving of the evaluator's
  locked sections leaves only true decisions in the cache.
- **Scanning** (`Keys`, `Tablets`, `TabletExtents`, `Ranges`, `ScanPlan`, `ScanSources`, `ResultStreams`,
  `LocatedScan`, `StreamScan`, `MultiScan`, `MultiBatchScan`, `MultiStream`):
  cutting ranges at tablet boundaries partitions them however tablets move while planning; reading each
  segment from its tablet equals filtering the table exactly when the range cannot overhang; re-planning on
  open never changes what is covered and ends; the stream delivers every batch once, in order; and end to
  end, a stream that replans, a batch scan that starts over, and a multi-scan of either kind that matches and
  reads failed ranges again all return exactly the range.
- **Batch writer** (`Writer*.dfy`, `BatchWriter.dfy`, `BatchWriterRuns.dfy`): plans are permutations that
  project onto tablets in order; batches concatenate back; what a response leaves for retry is what the
  server left uncommitted; over every run each mutation commits at most once, a successful Flush or Close
  has committed everything once, rows commit in order, and after a flush that applied something and
  failed nothing is ever sent again.
- **Administration** (`SplitPlan`, `AddSplits`, `Constraints`, `AddConstraint`, `ConditionalWriter`):
  split rounds, compare-and-set numbering of constraints under every interleaving of clients, and
  conditional writes that never resend a mutation that may have taken effect.

## Where the code does not do what one would hope

- `fitsTablet` accepts a full-key range with an exclusive end in the row right after the tablet's end row
  (`accumulo/range.go:313-318`), so such a segment can reach past its tablet. For live keys this is the only
  way: `ScanPlan.EveryScanIsFilter` proves that every plan of a range reads exactly its live keys if and only
  if `MayOverhang` is false of the range, which a caller can check beforehand; row-bounded ranges always pass
  (`ScanPlan.RowBoundedScansFilter`), and `ScanPlan.KeyRangeLosesKey` is a range, a plan and a table that do
  not. Deletion markers are another matter: `Ranges.DeletedKeyOutside` is one that a tablet's own
  row-bounded range holds although it belongs to the next tablet. `Ranges.ReadsOutsideExactly` proves that,
  markers included, a range that fits a tablet holds a key outside it if and only if its end is the tablet's
  boundary or overhangs it, and `Ranges.OnlyFirstMarkerOutside` that without overhanging this is one key only:
  the first marker of the row right after the tablet.
- The evaluator's generation is a `uint64`. `VisibilityEvaluator.StepKeepsTruth` proves the cache stays
  true exactly when a step is not the end of a call that outlasted a positive multiple of 2^64
  replacements with a changed answer; `VisibilityEvaluator.WrappedGenerationIsStale` is such a run.
- `scanTablet` drops a batch that arrives together with a failed continue, and keeps reading after a
  start that came with a failure; the stream delivers the former and stops at the latter. And `scanTablet`
  joins every failure on its way (`accumulo/scanner.go:287-324`), where the stream reports those of one answer.
  `ResultStreams.PagingEqualsStream` proves that the two fail on the same answers and with the same failure
  first; that they report the same failures if and only if `ReportsAlike`, and deliver the same entries if and
  only if `PagesAlike`, of the answers. `ResultStreams.FailedContinueDiffers` and
  `ResultStreams.FailedStartDiffers` are the ways it fails. A failure that the stream does not report can
  make `scanLocated` start over (`LocatedScan.LaterFailureStartsOver`), because a stale one is looked for among
  all of them, that of releasing the session included.
- Scan's comment says a stale assignment is retried once (`accumulo/scanner.go:172-173`); `scanLocated`
  retries until the context ends. `LocatedScan.StartsOverExactly` proves that a scan starts over more than n
  times if and only if each of its first n + 1 tries finds a tablet the range fits, is turned away as stale, and
  can invalidate and locate again; so the promise is kept if and only if not both of the first two tries start
  over (`LocatedScan.RetriesOnce`). `LocatedScan.StartsOverAnyNumberOfTimes` gives such a scan for every n.
  Opening a stream does retry once (`ScanSources.Open`).
- BatchScanner's Scan says that results stay usable when sessions cannot be released
  (`accumulo/batch_scanner.go:55-57`), and goes on past such errors. `scanMultiGroup` does not: when a range it
  reads again leaves a session that cannot be released it returns at once
  (`accumulo/batch_scanner.go:331-334`), and Scan takes that for success with a cleanup error, so entries are
  missing. `MultiBatchScan.ReleaseLosesEntries` is such a run. `MultiBatchScan.MultiScanReadsTheRange` proves what
  holds instead: what is returned and what the skipped segments hold are together exactly the range, and
  nothing is skipped when no error at all is reported; so a multi-scan with only cleanup errors is complete if
  and only if no skipped segment holds a live entry. The multi-scan stream has no such gap
  (`MultiStream.MultiStreamReadsTheRange`).
- A multi-scan reads a failed range again once, however many segments look like it to the server.
  `MultiScan.MatchIsExactIfDistinct` proves that what is read again is, name for name, what failed for every
  set of failures if and only if no two segments look alike; `MultiScan.LookAlikesLoseEntries` shows which
  entries are lost when two do and both fail. Passing a range twice makes look-alikes, and so do two
  different ranges that end alike (`MultiScan.EndingAlikePlansAlike`). One range alone never does
  (`MultiBatchScan.PlannedNamesDiffer`).
- `parseConstraints` accepts a plus sign and leading zeros (`Constraints.OtherSpellings`), so several
  properties can carry one number; `Constraints.SpellingsOf` proves that these are all its spellings, and
  `Constraints.PlainPropertyIsUnique` that without them a number has exactly one property. The theorems
  count installed numbers, not property names.
- AddConstraint's comment promises that every call reads the property back after writing
  (`accumulo/table_constraints.go:46-48`); the code writes at the version it read instead, and that is
  what is modelled. It is enough: see `AddConstraint.InterleavingsKeepNumbers`.

## Model

| member | source | states |
|---|---|---|
| Bytes.CompareTransitive | accumulo/key.go:92-119 | The byte order under every row, label and term comparison is transitive, strictly when either step is |
| Bytes.LessIsLexicographic | accumulo/key.go:92-119 | One string is below another exactly when it ends, or has the smaller byte, where they first differ |
| Bytes.SuccessorIsNext | accumulo/range.go:184-190 | Appending NUL to a row gives the very next row: nothing lies between |
| Auths.ContainsIsMembership | accumulo/authorizations.go:87-93 | Bisection on a sorted slice finds exactly the labels it holds |
| Auths.SortedListIsUnique | accumulo/authorizations.go:135-145 | Two strictly sorted slices of the same labels are the same slice, so comparing slices compares sets |
| Auths.Authorizations.Add | accumulo/authorizations.go:54-69 | The slice stays sorted, the set gains exactly the label, and the result says whether it changed |
| Auths.Authorizations.Remove | accumulo/authorizations.go:74-84 | The slice stays sorted, the set loses exactly the label, and the result says whether it changed |
| Auths.Authorizations.Equal | accumulo/authorizations.go:135-145 | Two authorization sets are reported equal exactly when they hold the same labels |
| VisibilityTree.CompareEqualIsSameShape | accumulo/column_visibility.go:212-235 | Nodes compare equal exactly when they are the same tree up to positions |
| VisibilityTree.CompareNodesAntisymmetric | accumulo/column_visibility.go:212-235 | Swapping the nodes flips the sign of the comparison |
| VisibilityTree.CompareNodesTransitive | accumulo/column_visibility.go:212-235 | The node order is transitive, strictly when either step is strict |
| VisibilityTree.PrecedesIsBelow | accumulo/column_visibility.go:212-235 | A node precedes another exactly when its shape is below: terms by their bytes, before OR, before AND; operators by child count, then by the first child that differs |
| VisibilityGrammar.GrammarBytes | accumulo/column_visibility.go:369-371 | The bytes of plain terms, operators, parentheses, quotes and escapes, as characters |
| VisibilityGrammar.LastGroupIsInlined | accumulo/column_visibility.go:440-453 | A last group is one child, except in parentheses and under its own operator, where its items take its place |
| VisibilityGrammar.QuotedTextUnescapes | accumulo/column_visibility.go:193-207 | What may stand between quotes is exactly what holds no bare quote and unescapes |
| VisibilityGrammar.EscapedReadsBack | accumulo/column_visibility.go:193-207 | Every label can be quoted, and reads back as itself |
| VisibilityGrammar.QuotedIsEscaped | accumulo/column_visibility.go:193-207 | What may stand between quotes is exactly the escaped form of the label it stands for |
| VisibilityParser.Parser.Parse | accumulo/column_visibility.go:373-505 | The loop with its shared cursor computes one level of the parse function and leaves the cursor where the level ends |
| VisibilityParser.Parser.ConsumeQuotedTerm | accumulo/column_visibility.go:535-554 | The cursor ends past the matching quote, or the term has no valid end |
| VisibilityParser.NewColumnVisibility | accumulo/column_visibility.go:254-272 | A whole expression is parsed or rejected as the parse function says; the empty one gives the empty tree |
| VisibilityParserTheorems.ParsesEveryExpression | accumulo/column_visibility.go:373-532 | Every expression of the grammar is accepted and yields the grammar's tree |
| VisibilityParserTheorems.AcceptedIsExpression | accumulo/column_visibility.go:373-532 | Whatever is accepted is written in the grammar, to its last byte, with that tree |
| VisibilityParserTheorems.AcceptsExactlyTheGrammar | accumulo/column_visibility.go:254-554 | Accepted if and only if the grammar derives the whole input; the tree is the grammar's |
| VisibilityEvaluation.EvaluationIsMeaning | accumulo/column_visibility.go:708-745 | Short-circuit evaluation never errs on a readable tree and decides its Boolean meaning |
| VisibilityEvaluation.TreeMeansFormula | accumulo/column_visibility.go:373-505 | The tree built for an expression means the formula the grammar assigns it |
| VisibilityEvaluation.ParsedExpressionsDecide | accumulo/column_visibility.go:657-682 | Every accepted expression evaluates without error to its formula, for every label set |
| VisibilityEvaluation.ParsedTreesAreEvaluable | accumulo/column_visibility.go:156-180 | Every parsed tree can be evaluated against its own expression |
| VisibilityNormalization.CompactInPlace | accumulo/column_visibility.go:341-347 | The slice's kept prefix is the list without runs of equal nodes |
| VisibilityNormalization.Normalize | accumulo/column_visibility.go:325-354 | The recursive method with its local slice computes the normal form |
| VisibilityNormalization.StableSortedSorts | accumulo/column_visibility.go:338-340 | Sorting yields a sorted permutation that keeps equal nodes in order |
| VisibilityNormalization.CompactedList | accumulo/column_visibility.go:338-347 | Sorting and compacting leaves a strictly increasing list of the same shapes |
| VisibilityNormalForms.NormalizedIsNormalForm | accumulo/column_visibility.go:325-354 | A normalized tree has at least two, strictly increasing children under every operator, none of its parent's type |
| VisibilityNormalForms.NormalizedChildrenAscend | accumulo/column_visibility.go:325-354 | Of two children of a normalized operator: terms come first, by their bytes; operators are of one type, by child count, then by the first child that differs |
| VisibilityNormalForms.NormalizedIsInOrder | accumulo/column_visibility.go:325-354 | So throughout the normalized tree |
| VisibilityNormalForms.NormalizationIsIdempotent | accumulo/column_visibility.go:283-285 | Normalizing a normalized tree changes nothing |
| VisibilityNormalForms.NormalizationKeepsMeaning | accumulo/column_visibility.go:325-354 | Every label set decides a tree and its normal form alike |
| VisibilityNormalForms.NormalizationIsCanonical | accumulo/column_visibility.go:325-354 | Normal forms compare equal if and only if the trees agree up to order, repetition and same-operator nesting |
| VisibilityNormalForms.ReorderingKeepsNormalForm | accumulo/column_visibility.go:325-354 | Reordering or repeating children leaves the normal form unchanged |
| VisibilityNormalForms.NestingKeepsNormalForm | accumulo/column_visibility.go:325-354 | Grouping children under the same operator leaves the normal form unchanged |
| VisibilityPrinting.Buffer.Write | accumulo/column_visibility.go:299-321 | The buffer gains exactly the node's text |
| VisibilityPrinting.Flatten | accumulo/column_visibility.go:290-297 | Flatten prints the normal form of a parsed root, and nothing for the empty one |
| VisibilityPrinting.PrintedIsExpression | accumulo/column_visibility.go:299-321 | The printed normal form is an expression of the grammar |
| VisibilityPrinting.PrintParseRoundTrip | accumulo/column_visibility.go:290-354 | Printed normal forms parse, compare equal to the normal form, print to the same bytes, and every label set decides both alike |
| VisibilityPrinting.TwoTermsPrintInOrder | accumulo/column_visibility.go:290-354 | Two terms print with the lesser bytes first, whichever way they were written |
| VisibilityCache.Cache.Get | accumulo/column_visibility.go:582-589 | A hit returns the stored decision and makes it most recent; a miss changes nothing |
| VisibilityCache.Cache.Put | accumulo/column_visibility.go:592-607 | The map and list stay in bijection and the contents follow the recency list, evicting only from its end |
| VisibilityCache.Cache.MakeRoom | accumulo/column_visibility.go:598-605 | Only the least recently used entries go, until the cache is below capacity |
| VisibilityCache.RecencyKeepsLastPuts | accumulo/column_visibility.go:582-607 | Over any history, the recency order has distinct keys, each with the value last stored |
| VisibilityCache.CacheKeepsMostRecent | accumulo/column_visibility.go:562-609 | Over any history, a cache of positive capacity holds exactly its capacity of most recently used keys |
| VisibilityCache.RecencyIsByLastUse | accumulo/column_visibility.go:582-607 | The recency order is by the time a key was last stored or found, so what is forgotten was used before all that is kept |
| VisibilityEvaluator.Evaluator.SetAuthorizations | accumulo/column_visibility.go:643-653 | The labels are replaced, the generation advances modulo 2^64 and every cached decision is dropped |
| VisibilityEvaluator.Evaluator.Recall | accumulo/column_visibility.go:661-664 | The first locked section: the cached decision if any, with the labels and generation it belongs to |
| VisibilityEvaluator.Evaluator.Remember | accumulo/column_visibility.go:676-680 | The second locked section: the decision is stored only if the generation is still the one read |
| VisibilityEvaluator.DecisionIsMeant | accumulo/column_visibility.go:657-682 | The decision for an expression of the grammar is its formula; for the empty one true; for any other input an error |
| VisibilityEvaluator.Evaluator.Evaluate | accumulo/column_visibility.go:657-682 | Undisturbed, the answer is the one the grammar gives for the authorizations in force, cached or not |
| VisibilityEvaluator.Perform | accumulo/column_visibility.go:643-682 | The steps of an interleaving are what the evaluator's methods do, one locked section each |
| VisibilityEvaluator.StepKeepsTruth | accumulo/column_visibility.go:643-682 | A step keeps every cached decision true if and only if it does not end a call whose generation wrapped around |
| VisibilityEvaluator.InterleavingsAreTruthful | accumulo/column_visibility.go:643-682 | In every interleaving, cached decisions and returned answers are those of a fresh evaluation, unless a call outlasts 2^64 replacements |
| VisibilityEvaluator.InterleavingsAnswerTheGrammar | accumulo/column_visibility.go:643-682 | In every such interleaving each answer, and each cached decision, is the one the grammar gives for its authorizations |
| VisibilityEvaluator.ShortRunsAreTruthful | accumulo/column_visibility.go:643-682 | No run of fewer than 2^64 steps can go wrong |
| VisibilityEvaluator.WrappedGenerationIsStale | accumulo/column_visibility.go:618-620 | A concrete run in which the generation wraps and leaves a false decision cached |
| Keys.KeysTransitive | accumulo/key.go:92-119 | The key order is transitive |
| Keys.KeysAntisymmetric | accumulo/key.go:92-119 | The key order is antisymmetric and zero only on equal keys |
| Keys.FirstFieldDecides | accumulo/key.go:92-119 | The first field that differs decides: row, family, qualifier, visibility ascending, newest first, deletion markers before live keys |
| Keys.FirstKeySplitsRows | accumulo/range.go:184-190 | The first key of a row separates the keys of earlier rows from the row's live keys |
| Tablets.FindTablet | accumulo/table_add_splits.go:494-509 | A returned index is in range and names a tablet that holds the row |
| Tablets.FindAgreesWithLinear | accumulo/table_add_splits.go:494-509 | On sorted, non-overlapping lists bisection agrees with a linear search, and the result is the only tablet holding the row |
| Tablets.CoverFinds | accumulo/table_add_splits.go:494-509 | In a contiguous cover every row has its tablet |
| TabletExtents.ExtentsAreOrdered | accumulo/tablet_extent.go:124-161 | The extent order is antisymmetric, transitive, and zero only on equal extents |
| TabletExtents.FirstPartDecides | accumulo/tablet_extent.go:124-161 | Table, then end row with none last, then previous end row with none first |
| TabletExtents.ListedExtentsAscend | accumulo/tablet_extent.go:124-161 | A table's non-overlapping tablets ascend in that order |
| TabletExtents.ExtentRangeReadsItsRows | accumulo/tablet_extent.go:107-117 | A tablet's range holds a live key exactly when the tablet holds its row |
| Ranges.CutSplits | accumulo/batch_scanner.go:428-440 | A cut splits a range's keys in two at the tablet boundary, losing and repeating none |
| Ranges.FittingRangeInTablet | accumulo/range.go:306-319 | A range that starts in a tablet and fits it reads only its live keys, if and only if it does not overhang |
| Ranges.OverhangWitness | accumulo/range.go:313-318 | An overhanging range contains a live key of the following tablet |
| Ranges.ClippedFits | accumulo/batch_scanner.go:428-440 | A clipped range fits its tablet and never overhangs |
| Ranges.ConstructorsConstruct | accumulo/range.go:24-73 | What the constructors accept satisfies the invariants every cut keeps |
| Ranges.NewRangeHolds | accumulo/range.go:24-38 | Refused exactly when the end row precedes the start row; else the range holds exactly the live keys of the rows between its bounds, each included or not as asked |
| Ranges.NewKeyRangeHolds | accumulo/range.go:45-60 | Refused exactly for a deleted bound or an end before the start; else the range holds exactly the keys between its bounds, each included or not as asked |
| Ranges.NewRangeRowHolds | accumulo/range.go:63-73 | One row holds exactly its live keys, the empty row is refused, and the infinite range holds every key |
| Ranges.OnlyFirstMarkerOutside | accumulo/range.go:199-236 | Deletion markers included, a fitting range that does not overhang holds at most one key of a row outside its tablet: the first marker of the row right after it |
| Ranges.BoundaryHoldsMarker | accumulo/range.go:173-190 | Whenever a fitting range ends at its tablet's boundary it holds that marker |
| Ranges.ReadsOutsideExactly | accumulo/range.go:306-319 | A fitting range holds a key outside its tablet, deletion markers included, if and only if it ends at the tablet's boundary or overhangs it |
| Ranges.DeletedKeyOutside | accumulo/range.go:306-319 | A tablet's own, fitting, row-bounded range is one that ends at the boundary and holds the next row's first marker |
| Ranges.OverhangingMay | accumulo/range.go:306-319 | A range that overhangs the tablet it is routed to is one whose end may overhang |
| Ranges.RemainingMayOverhang | accumulo/batch_scanner.go:120-137 | A cut never turns a range that cannot overhang into one that may |
| Ranges.KeyRangeMayOverhang | accumulo/range.go:45-60 | The key constructor accepts a range that may overhang |
| ScanPlan.Locator.Locate | accumulo/scanner.go:235-251 | Unassigned tablets are located again until one is assigned, none covers the row, or time is up |
| ScanPlan.LocateExactly | accumulo/scanner.go:235-251 | Moments with an unassigned tablet are passed over; the first other one decides: its tablet, or none covering the row |
| ScanPlan.PlanBatchScan | accumulo/batch_scanner.go:102-139 | The planning loop computes the plan function, one locate at a time |
| ScanPlan.PlanRangesStops | accumulo/batch_scanner.go:108-111 | Ranges are planned in turn and the first absent one ends planning |
| ScanPlan.PlanKeepsReads | accumulo/batch_scanner.go:102-139 | However tablets change while planning, the segments together read what the range reads, once and in order |
| ScanPlan.PlanPartitions | accumulo/batch_scanner.go:102-139 | A key of the range is in exactly one segment, any other key in none |
| ScanPlan.PlanAscends | accumulo/batch_scanner.go:102-139 | Keys of earlier segments sort before keys of later ones |
| ScanPlan.PlanTerminates | accumulo/batch_scanner.go:102-139 | Over a fixed cover planning ends after at most one locate for each tablet |
| ScanPlan.ScanIsFilter | accumulo/batch_scanner.go:102-139 | For a given plan, concatenated per-tablet reads equal filtering the table, for every live table, if and only if no segment overhangs |
| ScanPlan.EveryScanIsFilter | accumulo/batch_scanner.go:102-139 | Every plan of a range, however tablets change, reads exactly its live keys, if and only if the range's end is not one that may overhang |
| ScanPlan.RowBoundedScansFilter | accumulo/batch_scanner.go:102-139 | A row-bounded range, or one whose end is included or absent, is always read exactly |
| ScanPlan.SomePlanOverhangs | accumulo/range.go:313-318 | A range that may overhang does so on a table split right before the row of its end |
| ScanPlan.KeyRangeLosesKey | accumulo/range.go:45-60 | A range built from keys, a plan of it and a live table of which the plan misses an entry |
| ScanSources.Open | accumulo/scan_stream.go:372-448 | Opening a source retries a stale tablet once, replans a segment that no longer fits, and fails otherwise |
| ScanSources.OpensExactly | accumulo/scan_stream.go:372-448 | A stale start is retried once; a session opens exactly when the tablet found in the end serves the segment and its start succeeds; every other outcome has its condition |
| ScanSources.OpeningKeepsCoverage | accumulo/scan_stream.go:372-448 | Opening the next source leaves the keys of opened sessions plus queued segments exactly as they were |
| ScanSources.OpeningDescends | accumulo/scan_stream.go:431-447 | Replanning trades one source for sources one replan level up, a decreasing measure |
| ScanSources.StreamCoversRange | accumulo/scan_stream.go:118-151 | When the queue empties without failure, the ranges of the opened sessions together hold exactly the keys of the planned range |
| ScanSources.SessionsReturnTheRange | accumulo/scan_stream.go:118-151 | What the opened sessions' tablets hold is the live table filtered by the range, when none overhangs |
| ScanSources.InsideSessionsReturnTheRange | accumulo/scan_stream.go:118-151 | For a range that cannot overhang it always is, however its segments are replanned |
| ResultStreams.ResultStream.constructor | accumulo/scan_stream.go:153-167 | A new stream will deliver everything its sources drain to |
| ResultStreams.ResultStream.Next | accumulo/scan_stream.go:172-240 | A true result hands out the next remaining entry; a false one is final, comes after all entries, and releases the session |
| ResultStreams.ResultStream.OpenNextSession | accumulo/scan_stream.go:245-262 | Opening a source leaves what will be delivered unchanged and makes progress |
| ResultStreams.ResultStream.PrependSources | accumulo/scan_stream.go:265-271 | New sources go ahead of those still waiting, which keep their order |
| ResultStreams.ResultStream.FinishSession | accumulo/scan_stream.go:275-290 | The session is released once and its followers go ahead of the queue |
| ResultStreams.ResultStream.RecordClose | accumulo/scan_stream.go:295-315 | An open session is released exactly once |
| ResultStreams.ResultStream.Close | accumulo/scan_stream.go:337-356 | Idempotent; the session is released, a pending failure surfaces, an undrained stream reports closed |
| ResultStreams.Collect | accumulo/scan_stream.go:172-240 | Iterating to the end yields all entries in order and then the failure; every opened session was released |
| ResultStreams.DrainedConcat | accumulo/scan_stream.go:172-290 | Sources drain independently of what is queued behind them; one failure ends the stream |
| ResultStreams.SoundSessionsDeliver | accumulo/scan_stream.go:501-524 | A session drains without failure exactly when nothing is wrong with any of its answers, and then to all their batches |
| ResultStreams.FailedSessionDelivers | accumulo/scan_stream.go:212-239 | The first answer with something wrong ends the stream, after its own entries, with everything wrong with it |
| ResultStreams.ScanTablet | accumulo/scanner.go:264-324 | The paging loop collects what its answers give, with every failure on the way and that of releasing the session |
| ResultStreams.SoundPagesCollect | accumulo/scanner.go:264-324 | The paging loop reports no failure exactly when nothing is wrong with any answer, and then collects all batches |
| ResultStreams.StaleExactly | accumulo/scanner.go:360-366 | A scan counts as stale exactly when its start, a continue that is made, or its release is turned away as stale |
| ResultStreams.PagingEqualsStream | accumulo/scanner.go:264-324 | The paging loop and a drained session fail on the same answers, with the same failure first; the same failures if and only if a failed start is followed by none and no failed continue is undecodable too; the same entries if and only if none come after a failed start or with a failed continue |
| ResultStreams.FailedContinueDiffers | accumulo/scanner.go:300-305 | A continue that fails but brings a batch: the stream delivers it, the paging loop drops it |
| ResultStreams.FailedStartDiffers | accumulo/scanner.go:287-300 | A start that fails but announces more: the paging loop reads on, joining later entries and failures; the stream stops |
| StreamScan.UnfoldingDrains | accumulo/scan_stream.go:172-290 | However sources were replanned, draining the queue delivers the opened sessions' answers in order, then the failure that ended the opening |
| StreamScan.UnfoldingOpens | accumulo/scan_stream.go:245-271 | Those sessions are the ones that opening the queue starts, whatever is queued behind |
| StreamScan.StreamDeliversItsSessions | accumulo/scan_stream.go:118-151 | A stream that ends without failure has delivered what its sessions' tablets hold, in order |
| StreamScan.StreamReadsTheRange | accumulo/scan_stream.go:118-151 | End to end, a stream without failure over a range that cannot overhang delivers exactly the live entries of the range; only single sessions are assumed truthful |
| StreamScan.StreamEqualsBatchScan | accumulo/batch_scanner.go:58-100 | A stream that may replan and a batch scan, each with its own view of moving tablets, return the same entries when neither fails |
| StreamScan.SteadyStreamEqualsBatchScan | accumulo/batch_scanner.go:58-100 | When every session starts at once and no scan is stale they do so for every range, overhanging or not |
| StreamScan.ReadAll | accumulo/scan_stream.go:153-240 | Iterating a new stream to its end without failure returns what its sources drain to |
| LocatedScan.ScanLocated | accumulo/scanner.go:193-233 | The retry loop computes the located scan: start over when any failure of a try is stale, keep what the last try gave, and join the failures to release every try's session |
| LocatedScan.ScanEnds | accumulo/scanner.go:193-233 | A scan starts over as long as its tries say so; then the next try decides its entries and failure, and the failures to release all its sessions are joined |
| LocatedScan.StartsOverWhen | accumulo/scanner.go:216-231 | A try starts the scan over exactly when the range fits, the tablet has no server or turns it away as stale, and the location can be invalidated and found again |
| LocatedScan.ScanReadsTheRange | accumulo/scanner.go:174-251 | However often the tablet moves, a scan without failure returns exactly the live entries of the range, unless it overhangs its tablet |
| LocatedScan.StartsOverExactly | accumulo/scanner.go:193-233 | A scan starts over more than n times if and only if each of its first n + 1 tries finds a tablet it fits, is stale, and can invalidate and locate again |
| LocatedScan.RetriesOnce | accumulo/scanner.go:172-173 | It retries at most once if and only if not both of its first two tries start over |
| LocatedScan.LaterFailureStartsOver | accumulo/scanner.go:300-304 | A stale failure after a failed start makes the scan start over, where a stream of the same answers reports the first failure only |
| LocatedScan.StartsOverAnyNumberOfTimes | accumulo/scanner.go:193-233 | For every n a scan can find its tablet stale n times, start over each time, and then succeed |
| LocatedScan.ExecuteBatchScan | accumulo/batch_scanner.go:58-179 | Workers taking segments in any order, each with its located scan, give the results in order up to the first failure, past failures to release sessions |
| LocatedScan.JoinedReports | accumulo/batch_scanner.go:87-99 | A batch scan fails exactly when one of its results does, with the first failure and the entries up to it |
| LocatedScan.BatchScanReadsTheRange | accumulo/batch_scanner.go:58-179 | However tablets move while planning and scanning, a batch scan without failure of a range that cannot overhang returns exactly its live entries, in order |
| MultiScan.GroupBatchSegments | accumulo/batch_scanner.go:181-211 | The loop with its index map computes the grouping |
| MultiScan.GroupsPartition | accumulo/batch_scanner.go:181-211 | Every server has one group: exactly its segments, in order |
| MultiScan.MatchFailedSegments | accumulo/batch_scanner.go:353-383 | The nested loops over a matched array compute the match |
| MultiScan.MatchSucceeds | accumulo/batch_scanner.go:353-383 | Matching fails exactly when some reported range is unknown |
| MultiScan.MatchYields | accumulo/batch_scanner.go:353-383 | It yields the first segment each reported range fits, each once |
| MultiScan.MatchIsExactIfDistinct | accumulo/batch_scanner.go:353-383 | Whatever fails, what is read again is name for name what failed, if and only if no two segments look alike to the server |
| MultiScan.LookAlikesLoseEntries | accumulo/batch_scanner.go:353-383 | When both of two look-alikes fail, only the first is read again and the other's entries are missing |
| MultiScan.EndingAlikePlansAlike | accumulo/batch_scanner.go:102-139 | Two different ranges without an end are planned alike from the second tablet on |
| MultiScan.ServedAndFailedReadTheGroup | accumulo/batch_scanner.go:353-383 | With distinct names, the segments a session served and those matched as failed are together its group's entries |
| MultiScan.ServedAndFollowersReadTheGroup | accumulo/scan_stream.go:624-652 | What a session served plus the replanned failed segments is exactly what its group reads |
| MultiBatchScan.PageSession | accumulo/batch_scanner.go:259-297 | The paging loop collects entries, reported ranges and every failure of one multi-scan session, a range read in part included |
| MultiBatchScan.SoundSessionsPage | accumulo/batch_scanner.go:273-297 | Paging reports no failure exactly when nothing is wrong with any answer, and then collects every entry and reported range |
| MultiBatchScan.ScanMultiGroup | accumulo/batch_scanner.go:252-338 | One group's scan: its session, then its failed ranges invalidated, planned and scanned anew, up to the first error of any kind |
| MultiBatchScan.GroupReports | accumulo/batch_scanner.go:252-338 | A group fails for its session exactly when none starts or an answer is wrong, for an unknown range exactly when one was reported, else as reading again does |
| MultiBatchScan.AgainReports | accumulo/batch_scanner.go:315-336 | Reading again stops at the first segment with any error, and reports that one |
| MultiBatchScan.AgainReads | accumulo/batch_scanner.go:315-337 | What is read again and what is skipped are the failed segments' entries, in order; nothing is skipped without an error |
| MultiBatchScan.GroupReads | accumulo/batch_scanner.go:252-338 | A group's entries and those of what it skips are its segments' entries, none lost and none twice |
| MultiBatchScan.ExecuteMultiBatchScan | accumulo/batch_scanner.go:213-250 | Workers taking groups in any order give the results in group order up to the first failure, past failures to release sessions |
| MultiBatchScan.GroupsHoldSegments | accumulo/batch_scanner.go:181-211 | Grouping keeps every segment, once |
| MultiBatchScan.PlannedNamesDiffer | accumulo/batch_scanner.go:102-139 | The segments planned for one range name different tablets, so none look alike to a server, however tablets change while planning |
| MultiBatchScan.MultiScanReadsTheRange | accumulo/batch_scanner.go:58-100 | However tablets move, a multi-scan without error of a range that cannot overhang returns exactly its live entries, none twice; with only cleanup errors, exactly those of the skipped segments are missing |
| MultiBatchScan.MultiScanReadsTheRanges | accumulo/batch_scanner.go:58-100 | So does one of several ranges, when no two segments of a group look alike |
| MultiBatchScan.ReleaseLosesEntries | accumulo/batch_scanner.go:324-336 | A range read again whose session cannot be released ends the group: the next segment is missing, and only a cleanup error is reported |
| MultiStream.MultiSession.Fetch | accumulo/scan_stream.go:588-620 | A fetch hands out the next answer, with the failures of the call or of the answer, and keeps what is reported as failed |
| MultiStream.SoundSessionsDeliver | accumulo/scan_stream.go:588-620 | A multi-scan session drains without failure exactly when nothing is wrong with any of its answers, and then to all their entries |
| MultiStream.MultiSession.Followers | accumulo/scan_stream.go:624-652 | What was reported is matched and planned anew, once; any failure is the session's |
| MultiStream.FollowersArePlanned | accumulo/scan_stream.go:624-652 | A session leaves sources behind exactly when all its failed ranges can be planned anew |
| MultiStream.FollowersComeAfter | accumulo/scan_stream.go:275-290 | A session drains to its own answers and then to the sources it leaves behind |
| MultiStream.FollowersRead | accumulo/scan_stream.go:624-652 | Those sources drain, without failure, to exactly what the failed segments hold, however often they are replanned |
| MultiStream.MultiStreamReadsTheRange | accumulo/scan_stream.go:118-151 | However tablets move, a multi-scan stream without failure over a range that cannot overhang delivers exactly its live entries, none twice |
| WriterPlan.Plan | accumulo/batch_writer.go:626-667 | The loop with its index maps computes the plan function |
| WriterPlan.SizeIsOfAllBytes | accumulo/batch_writer.go:1026-1032 | A mutation counts with every byte of its row, data and values |
| WriterPlan.PlanIsPermutation | accumulo/batch_writer.go:626-667 | Planning loses, adds and repeats no mutation |
| WriterPlan.PlanStops | accumulo/batch_writer.go:633-640 | Planning fails exactly when some row is not located, and reports the first such row |
| WriterPlan.PlanProjects | accumulo/batch_writer.go:626-667 | Servers and tablets are listed once, and each tablet's part is the subsequence routed to it |
| WriterPlan.ListedForTablet | accumulo/batch_writer.go:626-667 | The lists a plan holds are those projections |
| WriterPlan.PlanKeepsRowOrder | accumulo/batch_writer.go:626-667 | When routing depends only on the row, every row keeps its order through the plan |
| WriterSend.MutationBatches | accumulo/batch_writer.go:817-837 | The nested loops compute the batch function |
| WriterSend.BatchesCut | accumulo/batch_writer.go:817-837 | Batches concatenate back, are never empty, exceed the limit only as singletons, and never end early |
| WriterSend.CallsSendThePlan | accumulo/batch_writer.go:693-703 | The Apply calls together send every tablet exactly its list, in order |
| WriterSend.SentIsPrefix | accumulo/batch_writer.go:693-703 | What reached a tablet before a failed Apply is a prefix of its list |
| WriterSend.DecodeUpdateErrors | accumulo/batch_writer.go:839-951 | The decoding loops compute the decode function |
| WriterSession.DecodeAccepts | accumulo/batch_writer.go:839-951 | A response decodes exactly when every failed extent is known, named once, with an allowed count, and no refused extent is nil |
| WriterSession.ReadFailuresReads | accumulo/batch_writer.go:851-884 | The count read for a tablet is the one its entry gives |
| WriterSession.MalformedIsFirst | accumulo/batch_writer.go:851-932 | A response that does not decode is refused for its first wrong entry, and only without one for a refused tablet without a name |
| WriterSession.DecodedResponseSplitsPlan | accumulo/batch_writer.go:839-951 | Committed prefixes plus the retry list equal the plan |
| WriterSession.SendServer | accumulo/batch_writer.go:680-722 | The session makes exactly the planned calls up to the first failure and reports as the send function says |
| WriterSession.SendReports | accumulo/batch_writer.go:680-722 | A send has no error exactly when its session does not start or goes through: every Apply and the close succeed and the response decodes and turns nothing away; each error has its condition |
| WriterSession.RowsOfTheLeft | accumulo/batch_writer.go:885-903 | A send asks for exactly the tablets with something left to be located again, each by its first row left |
| WriterSession.RetryIsLeft | accumulo/batch_writer.go:680-722 | What a send returns for retry is exactly what a truthful server left uncommitted; without an Apply nothing was committed |
| WriterSession.CutExtentsInOrder | accumulo/batch_writer.go:776-782 | Cutting every tablet's list where the server stopped keeps a row in order |
| WriterFlush.SendServerPlans | accumulo/batch_writer.go:590-624 | Outcomes are index-addressed, so the order in which workers take plans does not matter |
| WriterFlush.RoundRetriesLeft | accumulo/batch_writer.go:545-561 | The retry list of a round without failures is what its servers left |
| WriterFlush.RoundReports | accumulo/batch_writer.go:549-566 | A round fails exactly when one of its sessions does, and is submitted exactly when one made an Apply |
| WriterFlush.RowInOneTablet | accumulo/batch_writer.go:626-667 | Routing by row leaves every row in one tablet of the plan |
| WriterFlush.TryConserves | accumulo/batch_writer.go:524-587 | One attempt commits part of what remained, and the rest is what the next attempt sends |
| WriterFlush.TryReports | accumulo/batch_writer.go:524-587 | How an attempt ends, each way with its condition on the locator, the sessions, what is left, and the retries |
| WriterFlush.FlushReports | accumulo/batch_writer.go:524-587 | A flush fails for its sessions exactly when one of them fails, and has then made an Apply |
| WriterFlush.FlushConserves | accumulo/batch_writer.go:509-588 | A flush commits each mutation at most once, succeeds only when all are committed, and commits nothing without an Apply |
| WriterFlush.FlushInOrder | accumulo/batch_writer.go:524-587 | Rows commit in order through partial commits and any number of retries |
| WriterFlush.FlushIsBounded | accumulo/batch_writer.go:524-587 | At most maxRetries + 1 attempts, all of them before giving up retrying, each starting at most one session for each mutation |
| BatchWriter.Writer.Add | accumulo/batch_writer.go:268-328 | The fields become what the Add function says, including making room, the full-buffer flush and the rollback |
| BatchWriter.Writer.Flush | accumulo/batch_writer.go:354-368 | The fields become what the Flush function says |
| BatchWriter.Writer.Close | accumulo/batch_writer.go:373-395 | The fields become what the Close function says; a repeated Close returns the first result |
| BatchWriter.Writer.AutomaticFlushStep | accumulo/batch_writer.go:479-501 | The fields become what the automatic flush function says, with the delay until the deadline |
| BatchWriter.Writer.FlushLocked | accumulo/batch_writer.go:509-588 | The retry loop computes the flush function and records every commit |
| BatchWriter.Writer.FinishSubmissionFailure | accumulo/batch_writer.go:724-736 | A failure after an Apply is sticky and empties the buffer; one before it changes nothing |
| BatchWriterRuns.StepKeeps | accumulo/batch_writer.go:268-588 | Every operation keeps the ledger, the size count below the limit, and an empty buffer once failed or closed |
| BatchWriterRuns.RunKeeps | accumulo/batch_writer.go:268-588 | So does every run |
| BatchWriterRuns.SuccessCommitsAll | accumulo/batch_writer.go:354-395 | Over every run each mutation commits at most once, and a Flush or Close returning nil has committed every one exactly once |
| BatchWriterRuns.RowsCommitInOrder | accumulo/batch_writer.go:524-587 | Over every run a row's mutations commit in the order they were added |
| BatchWriterRuns.AddHandsOver | accumulo/batch_writer.go:268-328 | An Add without error has handed its mutation over; one with an error that leaves the writer healthy has not |
| BatchWriterRuns.AddRefuses | accumulo/batch_writer.go:268-292 | An Add looks at its mutation exactly when the writer is open and the mutation can be sent; otherwise nothing changes and what is wrong first is reported |
| BatchWriterRuns.FlushAndCloseRefuse | accumulo/batch_writer.go:354-395 | What a Flush or Close of a writer that is not open returns, and that it flushes nothing |
| BatchWriterRuns.SmallAddBuffers | accumulo/batch_writer.go:305-327 | An Add below the limit only buffers its mutation, and dates the buffer when it is the first |
| BatchWriterRuns.FullAddFlushes | accumulo/batch_writer.go:299-323 | A mutation that fills the buffer is flushed with it; one that does not fit has the buffer flushed first |
| BatchWriterRuns.TickIsDue | accumulo/batch_writer.go:479-501 | The automatic flush is made exactly once the oldest mutation has waited the latency; until then the next look is set for that moment |
| BatchWriterRuns.TickIdles | accumulo/batch_writer.go:483-489 | Without the writer, or with it closed, failed or empty, the automatic flush does nothing |
| BatchWriterRuns.FailureSticks | accumulo/batch_writer.go:724-736 | A failed flush that made an Apply fails the writer, whichever operation made it |
| BatchWriterRuns.FlushIsRecorded | accumulo/batch_writer.go:509-588 | Whether it succeeds or fails, a flush leaves exactly its commits, its sessions, a failure if it made an Apply, and the buffer only without one |
| BatchWriterRuns.RejectionFails | accumulo/batch_writer.go:711-736 | When a session fails, a server turning mutations away included, the operation reports an error and the writer has failed for good |
| BatchWriterRuns.NoSessionAfterFailure | accumulo/batch_writer.go:509-512 | After such a flush no session is ever started again and nothing more commits |
| BatchWriterRuns.UnsubmittedKeepsBuffer | accumulo/batch_writer.go:724-736 | A flush that fails without an Apply leaves the buffer as it was |
| BatchWriterRuns.AddKeepsDeadline | accumulo/batch_writer.go:304-327 | An Add that commits nothing leaves the oldest mutation's deadline where it was |
| BatchWriterRuns.FlushesFitMemory | accumulo/batch_writer.go:299-304 | No flush sends more than the memory limit, except what one mutation needs by itself |
| SplitPlan.NormalizeSplitRows | accumulo/table_add_splits.go:513-535 | The loops over the private copy compute the normalized rows |
| SplitPlan.CompactRows | accumulo/table_add_splits.go:527-534 | The slice's kept prefix is the rows without repeats |
| SplitPlan.NormalizedRowsAre | accumulo/table_add_splits.go:513-535 | Rows are refused exactly when there are none or one is empty; else they come out strictly ascending, the same rows |
| SplitPlan.RemoveSplitRows | accumulo/table_add_splits.go:539-555 | The slice's kept prefix is the pending rows not completed, in order |
| SplitPlan.WithoutIsFilter | accumulo/table_add_splits.go:539-555 | Removing rows keeps exactly the others, still strictly ascending |
| SplitPlan.PlanTableSplits | accumulo/table_add_splits.go:456-488 | The loop with its maps computes the plan function |
| SplitPlan.PlanPlaces | accumulo/table_add_splits.go:456-488 | Each row is in exactly one place: its tablet's group, the existing extents, or the unresolved rows |
| SplitPlan.GroupsAscendInside | accumulo/table_add_splits.go:456-488 | A group's rows ascend strictly inside their tablet |
| SplitPlan.PlaceIsTheTablet | accumulo/table_add_splits.go:494-509 | On a sorted list a row's place is given by the one tablet that holds it |
| AddSplits.ApplySplitPlan | accumulo/table_add_splits.go:339-416 | Every group is attempted even after a failure, and only confirmed rows are reported completed |
| AddSplits.PlanReports | accumulo/table_add_splits.go:339-416 | A plan fails, confirms a row and makes one a split point exactly as the manager's answers say; only an ended context keeps later groups from being asked |
| AddSplits.AddSplitRows | accumulo/table_add_splits.go:295-333 | The round loop over the shared slice computes the rounds function |
| AddSplits.RoundsEnd | accumulo/table_add_splits.go:295-333 | Rounds are made as long as they go on, and the last one ends the call as its answers say |
| AddSplits.RoundsReport | accumulo/table_add_splits.go:295-333 | A failure the manager reports ends the call in its round; the call succeeds exactly when a round without one leaves nothing pending |
| AddSplits.AddTableSplits | accumulo/table_add_splits.go:209-270 | Rounds run exactly when the name and rows are valid and the expected table is found, online, with a manager; otherwise what is wrong first is reported |
| AddSplits.FaultIsFirst | accumulo/table_add_splits.go:217-257 | Each fault is reported exactly when everything looked up before it was in order |
| AddSplits.RoundsConfirm | accumulo/table_add_splits.go:295-333 | However many rounds ran, pending is exactly the rows not confirmed, every confirmed row is a split point, and no more rounds ran than allowed |
| AddSplits.SuccessSplitsEveryRow | accumulo/table_add_splits.go:295-333 | Success is reported only when every requested row is a split point |
| Constraints.FormatParses | accumulo/table_constraints.go:264-280 | A formatted number reads back as itself |
| Constraints.OtherSpellings | accumulo/table_constraints.go:264-280 | A sign or leading zero is accepted, so two properties can carry one number |
| Constraints.SpellingsOf | accumulo/table_constraints.go:264-280 | A suffix carries a positive 32-bit number exactly when it is its digits after any zeros and an optional plus sign |
| Constraints.PlainSpellingIsFormatted | accumulo/table_constraints.go:264-280 | Without a plus sign or leading zero a number is only spelt the way it is formatted |
| Constraints.PlainPropertyIsUnique | accumulo/table_constraints.go:91-93 | Among properties spelt without those, a number has exactly the one that installing under it writes |
| Constraints.ParseConstraints | accumulo/table_constraints.go:264-287 | Exactly the installed constraints, ordered by number, whatever order the map is walked in |
| Constraints.ConstraintNumberOf | accumulo/table_constraints.go:304-311 | The least number the class is installed under, or none |
| Constraints.NextConstraintNumber | accumulo/table_constraints.go:291-301 | The least positive free number, found within one step more than there are constraints |
| Constraints.MergeProperties | accumulo/table_constraints.go:212-221 | The base overlaid with the overlay |
| AddConstraint.Decide | accumulo/table_constraints.go:75-93 | The number found is the class's least; the number picked is the least one free in the client's view, for a class that has none |
| AddConstraint.AddTableConstraint | accumulo/table_constraints.go:57-109 | At most five attempts, each a decision on a fresh view and a write only at the version read |
| AddConstraint.DecisionIsUnique | accumulo/table_constraints.go:75-93 | A view and a class leave one decision only |
| AddConstraint.WritesAdd | accumulo/table_constraints.go:87-103 | A write that takes effect replaces no installed class, gives a class without a number its first, and that was the least one free in the writer's view |
| AddConstraint.NextKeeps | accumulo/table_constraints.go:57-109 | Every move of any client keeps numbers and classes one to one |
| AddConstraint.InterleavingsKeepNumbers | accumulo/table_constraints.go:57-109 | In every interleaving no class gets two numbers, no number two classes, and nothing installed is lost |
| AddConstraint.OwnMovesAreCall | accumulo/table_constraints.go:57-109 | A client's own moves from start to finish are exactly a call: same decisions, result and writes |
| AddConstraint.ClientsMakeCalls | accumulo/table_constraints.go:57-109 | In every interleaving, a client that started and finished has made exactly such a call |
| ConditionalWriter.Writer.Write | accumulo/conditional_writer.go:365-434 | The retry loop computes the call function, takes one id for the whole call, and cannot reach its panic |
| ConditionalWriter.WriteFromSettles | accumulo/conditional_writer.go:389-433 | From any attempt on, only the last RPC may be decided or submitted |
| ConditionalWriter.WriteSettles | accumulo/conditional_writer.go:365-434 | At most maxRetries + 1 attempts; an unknown effect is reported exactly when the last RPC was submitted and undecided; every RPC went to a tablet holding the row |
| ConditionalWriter.WriteReports | accumulo/conditional_writer.go:365-434 | A call goes on exactly while attempts settle nothing, can invalidate and wait; then it ends as its last attempt says, having made exactly the RPCs of the attempts that reached a tablet |

## Left out

- Thrift, transport pools, ZooKeeper, contexts, timers, retry backoff (`splitRetrySchedule`) and error text: calls are oracles, cancellation is a possible failure, time is a number.
- How a range looks on the wire to a multi-scan server is an arbitrary function, and the order in which Go walks the map of failed ranges an arbitrary permutation.
- MultiStream.MultiStreamReadsTheRange: is about what the queued groups drain to; that a stream delivers what its sources drain to is `ResultStreams.Collect`.
- `Range.toThrift` and wire equality: row bounds go out with timestamp 0; `Contains` is the meaning of a range here.
- Concurrency of send and scan workers: outcomes are index-addressed, so workers are modelled by an arbitrary order of indexes; the commit log of a round is kept server by server, not interleaved.
- 64-bit overflow of buffered byte counts, attempt counters and segment counts.
- The locator's own cache: LocateTablet answers with the tablet list of some moment; what InvalidateTablet does to the cache is not modelled, only whether it fails.
- Session cancellation after a failed Apply or Close (`cancelWriterSession`): it only adds to an error that is sticky already.
- sort.Slice and sort.SliceStable are modelled by the sorted lists they yield, not by their algorithm.
- VisibilityParser.NewColumnVisibility: of a malformed expression it is proved that it is refused; which error, and at which byte, is what the parse function says and is not characterized further.
- EvaluateTree, getters, setters, clones, string forms, option normalization, column and iterator settings: they would only add easy members.
- ParseTabletExtent, condition encoding and the mergeability payload: wire formats, no property here depends on them.
- The HDFS variable-length integers, the rfile iterators, the C exports, documentation and deployment tools: not part of this model.
- AddConstraint.InterleavingsKeepNumbers: assumes the number written fits 32 bits, which `Constraints.NextConstraintNumber` gives whenever fewer than 2^31 - 1 constraints are installed; RemoveConstraint and other writers of the properties are not among the clients.
- AddSplits.SuccessSplitsEveryRow: other clients' splits join the table at the start of each round, and no tablets are merged.
- ScanSources.StreamCoversRange: sources are those of a batch scan of one range; several ranges queue one after the other and are independent.
- BatchWriter.Writer.AutomaticFlushStep: one step of the automatic flush; the goroutine, its wake-ups and its timer are not modelled.
