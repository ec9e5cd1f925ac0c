# IDEA road closure detection: verified model

A Dafny model of the parts of the repository in which state accumulates over many steps, with proofs
about whole runs. `dafny verify dfyconfig.toml` checks everything.

## What is modelled

**Validation and profile** (`CoverageCounters`, `RoadStatus`, `RunningMeanProperties`, `Validation`,
`ReadingLaw`, `ClosureTimes`, `EventMomentum`, `Sorting`, `Profile`, `ProfileProperties`, `HourlyCounting`,
`ProfileByCounting`). Five-minute coverage readings drive two streak counters, a five-branch weighted running
mean, a momentum factor `exp(-k * echo)` and its parameter `k`; two limits turn the mean into open, closed or
undetermined. Readings and means are `real`; a missing value (NaN) is `None` and follows the source's NaN
comparisons. Of `exp` most theorems assume only three facts (`IsExp`): `exp(0) = 1`, it is positive, and it is
strictly increasing; how fast events reopen a road needs that it is the exponential function (`IsExponential`).
`ReadingLaw` says what one reading does to mean and momentum, from the raw readings and the profile;
`HourlyCounting` and `ProfileByCounting` say what hours and quantiles are by counting readings and hours. The
profile's thresholds are modelled from the raw readings to the filled rows, so that the closure times can be
stated for profiles the code really produces.

**Segment changelog and migration** (`Changelog`, `ChangelogProperties`, `SegmentStore`, `MigrationProtocol`,
`MigrationPass`, `SegmentMigrator`). One cycle diffs a fresh mapping against the changelog, archives removals,
records modifications and lets new segments inherit the history of matched ones. Hash, overlap score and
iteration order are arbitrary functions. The time-series migration of one segment exists twice: as methods on
mutable stores, where a schedule says when each operation happens and which one raises, after a partial effect,
and as a protocol in which every store operation is a step, other writers interleave and failed attempts are
repeated in later cycles. On distinct targets every call of the methods is proved to be a run of the protocol.
The protocol assumes that nobody else writes or deletes rows under the retired id; the code's own passes break
that when two live segments name the same source, so `MigrationPass` says what a marker means over a whole pass
without that assumption.

**Backfill** (`DateRangeQueue`, `WriteQueue`, `Coordinator`, `Backfill`, `BackfillProperties`, `Aggregation`,
`FcdProcessing`, `FcdPoints`, `RawToStore`). The two queues are classes, one worker's handling of one range is a
method, and the N workers, the writer and the shutdown are a protocol of atomic steps: the reads of the
completion counter and of the queue before a worker leaves are separate steps, a write that raises may have
stored any part of its batch, and a range may fail between any two batches and be submitted again. A worker
tests for shutdown and takes a range in separate steps. The method's moves are proved to be steps of the
protocol. Aggregation covers one blob's transformation, the first-wins merge, sorting by date, streaming in
batches and the points a batch is written as, so that the refinement can be stated from the raw listings of a
segment to the store.

**Circuit breaker** (`CircuitBreaker`). The class is proved against a function on events; the theorems are about
every order of events, because outcomes are recorded outside the lock, late and in any state.

`Wrappers`, `Numbers`, `EuclideanDivision` and `IdeaConstants` hold what several modules share.

## Findings

What one might expect of the code and does not hold: each with its exact condition, or, where the point is that
the case arises at all, with an input or a run that shows it.

- A missing reading makes the running mean NaN for the rest of the run exactly when the current streak is zero
  and the previous streak is below the threshold (`MeanIsLostExactly`).
- Zero readings in an hour of week close a segment from the default start if and only if the profile has a
  threshold of at most 54 for it, the one for zeros where the median is below 3 and else the one for zeros or
  ones (`ZeroReadingsCloseIffThresholdUsable`). Above 54 no readings do that drop more than 8 below the median
  only to 0 or 1 (`UnusableProfileNeverCloses`). Others can: after sixty zeros under missing thresholds a
  reading of 1.5 under a median of 10 closes at once (`OddDropClosesWithoutThresholds`). In hours that the
  profile fills, the median is too low for that and no readings close (`UncoveredSegmentNeverCloses`).
- The counters restart in every call. With thresholds clamping to at least P, a call whose readings drop more
  than 8 below the median only to 0 or 1 can close a segment that was not closed if and only if it has more than
  1.5 P readings and P is at most 54 (`CallCanCloseIff`); for any thresholds, at least 8 readings
  (`CallCanCloseIffEightReadings`), so consecutive shorter calls never do (`ShortCallsNeverClose`). Whole
  readings under a profile the code produces always drop like that (`ProducedProfileDropsToLow`). A reading of
  1.5 under a median of 10 does not, and then one reading can close (`OddDropClosesAtOnce`).
- For such readings the branch for a sudden drop of coverage is never taken within a call
  (`SuddenDropIsUnreachable`).
- Sparse traffic reopens a road late. Where every reading is an event (neither 0 nor 1, below 6, and not more
  than 8 below the median), all calls of n readings after a recent event end open if and only if n is at least 6
  (`EventsReopenIff`): the momentum starts at 0.025 and doubles at each event up to 10 (`EventsDoubleMomentum`).
- The mask for quiet hours compares the hourly streak with 60, but an hour of five-minute readings has at most
  12, so on such data it changes nothing (`FilterIsIdleOnFiveMinuteData`).
- Continuing from the last row of an earlier call is exact, for every continuation, if and only if `k` was at
  `K_START` there or the mean was already lost (`ResumingIsExactIffMomentumIsAtRest`).
- The file and the repository version of the changelog update differ exactly on an empty mapping with live
  segments: the file version archives them all (`ImplementationsAgreeExactly`).
- An archived record is overwritten when its id is archived again (`ArchivedRecordLostOnlyByRearchiving`).
- Two added segments share a source exactly when one candidate is the first with the highest score for both and
  both scores reach the threshold (`SourceIsSharedIff`; `TwoNewSegmentsShareOneSource` is an input). An added
  segment inherits from itself exactly when its own archived record is a look-back candidate and that first
  maximum (`SelfInheritanceIff`; `ReturningSegmentInheritsFromItself` is an input); its migration then raises in
  every cycle (`MigrateSegmentTimeseries`).
- When two live segments name the same source, the marker of the second is set although none of the source's
  rows are under it (`SecondHeirIsMarkedWithoutRows`). Where no earlier heir failed, a marked heir has the
  source's rows if and only if it is the first one tried (`MarkerMeansRowsIffFirstHeir`); in general it has
  exactly those left under the source when its turn comes (`MarkedHeirGetsWhatIsLeft`).
- A row dated after the re-tag but before the deletion is deleted without a copy
  (`DeletionLosesOnlyRowsThatBecamePast`, `FutureRowCanBeLost`).
- The chunks of the backfill leave gaps: of every `chunk_days` days, the last one is covered only at its first
  instant (`CoverageIsExact`), and blobs are fetched by exact start and end.
- A write that fails is not repeated although its range counts as completed (`FailedWriteIsNotRetried`). A
  completed and drained backfill leaves the sequential store if and only if every key that a write left out was
  stored by another write or was there with its value from the start (`FinishedBackfillIsSequentialIff`).
- Without a database client nothing is stored and every write counts as a success (`NoClientStoresNothing`).
- Once a range has been dead-lettered, no worker leaves without a shutdown (`WorkersLeaveOnlyWhenDone`).
- A blob without a segment list raises if it follows one with a list in the same batch, and not otherwise, so a
  range can fail or succeed depending on the batch size (`StreamRaisesIff`).
- The batch size can change the store. One blob a batch and one single batch leave the same store, whatever it
  held before, if and only if for every point the first blob that observes its segment and time gives the value
  of the last blob that gives the point one (`BatchingChangesNothingIff`; `BatchSizesAgreeIff` for any two
  sizes). Two blobs of one time that give a field different values fail it (`DisagreementShowsInTheStore`), and
  so does a first blob that lacks a field the second has (`MissingFieldShowsInTheStore`). It holds where no
  segment is observed twice at one time with different properties, and there for whole backfills
  (`BackfillIgnoresBatchSize`).
- The half-open circuit is documented as letting through a limited number of calls; the code lets through all
  that arrive (`HalfOpenAdmitsAll`). Successes of calls admitted before the circuit opened count towards closing
  it, and can close it while the probe has not returned (`EarlierCallsCanCloseTheCircuit`). From a probe on,
  every closing rests on enough successes of calls that arrived with the probe or later if and only if no call
  let through before the probe is still without an outcome (`ClosingRestsOnNewCallsIff`).

## Model

| member | source | states |
|---|---|---|
| CoverageCounters.CalculateMinutesNoCoverage | shared/src/idea_shared/lib/idea/validation/util.py:65-105 | each counter is the length of the run of zero (zero or one) readings ending at that reading, missing readings included; the first reading outside 0..10 is the error, and only such a reading |
| CoverageCounters.TrailIsMaximal | shared/src/idea_shared/lib/idea/validation/util.py:21-37 | a counter is the longest run of matching readings that ends the series |
| CoverageCounters.RunsSnoc | shared/src/idea_shared/lib/idea/validation/util.py:21-62 | one counter update extends both runs by one reading |
| CoverageCounters.GroupedMaximumIsLongestStreak | shared/src/idea_shared/lib/idea/profile/util.py:94-115 | the maximum over grouped runs is the length of the longest window of matching readings |
| CoverageCounters.OnlineCountersAgreeWithGroupedStreaks | shared/src/idea_shared/lib/idea/profile/util.py:106-115 | the largest online counter over a series equals the profile's grouped maximum, for both kinds of streak |
| CoverageCounters.ZeroStreaksNeverExceedLowStreaks | shared/src/idea_shared/lib/idea/validation/util.py:40-62 | zero streaks never exceed zero-or-one streaks, online and grouped |
| RoadStatus.SetSegmentClosureStatus | shared/src/idea_shared/lib/idea/validation/util.py:466-487 | each row is open exactly below 0.15 and closed exactly above 0.75 of its own mean, NaN giving undetermined |
| RoadStatus.DetermineRoadStatusByMinute | shared/src/idea_shared/lib/idea/validation/util.py:390-463 | the loop computes the recurrence over the rows, with or without an earlier validation |
| RunningMeanProperties.RunStaysBounded | shared/src/idea_shared/lib/idea/validation/util.py:243-387 | in every state of every run the mean is in [0,1] or lost and k is in [K_START, K_MAX] |
| RunningMeanProperties.RunningMeansStayInUnitInterval | shared/src/idea_shared/lib/idea/validation/util.py:390-463 | every running mean of a call is in [0,1] |
| RunningMeanProperties.RunsKeepOrderAndNeverSeparate | shared/src/idea_shared/lib/idea/validation/util.py:243-279 | two runs over the same rows lose their means at the same rows, keep their order and never move further apart |
| RunningMeanProperties.StatusIsMonotoneInTheStart | shared/src/idea_shared/lib/idea/validation/util.py:466-487 | raising the starting mean never turns a row from closed to not closed or from not open to open |
| RunningMeanProperties.MeanIsLostExactly | shared/src/idea_shared/lib/idea/validation/util.py:243-279 | the mean is lost at a row if and only if it was lost at the start or a missing reading met an ended short streak at or before that row |
| RunningMeanProperties.RunContinues | shared/src/idea_shared/lib/idea/validation/util.py:413-458 | a run over two pieces is the run over the first, continued from its final row, mean and k |
| RunningMeanProperties.ResumingIsExactIffMomentumIsAtRest | shared/src/idea_shared/lib/idea/validation/util.py:413-421 | resuming from the last row is exact for every continuation if and only if k was K_START there or the mean was already lost |
| RunningMeanProperties.ZeroReadingMakesCutExact | shared/src/idea_shared/lib/idea/validation/util.py:316-320 | a zero reading handled by momentum makes the cut after it exact |
| Validation.ValidateRoadwork | shared/src/idea_shared/lib/idea/validation/validation.py:10-57 | counters, profile match and status compose; an out-of-range reading is the only error |
| Validation.MatchedFromCounters | shared/src/idea_shared/lib/idea/validation/util.py:108-165 | matching the counted rows against the profile gives the rows whose streaks are the runs ending at each reading |
| ReadingLaw.ReadingMovesAndFades | shared/src/idea_shared/lib/idea/validation/util.py:226-387 | what one reading does, from the raw readings and the profile: which streak and threshold judge it, where each of the five branches moves the mean, when and how much momentum keeps of it, and what it leaves of k |
| ClosureTimes.ZeroReadingsClose | shared/src/idea_shared/lib/idea/validation/util.py:266-269 | with thresholds clamping to at most P, 5 <= P <= 54, zero readings are closed from reading number 3.65 P on, from any mean in [0,1], and stay closed |
| ClosureTimes.NoMomentumInLongZeroRuns | shared/src/idea_shared/lib/idea/validation/util.py:375-387 | once a zero run is half as long as the low threshold, and at least 2.5 readings, momentum leaves the mean as it is |
| ClosureTimes.BusyReadingsReopen | shared/src/idea_shared/lib/idea/validation/util.py:258-279 | with thresholds clamping to at most 60, readings above COV_HIGH are open from the 21st reading on, from any mean in [0,1], and stay open |
| ClosureTimes.UnusableProfileNeverCloses | shared/src/idea_shared/lib/idea/validation/util.py:255-256 | with unusable thresholds, readings that drop suddenly only to 0 or 1 never lift the mean above 0.5 |
| ClosureTimes.ZeroReadingsCloseIffThresholdUsable | shared/src/idea_shared/lib/idea/validation/util.py:226-279 | zero readings in an hour of week eventually close a segment from the default start if and only if the profile has a threshold of at most 54 there: the zero threshold where the median is below 3, the zero-or-one threshold otherwise |
| EventMomentum.EventsDoubleMomentum | shared/src/idea_shared/lib/idea/validation/util.py:282-387 | over a call of events k starts at K_START and doubles at each of them up to K_MAX, except at the first where no event is recent |
| EventMomentum.EventsReopen | shared/src/idea_shared/lib/idea/validation/util.py:258-387 | within a call of events the status is open from the 6th reading on, from any mean in [0,1], and from the 7th where no event before the call is recent |
| EventMomentum.EventsReopenIff | shared/src/idea_shared/lib/idea/validation/util.py:258-387 | every call of n events after a recent one ends open, whatever the readings, the profile and the mean in [0,1] before it, if and only if n is at least 6 |
| ClosureTimes.SuddenDropIsUnreachable | shared/src/idea_shared/lib/idea/validation/util.py:271-272 | where a reading drops more than 8 below the median only to 0 or 1, the branch for a sudden drop is not taken within the call |
| ClosureTimes.WholeReadingsDropOnlyToLow | shared/src/idea_shared/lib/idea/validation/util.py:271-272 | whole readings under a median of at most 10 drop suddenly only to 0 or 1 |
| ClosureTimes.ShortCallsNeverClose | shared/src/idea_shared/lib/idea/validation/util.py:83-105 | consecutive calls of at most 7 readings each, from a start of at most 0.75 or an unknown one, never close a segment as long as readings drop suddenly only to 0 or 1 |
| ClosureTimes.CallCanCloseIff | shared/src/idea_shared/lib/idea/validation/util.py:83-105 | under thresholds that clamp to at least P, some call of n readings that drop suddenly only to 0 or 1 closes a segment that was not closed if and only if n exceeds 1.5 P and P is at most 54 |
| ClosureTimes.CallCanCloseIffEightReadings | shared/src/idea_shared/lib/idea/validation/util.py:83-105 | some call of n readings that drop suddenly only to 0 or 1 closes a segment that was not closed if and only if n is at least 8 |
| ClosureTimes.OddDropClosesAtOnce | shared/src/idea_shared/lib/idea/validation/util.py:271-272 | without that hypothesis a call of one reading closes |
| ClosureTimes.OddDropClosesWithoutThresholds | shared/src/idea_shared/lib/idea/validation/util.py:255-272 | without that hypothesis a missing threshold does not keep a segment open: sixty zero readings and one of 1.5 under a median of 10 close from the default start |
| Sorting.SortSorts | shared/src/idea_shared/lib/idea/profile/util.py:24-26 | the values under the quantile are a sorted permutation of the column |
| Sorting.SortKeepsDomination | shared/src/idea_shared/lib/idea/profile/util.py:24-26 | pointwise domination survives sorting |
| Profile.MaskIsLongStreaks | shared/src/idea_shared/lib/idea/profile/util.py:56-91 | a row is masked if and only if it lies in a run of at least n quiet hours |
| ProfileProperties.AggregatedHoursAreOrdered | shared/src/idea_shared/lib/idea/profile/util.py:118-130 | every aggregated hour has ordered streaks of at most 12 and a mean in range |
| ProfileProperties.FilterIsIdleOnFiveMinuteData | shared/src/idea_shared/lib/idea/profile/util.py:56-91 | on five-minute data the mask changes nothing |
| ProfileProperties.QuantileMonotone | shared/src/idea_shared/lib/idea/profile/util.py:24-26 | the interpolated 95% quantile keeps pointwise domination |
| HourlyCounting.HoursFromReadings | shared/src/idea_shared/lib/idea/profile/util.py:43-130 | the hours are those that the readings touch; each has the mean of the whole vehicles of exactly its own readings, a missing one counting none, and the longest runs of them with no vehicle and with at most one |
| ProfileByCounting.QuantileByCounting | shared/src/idea_shared/lib/idea/profile/util.py:24-26 | the quantile of n values lies between the values of the two ranks around 0.95 (n - 1), in the proportion of its fraction, and is the value of that rank where it is whole; more than 0.95 (n - 1) values are at most it |
| ProfileByCounting.MedianByCounting | shared/src/idea_shared/lib/idea/profile/util.py:133-144 | the median is the mean of the values of the two middle ranks |
| ProfileByCounting.ProfileIsProducedIff | shared/src/idea_shared/lib/idea/profile/util.py:226-265 | a profile is produced if and only if at least 30 hours of week have enough hours and a zero quantile, over the hours that fall into them, that rounds to less than 35 |
| ProfileByCounting.ProducedRowShowsItsHours | shared/src/idea_shared/lib/idea/profile/profile.py:98-137 | a produced profile has a row exactly for the hours of week that occur, and each column is the rounded quantile or median of that column over the hours that fall there, or the filled value where there are too few |
| ProfileProperties.ProducedRowsAreOrdered | shared/src/idea_shared/lib/idea/profile/profile.py:98-137 | every row of every produced profile satisfies 0 <= zeros_q95 <= zeros_or_ones_q95 <= 60 and has a median in the range of readings |
| ProfileProperties.UsableSlotClamps | shared/src/idea_shared/lib/idea/profile/util.py:133-217 | an hour of week of a five-minute profile has thresholds of at most 12 or nothing but the filled 60 |
| ProfileProperties.CoveredSegmentCloses | shared/src/idea_shared/lib/idea/profile/profile.py:12-137 | with a profile the code produces, zero readings in hours with data close a segment from the 44th reading on |
| ProfileProperties.UncoveredSegmentNeverCloses | shared/src/idea_shared/lib/idea/profile/util.py:184-217 | where no hour has a usable row, no readings close the segment |
| ProfileProperties.ProducedProfileDropsToLow | shared/src/idea_shared/lib/idea/profile/profile.py:98-137 | whole readings under a produced profile drop suddenly only to 0 or 1 |
| ProfileProperties.ShortCallsUnderProducedProfileNeverClose | shared/src/idea_shared/lib/idea/validation/util.py:83-105 | under a produced profile consecutive calls of at most 7 whole readings never close a segment, whatever they are |
| Changelog.BestCandidateIsFirstMaximum | shared/src/idea_shared/lib/FcdUtils.py:301-331 | the best candidate reaches the maximum score and is the first that does |
| Changelog.MatchIffThresholdReached | shared/src/idea_shared/lib/FcdUtils.py:301-331 | there is a match if and only if some candidate reaches the threshold |
| Changelog.FindMatch | shared/src/idea_shared/lib/FcdUtils.py:301-331 | the best-score loop finds that candidate |
| Changelog.CandidatesAreArchived | shared/src/idea_shared/lib/FcdUtils.py:334-401 | the candidates are exactly this cycle's removals and the eligible look-back segments, all archived |
| Changelog.InheritHistories | shared/src/idea_shared/lib/FcdUtils.py:606-656 | the loop over the new segments gives each its match's history and leaves all other records alone |
| Changelog.ProcessSegmentChangelog | shared/src/idea_shared/lib/FcdUtils.py:699-779 | detection on copies: live entries, archive and the three id sets, for every mapping |
| Changelog.SegmentRepository.UpdateFromRepo | shared/src/idea_shared/lib/FcdUtils.py:782-892 | the repository version performs one cycle, or nothing for a missing or empty mapping |
| Changelog.SegmentFiles.ArchiveRemoved | shared/src/idea_shared/lib/FcdUtils.py:542-555 | popping the removed entries one by one files each in the archive and keeps the rest |
| Changelog.SegmentFiles.DetectChanges | shared/src/idea_shared/lib/FcdUtils.py:557-587 | entry by entry the live book becomes the detected one, with exactly the new and the modified ids reported |
| Changelog.SegmentFiles.UpdateSegmentChangelog | shared/src/idea_shared/lib/FcdUtils.py:452-679 | the mutating file version performs the same cycle |
| Changelog.NothingToInherit | shared/src/idea_shared/lib/FcdUtils.py:831-832 | the guard before matching skips only cycles in which nothing could be inherited |
| ChangelogProperties.MatchIsEligible | shared/src/idea_shared/lib/FcdUtils.py:365-401 | a match was removed in this cycle, or archived within the window and not yet inherited from |
| ChangelogProperties.LiveIdsAreFreshIds | shared/src/idea_shared/lib/FcdUtils.py:738-775 | after a cycle the live ids are exactly the fresh ids |
| ChangelogProperties.EveryRecordKeptExtendedOrArchived | shared/src/idea_shared/lib/FcdUtils.py:738-775 | every live record is kept, extended by exactly its old geometry, or moved to the archive |
| ChangelogProperties.ArchivedRecordLostOnlyByRearchiving | shared/src/idea_shared/lib/FcdUtils.py:738-750 | an archived record stays as it is unless its id is archived again, which overwrites it with the newly removed record |
| ChangelogProperties.ImplementationsAgreeExactly | shared/src/idea_shared/lib/FcdUtils.py:812-820 | the two implementations give the same books if and only if the mapping is not empty or nothing is live |
| ChangelogProperties.RunBoth | shared/src/idea_shared/lib/FcdUtils.py:452-892 | the methods of both implementations, from equal books, end in equal books for every non-empty mapping |
| ChangelogProperties.HistoryIsDestutteredPast | shared/src/idea_shared/lib/FcdUtils.py:738-775 | over any run in which a segment stays present, its own history and current geometry are the fresh geometries with consecutive repeats removed, after any inherited prefix |
| ChangelogProperties.HistoryFromFirstAppearance | shared/src/idea_shared/lib/FcdUtils.py:825-872 | the same from the cycle that adds the segment, whatever it inherits there |
| ChangelogProperties.AddedRecordIsDated | shared/src/idea_shared/lib/FcdUtils.py:725-775 | through any run a live record has the date of the cycle that added its segment and no archiving date |
| ChangelogProperties.HeirTellsBothPasts | shared/src/idea_shared/lib/FcdUtils.py:625-650 | over a run in which x is live, disappears and is inherited by y: the geometries of y are what x had inherited, then the past of x, then that of y, each without consecutive repeats; its entries begin with those of x and their dates, then the last geometry of x with the date it was archived |
| ChangelogProperties.HeirTakesTheBestCandidate | shared/src/idea_shared/lib/FcdUtils.py:240-376 | an added segment inherits if and only if some candidate, disappearing or recently archived and inherited from by no segment that stays, overlaps it by 0.7 or more; then from one that no candidate outscores, an archived one only where it overlaps more than every disappearing one |
| ChangelogProperties.SourceIsInheritedOnce | shared/src/idea_shared/lib/FcdUtils.py:365-401 | while a live segment names an archived source that is not re-added, no segment of a later cycle names it |
| ChangelogProperties.NamesTheFirstMaximum | shared/src/idea_shared/lib/FcdUtils.py:301-331 | an added segment inherits from x if and only if x is the first candidate with the highest score and that score reaches the threshold |
| ChangelogProperties.SourceIsSharedIff | shared/src/idea_shared/lib/FcdUtils.py:289-331 | two added segments share a source if and only if one candidate is that first maximum for both |
| ChangelogProperties.SelfInheritanceIff | shared/src/idea_shared/lib/FcdUtils.py:365-401 | an added segment inherits from itself if and only if its own archived record is a look-back candidate and that first maximum |
| ChangelogProperties.TwoNewSegmentsShareOneSource | shared/src/idea_shared/lib/FcdUtils.py:289-325 | an input of one cycle in which two new segments inherit from the same removed one |
| ChangelogProperties.ReturningSegmentInheritsFromItself | shared/src/idea_shared/lib/FcdUtils.py:365-401 | an input of one cycle in which a segment that returns within the window names itself as its source |
| SegmentStore.CopiedAt | shared/src/idea_shared/classes/InfluxDBSegmentMigrator.py:143-163 | re-tagging adds the copies with the old values and changes nothing else |
| SegmentStore.RetaggedCountSuffices | shared/src/idea_shared/classes/InfluxDBSegmentMigrator.py:238-262 | a completed re-tag leaves at least as many rows under the new id as were counted under the old |
| MigrationProtocol.NoRowIsLost | shared/src/idea_shared/classes/InfluxDBSegmentMigrator.py:221-262 | in every state of every run, failures and other writers of other ids included, every original row is under the old or the new id, with its value unless overwritten |
| MigrationProtocol.MarkerMeansMigrated | shared/src/idea_shared/lib/FcdUtils.py:430-449 | once the marker is set every original row of every target is under the new id and gone from the old, where nobody else writes or deletes under the old id |
| MigrationProtocol.CompletedRetagPassesVerification | shared/src/idea_shared/classes/InfluxDBSegmentMigrator.py:247-262 | the count check after a completed re-tag passes in every run |
| MigrationProtocol.DeletionLosesOnlyRowsThatBecamePast | shared/src/idea_shared/classes/InfluxDBSegmentMigrator.py:166-185 | the deletion removes a row without a copy if and only if the row entered the past between re-tag and deletion |
| MigrationProtocol.FutureRowCanBeLost | shared/src/idea_shared/classes/InfluxDBSegmentMigrator.py:188-274 | a fault-free run that loses such a row |
| MigrationPass.PassTracesRows | shared/src/idea_shared/lib/FcdUtils.py:430-449 | over a pass no past row of any segment disappears: it stays or moves along the inheritances tried |
| MigrationPass.FirstHeirHoldsTheRows | shared/src/idea_shared/lib/FcdUtils.py:430-449 | every past row of the source is under the first heir tried, with its value, if that heir is marked and its own rows are not moved on |
| MigrationPass.LaterHeirGainsNothing | shared/src/idea_shared/classes/InfluxDBSegmentMigrator.py:226-242 | an heir tried after a migrated one of the same source gains no past row |
| MigrationPass.MarkedHeirGetsWhatIsLeft | shared/src/idea_shared/lib/FcdUtils.py:430-449 | whatever became of the earlier heirs, a past row is under a marked heir after the pass if and only if it is under the source when the heir's turn comes, with that value, and if it is not an earlier heir was tried |
| MigrationPass.MarkerMeansRowsIffFirstHeir | shared/src/idea_shared/lib/FcdUtils.py:430-449 | where no earlier heir failed, a past row of the source is under a marked heir if and only if no other heir of that source was tried before |
| MigrationPass.SecondHeirIsMarkedWithoutRows | shared/src/idea_shared/lib/FcdUtils.py:430-449 | two pending heirs of one source: a pass without failures marks both, and the second has no row |
| SegmentMigrator.MovedRow | shared/src/idea_shared/classes/InfluxDBSegmentMigrator.py:221-274 | row by row, where a turn without a raise leaves the store: what the re-tag sees comes to the new id with its values, what the deletion sees leaves the old one, nothing else changes, and nothing at all where the count sees no row |
| SegmentMigrator.CountsAreOfThatMoment | shared/src/idea_shared/classes/InfluxDBSegmentMigrator.py:221-274 | the reported counts are the rows of the old id when it was counted and of the new id, re-tagged ones included, when it was counted again |
| SegmentMigrator.RetagAndDelete | shared/src/idea_shared/classes/InfluxDBSegmentMigrator.py:244-262 | re-tag, recount and deletion end as their operations do: without a raise the rows and counts are exactly those of that moment; rows are preserved whatever fails, and the steps are those of the protocol |
| SegmentMigrator.MigrateTarget | shared/src/idea_shared/classes/InfluxDBSegmentMigrator.py:221-270 | one target fails if and only if an operation that it issues raises; otherwise rows and counts are exactly those of that moment, and the old id is empty; rows are preserved whatever fails, and the steps are those of the protocol |
| SegmentMigrator.MigrateSegmentTimeseries | shared/src/idea_shared/classes/InfluxDBSegmentMigrator.py:188-274 | equal ids or no targets are errors that touch nothing; otherwise the call succeeds if and only if no operation it issues raises, and then every past row of the old id is under the new one on every target, with the counts of that moment; rows are preserved whatever fails, and on distinct targets the call is a run of the protocol that ends marked on success only |
| SegmentMigrator.RunPendingMigrations | shared/src/idea_shared/lib/FcdUtils.py:404-449 | a pending record that does not name itself is marked if and only if none of the operations issued for it raises, with the time of its own success; the pass is a sequence of attempts on every target, and every row can be traced to its segment or to an heir |
| DateRangeQueue.Queue.Populate | shared/src/idea_shared/threading/date_queue.py:36-55 | the loop appends the chunks of the period and sets their number as the total |
| DateRangeQueue.Queue.GetNextRange | shared/src/idea_shared/threading/date_queue.py:57-70 | takes the head of the queue, or None when it is empty |
| DateRangeQueue.Queue.RequeueFailed | shared/src/idea_shared/threading/date_queue.py:93-103 | puts the range at the end with one more retry and the error |
| DateRangeQueue.Queue.MoveToDeadLetter | shared/src/idea_shared/threading/date_queue.py:105-113 | appends to the list that keeps its newest 1000 entries |
| DateRangeQueue.ChunksAreOrdered | shared/src/idea_shared/threading/date_queue.py:45-55 | the chunks are ordered, pairwise disjoint, nonempty and inside the period |
| DateRangeQueue.CoverageIsExact | shared/src/idea_shared/threading/date_queue.py:45-55 | an instant of the period is in some chunk if and only if it is not past the first instant of the last day of its chunk_days |
| DateRangeQueue.EveryDayInExactlyOneChunk | shared/src/idea_shared/threading/date_queue.py:45-55 | every whole-day step of the period lies in exactly one chunk |
| DateRangeQueue.ChunkCount | shared/src/idea_shared/threading/date_queue.py:45-55 | the number of chunks is the number of day steps divided by chunk_days, rounded up |
| DateRangeQueue.Queue.IsComplete | shared/src/idea_shared/threading/date_queue.py:88-91 | whether the completion counter has reached the total |
| WriteQueue.Queue.PutWriteRequest | shared/src/idea_shared/threading/write_queue.py:34-49 | enqueues at the end, or raises Full and changes nothing |
| WriteQueue.Queue.GetNextRequest | shared/src/idea_shared/threading/write_queue.py:51-67 | takes the head; None when stopped or empty |
| WriteQueue.Queue.MarkCompleted | shared/src/idea_shared/threading/write_queue.py:69-80 | counts every write and every failure |
| Coordinator.SubmitWriteWithRetry | shared/src/idea_shared/threading/coordinator.py:208-237 | whatever other threads do to the queue between tries, the batch is accepted if and only if some try finds room, is then in the queue once at the first such try, and is not in it after an error |
| Coordinator.ProcessRange | shared/src/idea_shared/threading/coordinator.py:159-204 | whatever the other threads do to both queues, a range ends in exactly one way: completed if all batches were submitted and nothing raised, else requeued with one more retry, else dead-lettered; and what its last submission left in the write queue |
| Coordinator.SubmissionIsSteps | shared/src/idea_shared/threading/coordinator.py:208-237 | the tries at one batch are steps of the protocol in the states they find, and leave worker and write queue as the method does |
| Coordinator.OutcomeIsStep | shared/src/idea_shared/threading/coordinator.py:177-204 | the outcome of a range is a step of the protocol that leaves the date queue as the method does |
| Coordinator.ShouldLeave | shared/src/idea_shared/threading/coordinator.py:149-156 | a worker without a range leaves if and only if all ranges completed and none waits |
| BackfillProperties.RunInv | shared/src/idea_shared/threading/coordinator.py:136-263 | the protocol's invariant holds in every state of every run |
| BackfillProperties.RangesAreConserved | shared/src/idea_shared/threading/coordinator.py:145-204 | in every reachable state each range is in exactly one place, and total = queued + in flight + completed + dead-lettered if and only if at most 1000 were dead-lettered |
| BackfillProperties.AttemptsAreBounded | shared/src/idea_shared/threading/coordinator.py:187-204 | no range is attempted more than max_retries + 1 times, a dead-lettered one exactly that often |
| Backfill.OutcomeUsesAnAttempt | shared/src/idea_shared/threading/coordinator.py:179-204 | every outcome strictly lowers the summed remaining attempts, no other step changes them |
| BackfillProperties.OutcomesAreBounded | shared/src/idea_shared/threading/coordinator.py:179-204 | outcomes and remaining attempts never exceed max_retries + 1 for each range |
| BackfillProperties.CompleteMeansAll | shared/src/idea_shared/threading/date_queue.py:88-91 | the completion counter is full if and only if every range was completed once and none waits, is in flight or was dead-lettered |
| BackfillProperties.WorkersLeaveOnlyWhenDone | shared/src/idea_shared/threading/coordinator.py:145-156 | a worker leaves without shutdown only when all ranges completed, although counter and queue are read in separate steps |
| BackfillProperties.CompletedBackfillIsSequential | shared/src/idea_shared/threading/coordinator.py:145-263 | for any interleaving, retries and batches submitted twice, once all ranges are completed, no write has failed and the queue has drained, the store is that of the sequential run |
| BackfillProperties.FinishedBackfillIsSequentialIff | shared/src/idea_shared/threading/coordinator.py:239-263 | once all ranges are completed and the queue has drained, the store is that of the sequential run if and only if every key that some write left out was stored by another write or was there with its value from the start |
| BackfillProperties.StoreStaysInsideThePlan | shared/src/idea_shared/threading/coordinator.py:239-263 | in every state the store holds the keys it started with and, beside and over them, only values of the ranges |
| BackfillProperties.DrainedIsFinal | shared/src/idea_shared/threading/coordinator.py:376-399 | once the workers have left and the queue has drained, every submitted batch was tried and nothing changes any more |
| BackfillProperties.ShutdownEndsTaking | shared/src/idea_shared/threading/coordinator.py:145-158 | after a shutdown a worker takes at most one more range, and only if it was already asking for one |
| BackfillProperties.WriterStopsOnlyWhenTold | shared/src/idea_shared/threading/coordinator.py:239-263 | the writer ends only when its queue was shut down, and that only after the shutdown |
| BackfillProperties.FailedWriteIsNotRetried | shared/src/idea_shared/threading/coordinator.py:250-261 | a run that completes every range at the first attempt and whose store misses the whole plan |
| BackfillProperties.NoClientStoresNothing | shared/src/idea_shared/threading/coordinator.py:250-257 | without a database client the store never changes and no write counts as failed |
| CircuitBreaker.CircuitBreaker.Enter | shared/src/idea_shared/resilience/circuit_breaker.py:206-214 | the state after an entry, and when it is refused |
| CircuitBreaker.CircuitBreaker.OnSuccess | shared/src/idea_shared/resilience/circuit_breaker.py:163-185 | the state after a success, in each circuit state |
| CircuitBreaker.CircuitBreaker.OnFailure | shared/src/idea_shared/resilience/circuit_breaker.py:187-204 | the state after a failure, in each circuit state |
| CircuitBreaker.CircuitBreaker.Exit | shared/src/idea_shared/resilience/circuit_breaker.py:131-146 | which outcome a finished call records; excluded exceptions record none |
| CircuitBreaker.EveryStateIsExplained | shared/src/idea_shared/resilience/circuit_breaker.py:148-204 | after any events: closed means fewer failures than the threshold since the last success, open and half-open mean at least the threshold and a known failure time, successes are zero outside half-open and otherwise those since the probe |
| CircuitBreaker.ClosedTripsExactly | shared/src/idea_shared/resilience/circuit_breaker.py:187-204 | a closed circuit opens if and only if a failure makes the recorded failures since the last success reach the threshold |
| CircuitBreaker.HalfOpenClosesExactly | shared/src/idea_shared/resilience/circuit_breaker.py:163-204 | a half-open circuit closes on an outcome if and only if it completes enough successes since the probe with no failure since, and reopens if and only if it is a failure |
| CircuitBreaker.OpenAdmitsExactly | shared/src/idea_shared/resilience/circuit_breaker.py:148-161 | an open circuit lets a call through if and only if the timeout has passed since the last recorded failure |
| CircuitBreaker.OpenStaysOpen | shared/src/idea_shared/resilience/circuit_breaker.py:131-161 | through any late successes, late failures and early calls an open circuit stays open and refuses every one of them |
| CircuitBreaker.HalfOpenAdmitsAll | shared/src/idea_shared/resilience/circuit_breaker.py:131-136 | half-open lets through any number of calls before an outcome is recorded |
| CircuitBreaker.EarlierCallsCanCloseTheCircuit | shared/src/idea_shared/resilience/circuit_breaker.py:138-179 | for every threshold there is a trace, every outcome belonging to one call let through before, in which a tripped circuit closes on successes of calls from before it opened while its only probe has not returned |
| CircuitBreaker.CallInFlightCanClose | shared/src/idea_shared/resilience/circuit_breaker.py:138-185 | any call in flight at a probe can close the circuit with one success too few of the calls that arrived from the probe on |
| CircuitBreaker.ClosingRestsOnNewCallsIff | shared/src/idea_shared/resilience/circuit_breaker.py:138-185 | at a probe, every later closing by an outcome rests on enough successes of calls that arrived with it or later if and only if no call let through before is still without an outcome |
| Aggregation.CoverageOfConfidence | shared/src/idea_shared/lib/TomTomFcdAggregator.py:14-36 | the coverage is in 0..10, within one half of the scaled confidence, 0 exactly up to 71.5, at most 1 exactly below 74.5, 10 exactly from 98.5 |
| Aggregation.CoverageIsMonotone | shared/src/idea_shared/lib/TomTomFcdAggregator.py:14-36 | a higher confidence never gives a lower coverage |
| Aggregation.UpdateAggregate | shared/src/idea_shared/lib/TomTomFcdAggregator.py:244-300 | the loops over segments and dates compute the merge; a file without segmentId cannot be merged into a nonempty one |
| Aggregation.MergeIsFirstWins | shared/src/idea_shared/lib/TomTomFcdAggregator.py:244-300 | the merge is the union in which the aggregate's own geometry and dates win |
| Aggregation.FirstWinsIsAssociative | shared/src/idea_shared/lib/TomTomFcdAggregator.py:244-300 | the order in which merges are bracketed does not matter |
| Aggregation.SortKeepsTheMap | shared/src/idea_shared/lib/TomTomFcdAggregator.py:213-241 | sorting keeps the segment and date map; a segment whose dates all parse comes out in date order, any other unchanged |
| Aggregation.SortEntriesSorts | shared/src/idea_shared/lib/TomTomFcdAggregator.py:224-233 | the sorted dates are a permutation in date order |
| Aggregation.SortedByInstant | shared/src/idea_shared/lib/TomTomFcdAggregator.py:224-233 | of any two sorted dates the earlier one comes first |
| FcdProcessing.ProcessBlobBatch | services/fcd-manager/src/fcd_processing.py:87-148 | the loop folds the blobs and sorts; the first failing merge ends it |
| FcdProcessing.BatchMeans | services/fcd-manager/src/fcd_processing.py:98-148 | a batch comes out as the first-wins union of its blobs |
| FcdProcessing.ProcessDateRangeStreaming | services/fcd-manager/src/fcd_processing.py:49-84 | the loop over batches yields the nonempty ones in order up to the first exception, for every batch size |
| FcdProcessing.BatchSizeDoesNotMatter | services/fcd-manager/src/fcd_processing.py:66-84 | whatever the batch size, a stream that does not raise adds up, merged in order, to the same segment and timestamp map, that of one single batch |
| FcdProcessing.FirstListingWins | shared/src/idea_shared/lib/TomTomFcdAggregator.py:266-279 | a segment's geometry is that of the first blob that lists it |
| FcdProcessing.FirstObservationWins | shared/src/idea_shared/lib/TomTomFcdAggregator.py:281-294 | the properties at a segment and date are those of the first blob that observes them |
| FcdProcessing.NothingObservedNothingMeant | shared/src/idea_shared/lib/TomTomFcdAggregator.py:244-300 | what no blob observes is not in the map |
| FcdProcessing.StreamRaisesIff | services/fcd-manager/src/fcd_processing.py:66-84 | streaming raises if and only if some batch holds a blob without a segment list after one with a list |
| FcdProcessing.NoBatchSizeRaisesIff | services/fcd-manager/src/fcd_processing.py:66-84 | no batch size raises if and only if one single batch does not |
| FcdPoints.AggregateWritesItsView | shared/src/idea_shared/classes/FCDInfluxDBManager.py:274-302 | the points written for an aggregate are exactly those of its segment and timestamp map |
| FcdPoints.StreamWritesExactly | shared/src/idea_shared/classes/FCDInfluxDBManager.py:274-302 | for agreeing blobs the batches of a stream write exactly what the blobs say, whatever the batch size |
| FcdPoints.AgreeingBlobsAreCompatible | services/fcd-manager/src/fcd_processing.py:66-84 | blobs that never observe a segment twice at one time with different properties make batches that agree on common keys |
| FcdPoints.SequentialIgnoresBatchSize | services/fcd-manager/src/fcd_processing.py:66-84 | for such blobs the sequential backfill leaves the same store for every batch size |
| FcdPoints.BackfillIgnoresBatchSize | shared/src/idea_shared/threading/coordinator.py:145-263 | so do two concurrent backfills, whatever their batch sizes, workers and interleavings, once completed, without failed writes, and drained |
| FcdPoints.DisagreementShowsInTheStore | services/fcd-manager/src/fcd_processing.py:66-84 | two blobs with different values of a field at one time leave different stores for batches of one and of two |
| FcdPoints.MissingFieldShowsInTheStore | services/fcd-manager/src/fcd_processing.py:66-84 | a field that the first of two blobs of one time lacks and the second has is written by batches of one and dropped by a batch of two |
| FcdPoints.FirstGivenIs | shared/src/idea_shared/lib/TomTomFcdAggregator.py:281-294 | what one single batch is said to give a point is what the first blob gives that observes its segment and time, be it nothing |
| FcdPoints.LastGivenIs | shared/src/idea_shared/classes/FCDInfluxDBManager.py:274-302 | what batches of one are said to give a point is what the last blob gives that gives it a value |
| FcdPoints.StreamLeaves | shared/src/idea_shared/classes/FCDInfluxDBManager.py:274-302 | for every batch size and every store, the batches of a stream leave each point with the value of the last batch whose first observation gives it one, or as it was |
| FcdPoints.BatchSizesAgreeIff | services/fcd-manager/src/fcd_processing.py:66-84 | two batch sizes leave the same store from every store if and only if for every point the last batches that give it a value give the same |
| FcdPoints.BatchingChangesNothingIff | services/fcd-manager/src/fcd_processing.py:66-84 | one blob a batch and one single batch leave the same store from every store if and only if for every point the first blob that observes its segment and time gives the value of the last blob that gives the point one |
| RawToStore.BlobGivesItsLastListing | shared/src/idea_shared/lib/TomTomFcdAggregator.py:121-208 | what a blob gives a segment, time and field is the number of the last listing of the segment in it, the string id taking precedence over the other, and the coverage is converted from that confidence |
| RawToStore.GeometryIsOfTheFirstListing | shared/src/idea_shared/lib/TomTomFcdAggregator.py:156-208 | a batch knows a segment if and only if some blob lists it, and its geometry is that of the last listing in the first such blob: the valid points of the shape, all of them and in order |
| RawToStore.BackfillStoresTheListings | shared/src/idea_shared/threading/coordinator.py:145-263 | end to end: after a completed, drained backfill of agreeing blobs without failed writes, for every batch size and interleaving, the store holds at a segment, time and field the number of the last listing of the segment in the first blob of that time, and what it held before where no blob lists it |

## Left out

- Input, output and foreign services (Azure, GCS, WFS, InfluxDB client and query text, health server, Sentry, logging, signals, feature flags): their results are parameters or store operations that may fail.
- Geometry (projection, buffering, overlap): an arbitrary score for each pair; that it lies in [0,1] is not needed.
- SQLite round trips of changelog and archive: the repository is taken to return what was saved.
- Floating-point rounding: means, quantiles and confidences are reals; the 16-bit cast of the hourly aggregation drops fractions but never wraps.
- Waiting, back-off and jitter: a wait ends when its caller's step is taken, and clocks are parameters.
- Real-time worker, progress statistics and health thresholds: no property beyond their own bodies.
- Silently lossy re-tags: a store operation completes or raises; within that model the branch for a count mismatch is unreachable.
- Time limits of the shutdown: its waits may end early, so the protocol lets the writer be told to stop at any time after the shutdown began; what a completed wait guarantees is stated from the drained state on.
- Termination of the workers' polling: a worker may poll forever; what is proved is that attempts run out and when a worker may leave.
- Duplicate hours of week in a profile, which would multiply rows in the left join: a profile is a map.
- Sorting of the hourly frame by time: readings are taken in time order, without gaps.
- Order among equal dates when sorting: only the date order and the entries are proved.
- Time zones in the writer's timestamps: its parser is an arbitrary function that may fail, and the size of the client's own write batches is left open, because a failed write may store any part.
- Profile.FilterMaxConsecutive60: the source assigns data frame columns in place; the model computes new rows, so aliasing of the frame is not captured.
- DateRangeQueue.Queue.Populate: requires chunk_days of at least 1, because the source's loop does not end for smaller values.
- Real-time updates during a backfill: the real-time worker is no step of the protocol, so the theorems about the backfill's store assume that nobody else writes keys of the plan.
- MigrationProtocol.NoRowIsLost: assumes that nobody else writes or deletes under the retired id; several heirs of one source are covered by MigrationPass.
- MigrationProtocol.MarkerMeansMigrated: assumes the same; what a marker means without it is MigrationPass.MarkerMeansRowsIffFirstHeir.
- FcdPoints.BatchSizesAgreeIff: requires that blobs of one parsed time carry one timestamp string, as timestamps taken from blob names do (shared/src/idea_shared/lib/FcdUtils.py:81-120); the same holds for the lemmas it rests on.
- Several migration passes: what a marker means is proved for the pass that sets it; no lemma joins the passes of successive cycles.
