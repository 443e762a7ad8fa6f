# FlowSentinel: a model of its stateful core

FlowSentinel captures packets, aggregates them into flows, scores the flows, raises alerts and keeps a history. This
project models the parts of it that carry state, loop over bytes or accumulate numbers, and proves what they promise.

Code that works in place is imperative here too: classes whose methods update their fields (the cache and its linked
list, the limiter, the history store, the TLS stream, the flow table, the baseline), cursors over byte strings, passes
over arrays. Every such method is proved equal to a function of its arguments and the old state. What the program
promises is then proved about that function, over all inputs and all runs.

* **Cache and alerts.** `LruSpec` (the recency sequence), `LinkedList`, `Lru` (the cache on the heap), `LruRuns` (what
  survives a run), `RateLimiter` (token bucket over the reals), `Alerting` (deduplication and Fire), `AlertRuns`
  (sequences of Fire calls), `AlertRaces` (overlapping callers), `FlowKeys` (the string keys).
* **History.** `HistoryLines` (files as bytes), `HistoryIndex` (the offset index and the seek), `SafeReplace` (file
  replacement with failing renames), `HistoryRotation`, `HistoryRotationSafety` and `HistoryRerun` (day files,
  rotations cut short), `HistoryRuns` (the store as a state machine), `HistoryRepair` (a stale index, and what ends
  it), `HistoryPrune` (a whole pruneOld: what is lost, and what the next one completes), `HistoryQuery` (day files and
  recurrence counts), `HistoryStore` (the imperative store).
* **Handshakes.** `Wire` (length-prefixed vectors), `ClientHello` (what the bytes mean, and a printer),
  `ClientHelloCursor` (the two walkers), `ServerHello`, `Decimal`, `Ja3`, `Reassembly`, `Ssh`. The formats are those
  of sections 7.4.1.2 and 7.4.1.3 of RFC 5246, section 3 of RFC 6066, section 2 of RFC 8701, and sections 6 and 7.1 of
  RFC 4253.
* **Flows and scores.** `FlowLimit` (the flow limit under concurrent writers), `FlowStats` (one flow), `Aggregator`
  (the flow table), `Scoring` (capped buckets), `Finalize` (the passes over all flows), `FlowFilter`, `Welford`,
  `Baseline`.
* `Wrappers`, `Sequences` and `ObjectMaps` have what several modules need.

`dafny verify dfyconfig.toml` checks all of it. Automatic induction is switched off in every lemma: each induction is
written out.

## Where the code does less than it says

Each of these is proved with the condition under which it happens. Inputs that show it are lemmas of their own where
the condition does not give them at once.

* An index over entries whose timestamps decrease in file order stays an index of the file, but queries through it are
  exact exactly if every entry with matching flows is read by the query for its own time
  (`HistoryIndex.QueriesAreExactIff`, `HistoryRuns.QueriesInRunsAreExactIff`), and so are the counts of the hot file
  (`HistoryQuery.CountsAreExactIff`, `HistoryQuery.CountsInRunsAreExactIff`). All are where no such entry is followed
  by an indexed one with a smaller time (`HistoryIndex.OrderlyIsEnough`), but the bisection can do with less
  (`HistoryIndex.OrderIsNotNeeded`). Two appends suffice to lose an entry (`HistoryRuns.OutOfOrderLosesEntries`):
  Append takes its timestamp before it takes the lock (internal/history/history.go, lines 94 and 108), so the order is
  an assumption on runs here, not a result.
* An append whose line is written, but whose file cannot be closed, returns an error and keeps its line out of the
  index; a rebuild of the index can break off. The index is then none of a suffix of the file
  (`HistoryRuns.SuffixSurvivesIff`, `HistoryRuns.UnclosedAppendLeavesGap`), but its entries are right, and queries are
  as exact as before.
* When replacing the hot file ends with the new file installed but the backup not removed, or with the old file left
  in the backup, an error is returned and the index of the old file stays; over a whole pruneOld this leaves a stale
  index unless the prune then replaces the file once more (`HistoryRuns.PruneKeepsIndexExactly`,
  `HistoryRuns.IndexSurvivesExactly`; the inputs are `HistoryRuns.StaleAfterRotation` and
  `HistoryRuns.StaleAfterPrune`). It stays until a restart or the next rewrite of the hot file that succeeds
  (`HistoryRepair.IndexIsRepairedIff`, `HistoryRepair.RepairedRunIsSound`).
* pruneOld rotates first so that old entries outlive the prune, and a rotation that fails is to be completed by the
  next one. But the prune follows the failed rotation at once. An entry whose day was not merged then outlives it only
  if the prune writes it back or it is elsewhere (`HistoryPrune.OldLineOutlivesIff`, `HistoryPrune.PruneOldConserves`,
  over runs `HistoryPrune.StoredInRunIff`): after an ordinary failure, such as a temporary file that cannot be
  created, entries at or before the age cutoff are in no file any more (`HistoryPrune.FailedMergeLosesLine`). The next
  pruneOld completes exactly what is left in the hot file (`HistoryPrune.RerunAfterPruneOld`), and everything where
  the prune removed nothing (`HistoryPrune.RerunCompletes`). Entries with the zero time are never rotated, so they go
  with the first prune (`HistoryPrune.StayingLineIsPruned`).
* A day file displaced into its backup comes back only with those of its lines that are left in the hot file
  (`HistoryPrune.RerunAfterPruneOld`, `HistoryPrune.DisplacedDayIsNotRestored`). A displaced hot file loses more: no
  later rotation creates it again, and today's lines exist only in the backup (`HistoryRerun.RerunAfterDisplacedHot`,
  `HistoryRerun.DisplacedHotLosesToday`, `HistoryPrune.DisplacedHotEndsPrune`). Where only the backup of the hot file
  remains, the deletion of outdated day files can be late (`HistoryPrune.RerunAfterPruneOld`,
  `HistoryPrune.BackupKeptDelaysDeletion`).
* A recurrence count equals the number of distinct windows, and a query returns every matching entry once, exactly if
  no file repeats a matching line and no such line of the hot file lies in its own day's file as well
  (`HistoryQuery.RecurrenceIsExact`, `HistoryQuery.QueryReturnsOnceIff`). Day files never repeat a line
  (`HistoryQuery.RotationKeepsUnrepeated`). After a rotation that stops, the lines of the merged days that the prune
  left are in both places (`HistoryQuery.AbortedRotationDoubles`, `HistoryQuery.UnfinishedRotationDoubles`), and one
  line suffices for a wrong count (`HistoryQuery.UnfinishedRotationRecounts`); a rotation that runs to its end leaves
  none of those that it moved (`HistoryQuery.FinishedRotationDoubles`).
* An alert that the rate limiter drops still suppresses its successors until the window has passed
  (`Alerting.RateLimitedAlertIsSuppressed`). Of overlapping callers for one key, each fires that looks the key up
  before any of them has stored it (`AlertRaces.FiresIffNoneStored`, `AlertRaces.InterleavedCallersBothFire`).
* The flow limit can be exceeded by one flow less than there are writers, and by no more; the comment in the source
  allows one per writer (`FlowLimit.LimitHolds`, `FlowLimit.BoundIsAttained`). Packets of tracked flows are sure to be
  counted exactly with a single writer, or without room for any flow (`FlowLimit.TrackedFlowsAreCountedIff`,
  `FlowLimit.DropOfTrackedFlow`).
* A packet with a zero timestamp after others makes a flow forget when it began: firstSeen is independent of the order
  exactly if no time of the flow is zero, or all are (`FlowStats.FirstSeenIsOrderFreeIff`,
  `Aggregator.FirstSeenIsStableIff`). A synthetic event matters to the counts of a flow exactly where it decides about
  a place in the flow table (`Aggregator.EnrichmentIsInvisibleIff`, `Aggregator.EnrichmentCanDisplaceAFlow`).
* Clean signals are written before the bonuses, so a flow can be above LOW and carry them: exactly if it scored below
  2 and the bonuses lift it to 2 (`Finalize.CleanSignalsCanBeStale`, `Finalize.CleanSweep`). With an upload ratio
  below one a flow and its reverse can both count as uploads (`Finalize.NeverBothIff`).
* After equal observations the anomaly multiplier is 0.7 for every value (`Welford.ConstantHistoryHidesOutliers`). A
  destination first contacted after 2000 others stays new (`Baseline.NewIsExact`).
* The HASSH string does not tell lists apart that contain semicolons (`Ssh.HasshIsInjectiveIff`,
  `Ssh.SemicolonIsAmbiguous`).

## Model

| member | source | states |
|---|---|---|
| LruSpec.WithoutAt | internal/cache/lru.go:87-89 | taking the entry of a key out of the recency order is taking out the one position that carries it |
| LruSpec.FindIff | internal/cache/lru.go:78-82 | a lookup succeeds exactly for the keys that occur and yields an entry with that key |
| LruSpec.LiveExact | internal/cache/lru.go:113-120 | after a purge exactly the unexpired entries are left |
| LinkedList.BypassedIsLinked | internal/cache/lru.go:88-89 | the ring that bypasses a node is the linked ring of the remaining nodes |
| LinkedList.List.LinkFront | internal/cache/lru.go:67-68 | linking a node behind the sentinel puts its value in front of the list, links and length consistent |
| LinkedList.List.PushFront | internal/cache/lru.go:67-69 | a new value becomes the first one, the others keep their order |
| LinkedList.List.Remove | internal/cache/lru.go:88-89 | unlinking a node takes exactly that node out and keeps the ring consistent |
| LinkedList.List.MoveToFront | internal/cache/lru.go:58-59 | a node becomes the first, the order of the others stays |
| LinkedList.List.Back | internal/cache/lru.go:113-113 | the last node, or nothing for an empty list |
| LinkedList.List.Prev | internal/cache/lru.go:114-114 | the node before, or nothing at the front |
| Lru.AgreeFacts | internal/cache/lru.go:21-26 | where key map and node list agree, a key is in the map exactly if the recency sequence has one entry for it, and the map names its node |
| Lru.AgreeDrop | internal/cache/lru.go:87-89 | deleting a key and its node keeps map and list in bijection |
| Lru.AgreePush | internal/cache/lru.go:67-69 | adding a key and a front node keeps map and list in bijection |
| Lru.AgreeMove | internal/cache/lru.go:54-59 | moving a node to the front with a new value keeps map and list in bijection |
| Lru.LRU.constructor | internal/cache/lru.go:28-39 | a new cache is empty |
| Lru.LRU.Set | internal/cache/lru.go:41-70 | Set is the abstract set: the entry comes to the front, an older entry of its key goes, and in a full cache the least recently used entry goes; never more than the capacity |
| Lru.LRU.Get | internal/cache/lru.go:72-96 | Get is the abstract get: value and promotion for a live entry, removal of an expired one, nothing for an absent key |
| Lru.LRU.Len | internal/cache/lru.go:98-103 | the number of entries |
| Lru.LRU.Purge | internal/cache/lru.go:105-121 | the backward walk that unlinks while it iterates leaves exactly the live entries, in their order |
| Lru.LRU.Sweep | internal/cache/lru.go:113-120 | one round of that walk drops an expired node and continues at the right neighbour |
| Lru.LRU.EvictOldest | internal/cache/lru.go:123-132 | eviction drops the last entry of the recency order, if there is one |
| LruRuns.StepKeeps | internal/cache/lru.go:41-132 | every operation keeps at most `cap` entries and no key twice |
| LruRuns.NotLast | internal/cache/lru.go:62-65 | an entry with fewer than cap - 1 other keys in front of it is not the one that a full cache evicts |
| LruRuns.SurvivesStep | internal/cache/lru.go:41-121 | one operation before its expiry spares an entry that is guarded by few keys |
| LruRuns.Survives | internal/cache/lru.go:17-20 | an entry outlives every run that stays within its lifetime, does not overwrite it and touches fewer than `cap` distinct other keys |
| LruRuns.StoredIsFound | internal/cache/lru.go:41-96 | a stored value is found until its time to live is over and not after, as long as fewer than `cap` other keys are touched and the key is not set again; a time to live of zero or less never ends |
| LruRuns.LookedUpIsFound | internal/cache/lru.go:72-96 | a value that is looked up is found again for just as long as if it had been stored at that moment, up to its expiry |
| LruRuns.OthersEvict | internal/cache/lru.go:62-65 | after `cap` other keys have been stored nothing is left of a key |
| LruRuns.LookupDropsExpired | internal/cache/lru.go:86-92 | a lookup drops the entry of its key if that has expired, and no other entry |
| RateLimiter.Limiter.constructor | internal/alerting/alerting.go:48-50 | a new limiter has its full burst |
| RateLimiter.Limiter.Allow | internal/alerting/alerting.go:52-80 | allow grants and updates as the abstract bucket does, truncation and the one-minute branch included; a limiter of 0 is unlimited |
| RateLimiter.AllowStep | internal/alerting/alerting.go:52-80 | tokens stay in [0, max]; a call never raises tokens plus accrued time by more than the token it grants |
| RateLimiter.RunKeeps | internal/alerting/alerting.go:52-80 | the bucket stays valid over every run with non-decreasing times |
| RateLimiter.PotentialPays | internal/alerting/alerting.go:52-80 | what a run grants plus what is left was there before or has accrued |
| RateLimiter.GrantsWithin | internal/alerting/alerting.go:38-40 | a valid bucket grants at most its potential plus max*span/60 within any span |
| RateLimiter.GrantsSinceCreation | internal/alerting/alerting.go:38-50 | within T seconds of creation at most max + max*T/60 grants |
| RateLimiter.GrantsInWindow | internal/alerting/alerting.go:38-40 | in any window of T seconds fewer than max + 1 + max*T/60 grants, however long the limiter idled before |
| RateLimiter.GrantsInAnyWindow | internal/alerting/alerting.go:38-80 | of all calls of a run with non-decreasing times, fewer than max + 1 + max*span/60 are granted between any t and t + span |
| RateLimiter.TokensAreGranted | internal/alerting/alerting.go:52-80 | a limiter grants at least as many calls as it has tokens, whenever they are made |
| RateLimiter.ZeroAndBelow | internal/alerting/alerting.go:53-56 | a limiter of 0 grants everything and does not change; a negative one grants nothing |
| RateLimiter.RefusalChangesNothing | internal/alerting/alerting.go:65-77 | a refused call leaves the limiter as it was |
| RateLimiter.GrantedAfterWait | internal/alerting/alerting.go:59-79 | a call at least 60/max seconds after the last refill is granted |
| RateLimiter.PollingCannotStarve | internal/alerting/alerting.go:59-79 | so it is after any number of refused polls in between |
| Alerting.ShouldFire | internal/alerting/alerting.go:164-177 | fires exactly where the cache holds no live entry for the key, and leaves the cache as the abstract get and set do |
| Alerting.CallSpares | internal/alerting/alerting.go:164-177 | a live entry survives a call for another key, and a call for its own key finds it |
| Alerting.CallsSpare | internal/alerting/alerting.go:138-144 | an entry survives every sequence of calls within its window that touches fewer than `cap` other keys |
| Alerting.DedupGuarantee | internal/alerting/alerting.go:138-177 | two alerts for one key: the configured seconds have passed since the first, 300 where they are not positive, or at least `cap` distinct other keys were looked up in between |
| Alerting.SuppressionEnds | internal/alerting/alerting.go:138-177 | once the window has passed the next call for the key fires, whatever refused calls lie in between |
| AlertRaces.LookupDecides | internal/alerting/alerting.go:172-176 | among overlapping callers for one key, within the window and with fewer than `cap` other keys about, a lookup finds nothing exactly as long as no caller has stored |
| AlertRaces.StepKeepsInv | internal/alerting/alerting.go:172-176 | every critical section of any caller keeps the entry of some store for the key safe in the cache, or the key absent before the first store |
| AlertRaces.FiresIffNoneStored | internal/alerting/alerting.go:164-177 | in every interleaving of any number of such callers, a caller fires exactly if its lookup precedes every store for its key |
| AlertRaces.BothFireIff | internal/alerting/alerting.go:164-177 | two callers for one key: the first to look it up fires, and the second too exactly if it looks up before the first has stored |
| AlertRaces.InterleavedCallersBothFire | internal/alerting/alerting.go:172-176 | an interleaving in which both fire |
| Alerting.Alerter.Consider | internal/alerting/alerting.go:200-211 | the tests on one flow, in the order threshold, dedup, rate limit, with the state they leave |
| Alerting.Alerter.GetRateLimiter | internal/alerting/alerting.go:90-104 | the present limiter, or a new and full one where the configured rate has changed |
| Alerting.Alerter.Fire | internal/alerting/alerting.go:179-222 | what a call alerts on, and the cache, limiter and counter that it leaves, are those of the abstract call: nothing without a valid URL or when disabled, else the verdicts taken in order, with the limiter kept unless the rate has changed |
| Alerting.RateLimitedAlertIsSuppressed | internal/alerting/alerting.go:205-211 | an alert dropped by the rate limit still occupies its dedup slot: a following flow of its key is a duplicate exactly until the window has passed |
| Alerting.UnaskedLimiter | internal/alerting/alerting.go:200-211 | flows below the threshold and duplicates leave the limiter as it was and are not alerted on |
| AlertRuns.BatchAsks | internal/alerting/alerting.go:200-211 | the alerts of a batch are the grants of the limiter at the times of the flows that are neither below the threshold nor duplicates |
| AlertRuns.CallsAsk | internal/alerting/alerting.go:90-104 | so are the alerts of any sequence of Fire calls with one configured rate, for one limiter, and the counter rises by their number |
| AlertRuns.RateLimitHolds | internal/alerting/alerting.go:38-222 | over any sequence of Fire calls with one positive rate and non-decreasing times, whatever the batches, thresholds and duplicates, fewer than max + 1 + max*span/60 flows are alerted on in any `span` seconds |
| AlertRuns.CounterIsBounded | internal/alerting/alerting.go:38-222 | and the counter rises by less than that while all flows come within `span` seconds |
| AlertRuns.NothingWithoutConsent | internal/alerting/alerting.go:190-196 | without a URL, with an invalid one or when disabled, nothing is alerted on and nothing changes |
| AlertRuns.NewFlowsAreAlerted | internal/alerting/alerting.go:90-211 | as long as the limiter has room, which is its full rate after a change of the rate, a call alerts on exactly its new flows that reach the threshold |
| FlowKeys.DedupeKeyInjective | internal/alerting/alerting.go:159-162 | flows with different addresses, ports or protocol have different dedup keys, colons of IPv6 addresses notwithstanding |
| FlowKeys.RecurrenceKeyInjective | internal/history/history.go:367-371 | different flow tuples have different recurrence keys |
| HistoryLines.SplitRender | internal/history/history.go:199-203 | scanning what was written line by line gives the lines back |
| HistoryLines.OffsetIsLength | internal/history/history.go:322-330 | the running sum of len(line)+1 is the byte position of a line |
| HistoryLines.ReadFrom | internal/history/history.go:194-203 | seeking to a line's offset and scanning reads exactly the lines from there on |
| HistoryLines.NextLine | internal/history/history.go:203-205 | one scanner step returns the first line and the rest |
| HistoryIndex.AppendKeepsIndex | internal/history/history.go:114-128 | appending a record extends an index of some of the lines by the true entry of the new line |
| HistoryIndex.MoreLinesKeepIndex | internal/history/history.go:119-126 | lines that are written but not indexed leave such an index right |
| HistoryIndex.RebuiltIsAtAllPlaces | internal/history/history.go:312-332 | a rebuilt index lists every decodable line with its true offset and time |
| HistoryIndex.GapIsNoSuffix | internal/history/history.go:119-128 | an index that stops before decodable lines is no index of a suffix of the file |
| HistoryIndex.SkipIsExact | internal/history/history.go:190-203 | starting at line j loses nothing exactly when nothing before it matches |
| HistoryIndex.SeekFindsLine | internal/history/history.go:177-193 | the sought offset is the start of a line, and every decodable line before it is earlier than the cutoff |
| HistoryIndex.SeekIsExact | internal/history/history.go:173-219 | seeking to the entry before the binary search's answer, through an index of any of the lines, returns what a scan of the whole file returns |
| HistoryIndex.BisectAnswers | internal/history/history.go:180-190 | the bisection ends at a position whose left neighbour is before the cutoff and which itself is not, on an unsorted index too |
| HistoryIndex.BisectIsMonotone | internal/history/history.go:180-190 | a later cutoff never makes the bisection end earlier, on an unsorted index either |
| HistoryIndex.QueriesAreExactIff | internal/history/history.go:171-219 | through an index of the lines at any places, the program's bisection makes every query exact, whatever the cutoff and in whatever order the timestamps are, exactly if every line with flows for the filter is read by the query for its own time |
| HistoryIndex.OrderlyIsEnough | internal/history/history.go:127-128 | so it is where no line with such flows is followed by an indexed line with a smaller time |
| HistoryIndex.OrderIsNotNeeded | internal/history/history.go:180-193 | but that is more than is needed: two lines of one time followed by an earlier one |
| SafeReplace.OutcomesExact | internal/history/history.go:859-889 | which of the four ends of a replacement some pattern of failures can reach |
| SafeReplace.Disk.ReplaceFileSafely | internal/history/history.go:856-889 | the directory after every pattern of failures; at every intermediate step the old content is at the destination or the backup, or the new one is installed; success means installed |
| HistoryRotation.PartHas | internal/history/history.go:649-668 | a line goes to a day exactly if it is decodable, has a nonzero time and that day lies before today |
| HistoryRotation.OrderedHas | internal/history/history.go:658-664 | the days to be merged are exactly those of some line |
| HistoryRotation.OrderedDistinct | internal/history/history.go:658-664 | each of them occurs once |
| HistoryRotation.MergeHas | internal/history/history.go:800-807 | a merged day file has exactly the old and the new lines |
| HistoryRotation.MergeAgain | internal/history/history.go:763-807 | repeating a merge, with further lines at the end, is as good as one merge |
| HistoryRotation.PartGrows | internal/history/history.go:649-668 | what rotates to a day at an earlier time is a prefix of what rotates to it later |
| HistoryRotationSafety.MergeDayKeeps | internal/history/history.go:765-854 | one merge, whatever becomes of it, loses no line and adds only its own |
| HistoryRotationSafety.MergeDaysAt | internal/history/history.go:685-692 | what every day file holds after the merges |
| HistoryRotationSafety.RotationConserves | internal/history/history.go:621-731 | without deletion, no course of a rotation, aborted anywhere, loses or invents a line |
| HistoryRotationSafety.RotationKeepsDaysSorted | internal/history/history.go:649-692 | every course keeps each day file free of other days' lines |
| HistoryRotationSafety.HotHoldsOnlyToday | internal/history/history.go:655-667 | after an undisturbed rotation the hot file has exactly its undecodable, zero-time and not-before-today lines |
| HistoryRerun.PurgeLosesOnlyOldDays | internal/history/history.go:728-760 | a rotation with deletion loses exactly the lines that end up only in day files that start more than maxRotatedDays days before now and can be deleted |
| HistoryRerun.PurgeLast | internal/history/history.go:733-760 | deletion is the last step, and comes exactly after a rotation that had something to move and rewrote the hot file with success |
| HistoryRerun.RotatedHas | internal/history/history.go:621-761 | where every line is after a rotation that runs to its end, deletion and failing deletions included |
| HistoryRerun.AbortedHas | internal/history/history.go:685-692 | where every line is after a rotation aborted at any day file in any way |
| HistoryRerun.MergedHas | internal/history/history.go:694-731 | where every line is after a rotation that merged all days and failed at the hot file |
| HistoryRerun.MergedDays | internal/history/history.go:685-692 | each day file after a rotation that merges all days, lines in order |
| HistoryRerun.InterruptedDays | internal/history/history.go:685-692 | each day file after an aborted one: merged or untouched, lines in order |
| HistoryRerun.RerunAfterDisplacedHot | internal/history/history.go:876-883 | a displaced hot file stays away in all rotations; with further appends the files are as without the failure exactly if every line that had stayed is appended again or in its day file, deletion apart |
| HistoryRerun.DisplacedHotLosesToday | internal/history/history.go:876-883 | it happens: a hot file with a line of today and an older one |
| HistoryRuns.TrimIsLongestSuffix | internal/history/history.go:572-577 | dropping from the front leaves the longest suffix that fits the size limit |
| HistoryRuns.PruneKeepsLongestSuffix | internal/history/history.go:535-577 | a successful prune leaves the longest fitting suffix of the undecodable-or-newer lines |
| HistoryRuns.StepKeepsSound | internal/history/history.go:60-69 | append (with errors before and after the line is written), query (with a rebuild that breaks off), restart and pruneOld (with a rotation cut short anywhere) keep the index an index of some of the lines, with their true offsets and times, also when timestamps go back |
| HistoryRuns.RunKeepsSound | internal/history/history.go:60-69 | so does every run of them |
| HistoryRuns.StepKeepsInv | internal/history/history.go:60-69 | with appends in the order of their timestamps they keep the file in order, too |
| HistoryRuns.RunKeepsInv | internal/history/history.go:60-69 | so does every run of them |
| HistoryRuns.QueryIsExactInEveryRun | internal/history/history.go:137-219 | in every state that such a run reaches, the seeking query returns what a full scan returns |
| HistoryRuns.QueriesInRunsAreExactIff | internal/history/history.go:137-219 | without an assumption on timestamps: in every state that a run reaches, the queries are exact exactly if every line with flows for the filter is read by the query for its own time, as all are where no such line is followed by an indexed line with a smaller time |
| HistoryRuns.OutOfOrderLosesEntries | internal/history/history.go:94-128 | it happens: two records appended in the wrong order of their timestamps, and a query through the bisection that misses the later one |
| HistoryRuns.SuffixSurvivesIff | internal/history/history.go:114-130 | an index of a suffix of the file stays one exactly under the events that leave no gap: those other than a written append whose closing fails, behind a nonempty index, and a rebuild that breaks off between decodable lines |
| HistoryRuns.UnclosedAppendLeavesGap | internal/history/history.go:123-126 | it happens: one append, then one whose closing fails |
| HistoryRuns.PruneKeepsIndexExactly | internal/history/history.go:515-619 | a whole pruneOld keeps the index right, whatever the files held, exactly for the safe courses: no replacement that changes the hot file without success, unless a backup was kept by the rotation and the prune then succeeds |
| HistoryRuns.IndexSurvivesExactly | internal/history/history.go:611-618 | one replacement of the hot file keeps the index right exactly for the outcomes Installed and Untouched; after the other two the stale index stays |
| HistoryRepair.IndexIsRepairedIff | internal/history/history.go:515-731 | the events after which the index is right, whatever it was before, are exactly a restart and a pruneOld in which the rotation or the prune rewrites the hot file with success |
| HistoryRepair.StepKeepsFiles | internal/history/history.go:83-619 | every event, a failing prune included, keeps the lines clean and the day files sorted, and the file in order if appends are stamped in order |
| HistoryRepair.RepairedRunIsSound | internal/history/history.go:60-69 | after such an event the store is sound, whatever the index was and whatever became of earlier prunes, and stays so over every run without another failure of that kind; with appends in order the full invariant holds again |
| HistoryPrune.RotatedDayHas | internal/history/history.go:621-761 | where every line is in the day files after a rotation of any course |
| HistoryPrune.AfterPruneOld | internal/history/history.go:519-619 | the hot file, day files and backups after the prune that follows it |
| HistoryPrune.RecentLineStays | internal/history/history.go:733-760 | no course of a pruneOld removes a line of the last maxRotatedDays - 1 days from its day file, unless the file is displaced into a backup |
| HistoryPrune.RecentLineMoves | internal/history/history.go:649-760 | such a line of the hot file from before today is in the file of its day after a rotation that runs to its end |
| HistoryPrune.NothingOlderIsKept | internal/history/history.go:733-760 | after a rotation that runs to its end, with every deletion a success, no day file has a line from more than maxRotatedDays days ago |
| HistoryPrune.PrunedByAge | internal/history/history.go:535-577 | after a prune without failures the hot file fits its size limit and has, of its lines, only undecodable ones and those younger than maxAgeHours, or than pruneToHours where the file was larger than maxSizeMB mebibytes; all of these if they fit |
| HistoryPrune.PruneOldConserves | internal/history/history.go:515-619 | for every course of the rotation and every end of the prune: a line is on disk afterwards exactly if it was in a backup or in a day file that is not deleted, or was merged into one, or the hot file was backed up, or the prune writes it back |
| HistoryPrune.OldLineOutlivesIff | internal/history/history.go:523-525 | a line from before today outlives the prune, deletion apart, exactly if its day was merged, which holds whenever the rotation does not stop, or it is elsewhere or written back |
| HistoryPrune.FailedMergeLosesLine | internal/history/history.go:685-692 | it happens: the merge of the first day fails, the prune deletes the line, no file holds it, and the next pruneOld has nothing to complete |
| HistoryPrune.StayingLineIsPruned | internal/history/history.go:545-553 | a line that does not rotate, such as one with the zero time, is deleted by a pruneOld without failures |
| HistoryPrune.StepStores | internal/history/history.go:83-135 | a line is on disk after an event exactly if the event writes it, or it was there and the event does not lose it |
| HistoryPrune.StoredInRunIff | internal/history/history.go:83-619 | over every run: a line is on disk at the end exactly if it was there at the beginning or after some append, and no pruneOld from then on loses it |
| HistoryPrune.RerunAfterPruneOld | internal/history/history.go:515-761 | after any pruneOld and further appends the next one leaves every day file as if this one had never run, exactly if every line that is missing from its day file, and not due for deletion, is left in the hot file or appended again, and deletion is not merely late |
| HistoryPrune.RerunCompletes | internal/history/history.go:685-731 | where the prune leaves the hot file as it was, an aborted rotation that displaced nothing is completed by the next pruneOld line for line |
| HistoryPrune.DisplacedDayIsNotRestored | internal/history/history.go:876-883 | a displaced day file does not come back, whatever the prune does |
| HistoryPrune.BackupKeptDelaysDeletion | internal/history/history.go:885-887 | where the backup of the hot file is kept and nothing is left to move, an outdated day file stays |
| HistoryPrune.DisplacedHotEndsPrune | internal/history/history.go:527-533 | after a displaced hot file the prune finds no file: the rotation is all there is |
| HistoryQuery.SkippedDayHasNothing | internal/history/history.go:257-267 | skipping a day file by the date in its name drops no entry at or after the cutoff |
| HistoryQuery.KeysTellFlowsApart | internal/history/history.go:367-371 | two flows have the same key exactly if source, destination, port and protocol agree, and exactly if the program's key strings do |
| HistoryQuery.CountedIff | internal/history/history.go:421-433 | a line is counted for a key exactly if it has a record since the given time with a flow of these addresses, port and protocol |
| HistoryQuery.SeekKeepsMatching | internal/history/history.go:395-435 | starting the recurrence scan at the sought offset drops no window |
| HistoryQuery.CountsAreExactIff | internal/history/history.go:395-435 | the number of windows that is counted for a key in the hot file is right, whatever time is asked for and in whatever order the timestamps are, exactly if every window with that key is read by the count for its own time |
| HistoryQuery.CountsInRunsAreExactIff | internal/history/history.go:373-440 | so it is in every state that a run reaches |
| HistoryQuery.RotationKeepsUnrepeated | internal/history/history.go:800-807 | every course of a rotation keeps the day files free of repeated lines |
| HistoryQuery.WindowCount | internal/history/history.go:373-443 | how often a window is counted: once for each occurrence in the hot file and in the file of its own day |
| HistoryQuery.RecurrenceIsExact | internal/history/history.go:373-443 | the count of a key is at least its number of distinct windows, and equal exactly if no file repeats a window with that key and none in the hot file lies in its own day's file |
| HistoryQuery.UnrepeatedCountIsExact | internal/history/history.go:373-443 | where no file repeats a line, the count is right exactly if no window with that key is in the hot file and in its day's file |
| HistoryQuery.PruneOldDoubles | internal/history/history.go:515-761 | which lines are in the hot file and in their day's file after a pruneOld of any course |
| HistoryQuery.AbortedRotationDoubles | internal/history/history.go:515-761 | after one whose rotation stops: of the lines that the prune left, those of the days that were merged, up to the one it failed at |
| HistoryQuery.UnfinishedRotationDoubles | internal/history/history.go:515-761 | after one whose rotation left the hot file as it was: every line that was to move and that the prune left |
| HistoryQuery.UnfinishedRotationRecounts | internal/history/history.go:515-761 | so a count can be too high: one line, merged into its day file by a rotation that cannot rewrite the hot file |
| HistoryQuery.FinishedRotationDoubles | internal/history/history.go:515-761 | after one that ran to its end: only lines that stayed and that a day file had before |
| HistoryQuery.AllReadable | internal/history/history.go:445-492 | with every file readable the windows that are read are all that are stored |
| HistoryQuery.ResultsHave | internal/history/history.go:199-219 | a record is among the results exactly if some stored line has it: at or after the cutoff, with those of its flows that the filter keeps, and at least one of them |
| HistoryQuery.FlowsAreReturned | internal/history/history.go:338-355 | where the filter keeps the flows with a property, every returned flow has it and every stored flow since the cutoff that has it is returned |
| HistoryQuery.AppendedIsReturned | internal/history/history.go:87-135 | an appended record is returned by a query for its time, with the flows that the filter keeps; no flows, or a line over 64 MiB, change nothing |
| HistoryQuery.QueryReturnsOnceIff | internal/history/history.go:137-237 | a query returns one record for every distinct matching line exactly if no file repeats a matching line and none in the hot file lies in its own day's file, and otherwise more |
| HistoryStore.SortByTime | internal/history/history.go:231-233 | a sorted permutation |
| HistoryStore.AddEntryRecurrences | internal/history/history.go:494-503 | every key of a window is counted once, however many of its flows carry it |
| HistoryStore.MergeLines | internal/history/history.go:800-807 | the existing lines followed by the new ones that were not there |
| HistoryStore.DropOldest | internal/history/history.go:572-577 | computes the trimmed suffix |
| HistoryStore.SearchIndex | internal/history/history.go:180-193 | bisection returns a position that splits the index at the cutoff |
| HistoryStore.Store.Append | internal/history/history.go:87-135 | the files and the index after an append, its refusals and failures included: a file that cannot be opened, one that is created and not written, and one that is written and cannot be closed; every pruneEvery-th append asks for a prune |
| HistoryStore.Store.BuildIndex | internal/history/history.go:312-332 | rebuilding lists every decodable line with its offset, as far as the file can be read |
| HistoryStore.Store.SeekFor | internal/history/history.go:171-197 | the start offset of a query, an empty index being rebuilt first |
| HistoryStore.Store.ScanData | internal/history/history.go:199-219 | scanning bytes returns the matching records of their lines, up to where reading breaks off |
| HistoryStore.Store.QueryDays | internal/history/history.go:239-310 | the records of all day files, although files are skipped by date; an error exactly if the directory cannot be read, or a file that is not skipped cannot be read to its end |
| HistoryStore.Store.Query | internal/history/history.go:137-237 | in an ordered store, with the files it needs readable to the end, a query returns exactly the records of stored lines at or after the cutoff with flows for the filter, each with these flows; with day files as a sorted multiset; without the order, of the hot file what is read from the sought offset on; an error exactly if a file that is needed cannot be read to its end, and then the records that the hot file gave |
| HistoryStore.Store.CountHot | internal/history/history.go:373-440 | for every key the number of windows in the hot file since the given time, as far as it can be read |
| HistoryStore.Store.CountDays | internal/history/history.go:445-492 | plus those in the day files, each as far as it can be read |
| HistoryStore.Store.RecurrenceMap | internal/history/history.go:373-492 | for every key the number of stored windows since the given time that contain it, as far as the files can be read; nothing if the hot file cannot be opened |
| HistoryStore.Store.MergeIntoDay | internal/history/history.go:765-854 | merging into a day file, the replacement ending in any outcome |
| HistoryStore.Store.Partition | internal/history/history.go:642-668 | the split into today's lines and per-day lines, days in order of first occurrence |
| HistoryStore.Store.RotateOldEntries | internal/history/history.go:621-761 | a rotation equals the abstract one for every course |
| HistoryStore.Store.PurgeDays | internal/history/history.go:733-760 | day files that start before the cutoff go, except for those that cannot be deleted |
| HistoryStore.Store.PruneOld | internal/history/history.go:515-619 | rotation, age limit and size limit in sequence |
| HistoryStore.Store.PruneHot | internal/history/history.go:527-618 | the hot file after a prune |
| Wire.Vec8RoundTrip | internal/ja3/ja3.go:199-205 | a printed one-byte-length vector reads back, whatever follows it |
| Wire.Vec16RoundTrip | internal/ja3/ja3.go:209-215 | a printed two-byte-length vector reads back |
| Wire.Vec32RoundTrip | internal/capture/ssh.go:130-140 | a printed four-byte-length vector reads back |
| Wire.WordsRoundTrip | internal/ja3/ja3.go:218-224 | a printed list of two-byte numbers reads back |
| ClientHello.GreasePattern | internal/ja3/ja3.go:24-31 | the GREASE table is the pattern of section 2 of RFC 8701 |
| ClientHello.RecordIsStable | internal/capture/capture.go:472-475 | once the first record is complete, later bytes do not matter |
| ClientHello.SniNeedsServerName | internal/capture/capture.go:513-528 | a name is only found where the extension list has type 0 |
| ClientHello.WalkersAgree | internal/capture/capture.go:472-529 | where the handshake length fills the record and the cipher list is even, a nonempty SNI implies that parseClientHello succeeds and lists extension 0 |
| ClientHello.ExtDataRoundTrip | internal/ja3/ja3.go:269-295 | curves and point formats of a printed extension read back |
| ClientHello.ExtsRoundTrip | internal/ja3/ja3.go:255-296 | a printed extension block reads back as its extensions |
| ClientHello.BodyRoundTrip | internal/ja3/ja3.go:184-249 | the fixed part of a printed body reads back |
| ClientHello.RoundTrip | internal/ja3/ja3.go:157-305 | parsing a printed hello yields version, ciphers, extension types, curves and formats with exactly the GREASE values removed, whatever follows the record |
| ClientHello.SniRoundTrip | internal/capture/capture.go:463-530 | the SNI of a printed hello, whatever follows the record and whatever the other extensions are, is the first name of its first server_name extension |
| ClientHello.NoNameNoSni | internal/capture/capture.go:463-530 | a hello without a server_name extension has none |
| ClientHello.HelloOnTheWire | internal/ja3/ja3.go:157-305 | the round trip with the numbers of the wire: record type 22, handshake type 1, 32 bytes of random, extensions 10 and 11 |
| ClientHello.GreaseIsInvisible | internal/ja3/ja3.go:218-282 | two hellos that differ only in GREASE values parse to the same fields |
| ClientHelloCursor.SniByPosition | internal/capture/capture.go:481-529 | reading by absolute position is reading by dropping what was read |
| ClientHelloCursor.HelloByPosition | internal/ja3/ja3.go:184-304 | the same for the JA3 parser |
| ClientHelloCursor.ExtractTLSSNI | internal/capture/capture.go:463-530 | the cursor stays in bounds, ends, and returns the SNI of the payload, on every input |
| ClientHelloCursor.WalkForName | internal/capture/capture.go:512-529 | its extension loop |
| ClientHelloCursor.ParseClientHello | internal/ja3/ja3.go:157-305 | the cursor stays in bounds, ends, and returns the hello of the payload, on every input |
| ClientHelloCursor.WalkExtensions | internal/ja3/ja3.go:251-304 | its extension loop collects types, curves and formats of the extensions in order |
| ClientHelloCursor.ReadWords | internal/ja3/ja3.go:218-224 | the list loop filters GREASE values |
| Decimal.ItoaInjective | internal/ja3/ja3.go:135-144 | different numbers have different numerals |
| Decimal.JoinInjective | internal/ja3/ja3.go:135-155 | different lists join to different strings, the empty list included |
| Decimal.ItoaReads | internal/ja3/ja3.go:135-144 | a printed number is a numeral without leading zeros that reads back, digit by digit and by character codes, as the number |
| Decimal.JoinReads | internal/ja3/ja3.go:135-155 | a joined list splits at its dashes into numerals of its numbers, in their order |
| Decimal.Join | internal/ja3/ja3.go:135-155 | the joining loop computes that string |
| Ja3.Ja3Injective | internal/ja3/ja3.go:122-130 | equal JA3 strings mean equal version, ciphers, extensions, curves and formats |
| Ja3.Ja3sInjective | internal/ja3/ja3s.go:67-72 | equal JA3S strings mean equal version, cipher and extensions |
| Ja3.Ja3Reads | internal/ja3/ja3.go:122-130 | the JA3 string splits at its commas into five fields that read, in base ten, as version, ciphers, extensions, curves and point formats, in this order |
| Ja3.Ja3sReads | internal/ja3/ja3s.go:67-72 | the JA3S string into three: version, cipher, extensions |
| Ja3.FingerprintOfPrinted | internal/ja3/ja3.go:67-130 | for a printed hello, whatever follows it, the hashed string reads as what was sent, GREASE values removed |
| Ja3.FingerprintIsStable | internal/ja3/ja3.go:67-75 | the fingerprint depends on the first record only |
| Ja3.GreaseKeepsFingerprint | internal/ja3/ja3.go:24-31 | inserting GREASE values changes no fingerprint |
| Ja3.ComputeJA3 | internal/ja3/ja3.go:122-130 | the formatted string |
| Ja3.ComputeFingerprint | internal/ja3/ja3.go:67-75 | digest of that string, or nothing for other payloads |
| Ja3.ComputeJA3S | internal/ja3/ja3s.go:67-72 | the formatted server string |
| ServerHello.ParseServerHello | internal/ja3/ja3s.go:77-178 | the cursor stays in bounds, ends, and returns the server hello of the payload, on every input |
| ServerHello.WalkKinds | internal/ja3/ja3s.go:159-171 | its extension loop |
| ServerHello.RoundTrip | internal/ja3/ja3s.go:77-178 | parsing a printed server hello yields version, cipher (0 for a GREASE one) and the non-GREASE extension types |
| ServerHello.HelloOnTheWire | internal/ja3/ja3s.go:77-178 | the round trip with the numbers of the wire: record type 22, handshake type 2, 32 bytes of random |
| ServerHello.GreaseCipherIsZero | internal/ja3/ja3s.go:77-178 | the version stays, and a cipher of two equal bytes that end in the digit A becomes 0 |
| Reassembly.TlsStream.constructor | internal/capture/reassembly.go:55-62 | a new stream has an empty buffer |
| Reassembly.TlsStream.Reassembled | internal/capture/reassembly.go:74-140 | buffer, done flag, last time and emitted event after a batch, with a full channel and with unusable addresses too |
| Reassembly.TlsStream.Absorb | internal/capture/reassembly.go:80-95 | the buffering loop takes the next bytes up to 8 KB and skips empty chunks |
| Reassembly.FillTakesPrefix | internal/capture/reassembly.go:80-95 | the buffer is the first 8 KB of the stream so far |
| Reassembly.FoundIsStable | internal/capture/reassembly.go:97-104 | more bytes change neither a found name nor its fingerprint |
| Reassembly.DoneIsSilent | internal/capture/reassembly.go:77-79 | after its attempt a stream emits nothing |
| Reassembly.AttemptsAreExact | internal/capture/reassembly.go:1-23 | over every sequence of batches: one attempt, with SNI and JA3 of the first 8 KB, exactly if that prefix holds a name and the addresses are usable |
| Reassembly.SegmentationIsIrrelevant | internal/capture/reassembly.go:1-23 | two splittings of one byte stream yield the same attempt or none, and never two |
| Reassembly.FillSeen | internal/capture/reassembly.go:80-95 | the last time after a batch is the latest of the chunks read, in this batch or before |
| Reassembly.TimeIsExact | internal/capture/reassembly.go:80-135 | the time of the attempt is the latest of all chunks read up to the end of the batch that completes the name |
| Reassembly.TimestampNeedsTheBatches | internal/capture/reassembly.go:81-83 | so it does depend on how chunks are batched |
| Ssh.ParseSSHKexInit | internal/capture/ssh.go:88-162 | the cursor stays in bounds on every input and returns what the bytes mean |
| Ssh.FindLineEnd | internal/capture/ssh.go:91-106 | the banner loop finds the end of the first line within 256 bytes |
| Ssh.ReadNameLists | internal/capture/ssh.go:127-142 | the loop reads ten name-lists or fails |
| Ssh.ListsRoundTrip | internal/capture/ssh.go:127-142 | printed name-lists read back |
| Ssh.PacketRoundTrip | internal/capture/ssh.go:110-125 | the message of a printed packet, without padding, whatever follows it |
| Ssh.BannerIsSkipped | internal/capture/ssh.go:91-108 | an identification line of up to 256 bytes is skipped |
| Ssh.RoundTrip | internal/capture/ssh.go:66-162 | for any ten lists, cookie, padding, trailing bytes and optional identification line: lists 0, 2, 4 and 6, and success exactly if the first is not empty |
| Ssh.ExtractHASH | internal/capture/ssh.go:40-53 | digest of the joined lists, or nothing on failure |
| Ssh.StringDetermines | internal/capture/ssh.go:49-50 | the hashed string determines four lists without semicolons |
| Ssh.HasshReads | internal/capture/ssh.go:49-50 | where no list has a semicolon the hashed string splits at its semicolons into the four lists, in order |
| Ssh.HasshOfPrinted | internal/capture/ssh.go:44-162 | what is hashed for a printed packet is lists 0, 2, 4 and 6 with semicolons between them |
| Ssh.PacketOnTheWire | internal/capture/ssh.go:66-162 | the round trip with the numbers of the wire: identification lines of up to 256 bytes that start with SSH- and end with a line feed, message type 20, a cookie of 16 bytes, ten lists, packets of at most 65535 bytes |
| Ssh.SemicolonIsAmbiguous | internal/capture/ssh.go:49-50 | a semicolon in a list gives another four lists with the same string |
| Ssh.HasshIsInjectiveIff | internal/capture/ssh.go:49-50 | so four lists are told apart from all others exactly if none contains a semicolon |
| FlowLimit.StepKeepsLimited | internal/aggregate/aggregate.go:262-278 | every atomic operation keeps the bound, and the counter equal to the flows minus the writers that have stored but not counted |
| FlowLimit.StepKeepsConserved | internal/aggregate/aggregate.go:262-278 | every atomic operation keeps each flow's packets absorbed, dropped or under way |
| FlowLimit.LimitHolds | internal/aggregate/aggregate.go:233-278 | in every interleaving of W writers: at most maxFlows + W - 1 flows, the counter lag, no drop below the limit, conservation per flow |
| FlowLimit.QuietIsExact | internal/aggregate/aggregate.go:246-278 | when all writers are done the counter is the number of flows and every packet is absorbed or dropped |
| FlowLimit.AddAlone | internal/aggregate/aggregate.go:262-278 | undisturbed, Add absorbs a packet of a tracked flow, or of a new one while there is room, and drops the others |
| FlowLimit.BoundIsAttained | internal/aggregate/aggregate.go:239-240 | the bound is sharp: some interleaving reaches it, for every limit and number of writers |
| FlowLimit.StepKeepsSolo | internal/aggregate/aggregate.go:262-278 | with one writer nothing changes between lookup, check and store |
| FlowLimit.TrackedFlowsAreCountedIff | internal/aggregate/aggregate.go:233-237 | packets of tracked flows are never dropped, in any interleaving of W writers, exactly if W <= 1 or maxFlows <= 0; and so for "no flow has packets both counted and dropped" |
| FlowLimit.DropOfTrackedFlow | internal/aggregate/aggregate.go:262-278 | for two writers or more and any positive limit, an interleaving that drops a packet of a tracked flow |
| FlowStats.FlowState.AddPacket | internal/aggregate/aggregate.go:365-435 | the flow's fields after a packet are those of the abstract step |
| FlowStats.CountersAreExact | internal/aggregate/aggregate.go:366-378 | packet and byte count are those of the non-synthetic packets, timestamps are their first 1024 |
| FlowStats.LastSeenIsLatest | internal/aggregate/aggregate.go:372-374 | lastSeen is the latest time of a non-synthetic packet |
| FlowStats.NamesAreExact | internal/aggregate/aggregate.go:379-390 | the name sets are exactly the nonempty names seen |
| FlowStats.FlagsAreExact | internal/aggregate/aggregate.go:400-414 | each flag says that some packet had it |
| FlowStats.FirstFingerprintsWin | internal/aggregate/aggregate.go:391-399 | of each kind of fingerprint the first nonempty one stays |
| FlowStats.HttpIsOneRequest | internal/aggregate/aggregate.go:424-430 | the four HTTP fields come from one packet, the first with a method |
| FlowStats.FirstCertWins | internal/aggregate/aggregate.go:431-434 | of several certificates the first one stays |
| FlowStats.NXDomainsAreCounted | internal/aggregate/aggregate.go:415-417 | nxdomainCount is the number of NXDOMAIN answers |
| FlowStats.TTLIsLowest | internal/aggregate/aggregate.go:418-423 | minDNSTTL is the lowest TTL seen, zero included |
| FlowStats.CoreStepsCommute | internal/aggregate/aggregate.go:365-435 | two packets commute on the order-independent part of a flow |
| FlowStats.OrderIsIrrelevant | internal/aggregate/aggregate.go:365-435 | permuting a flow's packets leaves counts, last time, names, flags and DNS answers unchanged |
| FlowStats.EnrichmentIsNotCounted | internal/aggregate/aggregate.go:291-291 | deleting synthetic events leaves a flow's counts and timing unchanged |
| FlowStats.FirstSeenIsFirstTime | internal/aggregate/aggregate.go:369-371 | firstSeen is a function of the times of the non-synthetic packets |
| FlowStats.FirstTimeIsLeast | internal/aggregate/aggregate.go:369-371 | without a zero time it is the earliest |
| FlowStats.FirstSeenIsOrderFreeIff | internal/aggregate/aggregate.go:369-371 | it is independent of the packet order exactly if no time is zero, or all are |
| Aggregator.Aggregator.Add | internal/aggregate/aggregate.go:349-436 | the flow table after a packet is the abstract one |
| Aggregator.Aggregator.FlowFor | internal/aggregate/aggregate.go:260-278 | a state for a tracked flow or, below the limit, a new one; otherwise one more dropped packet |
| Aggregator.Aggregator.Update | internal/aggregate/aggregate.go:365-435 | only the flow of the packet changes |
| Aggregator.TableIsExact | internal/aggregate/aggregate.go:226-278 | the tracked flows are the first maxFlows that occur, each holds all of its packets, the packets of the others are counted as dropped |
| Aggregator.PacketsAreConserved | internal/aggregate/aggregate.go:256-278 | every packet is absorbed by exactly one tracked flow, or dropped |
| Aggregator.BelowTheLimit | internal/aggregate/aggregate.go:233-237 | below the limit nothing is dropped and every flow is complete |
| Aggregator.PermutationIsInvisible | internal/aggregate/aggregate.go:349-436 | below the limit, permuting a window's packets leaves the set of flows and every flow's counts, last time, names, flags and DNS answers unchanged |
| Aggregator.PermutedTimes | internal/aggregate/aggregate.go:369-371 | permuting a window's packets permutes the times of every flow |
| Aggregator.FirstSeenIsStableIff | internal/aggregate/aggregate.go:369-371 | below the limit, firstSeen of a flow is the same for every order of the window's packets exactly if none of its real packets has the zero time, or all have it |
| Aggregator.EnrichmentIsInvisible | internal/aggregate/aggregate.go:291-291 | below the limit, deleting the synthetic events leaves every flow's counts and timing unchanged |
| Aggregator.EnrichmentIsInvisibleIff | internal/aggregate/aggregate.go:266-291 | at any limit, a flow's counts and timing are the same without the synthetic events exactly if it has no real packets, or has a place in both tables, or in neither |
| Aggregator.EnrichmentCanDisplaceAFlow | internal/aggregate/aggregate.go:266-272 | for every positive limit, a window of packets in which one synthetic event takes the place of a flow with a real packet |
| Scoring.ScoreBucket.Add | internal/aggregate/aggregate.go:851-863 | a bucket takes what fits and reports whether it had room |
| Scoring.ScoreMap.AddTo | internal/aggregate/aggregate.go:930-936 | after every signal each bucket holds min(cap, sum of its points) |
| Scoring.ScoreMap.Total | internal/aggregate/aggregate.go:887-895 | the sum of the buckets, at most 10 |
| Scoring.Score | internal/aggregate/aggregate.go:921-1243 | score and kept reasons of an arbitrary list of signals |
| Scoring.EachSignalAdds | internal/aggregate/aggregate.go:851-895 | a further signal adds to the score what fits into its bucket beside the points before it, the buckets holding 6, 3.5, 4, 3, 3.5 and 5 points, and the whole 10 |
| Scoring.PointsAdd | internal/aggregate/aggregate.go:851-863 | the points of a bucket are those of its signals |
| Scoring.NoSignalsNoScore | internal/aggregate/aggregate.go:887-895 | without signals the score is 0 |
| Scoring.MultiplierScales | internal/aggregate/aggregate.go:1234-1242 | the anomaly multiplier scales the score, up to 10 |
| Scoring.TierIff | internal/aggregate/aggregate.go:1297-1308 | the tiers begin at 2, 5 and 7 |
| Scoring.ScoreIsOrderFree | internal/aggregate/aggregate.go:851-895 | the score does not depend on the order of the detectors |
| Scoring.AlwaysKeptIff | internal/aggregate/aggregate.go:930-936 | a signal's reason is kept in every order of the detectors exactly if all others together leave room in its bucket |
| Scoring.ReasonsNeedTheOrder | internal/aggregate/aggregate.go:930-936 | a full bucket silences later reasons, so their order matters |
| Scoring.ScoreInRange | internal/aggregate/aggregate.go:1234-1242 | the score lies in [0, 10] |
| Scoring.MoreSignalsMoreScore | internal/aggregate/aggregate.go:851-895 | one more signal never lowers the score |
| Finalize.ScorePass | internal/aggregate/aggregate.go:604-616 | pass 3 fills the records with score, reasons, techniques, clean signals and tier |
| Finalize.DestsBySource | internal/aggregate/aggregate.go:618-625 | the distinct destinations of every source |
| Finalize.ScanPass | internal/aggregate/aggregate.go:618-645 | pass 4 in place: the bonus by number of distinct destinations |
| Finalize.UploadPass | internal/aggregate/aggregate.go:647-684 | pass 5 in place: the bonus by the bytes of the reverse flow |
| Finalize.SortByScore | internal/aggregate/aggregate.go:686-688 | a permutation with descending scores |
| Finalize.Finalize | internal/aggregate/aggregate.go:604-690 | the records of all flows, descending, each with a score in [0,10] and the tier and techniques of its final score and reasons |
| Finalize.FinalRecordsAreSound | internal/aggregate/aggregate.go:604-684 | score range, tier and techniques through all passes |
| Finalize.BonusesOnlyAdd | internal/aggregate/aggregate.go:618-684 | no record loses score, tier or reasons, and none gains more than 5 |
| Finalize.NeverBothIff | internal/aggregate/aggregate.go:671-675 | two opposite transfers never both count as uploads exactly if the ratio is at least 1 |
| Finalize.ReverseFlowsNeverBoth | internal/aggregate/aggregate.go:660-683 | with such a ratio a flow and its reverse never both get the bonus |
| Finalize.FinalScore | internal/aggregate/aggregate.go:604-684 | the final score is the flow's own score plus a bonus for the number of destinations of its source and one for the bytes of the reverse flow, at most 10 |
| Finalize.FinalScoreInNumbers | internal/aggregate/aggregate.go:604-684 | for distinct flows and a ratio that is not negative: own score, plus 3 or 1.5 by the number of destinations of the source, plus 2 if the flow with addresses and ports exchanged has bytes and this one more than ratio times as many, at most 10; tier by 2, 5 and 7; clean signals only below an own score of 2 |
| Finalize.FinalReasons | internal/aggregate/aggregate.go:626-684 | a flow's reasons are those of its signals that found room, then the scan reason, then the upload reason; its techniques are those of these reasons |
| Finalize.CleanSignalsCanBeStale | internal/aggregate/aggregate.go:613-684 | a record above LOW still carries clean signals exactly if it had some, scored below 2 by itself, and score and bonuses together reach 2 |
| Finalize.CleanScanner | internal/aggregate/aggregate.go:613-643 | so does every flow without signals of a source with enough destinations |
| Finalize.CleanSweep | internal/aggregate/aggregate.go:613-643 | for every threshold, a sweep over that many destinations: confirmed as a scan, all of its flows called clean |
| FlowFilter.Apply | internal/aggregate/filter.go:11-30 | the records before the first one below the minimum, cut to topN |
| FlowFilter.BreakIsFilterIff | internal/aggregate/filter.go:19-24 | stopping early equals filtering exactly if the passing records come first |
| FlowFilter.SortedFilter | internal/aggregate/filter.go:11-30 | on sorted records Apply is filter, then take |
| FlowFilter.NothingBetterIsHidden | internal/aggregate/filter.go:5-9 | what is left out scores no more than what is kept, and fails the minimum where topN does not bind |
| FlowFilter.ReturnedIff | internal/aggregate/filter.go:11-30 | of sorted records exactly those are returned that are not below a positive minimum and among the first topN of a positive topN |
| FlowFilter.Summarise | internal/aggregate/filter.go:40-56 | every record is counted in its tier and in no other |
| FlowFilter.CriticalComeFirst | internal/aggregate/filter.go:32-38 | on the final records the count of critical ones is the length of the critical prefix |
| Welford.Shift | internal/baseline/baseline.go:32-38 | moving the centre of the squared deviations |
| Welford.WelfordIsExact | internal/baseline/baseline.go:24-38 | N times the mean is the sum, and M2 is the sum of squared deviations from the mean (so never negative) |
| Welford.OrderIsIrrelevant | internal/baseline/baseline.go:24-38 | the statistics are the same for every permutation of the observations |
| Welford.MultiplierIsMonotone | internal/baseline/baseline.go:243-270 | the further from the mean, the larger the multiplier |
| Welford.FewObservations | internal/baseline/baseline.go:243-258 | below five observations the multiplier is 1 |
| Welford.VarianceIsExact | internal/baseline/baseline.go:40-45 | the variance times one less than the number of observations is the sum of the squared distances from their mean |
| Welford.MultiplierIff | internal/baseline/baseline.go:243-270 | the four outcomes in terms of squared distance and variance, without a root |
| Welford.ConstantHistoryHidesOutliers | internal/baseline/baseline.go:47-53 | after equal observations every later value, however far off, counts as normal |
| Welford.OutliersAreRare | internal/baseline/baseline.go:259-269 | judged by their own baseline at most one in nine observations gets the largest multiplier |
| Welford.Entry.Stddev | internal/baseline/baseline.go:40-45 | the square root of the sample variance, 0 below two observations |
| Welford.Entry.ZScoreOf | internal/baseline/baseline.go:47-53 | the distance from the mean in standard deviations, 0 without spread |
| Welford.Entry.Observe | internal/baseline/baseline.go:32-38 | the entry after an observation |
| Baseline.PortStr | internal/baseline/baseline.go:113-130 | the digit buffer, reversed in place, is the decimal numeral |
| Baseline.ReversePrefix | internal/baseline/baseline.go:126-128 | the swap loop reverses the written part |
| Baseline.MakeKey | internal/baseline/baseline.go:108-111 | the key of a process and a port |
| Baseline.KeysAreInjective | internal/baseline/baseline.go:108-111 | keys are equal only for the same folded name and port, even if names contain colons |
| Baseline.Store.Observe | internal/baseline/baseline.go:143-161 | only the entry of the key changes, by one observation and its time |
| Baseline.Store.AnomalyMultiplier | internal/baseline/baseline.go:243-270 | the multiplier of the key's entry, 1.0 for no name or too few observations |
| Baseline.Store.ObserveDest | internal/baseline/baseline.go:162-181 | only the destinations of the process change, by one visit |
| Baseline.Store.IsNewDestination | internal/baseline/baseline.go:183-201 | the verdict from the destinations of the process |
| Baseline.VisitsAreRemembered | internal/baseline/baseline.go:65-67 | remembered are exactly the destinations among the first 2000 different ones |
| Baseline.NewIsExact | internal/baseline/baseline.go:183-201 | after five contacts "new" means: never contacted, or first contacted after 2000 others |
| Baseline.NewIsRight | internal/baseline/baseline.go:183-185 | with at most 2000 different destinations it means never contacted |

## Left out

* Packet capture, layer decoding, TCP ordering and gaps, channels and tickers: foreign libraries and I/O. The ordered
  chunks, and whether the channel has room, are arguments.
* MD5, HMAC, JSON and gzip: MD5 is an arbitrary function of the string before hashing; the JSON codec is an arbitrary
  pair of functions that is assumed to read back what it wrote, as one line without a newline in it; a day file is its
  lines.
* Partial writes, the scanner's maximum line length and carriage returns at line ends: a file is a sequence of
  complete lines. Writes, renames, temp files, deletions and reads that fail are part of the model; a read that fails
  in a rotation or prune ends it like a replacement that leaves its file untouched, and the part of a line that a
  reader gets when it breaks off is taken to be undecodable.
* The filter of a query (filterFlows) is an arbitrary function on the flows of a record.
* RecurrenceMap's keys are tuples in `HistoryQuery`; that the strings tell the tuples apart is
  `HistoryQuery.KeysTellFlowsApart`.
* Locks: methods of the cache, the limiter, the history and the baseline run one at a time. Interleavings are modelled
  for the flow limit and for callers of shouldFire.
* Webhook delivery, alert records, metrics, feeds, updates and the MCP tool handlers: network clients and wrappers.
* Rounding of floating-point numbers: scores, tokens and statistics are real numbers, and the square root is a
  parameter that is assumed exact. Counters do not overflow, and Go's int has 64 bits.
* The detectors of score, the texts of clean signals and the MITRE keyword table: an item carries their outcome.
* Reverse DNS, GeoIP, feed and process lookups of Finalize: an item is a flow after them.
* The pointers to cache entries and to the destination sets of a process are merged with the node or map that holds
  them.
* Expected beaconers, ageing, persistence and loading of the baseline, the lookup tables of known fingerprints, and
  configuration: they would only add easy members.
- Reassembly.AttemptsAreExact: says nothing about the time stamped on the event, because that depends on the batches;
  `Reassembly.TimeIsExact` has the time.
- HistoryRuns.StepKeepsInv: assumes timestamps that do not decrease in file order, because otherwise the file is not
  in order; the index stays right without it (`HistoryRuns.StepKeepsSound`) and only queries fail
  (`HistoryRuns.QueriesInRunsAreExactIff`).
- HistoryRuns.StepKeepsSound: assumes prunes of a safe course, because after the others a stale index stays
  (`HistoryRuns.PruneKeepsIndexExactly`) until an event that empties it (`HistoryRepair.RepairedRunIsSound`).
- HistoryStore.Store.Append: does not model a write that fails halfway, because a file is a sequence of complete
  lines.
- HistoryPrune.RerunCompletes: assumes that the prune leaves the hot file as it was, because otherwise lines can be
  lost (`HistoryPrune.RerunAfterPruneOld` has the condition for every prune).
- Alerting.DedupGuarantee: is about calls that do not overlap; `AlertRaces.FiresIffNoneStored` is about those that do.
- Alerting.Alerter.Fire: does not model overlapping batches, alert records and delivery, because the first are
  interleavings of the calls in `AlertRaces` and the others are I/O.
