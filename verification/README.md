# Sublarr backend: a verified model

A Dafny model of the in-process algorithms and state machines of the Sublarr subtitle backend, with proofs of what
they promise. `dafny verify dfyconfig.toml` checks everything.

Each component is a pair of modules in one file: a specification module (data types, functions and the theorems about
them) and a module with the code as the source has it, loops over mutable objects included, proved equal to the
specification. Python strings are `seq<char>`, `None` is an `Option`, times are `int` milliseconds or `real` seconds.

- `PyText`: the Python string operations the rest relies on (strip, split, join, decimal numbers).
- `AssTags`: extraction of `{...}` override tags and their proportional restoration into a translation.
- `Arithmetic`: facts about products and quotients.
- `Subtitles`, `ChangeLog`: the event list, as objects edited and deleted in place; deletion by index; log entries.
- `HealthSpec`, `EventGroups`, `HealthChecker`: the checks, the six automatic fixes, the score.
- `FixOrders`, `SingleFixes`, `FixRequests`: for which lists of requested fixes every check is silent afterwards; which
  single fixes keep the score; the same for requests by name, and what they report.
- `TextFixes`: the first rewriting pass, with the removal of watermarks.
- `CommonFixes`: merging short lines, trimming overlaps, minimum display times.
- `HiRemoval`: removal of hearing-impaired markers and the re-indexing of the change log.
- `CircuitBreaker`, `MemoryCache`, `RateLimiter`: lazy or pruned state against the full history of calls.
- `JobQueue`: callers, worker threads and completion callbacks as interleaved steps.
- `ResponseParser`, `Translator`: the numbered prompt and its parser; batches, retries and the fallback, against a
  language model that may answer anything.
- `Transcripts`: the output of a translation told from the answers of the model, call by call.
- `OpEd`, `RegionDetection`: clusters of events; which openings and endings are reported.
- `StreamSelect`: the choice of a subtitle stream, and the numbering it shares with the embedded provider.
- `SrtTime`: SRT time lines, files read back, removal of credit blocks.
- `Rotation`, `Upgrade`: which backups a rotation keeps; how long a chain of upgrades can be.

The caller of a clocked operation passes in the clock reading; the calls and sleeps of the translation client are two
counters of an object. Regular expressions whose content is a matter of taste
(markers, credits, style names), the plain text of an event and the language model are arbitrary functions; the
expressions `\{[^}]*\}`, `^\d+[\.:]\s*`, the SRT time line and the backup file name are modelled concretely.

## Findings

Where the code differs from what is written about it, the model follows the code:

- A restored tag goes to the leftmost word boundary within three characters. That is a nearest one unless there is a
  boundary within three characters to the left and, behind it, a closer one (`SnapLeftmost`, `SnapNearestExactly`,
  `SnapNotNearest`; backend/ass_utils.py:186-187 and 213-221). So even a line that is not translated does not always get
  its tags back where they were; `RestoreOwnTags` says when it does.
- Tags survive a round trip through a translation exactly when no brace of the translation opens in front of one or
  forms a tag behind the last one; the code does not look (`RestoreThenExtract`, `StrayBraceSwallows`;
  backend/ass_utils.py:229-235).
- A request for fixes leaves every check silent, for all files with a Default style, exactly when it turns inverted
  events and mends styles before it trims overlaps, removes zero durations and duplicates after that, and removes
  empty events at any time (`OrdersThatWork`; its assumption on texts is met by any library that leaves text without
  markup alone, `PlainTextShows`). The order in which `FIX_MAP` lists the fixes is not of that kind
  (`OrdersCompared`, `ListedOrderLeavesOverlap`; backend/health_checker.py:540-547 and 575-583). The source
  prescribes no order; `FIX_ORDER` is one of this model. `RequestsThatWork` is the same theorem for requests by name.
- A single requested fix can lower the score. The removals never do; each of the three fixes that rewrite events does
  for some file (`SingleFixesThatWork`, `RewriteAloneLoses`; backend/health_checker.py:343-357 and 575-583).
- After its cooldown the breaker lets every request through until an outcome is recorded, not a single probe; a
  request is refused again exactly when a failure was recorded less than a cooldown ago (`PassingGoesOn`,
  `RefusedExactly`, `TwoRequestsPass`; backend/circuit_breaker.py:6 and 77-83).
- The log of the first rewriting pass is not re-indexed when watermarks are deleted, unlike that of the
  hearing-impaired removal: an entry of a surviving event stays right exactly when there is no watermark in front of it
  (`EntryStillRight`, `StaleEntry`; backend/common_fixes.py:132-136).
- Stretching short events after trimming overlaps opens an overlap again exactly when the minimum time from the start
  of an event reaches into the next one (`StretchReopens`; backend/common_fixes.py:155-188).
- Statuses of the job queue only move forward as long as no job is enqueued under an id that still has an entry
  (`UntakenAlwaysLegal`). With at least one worker that condition is exact: replacing any entry, one that is still
  queued included, either goes back at once or has a continuation that does, once the first job is finished and the
  second one starts (`EnqueueSafeExactly`, `GoesBack`, `ReusedIdGoesBack`; backend/job_queue/memory_queue.py:65-72).
  The searches for wanted items do enqueue under the id of the item, without looking
  (backend/wanted_search/batch.py:135-140 and 167-172).
- A batch whose retries all fail is not an error but is translated line by line; with no attempts at all, lines get
  lost (`TranslationAligned`; backend/ollama_client.py:201-202).
- The first priority of the stream selection ignores the language. With a source-language ASS stream in the file, the
  choice is in the source language exactly when there is no full ASS stream or the first one is in that language
  (`SourceChosenExactly`, `FullTargetWins`; backend/ass_utils.py:255 and 307-311).
- A negative retention limit deletes that many backups from the old end, at every rotation (`SecondRotation`,
  `NegativeLimitGoesOn`; backend/database_backup.py:442). With other limits one rotation is enough
  (`RotationSettles`).
- Credits are judged by the end of the file, and a cleaned file may end earlier. A second cleaning removes nothing more
  exactly when no block that was kept is a credit by the new end (`SecondCleaning`; backend/credit_remover.py:98-127).
- Chains of upgrades come to an end exactly when the minimum gain is positive and it is not the case that ASS is
  preferred, scores reach twice the minimum, and there is a third format besides ASS and SRT (`UpgradesEndExactly`,
  `ThirdFormatCycles`; backend/upgrade_scorer.py:77-79).

## Model

| member | source | states |
|---|---|---|
| AssTags.ExtractTags | backend/ass_utils.py:152-179 | the loop computes the clean text, the tags with their clean positions, and the clean length |
| AssTags.SplitThenInterleave | backend/ass_utils.py:166-167 | putting the found tags back between the split parts gives the line: splitting loses nothing |
| AssTags.InterleaveThenSplit | backend/ass_utils.py:166-167 | tags put between parts that open no brace are found again, and so are the parts |
| AssTags.EveryTagCloses | backend/ass_utils.py:27-27 | whatever the parts are, at least as many tags are found as were inserted |
| AssTags.FoundAgain | backend/ass_utils.py:27-27 | inserted tags are found again if and only if no part in front of one opens a brace and the last part holds no tag |
| AssTags.ExtractThenWeave | backend/ass_utils.py:152-179 | re-inserting the extracted tags at their recorded positions rebuilds the line character for character |
| AssTags.WeaveThenExtract | backend/ass_utils.py:152-179 | extraction from a text with tags woven in returns the text and the tags if and only if the text does not disturb them |
| AssTags.SnapToBoundary | backend/ass_utils.py:213-221 | the loop over offsets -3 to 3 computes the snapped position |
| AssTags.SnapLeftmost | backend/ass_utils.py:213-221 | the snapped position is the leftmost boundary within three characters, or the position itself when there is none |
| AssTags.SnapNearestExactly | backend/ass_utils.py:186-187 | the taken boundary is a nearest one if and only if there are no two boundaries i < j with i within three characters to the left and j closer than i |
| AssTags.SnapNotNearest | backend/ass_utils.py:186-187 | counterexample: a boundary at distance 0 loses against one at distance 3 |
| AssTags.InsertPosition | backend/ass_utils.py:208-227 | position 0, proportional position, snapping and both clamps together are the landing position |
| AssTags.RestoreTags | backend/ass_utils.py:182-237 | the emitting loop produces the translation with every tag woven in at its landing position |
| AssTags.LandedOrdered | backend/ass_utils.py:225-227 | landing positions never decrease and stay inside the text; no tag text is lost or reordered |
| AssTags.RestoredTagsLandNear | backend/ass_utils.py:205-227 | every tag lands within three characters of its proportional position, even after snapping and clamping, and a tag from position 0 lands at 0 |
| AssTags.TagsLandProportionally | backend/ass_utils.py:205-227 | restoration is proportional: a tag at pos of a text of length L lands in a translation of length n at a p with (p - 3) * L <= pos * n < (p + 4) * L, clamps included; leading tags stay in front, tags behind the text go to within three characters of its end |
| AssTags.TagsLandExactly | backend/ass_utils.py:208-227 | the landing position from lengths and text alone: with a * L <= pos * n < (a + 1) * L it is the leftmost place within three characters of a where a word ends, or a when there is none, but not in front of the tag before and not behind the text |
| AssTags.SortKeepsTags | backend/ass_utils.py:205-205 | the sort by position is a permutation, sorted, and leaves sorted lists alone |
| AssTags.RestoreThenExtract | backend/ass_utils.py:152-237 | tags of any line restored into any translation come out again in order around exactly that translation, if and only if the translation does not disturb them; without an opening brace it never does |
| AssTags.RestoreOwnTags | backend/ass_utils.py:152-237 | the tags of a line restored into its own clean text give the line back if and only if each tag is at the start or has no boundary in the three characters in front of it, and none in the three behind unless it is at one itself |
| AssTags.StrayBraceSwallows | backend/ass_utils.py:229-235 | counterexample: the tag of the line x{i}, restored into a lone opening brace, comes out as a longer tag around no text |
| Subtitles.SubFile.DeleteAll | backend/health_checker.py:453-455 | deleting positions from the last to the first leaves exactly the other events, in order |
| HealthSpec.FlaggedExact | backend/health_checker.py:31-322 | the positions a check reports are exactly the offending ones, in ascending order |
| HealthSpec.WhatIsFlagged | backend/health_checker.py:167-322 | what each check of single events objects to, constants included |
| HealthSpec.WhatIsCompared | backend/health_checker.py:31-92 | an event is a duplicate when an earlier one has its times, text and style, and overlaps when another one of its style and layer starts no earlier and before its end |
| HealthSpec.FactsMean | backend/health_checker.py:194-322 | when a text counts as empty, too long or unbroken, in terms of its plain text |
| HealthSpec.IssueReads | backend/health_checker.py:31-322 | the severity of the issues of each check, and their line numbers |
| HealthSpec.OverlapIssueReads | backend/health_checker.py:58-92 | an overlap is reported at the next event of the group that starts before the end, as an error from 500 milliseconds on and as a warning below |
| HealthSpec.ScoreMeans | backend/health_checker.py:343-357 | the score is 100 minus what all checks charge, at least 0; it is 100 if and only if no check, that of the encoding included, has anything to say |
| HealthSpec.ScoreOfIssues | backend/health_checker.py:343-357 | a list without issues scores 100; each further issue takes 10, 3 or 1 points off, down to 0 |
| HealthSpec.RestyledSilent | backend/health_checker.py:485-498 | after the style fix the style check is silent if and only if Default is defined, there are no styles, or nothing was wrong |
| HealthSpec.UntangledSilent | backend/health_checker.py:514-523 | after the swap no event ends before it starts |
| HealthSpec.TrimmedSilent | backend/health_checker.py:459-482 | trimming each event against its direct successor removes every overlap in its group, not only that with the successor |
| HealthSpec.TrimmedKeepsOrder | backend/health_checker.py:459-482 | trimming never turns a well-ordered event around |
| HealthSpec.WithoutKeepsSilence | backend/health_checker.py:441-536 | deleting events never makes a silent check speak |
| HealthSpec.WithoutFlagged | backend/health_checker.py:441-536 | deleting what a check reports silences it |
| HealthSpec.FixOrderSilences | backend/health_checker.py:575-583 | in the order FIX_ORDER of this model all six fixes together leave none of the six checks with an issue |
| HealthSpec.FixOrderKeepsScore | backend/health_checker.py:343-357 | in that order the score is never lower than before, for any events, styles and encoding penalty |
| HealthSpec.CommentsSurvive | backend/health_checker.py:575-583 | whatever fixes are applied in whatever order, every comment survives unchanged and in order |
| HealthSpec.CommentsAre | backend/health_checker.py:575-583 | the comments that theorem speaks of are all comments, each as often as it occurs |
| HealthSpec.EveryLineKept | backend/health_checker.py:441-456 | removing duplicates leaves an equal event for every line |
| HealthSpec.NothingFlagged | backend/health_checker.py:441-536 | a fix changes nothing when its check reports nothing |
| HealthSpec.ListedOrderLeavesOverlap | backend/health_checker.py:540-547 | counterexample: in the listed order an overlap survives |
| FixOrders.OrdersThatWork | backend/health_checker.py:575-583 | for every list of requested fixes, repeats included: all six checks are silent afterwards for all events and all styles with Default among them, if and only if some trimming comes after a style fix and a swap and before a zero-duration and a duplicate removal, and empty events are removed somewhere |
| FixOrders.WorkingOrderSilences | backend/health_checker.py:575-583 | such a list silences all six checks |
| FixOrders.WorkingOrderKeepsScore | backend/health_checker.py:343-357 | such a list never lowers the score |
| FixOrders.PlainTextShows | backend/health_checker.py:194-200 | the assumption on texts of the theorems about fix orders holds for every library that leaves the texts a, b and the empty one alone |
| FixOrders.WitnessAgainst | backend/health_checker.py:575-583 | against every other list one of three small inputs leaves a check with an issue |
| FixOrders.OnceEach | backend/health_checker.py:540-547 | for a list with each fix once the condition is four comparisons of positions |
| FixOrders.OrdersCompared | backend/health_checker.py:540-547 | FIX_ORDER is such a list, the order of FIX_MAP is not |
| FixRequests.NameRunsItsFix | backend/health_checker.py:540-547 | each of the six requests with one name does to the events what the fix of the check of that name does; any other name does nothing |
| FixRequests.RequestsThatWork | backend/health_checker.py:575-583 | the theorem on the orders for lists of requested names: all six checks are silent afterwards, for all events and styles with Default among them, if and only if the names come in such an order |
| FixRequests.AllNamesSilence | backend/health_checker.py:575-583 | requesting the six names in the order of FIX_ORDER leaves none of the six checks with an issue and never lowers the score |
| FixRequests.ReportExactly | backend/health_checker.py:580-583 | a name is listed once for each of its requests that finds events to touch, in order; it is counted exactly when it is listed, with the number found by the last such request |
| HealthSpec.WithoutNeverCosts | backend/health_checker.py:343-357 | deleting any events makes no check charge more, overlaps with their two severities included |
| HealthSpec.RemovalKeepsScore | backend/health_checker.py:441-536 | each of the three removals alone never lowers the score |
| SingleFixes.SingleFixesThatWork | backend/health_checker.py:575-583 | a fix requested alone keeps the score of every file with Default among its styles if and only if it is not one of the three that rewrite events |
| SingleFixes.RewriteAloneLoses | backend/health_checker.py:343-357 | three events for each rewriting fix that have a lower score afterwards |
| EventGroups.CollectGroups | backend/health_checker.py:464-471 | the dictionary loop groups the non-comment events by style and layer, in order of first appearance |
| EventGroups.GroupsPartition | backend/health_checker.py:464-475 | the sorted groups cover every non-comment event exactly once, each in order of start time and position |
| EventGroups.SuccessorIsNext | backend/health_checker.py:475-478 | the neighbour in a sorted group is the next event of the group in the whole file |
| HealthChecker.CheckEvents | backend/health_checker.py:167-322 | the loop of a check that looks at one event at a time reports the issues of its offending events |
| HealthChecker.CheckDuplicateLines | backend/health_checker.py:31-55 | the set-based loop reports exactly the repetitions of an earlier event |
| HealthChecker.CheckTimingOverlaps | backend/health_checker.py:58-92 | comparing neighbours in sorted groups reports each event that overruns any later event of its group, once |
| HealthChecker.FixMissingStyles | backend/health_checker.py:485-498 | in place: exactly the events with an undefined style get Default; returns their number |
| HealthChecker.FixNegativeTiming | backend/health_checker.py:514-523 | in place: exactly the inverted events are swapped; returns their number |
| HealthChecker.FixTimingOverlaps | backend/health_checker.py:459-482 | in place: every event is trimmed at its successor; returns the number of overlaps the check reported just before |
| HealthChecker.FixDuplicateLines | backend/health_checker.py:441-456 | in place: exactly the repetitions are deleted; returns their number |
| HealthChecker.RemoveEvents | backend/health_checker.py:501-536 | in place: exactly the empty, or the zero-duration, events are deleted; returns their number |
| HealthChecker.CalculateScore | backend/health_checker.py:343-357 | the loop computes 100 minus the penalties, at least 0 |
| HealthChecker.PenaltyPermutes | backend/health_checker.py:348-356 | the penalty does not depend on the order of the issues |
| HealthChecker.RunHealthChecks | backend/health_checker.py:411-425 | the score of all checks together is a function of the events, the styles and the encoding issues |
| HealthChecker.CheckFile | backend/health_checker.py:360-433 | a file that cannot be read or parsed scores 0; any other gets the score of its events |
| HealthChecker.ApplyFixes | backend/health_checker.py:550-595 | the loop over fix names, unknown names skipped, applies the fixes in order, counts them, and returns the new score |
| HealthChecker.ApplyAllFixes | backend/health_checker.py:575-583 | that loop composes the fixes of the known names, in order |
| BreakerSpec.StepStandsFor | backend/circuit_breaker.py:53-131 | every operation keeps the state in step with the history; closed is equivalent to fewer failures than the threshold |
| BreakerSpec.RunRefines | backend/circuit_breaker.py:53-131 | over every history with a clock that does not run backwards, a request is allowed if and only if the failures since the last success are below the threshold or the cooldown has passed |
| BreakerSpec.QueriesChangeNothing | backend/circuit_breaker.py:53-83 | however many requests are made in between, the machine answers a later one as it would without them |
| BreakerSpec.PassingGoesOn | backend/circuit_breaker.py:6-12 | once a request has passed, all later ones pass until an outcome is recorded |
| BreakerSpec.RefusedExactly | backend/circuit_breaker.py:98-119 | after a request and a failure, a later request is refused if and only if the failure makes the threshold and is less than a cooldown ago |
| BreakerSpec.TwoRequestsPass | backend/circuit_breaker.py:6-6 | counterexample: two requests after the cooldown both pass |
| CircuitBreaker.Breaker.AllowRequest | backend/circuit_breaker.py:66-83 | the object answers by the rule on its history |
| CircuitBreaker.Breaker.RecordSuccess | backend/circuit_breaker.py:85-96 | back to the initial state |
| CircuitBreaker.Breaker.RecordFailure | backend/circuit_breaker.py:98-119 | counts, stamps and trips as the state machine does |
| CircuitBreaker.Breaker.ManualReset | backend/circuit_breaker.py:121-131 | back to the initial state |
| CircuitBreaker.Breaker.CheckHalfOpenTransition | backend/circuit_breaker.py:53-63 | the lazy transition, which the history does not notice |
| CacheSpec.RunMirrors | backend/cache/sqlite_cache.py:38-117 | whatever is stored is the last write, and whatever is missing has expired |
| CacheSpec.RunRefines | backend/cache/sqlite_cache.py:38-117 | over every run every later lookup answers as an ideal store that never evicts, and the hits are the lookups that store answers |
| CacheSpec.LookupsCounted | backend/cache/sqlite_cache.py:65-79 | hits plus misses are the lookups, whatever the clock does |
| CacheSpec.AskedKeyIsFresh | backend/cache/sqlite_cache.py:65-105 | a lookup or probe leaves its key in the store exactly when it has an answer, and touches no other key |
| CacheSpec.PutAnswersExactly | backend/cache/sqlite_cache.py:81-85 | a value just written is answered correctly at all later times if and only if its expiry time is positive or it has no TTL |
| MemoryCache.Cache.MaybeEvict | backend/cache/sqlite_cache.py:42-50 | evicts on every hundredth access and only then |
| MemoryCache.Cache.EvictExpired | backend/cache/sqlite_cache.py:52-63 | deletes exactly the expired entries |
| MemoryCache.Cache.Get | backend/cache/sqlite_cache.py:65-79 | answers as the ideal store does, eviction or not |
| MemoryCache.Cache.Set | backend/cache/sqlite_cache.py:81-85 | one write in the history |
| MemoryCache.Cache.Delete | backend/cache/sqlite_cache.py:87-93 | one removal in the history |
| MemoryCache.Cache.Exists | backend/cache/sqlite_cache.py:95-105 | answers as the ideal store does |
| MemoryCache.Cache.ClearPrefix | backend/cache/sqlite_cache.py:107-117 | removes exactly the keys with the prefix |
| RateSpec.StampsMirrorGrants | backend/providers/__init__.py:595-597 | the pruned list and the full history of grants agree on every later window |
| RateSpec.CheckRefines | backend/providers/__init__.py:588-611 | a request is granted if and only if fewer than the maximum of all grants ever lie in the window ending now |
| RateSpec.NoWindowOverfull | backend/providers/__init__.py:588-611 | over every run no window anywhere on the time line contains more grants than the maximum |
| RateSpec.GrantedExactly | backend/providers/__init__.py:579-611 | after any run a request is granted if and only if fewer than the maximum of grants lie in the window that ends with it |
| RateLimiter.Limiter.CheckRateLimit | backend/providers/__init__.py:579-611 | prune, compare and append answer by the rule on the full history of that provider |
| QueueSpec.StepSane | backend/job_queue/memory_queue.py:53-141 | every step, whatever the job ids, keeps workers within bounds and every RUNNING entry the work of a call whose callback has not run |
| QueueSpec.RunningBoundedAlways | backend/job_queue/memory_queue.py:84-118 | over every interleaving, with any job ids, however often used, the running entries are at most max_workers plus the enqueue calls between submit and add_done_callback |
| QueueSpec.RunningBounded | backend/job_queue/memory_queue.py:84-118 | the same bound for every state with workers within bounds and live calls behind its RUNNING entries |
| QueueSpec.NeverStuck | backend/job_queue/memory_queue.py:84-118 | with a worker: if some of the first n calls is not through and the others have not begun, one of the first n calls can take a step |
| QueueSpec.StepDrains | backend/job_queue/memory_queue.py:84-141 | every step of a call decreases a measure, so without new calls the queue drains |
| QueueSpec.CanAlwaysFinish | backend/job_queue/memory_queue.py:84-141 | with a worker, every interleaving, with any job ids, can be continued by a bounded number of steps of its calls to a state where all calls have returned, all workers are free and nothing is running |
| QueueSpec.StepInv | backend/job_queue/memory_queue.py:53-141 | every step that does not enqueue under an id with an entry keeps the invariant that ties each entry to the last call of its id |
| QueueSpec.RunInv | backend/job_queue/memory_queue.py:53-141 | the invariant holds over every interleaving in which no entry is replaced; ids may come back after their entry was removed |
| QueueSpec.UntakenAlwaysLegal | backend/job_queue/memory_queue.py:71-141 | every step of every such interleaving moves statuses only forward and removes only finished entries |
| QueueSpec.EnqueueSafeExactly | backend/job_queue/memory_queue.py:65-72 | with a worker, an enqueue and all its continuations that replace no entry are of that kind if and only if the id has no entry |
| QueueSpec.GoesBack | backend/job_queue/memory_queue.py:65-72 | for every state and every id with an entry: a continuation of the enqueue in which a status goes back |
| QueueSpec.StepForward | backend/job_queue/memory_queue.py:71-141 | a single step is of that kind if and only if it does not enqueue under the id of an entry that is no longer queued |
| QueueSpec.RunForward | backend/job_queue/memory_queue.py:71-141 | over a whole interleaving in which no entry is replaced, the status of an entry that is there all the time never goes back, and a finished one keeps its outcome |
| QueueSpec.GoneForGood | backend/job_queue/memory_queue.py:243-302 | when no id is used twice, a removed entry never comes back, late callbacks included |
| QueueSpec.FreshStays | backend/job_queue/memory_queue.py:243-302 | when no id is used twice, an entry that is there in the end was there all the time |
| QueueSpec.QuietMeansFinished | backend/job_queue/memory_queue.py:120-141 | when all calls have returned and all workers are free, every kept entry is finished and shows the outcome of the last call of its id |
| QueueSpec.FinishedAsShown | backend/job_queue/memory_queue.py:120-141 | from the step that finishes a job to a quiet queue without a replaced entry: when the job is the last of its id and its entry is still there, it reads COMPLETED or FAILED as the job finished |
| QueueSpec.CleanupByAge | backend/job_queue/memory_queue.py:280-302 | cleanup with the cutoff of so many seconds ago removes exactly the entries that have been finished for longer, and changes no other |
| QueueSpec.ReusedIdGoesBack | backend/job_queue/memory_queue.py:59-72 | counterexample: a run in which a second enqueue under one id sends a running job back |
| MemoryJobQueue.JobQueue.Register | backend/job_queue/memory_queue.py:71-81 | writes a queued entry |
| MemoryJobQueue.JobQueue.MarkRunning | backend/job_queue/memory_queue.py:113-116 | marks an entry that is still there |
| MemoryJobQueue.JobQueue.OnComplete | backend/job_queue/memory_queue.py:120-141 | records the outcome of an entry that is still there |
| MemoryJobQueue.JobQueue.ClearFailedJobs | backend/job_queue/memory_queue.py:243-258 | removes exactly the failed entries and counts them |
| MemoryJobQueue.JobQueue.CleanupOldJobs | backend/job_queue/memory_queue.py:280-302 | removes exactly the entries that have been completed or failed for more than 86,400 seconds, and changes no other |
| MemoryJobQueue.JobQueue.CountEnqueue | backend/job_queue/memory_queue.py:93-96 | cleans up on every fiftieth call and only then |
| FixSpec.MergeNormal | backend/common_fixes.py:138-153 | after one run no adjacent pair is mergeable |
| FixSpec.MergeIdempotent | backend/common_fixes.py:138-153 | a second run changes nothing |
| FixSpec.StandardMergeNormal | backend/common_fixes.py:138-153 | afterwards no two neighbours are both shorter than twenty visible characters and at most half a second apart |
| FixSpec.StandardMergeIdle | backend/common_fixes.py:138-153 | where there are no such neighbours nothing is merged |
| FixSpec.MergeCovers | backend/common_fixes.py:138-153 | the output cuts the input into contiguous runs, with the start of the first and the end of the last, and the same visible characters in order |
| FixSpec.StandardKeepsInk | backend/common_fixes.py:147-147 | joining two texts with a newline after stripping keeps all visible characters |
| FixSpec.MergeLogCounts | backend/common_fixes.py:146-151 | the log has one entry for every event that disappeared |
| FixSpec.OverlapFixExact | backend/common_fixes.py:155-160 | trimming leaves no overlap, and inverts an event if and only if the next one does not start after it |
| FixSpec.NoOverlapAnywhere | backend/common_fixes.py:155-160 | for events in order of their start no event reaches into any later one afterwards |
| FixSpec.StretchReopens | backend/common_fixes.py:172-188 | after both passes an overlap is back if and only if the minimum time from the start of an event reaches into the next one |
| FixSpec.StretchLongEnough | backend/common_fixes.py:172-188 | every event lasts the minimum afterwards, and a second pass changes nothing |
| FixSpec.OverlapLogTells | backend/common_fixes.py:155-170 | the log of the overlap pass: one entry for each event it changes, in order, with the times, the end before and the end the event really gets |
| FixSpec.StretchLogTells | backend/common_fixes.py:172-188 | the log of the minimum display times: one entry for each event it changes, in order, with the times and both durations |
| CommonFixes.MergeShortLines | backend/common_fixes.py:138-153 | the in-place loop is the greedy merge, and returns its log |
| CommonFixes.FixOverlaps | backend/common_fixes.py:155-170 | the in-place loop trims every event against the start of the next and logs each trim |
| CommonFixes.StretchShortDisplays | backend/common_fixes.py:172-188 | the in-place loop stretches every short event and logs each |
| HiSpec.PlaceStep | backend/subtitle_processor.py:165-169 | deleting one position and decrementing the larger indices moves every index to its next place |
| HiSpec.PlaceEnds | backend/subtitle_processor.py:165-169 | in the end an index is the number of surviving events before its event |
| HiSpec.IndexPointsHome | backend/subtitle_processor.py:165-169 | if the event survived, that is its position in the shortened list |
| HiSpec.LogPointsHome | backend/subtitle_processor.py:157-171 | every logged event with text left is found at its logged index, with the logged text |
| HiSpec.EventsFate | backend/subtitle_processor.py:121-187 | which events go, which get their cleaned text, which are logged, in terms of the texts they show and the bracket pairs |
| HiRemoval.DeleteAndReindex | backend/subtitle_processor.py:165-169 | the descending loop leaves the list without the removal set and every log index at its place |
| HiRemoval.MarkBracketPairs | backend/subtitle_processor.py:174-187 | marks exactly the events of bracket pairs that run over two events |
| HiRemoval.ScanEvents | backend/subtitle_processor.py:126-163 | the scan cleans texts, logs every change, and collects exactly the events to remove |
| HiRemoval.ApplyHiRemoval | backend/subtitle_processor.py:121-171 | the whole pass: surviving events cleaned and in order, the log re-indexed with times, original and modified texts |
| TextFixSpec.LogIsAbout | backend/common_fixes.py:74-132 | every entry of the log is the removal or the new text of the event that stood at its index |
| TextFixSpec.EventsFate | backend/common_fixes.py:64-136 | comments stay, watermarks go, all others are rewritten |
| TextFixSpec.LogTells | backend/common_fixes.py:73-132 | the log holds exactly an entry for each watermark and each event whose text changed, with its times, the text it showed and the text it shows afterwards |
| TextFixSpec.EntryStillRight | backend/common_fixes.py:134-136 | after the deletions the entry of a surviving event points at that event if and only if there was no watermark in front of it |
| TextFixSpec.StaleEntry | backend/common_fixes.py:134-136 | counterexample: with a watermark in front of it the entry of a line points behind the end of the list |
| TextFixes.FixTexts | backend/common_fixes.py:64-136 | the scan rewrites texts and logs every change, the watermarks are deleted from the last to the first, and the log stays as it was |
| ResponseSpec.ParseCounts | backend/ollama_client.py:135-163 | a parsed reply has exactly the expected number of lines; refused if and only if it has too few |
| ResponseSpec.NumberStripped | backend/ollama_client.py:128-130 | digits and a dot or colon at the start of a line come off, with the white space behind them |
| ResponseSpec.NoNumberStripped | backend/ollama_client.py:128-130 | a line that does not start like that stays as it is |
| ResponseSpec.PromptParts | backend/ollama_client.py:166-187 | a prompt ends with the template and the numbered lines, behind at most the first fifteen terms of the glossary |
| ResponseSpec.TermReads | backend/ollama_client.py:179-182 | each term of the glossary as it stands in the prompt |
| ResponseSpec.NumberingParses | backend/ollama_client.py:114-187 | the parser undoes the numbering of the prompt, except for white space in front of a text and behind the last |
| ResponseSpec.NumberingRoundTrip | backend/ollama_client.py:114-187 | the texts come back unchanged if and only if no text starts with white space and the last does not end with it |
| ResponseSpec.SpillParses | backend/ollama_client.py:139-158 | items that spill onto unnumbered lines come back as exactly the items, the spill joined on with single spaces |
| ResponseSpec.StandardItems | backend/ollama_client.py:128-130 | numbered rows and visible unnumbered lines are such items |
| ResponseParser.ParseResponse | backend/ollama_client.py:114-163 | the loops compute that parse |
| TranslationSpec.TranslationAligned | backend/ollama_client.py:224-351 | for every model, one output per line in order, each free of CJK characters or the original, if and only if there are attempts and batches |
| TranslationSpec.StandardTranslation | backend/ollama_client.py:18-28 | the same with the client's own parser and character ranges written out |
| TranslationSpec.CjkBlocks | backend/ollama_client.py:18-28 | the four blocks of Unicode those ranges are |
| TranslationSpec.BatchFaithful | backend/ollama_client.py:191-254 | a batch is aligned, by an accepted reply or by the fallback |
| TranslationSpec.TranslationCost | backend/ollama_client.py:224-351 | at most max_retries calls, and backoff_base times (2^(max_retries-1) - 1) of sleep, for every batch and every line |
| TranslationSpec.RetryExact | backend/ollama_client.py:224-250 | one request yields the answer of its first accepted attempt, or nothing after all of them, with one call an attempt and exactly the doubling sleeps between them |
| TranslationSpec.AnswersAreUsed | backend/ollama_client.py:224-351 | with a model that answers each batch it is asked acceptably the output is the translation of each line in order, with one call a batch and no sleep |
| TranslationSpec.NumberedRepliesComeOut | backend/ollama_client.py:114-351 | end to end with the client's own prompt and parser: a model that numbers its translations like the prompt gets exactly those translations through, one for each line |
| Transcripts.TranscriptDecides | backend/ollama_client.py:224-351 | for every model: when a transcript says, batch by batch and line by line, which attempt was the first accepted one and that those before were refused, the output is that of the transcript, original lines only where all attempts were refused, with as many calls |
| Transcripts.TranscriptExists | backend/ollama_client.py:224-351 | every run with attempts and batches has such a transcript |
| Transcripts.NumberedLineRead | backend/ollama_client.py:280-280 | a single reply yields its text when that stands, numbered, on the first line, whatever follows on further lines |
| Transcripts.FallbackRepliesComeOut | backend/ollama_client.py:251-311 | end to end: when no batch is ever answered but every line on its own is, by a numbered text and possibly more lines, those texts come out, one for each line and in order, after all attempts at the batches and one call a line |
| TranslationSpec.RefusedCostsAll | backend/ollama_client.py:224-351 | with a model that never answers every line comes back unchanged, and the cost is exactly the bound |
| OllamaClient.Client.TranslateBatch | backend/ollama_client.py:191-254 | the retry loop with its fallback, calls and sleeps counted |
| OllamaClient.Client.TranslateSingles | backend/ollama_client.py:257-311 | one line after the other |
| OllamaClient.Client.TranslateSingle | backend/ollama_client.py:273-309 | the retry loop for one line, which is kept when all attempts fail |
| OllamaClient.Client.TranslateAll | backend/ollama_client.py:314-351 | batch after batch; a batch size of zero is refused, a negative one gives no batches |
| OpEdSpec.ClustersCutAtGaps | backend/op_ed_detector.py:169-182 | the clusters are a lossless cut of the events with no gap inside and a gap between neighbours |
| OpEdSpec.ClusteringUnique | backend/op_ed_detector.py:169-182 | there is only one such cut |
| OpEdSpec.ByStartSorts | backend/op_ed_detector.py:141-144 | the sort by start is a stable permutation |
| OpEdSpec.Pass2FindsLongest | backend/op_ed_detector.py:126-160 | a region is reported if and only if a cluster has at least three events and a fitting duration; it is then the first of the longest |
| OpEdSpec.CountCoversCluster | backend/op_ed_detector.py:164-164 | with events that do not end before they start, the reported count covers the whole cluster |
| OpEdSpec.WithinRegion | backend/op_ed_detector.py:158-164 | all starts of a cluster lie in its region if and only if its last event does not start after its own end |
| OpEdSpec.OpeningBeforeEnding | backend/op_ed_detector.py:77-82 | an opening found by duration starts in the first window, such an ending after it |
| OpEdSpec.AssRegionsOrdered | backend/op_ed_detector.py:53-84 | one region of each kind at most, openings first; of two found by duration the opening starts first |
| OpEdSpec.SrtRegionsOrdered | backend/op_ed_detector.py:87-106 | the same for SRT files |
| RegionDetection.SrtDetects | backend/op_ed_detector.py:87-106 | when the windows do not overlap, a region of a kind is reported if and only if one of the clusters of its window has three events and lasts as long as that kind does; it is that of the first longest, from its first start to its last end, with the number of events that start inside; otherwise there is none |
| RegionDetection.AssDetects | backend/op_ed_detector.py:53-84 | the same for ASS files, kind by kind, when no style tells the kind; when one does, the region is the smallest around the events in such styles, with their number |
| RegionDetection.SearchExists | backend/op_ed_detector.py:141-182 | the clusters those two speak of exist: the sorted events of the window, cut where more than three seconds pass |
| OpEdSpec.Pass1Spans | backend/op_ed_detector.py:112-123 | the region of the first pass is the smallest one around all events in a telling style |
| OpEdDetector.SplitIntoClusters | backend/op_ed_detector.py:169-182 | the loop computes that unique cut |
| StreamSpec.BestChoiceUnique | backend/ass_utils.py:305-375 | the ranking determines the choice |
| StreamSpec.ChosenIfAny | backend/ass_utils.py:375-375 | a stream is chosen if and only if one passes the format filter |
| StreamSpec.SourceChosenExactly | backend/ass_utils.py:305-329 | when a source-language ASS stream exists, the choice is in that language if and only if there is no full ASS stream or the first one is in that language |
| StreamSpec.ForeignOnlyIfFull | backend/ass_utils.py:306-329 | when a source-language ASS stream exists, the choice is in that language or a full ASS stream |
| StreamSpec.StagesInOrder | backend/ass_utils.py:305-373 | the priorities as searches on titles and languages: the choice is the first stream wanted by the first of the eight stages that any stream meets |
| StreamSpec.SomeStageOffers | backend/ass_utils.py:349-373 | when a stream passes the filter, one of the last two stages is met, so that theorem always applies |
| StreamSpec.ChoiceDescribes | backend/ass_utils.py:274-303 | a choice is made if and only if a stream is usable under the filter; it is such a stream, with its own title and language, numbered by the subtitle streams in front of it |
| StreamSpec.FullTargetWins | backend/ass_utils.py:307-311 | counterexample: a full stream in the target language wins over a source-language one |
| StreamSpec.SubIndexOrders | backend/ass_utils.py:278-303 | the number of earlier subtitle streams orders subtitle streams and tells them apart |
| StreamSpec.NumberingsAgree | backend/providers/embedded.py:181-226 | a chosen stream and a track of the provider have the same number if and only if they are the same stream |
| StreamSpec.TracksExactly | backend/providers/embedded.py:181-226 | the tracks are exactly those of subtitle streams with a known tag, of language or else of lang, that is asked for if any is |
| StreamSelection.CollectStreams | backend/ass_utils.py:274-303 | the loop lists the streams of both formats with their numbers |
| StreamSelection.SelectBest | backend/ass_utils.py:251-375 | the cascade picks the stream with the least rank and, of those, the first |
| StreamSelection.SearchEmbedded | backend/providers/embedded.py:181-226 | the provider lists the requested tracks with their numbers |
| SrtSpec.StampRoundTrip | backend/subtitle_types.py:18-23 | a printed time below 100 hours is read back, whatever follows it |
| SrtSpec.StampIsPrinted | backend/credit_remover.py:163-173 | a recognised time with minutes and seconds below sixty is what that time is printed as |
| SrtSpec.OutOfRangeNoStamp | backend/subtitle_types.py:18-23 | any other time is printed in a form that is not recognised |
| SrtSpec.PaddedIs | backend/subtitle_types.py:18-23 | a padded number is its sign, zeros and its digits, as long as asked for unless the digits need more |
| SrtSpec.LineMatches | backend/credit_remover.py:163-165 | a printed time line is recognised if and only if both times are in range, and then read back exactly |
| SrtSpec.ParseStartRoundTrip | backend/credit_remover.py:168-173 | the start is read back if and only if it is 0 or both times are in range |
| SrtSpec.ScanFindsLargest | backend/credit_remover.py:176-187 | over a file whose other text has no colon, the scan returns the largest end |
| SrtSpec.LargestEndIsMax | backend/credit_remover.py:185-186 | that is the maximum of all ends |
| SrtSpec.FileRoundTrip | backend/op_ed_detector.py:185-206 | reading a file of well-formed entries gives their times back in order, whatever text they carry |
| SrtSpec.SplitJoinBlocks | backend/credit_remover.py:104-104 | splitting a file into blocks undoes joining them |
| SrtSpec.CleanedBlocks | backend/credit_remover.py:98-127 | the blocks of the cleaned file are exactly those that are no credits, in order |
| SrtSpec.CreditOfEntry | backend/credit_remover.py:104-125 | the block of a well-formed entry is judged by its text, the end of the file and its own start, and never removed when it has no text |
| SrtSpec.NothingToClean | backend/credit_remover.py:98-127 | a file only loses the white space around it if and only if none of its blocks is a credit |
| SrtSpec.SecondCleaning | backend/credit_remover.py:98-127 | cleaning a cleaned file again only loses outer white space if and only if no kept block is a credit with respect to the end of the cleaned file; in particular when that end is the old one |
| SrtFiles.ParseLastEnd | backend/credit_remover.py:176-187 | the loop over all matches computes the scan |
| SrtFiles.ParseSrtEvents | backend/op_ed_detector.py:185-206 | the nested loops yield the first time line of every block |
| SrtFiles.RemoveCredits | backend/credit_remover.py:98-127 | the loop keeps and counts the right blocks |
| RotationSpec.NamesSortByTime | backend/database_backup.py:265-265 | within a bucket a name that sorts later is not older |
| RotationSpec.ListingExact | backend/database_backup.py:265-287 | the listing holds every backup of a bucket once, newest first |
| RotationSpec.BackupsAreListed | backend/database_backup.py:122-163 | the names backups are made under are recognised, with label, moment and backend |
| RotationSpec.OnlyBackupsAreListed | backend/database_backup.py:260-283 | a recognised name is one of these, or one with a newline behind it |
| RotationSpec.NewestKept | backend/database_backup.py:425-452 | whichever files cannot be deleted: a rotation leaves in every bucket exactly the newest backups up to the limit and, behind them, those of the rest that cannot be deleted; of manual ones it leaves all |
| RotationSpec.KeptCount | backend/database_backup.py:442-442 | when every deletion succeeds, that is the smaller of the limit and the number of backups |
| RotationSpec.KeptAreNewer | backend/database_backup.py:440-444 | no backup that is kept although it could be deleted is older than a deleted one of its bucket |
| RotationSpec.OthersUntouched | backend/database_backup.py:439-448 | manual backups, other files and files that cannot be deleted stay |
| RotationSpec.SecondRotation | backend/database_backup.py:442-442 | when every deletion succeeds, a second rotation finds nothing to delete if and only if the limit is not negative or nothing is left |
| RotationSpec.RotationSettles | backend/database_backup.py:425-452 | with limits that are not negative, a second rotation that cannot delete the same files deletes nothing |
| RotationSpec.NegativeLimitGoesOn | backend/database_backup.py:442-442 | counterexample: with a limit of -1 and two backups both rotations find something to delete |
| DatabaseBackups.DatabaseBackup.ListBackups | backend/database_backup.py:254-287 | the loop lists exactly the recognised names with bucket, timestamp and backend, in descending order of the names |
| DatabaseBackups.DatabaseBackup.Rotate | backend/database_backup.py:425-452 | the nested loops delete exactly the deletable excess and return its size |
| UpgradeSpec.StepDecreases | backend/upgrade_scorer.py:73-103 | an accepted upgrade between SRT and ASS never leaves ASS and decreases the measure on format and score |
| UpgradeSpec.RecentNeedsTwice | backend/upgrade_scorer.py:73-103 | outside the two format rules a file younger than the window needs twice the minimum gain and any other the minimum; inside them neither score nor age matters |
| UpgradeSpec.AgeDecidesExactly | backend/upgrade_scorer.py:83-100 | being recent changes the decision if and only if no format rule applies and the gain lies between the minimum and its double |
| UpgradeSpec.UpgradesEnd | backend/upgrade_scorer.py:73-103 | a chain of upgrades between SRT and ASS has at most 2 * (S / d) + 1 steps and never comes back to SRT |
| UpgradeSpec.BoundReached | backend/upgrade_scorer.py:77-79 | that bound is reached |
| UpgradeSpec.NoPreferenceEnds | backend/upgrade_scorer.py:98-103 | without the preference for ASS chains over any formats have at most S / d steps |
| UpgradeSpec.ThirdFormatCycles | backend/upgrade_scorer.py:77-79 | with it, and scores of twice the minimum, any third format allows chains of any length |
| UpgradeSpec.LowScoresEnd | backend/upgrade_scorer.py:73-103 | when no score is twice the minimum, chains over any formats have at most four subtitles |
| UpgradeSpec.UpgradesEndExactly | backend/upgrade_scorer.py:73-103 | chains over a set of formats are bounded if and only if the minimum is positive and not (ASS preferred, scores of twice the minimum, and ASS, SRT and a third format in the set) |
| UpgradeScorer.ScoreExisting | backend/upgrade_scorer.py:28-49 | the loop computes the base score of the format plus the bonus of the last threshold the size reaches, and no bonus when the size cannot be read |
| UpgradeSpec.BonusSteps | backend/upgrade_scorer.py:19-23 | the bonus is 20, 30 or 40 from 50,000, 100,000 and 200,000 bytes on, and nothing without a readable size |
| UpgradeSpec.FormatsCompared | backend/upgrade_scorer.py:13-17 | every ASS or SSA file outscores every SRT file, and every SRT file those of other formats; an SSA file reaches an ASS file exactly when its bonus is larger by twenty |
| UpgradeSpec.ScoresInRange | backend/upgrade_scorer.py:28-49 | scores lie between 100 and 340, and only an ASS file of 200,000 bytes reaches 340 |

## Left out

- AssTags.InsertPosition: the source computes the proportional position in floating point; here the product is exact and
  the quotient rounded down, so a rounding error that crosses an integer is not modelled.
- HealthSpec.FixOrderSilences: the style check is only promised to be silent when Default is defined or there are no
  styles; `RestyledSilent` says exactly when the style fix itself succeeds.
- HealthChecker.RunHealthChecks: the encoding check reads raw bytes; its issues are a parameter.
- HealthChecker.ApplyFixes: loading and saving through pysubs2 and the backup copy; the event list is in memory, so
  the rounding of times by a save is not modelled. Issue messages are not modelled either.
- HealthChecker.CheckFile: the message of a parse error, and checks that raise an exception.
- HiRemoval.ApplyHiRemoval: what the marker patterns match.
- TextFixes.FixTexts: which rewritings are enabled and what they do to a text, the test for upper-case files included;
  they are one function of the text.
- MemoryJobQueue.JobQueue.CleanupOldJobs: cancelled entries and unparseable completion times, which only cancellation
  and foreign code could produce.
- QueueSpec.StepForward: cancellation, whose effect depends on callbacks run inside Future.cancel; unparseable
  completion times, results and error texts. Cleanup is a step that may happen at any time, with any cutoff.
- CacheSpec.RunRefines: the clock of lookups must not run backwards and no expiry time may be zero or negative
  (`PutAnswersExactly`); the results of delete and clear, which count expired entries, are not tied to the ideal store.
- RateLimiter.Limiter.CheckRateLimit: how the limit of a provider is looked up is a parameter.
- TranslationSpec.TranslationAligned: the HTTP call, its error classes and the glossary lookup; a failed call is `None`.
- StreamSelection.SelectBest: titles, languages and codecs are taken as already in lower case.
- OpEdSpec.Pass2FindsLongest: the window size from the environment or the settings is a parameter.
- OpEdSpec.CountCoversCluster: counts other events in the region as well, so it is a lower bound.
- SrtSpec.ScanFindsLargest: digits are the ASCII digits, although the pattern accepts every Unicode digit; text with
  colons between the time lines can hold matches of its own.
- SrtSpec.CleanedBlocks: what makes a text a credit is a parameter.
- DatabaseBackups.DatabaseBackup.Rotate: file sizes, and files that appear while it works.
- UpgradeSpec.UpgradesEnd: the age of the current file is a parameter; a step counts as possible if it is at any age.
- Credit removal from ASS files: a filter over one event at a time, all of whose log entries are about removed events.
- HTTP routes, databases, provider scrapers, media servers, subprocesses, schedulers and the frontend.
