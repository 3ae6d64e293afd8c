# Verified models of the camofox-browser server and the llmfit catalogue script

This project models, in Dafny, the parts of the repository whose correctness is hard to see
from the code: the concurrency control of the browser server, its scanners and paging, its
walks over processes and directories, its monitoring state machines, and the discovery and
merge of the model catalogue. Each file holds one module about one component.

| file | component |
|---|---|
| `tab_lock.dfy` | the per-tab mutex and its registry, alone and under every interleaving |
| `user_limit.dfy` | the per-user concurrency limiter |
| `page_lease.dfy` | page leases, and page creation with one recovery attempt |
| `page_handover.dfy` | the hand-over of a page from its lease to a tab group, against closing requests and the reapers |
| `page_handover_runs.dfy` | runs in which that hand-over loses the page |
| `pressure_cleanup.dfy` | the memory-pressure cleanup pass |
| `selector.dfy` | validation of selectors |
| `ref_annotation.dfy` | numbering of element references and their annotation |
| `snapshot_window.dfy` | windows over a large snapshot |
| `collect_dirs.dfy` | the depth-bounded directory walk |
| `process_tree.dfy` | the descendants of a process |
| `rss_tree.dfy` | the memory of a process tree |
| `proxy_username.dfy` | session usernames of the Decodo proxy |
| `rate_limiter.dfy` | the sliding-window report limiter |
| `leak_alarm.dfy` | the native-memory leak alarm |
| `discovery.dfy` | discovery of models through a paged API |
| `catalogue_merge.dfy` | the additive merge with the existing catalogue |
| `text.dfy`, `optional.dfy` | splitting, joining and decimal numerals; optional values |

## How things are modelled

Objects that the code updates in place are classes whose methods are proved against a
function of the old state; loops are loops with invariants. Asynchronous code is a state
machine: one step is what runs between two suspension points, a run is any sequence of
enabled steps, and the theorems quantify over all runs. Foreign calls (the browser, the file
system, the network, clocks, regular expressions for names) are parameters: arbitrary
functions, arbitrary outcomes, or arbitrary step choices.

## Where the code does less than one would expect

These are properties that turn out to fail; each has a lemma with a concrete run or input,
and a lemma saying exactly when the property holds.

- A waiter of the user limiter that times out leaves its callback in the queue. When that
  callback is later called, the freed slot wakes nobody, and live waiters behind it stay
  queued although nothing runs (`UserLimit.LostWakeUpHappens`). A callback waits behind a
  free slot in some state of a run exactly when some finishing call spends its slot this way
  (`UserLimit.FromTheStart`).
- An arrival that runs between waking a waiter and the waiter entering takes the freed slot,
  so more calls than the limit run (`UserLimit.OverbookingHappens`); the limit of a record
  holds throughout a run exactly when no arrival does this (`UserLimit.FromTheStart`).
- A record can be dropped from the table while its woken waiter has not entered, so one user
  can have running calls on several records (`UserLimit.LimitIsPerRecord`). Every user stays
  within the limit throughout a run exactly when no arrival enters while the user's records,
  dropped ones included, have no slot left (`UserLimit.UserLimitOverRuns`).
- A page can be lost: its tab exists and nobody removed it, but no registered group holds it.
  Five paths look the tab group up before they open the page (server.js:2006, 2972, 3324,
  6327 and 6353); if the inactivity reaper drops the still empty group meanwhile, the tab is
  put into a dropped group (`PageHandOverRuns.EarlyLookUpLosesThePage`). And requests that
  close a tab or a group look the group up, wait for pages to close, and then drop the key,
  whatever is registered under it by then (server.js:1670-1681, 1704-1718, 5625-5633 and
  5687-5698): with two overlapping requests the second one unregisters a tab created in
  between, also on the paths that look the group up late
  (`PageHandOverRuns.StaleRemovalLosesThePage`). `PageHandOver.Loses` names these two guards;
  over every run a page is lost exactly when one of them held at some step
  (`PageHandOver.LostExactly`), the orphan reaper closes a held page whose tab was not removed
  exactly when a tick follows such a step (`PageHandOver.HeldPageIsReapedExactly`), and the
  empty-session check closes the session of a page that is not removed only after such a step
  (`PageHandOver.SessionIsEmptiedExactly`).
- A page the browser lists before its lease holds it can be closed as an orphan
  (`PageHandOverRuns.PageCanBeReapedBeforeItIsHeld`). A tick closes a listed page whose tab
  was not removed exactly in that phase, or when the page was handed over and lost
  (`PageHandOver.ReapsExactly`).
- The pattern of the annotating pass must reach the end of the line and its wildcard stops
  at a carriage return or a Unicode line separator; the numbering pattern does not. Such a
  line is numbered and not annotated, and the next line with its role and name carries its
  reference (`RefAnnotation.BrokenLineShifts`, `RefAnnotation.BrokenHappens`). The annotation is as promised exactly when none of the
  first 500 eligible lines is of this kind (`RefAnnotation.AnnotateSnapshot`).
- The report limiter relies on a clock that is not set back: otherwise an hour can hold more
  grants than allowed (`RateLimiting.ClockSetBackBreaksTheBound`). A decision differs from
  that of a limiter with full memory exactly when the room in the pruned list is at most the
  number of grants forgotten too early (`RateLimiting.DecisionIsExact`), and every hour is
  within the allowance exactly when no call is granted into a full hour
  (`RateLimiting.HourBoundExactly`).

## Model

| member | source | states |
|---|---|---|
| `TabLocks.TabLock.AcquireTicket` | camofox-browser/server.js:524-538 | arms the timer, queues behind all earlier requests and is granted at once exactly when the lock is free and nobody waits |
| `TabLocks.TabLock.ReleaseHolder` | camofox-browser/server.js:540-544 | hands the lock to the oldest waiter, if any, and settles nobody else |
| `TabLocks.TabLock.Advance` | camofox-browser/server.js:546-553 | grants the head of the queue only when nobody holds the lock, and disarms its timer |
| `TabLocks.TabLock.FireTimer` | camofox-browser/server.js:527-533 | removes exactly the timed-out entry, keeping the order of the others, and rejects it |
| `TabLocks.TabLock.DrainQueue` | camofox-browser/server.js:555-563 | rejects every queued entry in order, disarms all their timers and leaves the lock taken with an empty queue |
| `TabLocks.TabLockRegistry.GetTabLock` | camofox-browser/server.js:569-572 | returns the registered lock object, or registers a fresh free one, and never shares a lock between tabs |
| `TabLocks.TabLockRegistry.ClearSessionLocks` | camofox-browser/server.js:1280-1292 | drains and unregisters exactly the locks of the session's tabs and leaves all other lock objects untouched |
| `TabLocks.AcquireKeeps` | camofox-browser/server.js:524-538 | a new arrival keeps mutual exclusion, single settlement and no overtaking |
| `TabLocks.ExpireKeeps` | camofox-browser/server.js:527-533 | an armed timer always belongs to a queued entry, and firing it keeps the lock's invariant |
| `TabLocks.DrainKeeps` | camofox-browser/server.js:555-563 | draining settles each waiter exactly once and keeps the invariant |
| `TabLocks.StepKeeps` | camofox-browser/server.js:576-590 | every interleaved step keeps the invariant of all locks and of the registry |
| `TabLocks.Safety` | camofox-browser/server.js:518-590 | in every reachable state each lock object has at most one holder, a waiter only behind a holder, every acquire settled at most once and accounted for, and grants in arrival order |
| `TabLocks.StepServes` | camofox-browser/server.js:524-563 | each step, seen from each lock: an arrival waits behind a holder or holds at once, a time-out removes that waiter alone, a release hands the lock to the oldest waiter, a destruction rejects all waiters in order |
| `TabLocks.EnterReaches` | camofox-browser/server.js:569-578 | a request of a registered tab arrives at its registered lock and at no other; the first request of a tab registers one new lock |
| `TabLocks.OthersReachNothing` | camofox-browser/server.js:1646-1652 | no other step registers a lock or lets anybody arrive; a destroyed tab is unregistered and exactly its lock is drained |
| `TabLocks.OneLockPerTab` | camofox-browser/server.js:569-578 | over every run in which a tab is not destroyed all its requests arrive at one lock object |
| `TabLocks.OneHolderPerTab` | camofox-browser/server.js:576-590 | mutual exclusion per tab: of the requests of a tab made since its last destruction at most one holds at any time |
| `TabLocks.DrainedIsFinal` | camofox-browser/server.js:1646-1652 | settlements are never revoked, and a drained and unregistered lock settles nothing more in any later run |
| `TabLocks.StepAdvances` | camofox-browser/server.js:546-553 | a waiter never moves back, and each release of its lock moves it forward |
| `TabLocks.BoundedWaiting` | camofox-browser/server.js:518-590 | a waiter with k entries ahead is settled by the (k+1)-th release of its lock in every run |
| `UserLimit.StepKeeps` | camofox-browser/server.js:611-641 | every step keeps running, woken and queued calls apart and the gauge equal to the sum of the records |
| `UserLimit.StepServes` | camofox-browser/server.js:611-641 | each step, seen from outside: which record an arrival reaches and whether it enters or queues, that a time-out marks that caller alone, that a finishing call passes its slot to the oldest callback and unregisters an idle record |
| `UserLimit.ActiveOpsIsExact` | camofox-browser/server.js:624-632 | in every run activeOps is the sum of active over all records, dropped ones included, and active is the number of running calls |
| `UserLimit.WokenInOrder` | camofox-browser/server.js:619-636 | in every run callbacks queue in arrival order and whoever is woken came before everyone still queued |
| `UserLimit.LimitStep` | camofox-browser/server.js:618-625 | a step keeps active plus woken within the limit exactly when it is not an arrival taking a slot promised to a woken waiter |
| `UserLimit.LimitOverRuns` | camofox-browser/server.js:618-636 | a whole run stays within the limit exactly when no arrival does that |
| `UserLimit.QuietArrivalIsSafe` | camofox-browser/server.js:618-625 | arrivals with no woken waiter pending never break the limit |
| `UserLimit.BusyStep` | camofox-browser/server.js:619-636 | a step leaves a waiter behind a free slot exactly when it calls an expired callback with others queued |
| `UserLimit.BusyOverRuns` | camofox-browser/server.js:619-636 | over a run no waiter is left behind a free slot exactly when no wake-up is lost |
| `UserLimit.UserLimitStep` | camofox-browser/server.js:612-625 | a step keeps each user's entered and woken calls, over all records of the user, within the limit exactly when it is not an arrival that enters with no slot left for the user |
| `UserLimit.UserLimitOverRuns` | camofox-browser/server.js:611-641 | a whole run keeps every user within the limit exactly when no arrival does that |
| `UserLimit.FromTheStart` | camofox-browser/server.js:611-641 | the three characterisations for every run of a fresh limiter |
| `UserLimit.LostWakeUpHappens` | camofox-browser/server.js:620-636 | a run in which nothing runs and a live waiter stays queued |
| `UserLimit.LimitIsPerRecord` | camofox-browser/server.js:633-639 | a run in which one user has two records with a running call each under a limit of one |
| `UserLimit.OverbookingHappens` | camofox-browser/server.js:618-625 | a run with three calls running under a limit of two |
| `PageLeases.AcquirePageLease` | camofox-browser/lib/page-lease.js:3-8 | adds one fresh, empty, unreleased lease to the session and nothing else |
| `PageLeases.ReleasePageLease` | camofox-browser/lib/page-lease.js:15-19 | removes the lease once; a second or empty release has no effect |
| `PageLeases.QueriesAreTheTable` | camofox-browser/lib/page-lease.js:21-27 | the two queries of the reapers are emptiness of, and protection by, the lease table on which the hand-over is modelled |
| `PageLeases.LeaseLifeCycle` | camofox-browser/lib/page-lease.js:3-27 | the session is in use from acquisition on, the page is leased from setting to release, afterwards only if another lease holds it, and the session is left as it was |
| `PageLeases.CreateLeasedPage` | camofox-browser/server.js:1433-1442 | a page that opens leaves one live lease holding it, a failure leaves none, whatever other requests do meanwhile |
| `PageLeases.CreatePageWithSessionRecovery` | camofox-browser/lib/new-page-recovery.js:16-44 | a second page is asked for exactly after a recoverable failure with a session to retry on; the failed session is destroyed exactly if the session map still holds it after the wait, and no other one ever; success leaves exactly one new live lease with the returned page, every failure none |
| `PageHandOver.StepKeeps` | camofox-browser/server.js:1433-1475 | every step keeps each creation's lease according to its phase, every unremoved tab in the group object it was put into, and pages and group objects apart |
| `PageHandOver.WorkIsDone` | camofox-browser/server.js:1433-1450 | what each step of a creation does to its phase, its lease, its page and its group |
| `PageHandOver.GroupsAreDone` | camofox-browser/server.js:5619-5700 | what beginning, pop-ups and removals do: a removed tab leaves its group object, an ending removal drops its key when the group it holds is empty or was to be closed whole |
| `PageHandOver.HouseIsDone` | camofox-browser/server.js:6063-6108 | what the reapers do: the empty-session check closes exactly sessions without group and lease, a tick closes exactly the listed pages that are neither registered nor leased |
| `PageHandOver.InUseAfter` | camofox-browser/server.js:1469-1476 | a registered group object stays registered unless its own key is dropped, and a dropped one never comes back |
| `PageHandOver.LossStep` | camofox-browser/server.js:5625-5634 | one step loses a page exactly when it puts the page into a group looked up early and dropped since, or drops the key of its group on behalf of another group |
| `PageHandOver.LostExactly` | camofox-browser/server.js:2938-2948 | over every run a page is lost at the end exactly when some step lost it and its tab was not removed since |
| `PageHandOver.RegisteredExactly` | camofox-browser/server.js:2938-2948 | in every reachable state an attached, unremoved page is registered exactly when no step of the run lost it |
| `PageHandOver.ReapsExactly` | camofox-browser/server.js:6085-6108 | a step closes an unremoved page exactly when it is a tick on its live session, the page is listed, and its lease does not hold it yet or it was handed over and lost |
| `PageHandOver.ReapedExactly` | camofox-browser/server.js:6085-6108 | over every run an unremoved page is closed as an orphan exactly when some tick found it so exposed |
| `PageHandOver.HeldPageIsReapedExactly` | camofox-browser/server.js:3227-3249 | once the lease holds the page, it is closed as an orphan before its tab is removed exactly when a tick follows a losing step; without one no interleaving closes it |
| `PageHandOver.SessionIsEmptiedExactly` | camofox-browser/server.js:6071-6077 | from lease acquisition on, the session of an ongoing creation is closed as empty exactly when the check finds its page handed over and lost and nothing else there; without a losing step it never is |
| `PageHandOverRuns.EarlyLookUpLosesThePage` | camofox-browser/server.js:3324-3330 | a run in which a page put into a group looked up early is closed as an orphan although its tab was not removed |
| `PageHandOverRuns.StaleRemovalLosesThePage` | camofox-browser/server.js:5619-5644 | a run in which two overlapping requests to close one tab unregister a tab created in between, whose page and session are then closed |
| `PageHandOverRuns.PageCanBeReapedBeforeItIsHeld` | camofox-browser/server.js:1433-1442 | a run in which a page is closed between being opened and being set on its lease |
| `PressureCleanup.Partition` | camofox-browser/server.js:1859-1905 | every tab is counted under exactly one reason or is a candidate |
| `PressureCleanup.CandidatesAre` | camofox-browser/server.js:1862-1902 | the candidates come exactly from the tabs that nobody uses, whose session has more than its minimum, that were observed before, not used since, and at least the minimal idle time ago, with that idle time |
| `PressureCleanup.CountersAre` | camofox-browser/server.js:1862-1891 | each of the five counters is the number of tabs kept for its reason, said of the tabs themselves |
| `PressureCleanup.ObservationsAre` | camofox-browser/server.js:1873-1885 | exactly the spare tabs that were never observed or were used since get a new observation |
| `PressureCleanup.CandidateWasWatched` | camofox-browser/server.js:1873-1902 | over any succession of passes a tab that may be closed was found spare by an earlier pass with the same number of calls, at least the minimal idle time before |
| `PressureCleanup.Server.Scan` | camofox-browser/server.js:1859-1905 | counters, candidates and refreshed observations are those of the classification |
| `PressureCleanup.SortByIdleness` | camofox-browser/server.js:1907-1907 | the same candidates, longest idle first and less used first among equals |
| `PressureCleanup.PrefixSelects` | camofox-browser/server.js:1907-1908 | the selected tabs are as many as allowed and at least as idle as every candidate left out |
| `PressureCleanup.CloseStep` | camofox-browser/server.js:1919-1938 | closing one tab keeps the counts exact and every session at its minimum or at its starting count |
| `PressureCleanup.Server.CloseSelected` | camofox-browser/server.js:1918-1938 | each selected tab is closed unless its session is at the minimum, and nothing else is |
| `PressureCleanup.Server.DropEmpty` | camofox-browser/server.js:1940-1950 | groups without tabs are dropped, and sessions left without group and lease if the pass may close sessions |
| `PressureCleanup.SessionsAfter` | camofox-browser/server.js:1940-1950 | a session is closed exactly when that is allowed and it has neither a tab nor a lease, and the remaining tabs stay listed in their groups |
| `PressureCleanup.Server.Cleanup` | camofox-browser/server.js:1836-1970 | the whole pass: partition, bound, idleness order, no busy tab, session minimum, exactly the locks of closed tabs dropped, exactly the sessions without tab and lease closed, and nothing closed in a dry run |
| `Selectors.Scan` | camofox-browser/server.js:232-250 | the one-pass scan accepts exactly the texts that cut into lexemes whose plain characters are derivable in the bracket grammar |
| `Selectors.TextFunctionIs` | camofox-browser/server.js:231-231 | the refused form is the word text in any case, then white space, then a parenthesis |
| `Selectors.Validate` | camofox-browser/server.js:228-251 | missing selectors pass, blank, non-string and `text(` forms are refused with their own error, all others exactly by the grammar |
| `Selectors.StackMachineIsGrammar` | camofox-browser/server.js:232-249 | the bracket stack accepts exactly the texts derivable in the three-bracket grammar |
| `Selectors.VisibleDecidesWellFormed` | camofox-browser/server.js:237-243 | dropping escapes and quoted runs decides the lexical grammar, and every way to cut a text shows the same characters |
| `Selectors.BlankIsTrimmedEmpty` | camofox-browser/server.js:230-230 | trimming leaves nothing exactly when all characters are white space |
| `RefAnnotation.ParseExactly` | camofox-browser/server.js:2392-2394 | a line parses to a node exactly when it is spaces, dash, spaces, a whole word and, if one follows, a gap with a quoted name; role, name and remainder are those parts and no others |
| `RefAnnotation.EligibleExactly` | camofox-browser/server.js:2392-2399 | a line is eligible exactly when it has that shape with an interactive role, in any case, and a name that is absent or not to be left out |
| `RefAnnotation.TagGoesBehindName` | camofox-browser/server.js:3640-3642 | a tag goes between the quoted name and the remainder, and nothing else changes |
| `RefAnnotation.BuildRefs` | camofox-browser/server.js:2383-2411 | the references are those of the first 500 eligible lines, each with the occurrence of its role and name |
| `RefAnnotation.RefsDistinct` | camofox-browser/server.js:2403-2408 | no two references agree on role, name and occurrence |
| `RefAnnotation.KeyInjective` | camofox-browser/server.js:3618-3618 | the key determines role, name and occurrence although names may contain colons |
| `RefAnnotation.IndexRefs` | camofox-browser/server.js:3616-3620 | the key index holds exactly the references |
| `RefAnnotation.Annotate` | camofox-browser/server.js:3622-3644 | a line is tagged exactly with the reference of its role, name and recounted occurrence |
| `RefAnnotation.PastTheCutOff` | camofox-browser/server.js:3632-3640 | a line past the 500th reference never finds a key |
| `RefAnnotation.AgreementIsExact` | camofox-browser/server.js:3614-3645 | the k-th eligible line carries `[ek]` and all others are unchanged exactly when none of the first 500 is broken |
| `RefAnnotation.AnnotateSnapshot` | camofox-browser/server.js:3611-3645 | the same for the split and rejoined text of both passes |
| `RefAnnotation.BrokenLineShifts` | camofox-browser/server.js:3622-3644 | after the first line the annotating pattern cannot match, the next line with its role and name carries its reference |
| `RefAnnotation.BrokenHappens` | camofox-browser/server.js:3626-3626 | a carriage return after the role makes a button numbered but not annotated, and the button after it carries `[e1]` instead of `[e2]` |
| `SnapshotWindow.ShortTextComesWhole` | camofox-browser/lib/snapshot.js:16-18 | a text within the limit comes whole and unmarked, whatever offset is asked for |
| `SnapshotWindow.OffsetIsNearest` | camofox-browser/lib/snapshot.js:22-22 | a cut response starts at the offset asked for or at the nearest valid one |
| `SnapshotWindow.MarkerNamesContinuation` | camofox-browser/lib/snapshot.js:23-29 | a cut response begins with the text from its offset to the continuation and a marker naming the continuation and the total |
| `SnapshotWindow.NextIsFurther` | camofox-browser/lib/snapshot.js:22-37 | a continuation lies strictly further on, one budget ahead, and asking for it is not clamped |
| `SnapshotWindow.Reassembly` | camofox-browser/lib/snapshot.js:15-39 | the responses got by following the continuations rebuild every snapshot exactly |
| `SnapshotWindow.OffsetsAreSteps` | camofox-browser/lib/snapshot.js:22-37 | along the chain every response is the one asked for, where the previous one said, and only the last has no more |
| `SnapshotWindow.ResponseCount` | camofox-browser/lib/snapshot.js:20-37 | the chain has one response for each started budget before the tail |
| `SnapshotWindow.SizeBound` | camofox-browser/lib/snapshot.js:20-32 | no response exceeds 80000 characters, for any offset and any total below 10 to the 33rd |
| `CollectDirs.BelowAre` | camofox-browser/lib/camoufox-executable.js:43-52 | the walk goes on exactly to what a readable directory lists as directory or link |
| `CollectDirs.FrontIsNearest` | camofox-browser/lib/camoufox-executable.js:36-41 | a directory met for the first time is queued at its true distance |
| `CollectDirs.Collect` | camofox-browser/lib/camoufox-executable.js:31-56 | returns exactly the directories within the depth limit, once each, nearest first, and ends on unboundedly many paths |
| `ProcessTree.Descendants` | camofox-browser/lib/process-ownership.js:34-44 | the changed-flag loop ends and selects exactly the processes with a chain of listed parents to the root, for cyclic and repeated entries too |
| `ProcessTree.SnapshotLinux` | camofox-browser/lib/process-ownership.js:34-45 | the listed browser processes that descend from the root, in order |
| `ProcessTree.SelectWindows` | camofox-browser/lib/windows-processes.js:78-93 | nothing for an unusable root, otherwise the listed descendants, in order |
| `ProcessTree.PlatformsAgree` | camofox-browser/lib/windows-processes.js:78-93 | both platforms select the same processes from the same list |
| `ProcessTree.OwnedMembers` | camofox-browser/lib/process-ownership.js:45-45 | a listed process is selected exactly when its parent chain reaches the root |
| `RssTree.ReadsAre` | camofox-browser/lib/resources.js:38-52 | a process leads to the children listed by a readable process, and counts with its own memory when that can be read |
| `RssTree.RoundsToNearest` | camofox-browser/lib/resources.js:55-55 | the result is the nearest number of megabytes, halves rounded up |
| `RssTree.TotalKbRemove` | camofox-browser/lib/resources.js:46-46 | the sum over a set of processes does not depend on the order of the walk |
| `RssTree.TreeRssMb` | camofox-browser/lib/resources.js:32-56 | the rounded sum over all reachable processes, each once, with shared children, cycles and failed reads; absent exactly when the root is unusable or unreadable |
| `ProxyUsername.SanitizeIsJoinedWords` | camofox-browser/lib/proxy.js:51-60 | sanitising yields the runs of letters and digits joined by single underscores |
| `ProxyUsername.SanitizeIdempotent` | camofox-browser/lib/proxy.js:51-60 | sanitising twice is sanitising once |
| `ProxyUsername.BuildSessionUsername` | camofox-browser/lib/proxy.js:72-94 | empty for an empty base; otherwise decoding the username gives every sanitised option in its own place and the clamped duration |
| `ProxyUsername.UsernameDecodes` | camofox-browser/lib/proxy.js:76-93 | splitting a username on dashes recovers base, country, state, city, zip, session and duration, each sanitised and in its own place |
| `ProxyUsername.UsernamesIdentify` | camofox-browser/lib/proxy.js:72-94 | two usernames are equal exactly when base, options and clamped durations agree after sanitising |
| `ProxyUsername.MinutesAre` | camofox-browser/lib/proxy.js:82-84 | the duration is the truncated one, but at least one minute and at most 1440 |
| `ProxyUsername.MinutesAreUnique` | camofox-browser/lib/proxy.js:82-84 | a duration has one such value only |
| `RateLimiting.RateLimiter.TryAcquire` | camofox-browser/lib/reporter.js:455-461 | grants exactly when the history of calls says so, and keeps the pruned list |
| `RateLimiting.KeptIsEnough` | camofox-browser/lib/reporter.js:454-458 | the pruned list is short of the whole history by exactly the grants that still count and were an hour behind an earlier reading, and equals it exactly when there are none |
| `RateLimiting.DecisionIsExact` | camofox-browser/lib/reporter.js:454-462 | a decision is that of a limiter remembering every grant exactly when the room in the pruned list is not owed to forgotten grants |
| `RateLimiting.RunIsExact` | camofox-browser/lib/reporter.js:449-462 | a whole run grants what a limiter with full memory grants exactly when no call misjudges |
| `RateLimiting.SteadyClockNeverMisjudges` | camofox-browser/lib/reporter.js:454-458 | a clock that does not step back never makes the limiter misjudge |
| `RateLimiting.HourBoundExactly` | camofox-browser/lib/reporter.js:449-462 | over every run all half-open hours are within the allowance exactly when no call is granted into a full hour |
| `RateLimiting.ExactRunNeverCrowds` | camofox-browser/lib/reporter.js:449-462 | a run without misjudged calls grants nothing into a full hour |
| `RateLimiting.HourBoundWithSteadyClock` | camofox-browser/lib/reporter.js:449-462 | no half-open hour holds more grants than allowed, for every run with a non-decreasing clock |
| `RateLimiting.ClockSetBackBreaksTheBound` | camofox-browser/lib/reporter.js:457-459 | with a clock set back, an hour limited to two holds three grants |
| `LeakAlarm.Watchdog.Tick` | camofox-browser/lib/reporter.js:869-982 | only ticks that are not suppressed, an interval apart and after warm-up enter the history; a report is due exactly when the alarm is due at this check, and is filed exactly when a session is open, the browser lives or the growth over the baseline check is extreme |
| `LeakAlarm.SkippedExactly` | camofox-browser/lib/reporter.js:876-890 | over every run of ticks exactly those after a sleep of more than a minute beyond the interval, and the five ticks after such a one, are skipped |
| `LeakAlarm.CountedAreApart` | camofox-browser/lib/reporter.js:893-898 | with a clock that does not step back, counted ticks are at least 30 seconds apart and all of a process up for two minutes |
| `LeakAlarm.Watchdog.RunCheck` | camofox-browser/lib/reporter.js:898-980 | one counted check consumes a pending reset and keeps the variables equal to those of the history; it reports exactly when it raises the alarm |
| `LeakAlarm.RaisedExactlyWhenDue` | camofox-browser/lib/reporter.js:898-980 | on every history the alarm is raised exactly at the third consecutive check above one baseline, for the first time since the last reset |
| `LeakAlarm.OncePerStretch` | camofox-browser/lib/reporter.js:921-940 | at most one alarm between resets |
| `LeakAlarm.NeverEarly` | camofox-browser/lib/reporter.js:900-917 | no alarm before the sixth check counted from the one that consumes a reset |
| `Discovery.Discoverer.ProcessListing` | llmfit/scripts/scrape_hf_models.py:1473-1552 | the verdict, the statistics, the memory of seen ids and the config fetches of one listing |
| `Discovery.AcceptedExactly` | llmfit/scripts/scrape_hf_models.py:1487-1552 | a listing is accepted exactly when it passes every filter and has parameters from one source |
| `Discovery.JudgeExplains` | llmfit/scripts/scrape_hf_models.py:1484-1548 | each verdict holds exactly under its condition on the listing and on the listings read before, whatever state the script keeps |
| `Discovery.TakenRecords` | llmfit/scripts/scrape_hf_models.py:1484-1552 | every counter is the number of listings read with its verdict, the models found are the accepted ones in order, and the memory holds exactly the new ids read |
| `Discovery.QuotasAre` | llmfit/scripts/scrape_hf_models.py:1576-1583 | the whole limit for the primary pipeline, a fifth of it but at least one for each other |
| `Discovery.MinimumIs` | llmfit/scripts/scrape_hf_models.py:1607-1611 | the download minimum asked for, or a tenth of it but at least 1000 for the other sort orders |
| `Discovery.TakenKeeps` | llmfit/scripts/scrape_hf_models.py:1638-1664 | taking one listing keeps all bounds and balances |
| `Discovery.PipelineKeeps` | llmfit/scripts/scrape_hf_models.py:1623-1677 | a pipeline pass keeps them and requests at most its maximum of pages |
| `Discovery.PageReads` | llmfit/scripts/scrape_hf_models.py:1638-1664 | a page is read listing by listing to its end, unless the quota fills |
| `Discovery.PassIs` | llmfit/scripts/scrape_hf_models.py:1623-1677 | a pass asks for pages 1, 2, 3 and so on exactly while the quota has room, the page limit is not reached and the page before was full, had a successor and was not mostly below the floor |
| `Discovery.DiscoveryIsExplained` | llmfit/scripts/scrape_hf_models.py:1603-1691 | for arbitrary answers the discovery makes a pass for every strategy and pipeline with room, ends early only with all quotas full, and all it keeps is what the listings read call for |
| `Discovery.DiscoveryIsBounded` | llmfit/scripts/scrape_hf_models.py:1576-1691 | for arbitrary API answers: at most 300 page requests and 500 config fetches, distinct new ids, every pipeline within its quota, and total seen equal to the skips plus the accepted |
| `Discovery.Discoverer.TakeListing` | llmfit/scripts/scrape_hf_models.py:1638-1662 | one listing has the effect of its verdict, is put on the list and counted when accepted, and counts below the floor when refused for its downloads |
| `Discovery.Discoverer.TakePage` | llmfit/scripts/scrape_hf_models.py:1636-1664 | the page loop computes the page's effect and its count below the floor, stopping when the quota is full |
| `Discovery.Discoverer.DiscoverPipeline` | llmfit/scripts/scrape_hf_models.py:1616-1677 | the page-by-page loop with its early stops |
| `Discovery.Discoverer.Discover` | llmfit/scripts/scrape_hf_models.py:1602-1691 | the nested loops compute the discovery that the bounds are proved of |
| `CatalogueMerge.PreserveExistingMetadata` | llmfit/scripts/scrape_hf_models.py:494-522 | restores in place exactly the dropped fields, lists exactly their keys, and leaves every other field |
| `CatalogueMerge.PlainFieldsComeBack` | llmfit/scripts/scrape_hf_models.py:501-506 | a descriptive field comes back exactly when the scrape left it empty and a non-empty value was known; other scraped values stay |
| `CatalogueMerge.ContextComesBack` | llmfit/scripts/scrape_hf_models.py:507-520 | a context length comes back exactly when the scrape has the default one, lost the attention heads, and a better one was known |
| `CatalogueMerge.OtherFieldsStay` | llmfit/scripts/scrape_hf_models.py:494-522 | all other fields are those of the scrape |
| `CatalogueMerge.ArchitectureSurvives` | llmfit/scripts/scrape_hf_models.py:511-514 | an architecture value is neither overwritten nor lost |
| `CatalogueMerge.PreservedTwice` | llmfit/scripts/scrape_hf_models.py:494-522 | a second pass against the same entry restores nothing |
| `CatalogueMerge.MergedNames` | llmfit/scripts/scrape_hf_models.py:3037-3050 | merged names are the fresh ones, in place and first, and the non-empty existing ones; they are distinct exactly when the fresh ones are |
| `CatalogueMerge.MergeIdempotent` | llmfit/scripts/scrape_hf_models.py:3037-3050 | merging again with the same catalogue changes nothing |
| `CatalogueMerge.FreshArchitectureStays` | llmfit/scripts/scrape_hf_models.py:3037-3050 | the merge never changes a fresh architecture value |
| `CatalogueMerge.ArchitectureIsNotLost` | llmfit/scripts/scrape_hf_models.py:3037-3050 | an architecture value known for a named model is present after the merge |
| `CatalogueMerge.MergeOne` | llmfit/scripts/scrape_hf_models.py:3038-3050 | restoring through the index shows in the result list, and index and list keep naming the same objects |
| `CatalogueMerge.MergeCatalogue` | llmfit/scripts/scrape_hf_models.py:3023-3053 | for any fresh list, repeated names included, the loop over shared objects computes the merge, keeps the fresh objects in place, and counts exactly the updated and retained entries and the restored attention heads |

## Left out

- Browser launch, navigation, DOM evaluation, Express routes, VNC and file-system effects: foreign calls.
- A lock holder's timed-out operation may still be running after release (server.js:580, 592-599): only holders exclude each other.
- The queue-depth and tab gauges, logging and plugin events: they observe and do not decide.
- `UserLimit` and `PageHandOver` are state machines over values, one step for each stretch of code between suspension points; they do not use classes.
- References inside iframes and the legacy annotator (server.js:2413-2475, 6669-6689): they use coarser keys, for which the agreement does not hold. The name patterns to skip are a parameter.
- Whether the two passes over a snapshot see the same text: the page may change between them; both are given the same text.
- The memory-pressure eviction and session expiry by age are represented by the steps `Close`, `EndContext` and `Forget`, which may happen at any time and in any order; a page that opens after its request timed out is a `Stray`.
- Interleaving during the awaits of the pressure cleanup.
- `CollectDirs.Collect` and `RssTree.TreeRssMb` take the file system as unchanged during the walk.
- `survivingOwnedBrowserProcesses`, `isWindowsProcessCurrent`, the name-based memory scan, other proxy providers, error classification, authentication and configuration: easy members or pattern tables.
- Option values that are not numbers, such as a non-numeric cleanup option or offset; numeric options are integers, the session duration a real number.
- The high-water mark of the leak alarm, which only appears in the report's text, and the stall detection of the same watchdog.
- Reading and parsing the catalogue file, entries whose name is not text, and the parameter estimate from a config file, which is a parameter.
- `CatalogueMerge.MergeCatalogue`: requires that no two entries are the same object, as they are built one by one and parsed from a file.
- `PressureCleanup.Server.Cleanup`: requires distinct tab IDs, which are generated as unique.
- The ntfy project, the llmfit applications and the other scripts of the repository.
