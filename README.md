# copycut directory-size engine — a Dafny model

This project models the Rust backend that sizes directories for the copycut
file manager. It covers these parts:

- **Keys** (`keys.dfy`): the order-independent ignore signature, the cache key (canonical path, hidden flag, signature), the scan key (raw path, hidden flag, signature), and the hidden-name/ignore filter every walker applies.
- **Batch cache lookup** (`cache.dfy`, and its older copy in `path_sizer.dfy`): one answer per requested path, in order, and the cache is only read.
- **One-level listing** (`fs_list.dfy`): directories get size 0, any read error aborts the listing, and the stable sort puts directories first and then orders by lower-cased name.
- **Legacy sizer** (`path_sizer.dfy`): the `ensure_path_sizer` guard. It does nothing if the entry is completed or already in flight; otherwise it marks the key in flight and seeds a `(0, 0, false)` entry. Then the walk: a saturating tally of bytes and files, partial writes and update events every 250 ms, a final incomplete write, then the completed write and event, and the key leaves the in-flight set.
- **Current worker** (`worker.dfy`):
  - one job per scan key; replacing it cancels the old one;
  - the root pass;
  - the per-child decision: reuse a completed snapshot record, else a completed live record, else scan, with replayed partial progress;
  - the throttled progress loop (100 ms, 8 MiB or 200 files) and its final flush;
  - the child cache write with `completed = !canceled`;
  - the collect loop;
  - the summary, which is cached and emitted only when the job was not cancelled.
- **Per-job sizer** (`dir_sizer.dfy`): start and cancel on a job table keyed by the caller's id; the root pre-scan; a saturating sum per child; the summary, emitted even after cancellation.

Shared pieces:

- `common.dfy`: `u64` and saturating arithmetic, the cache key and record.
- `cancel.dfy`: the cancellation flag.
- `walk.dfy`: the filesystem as sequences of entries, and the specification functions of the walks.
- `totals.dfy`: the child-totals map, its sum and the collect loop.

Modelling choices:

- **Filesystem.** `read_dir` and `walkdir` are given as finite sequences of abstract entries. Each directory listing and walk read by the two sizers has its errors already filtered out; the one-level listing keeps them, as read results that may fail. Each walk entry carries the clock reading at which the walker examines it. The clock readings stand in for `Instant::elapsed`.
- **`canonicalize`.** It is a map from path to canonical path. A path that is not in the map is kept as is, which is the `unwrap_or_else` branch.
- **Concurrency.** It is sequentialised: a spawned child task runs to completion when it is spawned. A cancellation from another thread is the token's `visibleAfter` schedule: the number of further loads that still read `false`. `None` means nobody cancels during the run.
- **Events.** Emitted events are appended to an `events` log.
- **Cache and job table.** These are map fields updated in place. The legacy sizer also keeps a ghost log of its cache writes, so that "every write during the walk is incomplete" can be stated.

## Model

| member | source | states |
|---|---|---|
| Keys.SortStrings | src-tauri/src/api/path_sizer/keys.rs:10-11 | the sorted copy has the same length and the same multiset of patterns |
| Keys.SortStringsSorted | src-tauri/src/api/path_sizer/keys.rs:10-11 | the copy is sorted in `String` order (code-point lexicographic) |
| Keys.SortStringsPermutation | src-tauri/src/api/path_sizer/keys.rs:10-11 | any two permutations of a list sort to the same sequence |
| Keys.SortedUnique | src-tauri/src/api/path_sizer/keys.rs:10-11 | two ascending lists holding the same strings are equal, so the sorted list depends only on the strings given |
| Keys.IgnoresSigContainsPatterns | src-tauri/src/api/path_sizer/keys.rs:9-13 | `IgnoresSig`: every ignore pattern occurs in the signature |
| Keys.IgnoresSigPermutation | src-tauri/src/api/path_sizer/keys.rs:9-13 | the signature is the same for every permutation of the ignore list |
| Keys.IgnoresSigSmall | src-tauri/src/api/path_sizer/keys.rs:10-12 | no patterns give the empty signature, and one pattern is its own signature |
| Keys.IgnoresSigCollision | src-tauri/src/api/path_sizer/keys.rs:9-13 | the signature is not injective: `["a,b"]` and `["a", "b"]` share it although they skip different names |
| Keys.MakeCacheKeyFields | src-tauri/src/api/path_sizer/keys.rs:5-21 | `NormalizePath` and `MakeCacheKey`: the key's path is the canonical path when canonicalisation succeeds and the raw path otherwise; the key keeps the hidden flag, and its signature contains every ignore pattern |
| Keys.CacheKeyAgreement | src-tauri/src/api/path_sizer/keys.rs:5-21 | two requests get the same cache key iff normalised paths, hidden flags and signatures agree; equal normalised paths and flags with permuted ignore lists give equal keys |
| Keys.ScanKeyStartsWithRawPath | src-tauri/src/api/path_sizer/keys.rs:24-26 | `ScanKey`: the scan key begins with the raw, un-normalised path and a bar |
| Keys.ScanKeyPermutation | src-tauri/src/api/path_sizer/keys.rs:24-26 | for a fixed path and flag, the scan key is the same for permuted ignore lists |
| Keys.ScanKeyDistinguishes | src-tauri/src/api/path_sizer/keys.rs:24-26 | for one raw path, two scan keys are equal iff the hidden flags and the signatures are equal |
| Keys.BarTextDistinguishes | src-tauri/src/api/path_sizer/keys.rs:24-26 | two keys `path|flag|signature` over one path agree iff their flags and their signatures agree |
| Keys.ContainsIff | src-tauri/src/api/path_sizer/keys.rs:32 | `contains` holds iff the pattern occurs at some offset of the name |
| Keys.AnyContainsIff | src-tauri/src/api/path_sizer/keys.rs:32 | `any` holds iff some pattern of the list is contained in the name |
| Keys.ShouldSkipIff | src-tauri/src/api/path_sizer/keys.rs:28-33 | `ShouldSkip`: a name is skipped iff (hidden files are not shown and it starts with '.') or some pattern occurs in it |
| Keys.EmptyPatternSkipsAll | src-tauri/src/api/path_sizer/keys.rs:32 | an empty pattern in the list skips every name |
| Cache.SizeCache.GetCachedSizes | src-tauri/src/api/path_sizer/cache.rs:9-28 | one answer per path, in order; the answer is `None` iff the cache key of that path is missing, else that record's (bytes, items, completed); equal paths get equal answers; the cache is not modified |
| Cache.LookupIgnoresOrder | src-tauri/src/api/path_sizer/cache.rs:16-25 | the answer for a path does not depend on the order of the ignore patterns |
| FsList.ListDir | src-tauri/src/api/fs_list.rs:7-38 | a failing directory, entry or metadata read gives `Err` with the first failure's message, and `Ok` needs a readable directory; the `Ok` listing is exactly the stable sort of the built entries: one per read, directories with size 0, each with its read's name, kind and length |
| FsList.BuiltAt | src-tauri/src/api/fs_list.rs:11-29 | the i-th built entry comes from the i-th read: directories have size 0, files their metadata length |
| FsList.EntriesDescribeListing | src-tauri/src/api/fs_list.rs:11-35 | every entry of the sorted listing is a directory of size 0 or a file carrying its own length, and names some entry read from the directory |
| FsList.Lower | src-tauri/src/api/fs_list.rs:34 | lower-casing keeps the length, leaves no ASCII capital and keeps every other character |
| FsList.CompareEntries | src-tauri/src/api/fs_list.rs:31-35 | a directory sorts before a file and a file after a directory; entries of one kind compare `Equal` iff their lower-cased names are equal, and not `Greater` iff the lower-cased names are in lexicographic order |
| FsList.CompareEntriesAntisymmetric | src-tauri/src/api/fs_list.rs:31-35 | the comparator answers `Less` one way iff `Greater` the other way, and `Equal` symmetrically |
| FsList.EntryLeReflexive | src-tauri/src/api/fs_list.rs:31-35 | the comparator's order is reflexive |
| FsList.EntryLeTotal | src-tauri/src/api/fs_list.rs:31-35 | any two entries are comparable |
| FsList.EntryLeTransitive | src-tauri/src/api/fs_list.rs:31-35 | the comparator's order is transitive |
| FsList.SortEntries | src-tauri/src/api/fs_list.rs:31-35 | the sort keeps the length and the multiset of entries |
| FsList.SortEntriesSorted | src-tauri/src/api/fs_list.rs:31-35 | the result of the sort is ordered by the comparator |
| FsList.InsertEntryTies | src-tauri/src/api/fs_list.rs:31-35 | inserting an entry into a sorted list keeps the entries that compare `Equal` to any given entry in their order, with the inserted one ahead of those already there |
| FsList.SortEntriesStable | src-tauri/src/api/fs_list.rs:31-35 | the sort is stable: the entries comparing `Equal` to any given entry appear in the result in the order they had in the input |
| FsList.SortedListingOrder | src-tauri/src/api/fs_list.rs:31-34 | in a sorted listing no file precedes a directory, and entries of one kind are in non-decreasing order of lower-cased name |
| PathSizer.MakeKeyPermutation | src-tauri/src/api/path_sizer.rs:39-47 | `MakeKey`: the legacy key is the same for every permutation of the ignore list |
| PathSizer.MakeKeyIsUncanonicalCacheKey | src-tauri/src/api/path_sizer.rs:39-47 | the legacy key equals the current cache key of a path that canonicalisation leaves unchanged |
| PathSizer.LegacySizer.GetCachedSizes | src-tauri/src/api/path_sizer.rs:50-67 | one answer per path, in order; `None` iff the legacy key is missing, else the record's triple |
| PathSizer.LegacySizer.EnsurePathSizer | src-tauri/src/api/path_sizer.rs:83-124 | a worker starts iff the key has no completed record and is not in flight; otherwise nothing changes; on a start the key joins the in-flight set and a `(0, 0, false)` record is added only when none exists |
| PathSizer.TallyStep | src-tauri/src/api/path_sizer.rs:145-162 | one walk step never decreases the byte and item totals |
| PathSizer.TallyTraceTotals | src-tauri/src/api/path_sizer.rs:134-158 | after the walk, the totals are the saturating sums of the lengths and the count of the counted files |
| PathSizer.TallyTraceMonotone | src-tauri/src/api/path_sizer.rs:160-189 | the throttled updates are non-decreasing in bytes and items, and none exceeds the final totals |
| PathSizer.WalkEventsNonDecreasing | src-tauri/src/api/path_sizer.rs:160-214 | the update events of a walk, the forced final one included, are non-decreasing, and the last carries the walk's totals |
| PathSizer.LegacySizer.TallyEntry | src-tauri/src/api/path_sizer.rs:145-189 | one entry advances the tally; an incomplete record with the new totals is written and an update event emitted exactly when the entry passes the filter and 250 ms have elapsed since the last update |
| PathSizer.LegacySizer.ForceUpdate | src-tauri/src/api/path_sizer.rs:192-214 | the forced final update writes an incomplete record with the totals and emits the matching update event |
| PathSizer.LegacySizer.BlockingWalk | src-tauri/src/api/path_sizer.rs:133-217 | returns the walk's totals; each emission writes an incomplete record and an update event; the final forced write is incomplete with the totals |
| PathSizer.LegacySizer.RunWorker | src-tauri/src/api/path_sizer.rs:128-255 | the record becomes completed with the walk's totals, or `(0, 0)` when the blocking task fails; the new events and writes are exactly the walk's throttled updates and its forced one, then the completed one, and only the completed one when the blocking task fails; the run's events never go backwards; the key leaves the in-flight set |
| Walk.ChildDirsMembers | src-tauri/src/api/path_sizer/worker.rs:64-80 | `ChildDirs`: a name is a child directory iff some non-skipped directory entry of the listing has it |
| Walk.RootFilesTotalSaturates | src-tauri/src/api/path_sizer/worker.rs:76 | `RootFilesTotal`: the root files total is the exact total capped at u64 max |
| Walk.WalkBytesSaturates | src-tauri/src/api/path_sizer/worker.rs:228-230 | `WalkBytes`: a walk's byte sum is the exact sum of counted lengths capped at u64 max |
| Walk.WalkBytesMonotone | src-tauri/src/api/path_sizer/worker.rs:228-230 | the byte sum over a prefix of a walk never exceeds that over the whole walk |
| Common.SatAdd | src-tauri/src/api/path_sizer/worker.rs:230 | `saturating_add`: the exact sum when it fits, otherwise u64 max, and never below either operand |
| Common.SatSub | src-tauri/src/api/path_sizer/worker.rs:236 | `saturating_sub`: the exact difference when it is non-negative, otherwise 0 |
| Cancel.CancelToken.Load | src-tauri/src/api/path_sizer/worker.rs:218-221 | a load reads `true` exactly when the flag's schedule is exhausted; a `true` stays `true` |
| Cancel.CancelToken.Store | src-tauri/src/api/path_sizer/worker.rs:34 | after a store every later load reads `true` |
| Worker.JoinPath | src-tauri/src/api/path_sizer/worker.rs:100 | `root.join(name)` starts with the root and ends with the name, with at most one separator added |
| Worker.JoinPathInjective | src-tauri/src/api/path_sizer/worker.rs:100-102 | distinct child names of one root give distinct child paths |
| Worker.ScanWorker.ReplaceJob | src-tauri/src/api/path_sizer/worker.rs:27-48 | the table maps the scan key to a fresh uncancelled flag and the cache key, other keys are unchanged, and a previous job under the key is cancelled |
| Worker.RootPass | src-tauri/src/api/path_sizer/worker.rs:60-81 | the child directories and root files total are those of the listing prefix before cancellation is seen: non-skipped directories in order, and a saturating sum of non-skipped file lengths; a pass cut short leaves the flag set; the flag's schedule loses one load per entry seen and one for the entry at which cancellation is seen |
| Worker.RootEntries | src-tauri/src/api/path_sizer/worker.rs:64-80 | the loop over the root entries stops at the first entry at which cancellation is seen, and collects the non-skipped directories and the saturating sum of the non-skipped file lengths before it; stopping early leaves the flag set |
| Worker.ThrottleStepKeeps | src-tauri/src/api/path_sizer/worker.rs:228-252 | `ThrottleStep`: an entry that does not count leaves the throttle as it was; the sum never drops; an emitting step resets the report to the sum, the time to the entry's and the file count to 0; a silent step keeps the last report and time; the step keeps the report at most the sum, fewer than 200 pending files and less than 8 MiB unreported |
| Worker.DecideReusesCompleted | src-tauri/src/api/path_sizer/worker.rs:104-164 | `Decide`: a child is scanned iff neither the snapshot nor the cache holds a completed record for it; a completed snapshot record is reused first; a reused total is the bytes of a completed record |
| Worker.DecisionEventsMatch | src-tauri/src/api/path_sizer/worker.rs:104-164 | a reused child gets exactly one child event, the last, with the cached bytes; a scanned child gets at most two progress events, each with the positive bytes of an incomplete record |
| Worker.ScanWorker.DecideChild | src-tauri/src/api/path_sizer/worker.rs:104-164 | the decision is snapshot-completed first, then live-completed, else scan; the events appended are those of the decision |
| Worker.ScanWorker.CountEntry | src-tauri/src/api/path_sizer/worker.rs:223-253 | one entry advances the throttle state, and a progress event with the new sum is appended exactly when the entry counts and 100 ms, 8 MiB or 200 files have passed |
| Worker.ScanWorker.ScanEntries | src-tauri/src/api/path_sizer/worker.rs:213-255 | the walk loop sees the prefix before cancellation is seen; its throttle state is the trace of that prefix, `canceled` is set iff the walk was cut short (and then the flag is set), and exactly the throttled progress reports are emitted |
| Worker.TraceSum | src-tauri/src/api/path_sizer/worker.rs:213-255 | the throttle's sum after a walk is the walk's saturating byte sum |
| Worker.TraceInvariant | src-tauri/src/api/path_sizer/worker.rs:204-253 | the reports are non-decreasing and bounded by the sum, the last one is `last_emitted_bytes`, fewer than 200 files and less than 8 MiB are pending |
| Worker.ReportsEndAtSum | src-tauri/src/api/path_sizer/worker.rs:257-267 | after the flush the reports are non-decreasing, end at the final sum when any exist, and exist whenever the sum is positive |
| Worker.ScanWorker.ScanChild | src-tauri/src/api/path_sizer/worker.rs:201-272 | returns the byte sum of the walk prefix before cancellation is seen and `finished` iff the whole walk was seen (an unfinished walk leaves the flag set); appends exactly the flushed progress reports; the flag's schedule loses one load per entry seen and one for the entry at which cancellation is seen |
| Worker.ScanWorker.ChildTask | src-tauri/src/api/path_sizer/worker.rs:186-301 | the total, the cache and the events are `TaskBytes`, `TaskCache` and `TaskEvents` of the flag's schedule at the start: cancellation seen at the start reports 0 with no write or event; a failed task writes `(0, 0, false)` and emits 0; otherwise it writes `(bytes, 0, finished)` and emits the progress then the child event; the schedule afterwards is `TaskLeft`; if the flag is not set afterwards the task saw no cancellation |
| Worker.TaskBytesBound | src-tauri/src/api/path_sizer/worker.rs:186-301 | a child task's total is at most the child's full size; a task that never sees cancellation (always so when nobody cancels) reports exactly that size, records it as complete iff the blocking task delivered, and emits what a task nobody cancels emits |
| Worker.TaskEventsShape | src-tauri/src/api/path_sizer/worker.rs:186-301 | a task cancelled at the start emits nothing and reports 0; otherwise its events are progress reports for that child followed by one child event with its total |
| Worker.TaskEventsNoSummary | src-tauri/src/api/path_sizer/worker.rs:186-301 | a child task appends no summary to the log |
| Worker.VisitOutcomeBound | src-tauri/src/api/path_sizer/worker.rs:104-301 | a visited child's total is at most the total its decision stands for (the cached bytes, or the full size); when its task does not see cancellation it is exactly that, and a scanned child's record becomes `(total, 0, delivered)` |
| Worker.ScanWorker.VisitChild | src-tauri/src/api/path_sizer/worker.rs:95-301 | the decision is `Decide` on the snapshot and the current cache; a reused child's total is the cached bytes and neither the cache nor the flag's schedule changes; a scanned child's total, cache write and schedule are those of its task; the events appended are exactly the decision's then the task's, with no summary; if the flag is not set afterwards a scanned child's task saw no cancellation |
| Worker.ScanWorker.ScheduleChild | src-tauri/src/api/path_sizer/worker.rs:95-302 | one turn of the children loop, after its load read `false`, extends the record of visited children, totals, tasks, per-child events and flag schedules by exactly that child's outcome; if the flag is not set afterwards no task so far saw cancellation |
| Worker.ScanWorker.ScheduleChildren | src-tauri/src/api/path_sizer/worker.rs:95-302 | the children before cancellation is seen are visited in order, each with its own decision against the cache as it then was, total, cache write and flag schedule; the new events are exactly the children's events in order; each visited child is totalled from the cache or has a task; a child is left unvisited only when the flag is set; if the flag is not set at the end no task saw cancellation; nothing is visited when cancellation is already seen |
| Worker.VisitsWriteChildKeys | src-tauri/src/api/path_sizer/worker.rs:95-312 | while the children are visited the cache changes only at the children's own keys |
| Worker.ChildTotalsMatchDecisions | src-tauri/src/api/path_sizer/worker.rs:95-347 | every collected child total belongs to a visited child, is at most the size its decision stands for, and equals it when no child task saw cancellation |
| Totals.InsertAllKeys | src-tauri/src/api/path_sizer/worker.rs:305-312 | a name has a total iff it had one or some inserted pair names it, and its total is that of the last such pair |
| Totals.InsertAllDomain | src-tauri/src/api/path_sizer/worker.rs:305-312 | the names with totals are the earlier ones plus the inserted ones |
| Totals.InsertAllAgrees | src-tauri/src/api/dir_sizer.rs:134-141 | when every earlier and every inserted total agrees with a size function, so does every collected total |
| Totals.MapSumRemove | src-tauri/src/api/path_sizer/worker.rs:321 | the sum of the totals does not depend on which name is taken out first |
| Totals.InsertAllBounded | src-tauri/src/api/path_sizer/worker.rs:305-312 | when every earlier and every inserted total is at most a size function, so is every collected total |
| Totals.MapSumMonotone | src-tauri/src/api/path_sizer/worker.rs:321 | a map whose names and totals are within another's has a sum no larger |
| Totals.SumValues | src-tauri/src/api/path_sizer/worker.rs:321 | the loop's sum equals the sum of the map's values |
| Totals.Collect | src-tauri/src/api/path_sizer/worker.rs:304-312 | inserts the task results in order and stops right after the first insertion followed by a `true` load; the number inserted is fixed by the flag's schedule, and stopping early implies cancellation |
| Worker.ScanWorker.ProcessChildren | src-tauri/src/api/path_sizer/worker.rs:95-312 | every collected total comes from a visited child's decision, at most its expected size; the new events are exactly the visited children's events; if the flag is not set at the end, every child was visited, has a collected total and had a task that saw no cancellation, so every total is exact; with cancellation seen at the start there are no events and no cache change |
| Worker.ScanWorker.Finish | src-tauri/src/api/path_sizer/worker.rs:314-347 | the job under the scan key is removed on both paths; the summary is cached as completed and emitted iff the flag is not set, and its bytes are the root total plus the sum of child totals; a flag already set stays set |
| Worker.ScanWorker.Conclude | src-tauri/src/api/path_sizer/worker.rs:95-347 | after the children are scanned and collected the job is removed; with the flag set the new events are exactly the children's and the cache differs only at the children's keys; otherwise the new events are the children's followed by the summary of the root total plus the child totals, only that summary record is written beyond the children's, every child was visited and no child task saw cancellation, so every child has its exact total |
| Worker.ScanWorker.RunWorker | src-tauri/src/api/path_sizer/worker.rs:51-349 | the root pass sees the listing prefix before cancellation; each child is decided, totalled and written as the children loop states, its task starting from the flag schedule the root pass left; a summary is among the new events iff the flag is not set at the end, and then the new events are exactly the children's followed by it and the root record is completed with it; a cancelled run writes nothing outside the children's keys; when the flag is not set at the end the totals cover the whole root listing and every child exactly; when nobody cancels the flag stays down; the job under the scan key is removed |
| DirSizer.DirSizerJobs.CancelDirSizer | src-tauri/src/api/dir_sizer.rs:18-23 | the job is removed and its flag set; an unknown id changes nothing |
| DirSizer.DirSizerJobs.StartDirSizer | src-tauri/src/api/dir_sizer.rs:25-39 | the id maps to a fresh uncancelled flag; an earlier job under the id is overwritten and not cancelled |
| DirSizer.PreScan | src-tauri/src/api/dir_sizer.rs:43-66 | the child directories and root files total are those of the whole listing (no cancellation check), or empty and 0 for an unreadable root |
| DirSizer.SumChild | src-tauri/src/api/dir_sizer.rs:90-117 | the sum is the saturating byte sum of the walk prefix before cancellation is seen |
| DirSizer.DirSizerJobs.ChildTask | src-tauri/src/api/dir_sizer.rs:83-130 | cancellation seen at the start reports 0 with no event; otherwise the child's sum (0 for a failed task) is reported and emitted; the report is `ChildSum` and the schedule afterwards `ChildLeft` of the flag's schedule at the start; the sum is never more than the child's full size, and equals it when the flag is not set afterwards or never raised |
| DirSizer.ChildSumBound | src-tauri/src/api/dir_sizer.rs:83-130 | a child task reports at most its child's full size, and exactly that size when none of its loads reads `true`, which holds when nobody cancels; once cancellation is seen the task reports 0 and the flag stays exhausted |
| DirSizer.DirSizerJobs.SpawnChildren | src-tauri/src/api/dir_sizer.rs:72-131 | one task per child directory, in order, task `i` reporting what the flag's schedule left by task `i - 1` lets it see; the tasks that start form a prefix, and the new events are exactly their child events in order; each reports at most its child's full size; if the flag is not set at the end every task started and reported exactly that size |
| DirSizer.SpawnStep | src-tauri/src/api/dir_sizer.rs:72-131 | running one more task extends the record of spawned tasks; the started tasks stay a prefix, and the log grows by the new task's child event exactly when it starts |
| DirSizer.SizeEventsAreSizes | src-tauri/src/api/dir_sizer.rs:119-129 | the started tasks emit one child event each, in order, carrying the task's name and bytes |
| DirSizer.CollectedAll | src-tauri/src/api/dir_sizer.rs:133-141 | collecting every task gives exactly the child names, each with its size |
| DirSizer.CollectedBounded | src-tauri/src/api/dir_sizer.rs:133-141 | whatever prefix of the tasks is collected names only child directories, each with at most its full size |
| DirSizer.CollectedSumBounded | src-tauri/src/api/dir_sizer.rs:133-144 | the sum of such a partial collection is at most the sum of the full sizes |
| DirSizer.DirSizerJobs.SizeChildren | src-tauri/src/api/dir_sizer.rs:68-144 | the tasks are as the spawn loop states; the collect loop inserts the first `m` totals, `m` being one past the loads the flag's schedule still allows after the tasks (capped at the task count); the collected totals name only child directories, each at most its full size, and are every child's full size when the flag is not set at the end or nobody cancels; the returned sum is their sum; the new events are exactly the started tasks' child events |
| DirSizer.DirSizerJobs.RunJob | src-tauri/src/api/dir_sizer.rs:42-157 | the root total and child directories are those of the whole listing (0 and none for an unreadable root); the children are sized and collected as stated for the spawn and collect loops; the new events are exactly the started tasks' child events followed by the summary of the root total plus the collected totals, emitted even after cancellation; the total is at most the root total plus the children's full sizes; the job under the id is removed |
| DirSizer.SummaryLog | src-tauri/src/api/dir_sizer.rs:119-153 | in a log of earlier events, child events and the summary, the earlier events stay a prefix, the summary is last, and every event between them is a child event |

## Left out

- Threads, the four-permit semaphore, `spawn` and `spawn_blocking` are left out. Children run one after the other. Another thread's cancellation arrives through the flag's load schedule, so the model covers sequential interleavings only.
- Mutex locking and poisoning are left out. A failed lock returns `Err` from the lookups and makes a worker skip a cache write; the model always takes the lock.
- Failures of event emission are ignored by the source; the model treats every emission as delivered.
- `SystemTime` stamps (`updated_at`, `_updated_at`) and the `InFlight::started_at` instant are dropped. Nothing reads them.
- The chrono formatting of the modification time is left out. It arrives as an opaque optional string.
- `canonicalize` is a map from path to canonical path, not a filesystem query.
- Symbolic links, special files and unreadable metadata are left out as such; they appear only as entries that are neither directory nor file. The `walkdir` order is the given order of the sequence.
- `to_string_lossy` is left out: names are already strings.
- FsList.Lower: `to_lowercase` is modelled for ASCII letters only. Other characters are kept as they are.
- Keys.MakeCacheKey: the cache key's path is a `PathBuf`, whose equality compares path components, so when canonicalisation fails `a/b` and `a/b/` give the same key. The model compares the strings, so Cache.SizeCache.GetCachedSizes and the worker's child keys may treat such paths as different.
- PathSizer.MakeKey: `PathBuf` equality compares path components, so `a/b` and `a/b/` are the same key. The model compares the raw strings.
- Worker.StartThrottle: the throttle clock always starts 200 ms before the scan. The `checked_sub` fallback to the present instant, taken only when the clock is younger than 200 ms, is not modelled.
- Worker.JoinPath: paths are Unix paths with `/` as the only separator, and the `PathBuf::join` rule that an absolute name replaces the root is left out. Names read from a directory are never absolute.
- Worker.ScanWorker.Finish: the summary is the unbounded sum of the root total and the child totals. The source adds `u64` values unchecked, which panics or wraps on overflow.
- DirSizer.DirSizerJobs.RunJob: the summary is the unbounded sum of the root total and the child totals, as in the worker.
- Totals.Collect: a child task that panics yields a join error, which the source skips without a cancellation check. The model's tasks never panic.
- PathSizer.LegacySizer.RunWorker: a failed blocking task fails before making any write or emitting any event.
- Worker.ScanWorker.ChildTask: same as the legacy worker; its failed blocking task also makes no loads of the flag.
- DirSizer.DirSizerJobs.ChildTask: a failed blocking task is modelled as failing before its walk, so it makes no loads of the flag beyond the first.
- The `job_id` parameter of the worker is carried into events only. The client-side aggregation of the events is not part of this model.
