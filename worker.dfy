/** The directory-size worker (src-tauri/src/api/path_sizer/worker.rs).

    `ensure_path_sizer` keeps one job per scan key, cancelling the job it
    replaces. The worker lists the root once, sums its files, and for every
    child directory either reuses a completed cache record, or replays the
    partial size it knows and scans the child, throttling the progress it
    reports. It caches every child it scans and, unless cancelled, the root's
    total, and reports the total as a summary.

    The worker's tasks run one after the other: a child task runs when it is
    spawned, and its result waits in `tasks` until the collect loop. Another
    thread's cancellation reaches the worker through the token's schedule. */
module Worker {
  import opened Common
  import Keys
  import Walk
  import Cache
  import Totals
  import opened Cancel

  /** The `dir_size:progress`, `dir_size:child` and `dir_size:summary` payloads. */
  datatype SizerEvent =
    | Progress(jobId: string, scanKey: string, name: string, bytes: nat)
    | Child(jobId: string, scanKey: string, name: string, bytes: nat)
    | Summary(jobId: string, scanKey: string, bytes: nat)

  /** A registered job: the cache key it fills and its cancellation flag. */
  datatype Job = Job(key: CacheKey, cancel: CancelToken)

  /** `PathBuf::join` with a plain file name: a separator is added unless the
      base is empty or already ends with one. */
  function JoinPath(root: string, name: string): (r: string)
    ensures |r| == |root| + |name| || (|r| == |root| + |name| + 1 && r[|root|] == '/')
    ensures r[..|root|] == root && r[|r| - |name|..] == name
  {
    if |root| == 0 || root[|root| - 1] == '/' then root + name else root + "/" + name
  }

  /** Joining a name to a base that needs no separator, or to one that does,
      never yields the same path for two different names. */
  lemma JoinPathInjective(root: string, a: string, b: string)
    requires JoinPath(root, a) == JoinPath(root, b)
    ensures a == b
  {
    var r := JoinPath(root, a);
    assert a == r[|r| - |a|..];
    assert b == r[|r| - |b|..];
  }

  // ---------------------------------------------------------------------------
  // Throttled progress of one child scan.

  /** Progress is due after this many milliseconds since the last report, */
  const DUE_MS: int := 100
  /** or once the sum has grown by this many bytes, */
  const BIG_JUMP: nat := 8 * 1024 * 1024
  /** or once this many files have been counted. */
  const MANY_FILES: nat := 200
  /** The first report is due this much earlier than the scan's start. */
  const BACKDATE_MS: int := 200

  /** The scan's running state: `sum`, `last_emit_at`, `last_emitted_bytes`, `files_since_emit`. */
  datatype Throttle = Throttle(sum: u64, lastAt: int, lastBytes: u64, files: nat)

  function StartThrottle(start: int): Throttle
  {
    Throttle(0, start - BACKDATE_MS, 0, 0)
  }

  /** After a counted file `e` is added, at least one trigger holds. */
  predicate Fires(th: Throttle, e: Walk.WalkEntry)
    requires e.len.Some?
  {
    var sum := SatAdd(th.sum, e.len.value);
    e.at - th.lastAt >= DUE_MS || SatSub(sum, th.lastBytes) >= BIG_JUMP || th.files + 1 >= MANY_FILES
  }

  /** Entry `e` produces a progress report. */
  predicate Emits(th: Throttle, e: Walk.WalkEntry, showHidden: bool, ignores: seq<string>)
  {
    Walk.Counts(e, showHidden, ignores) && Fires(th, e)
  }

  /** Only a counted file changes the state; a report resets the throttle to the current sum. */
  function ThrottleStep(th: Throttle, e: Walk.WalkEntry, showHidden: bool, ignores: seq<string>): Throttle
  {
    if !Walk.Counts(e, showHidden, ignores) then th
    else
      var sum := SatAdd(th.sum, e.len.value);
      if Fires(th, e) then Throttle(sum, e.at, sum, 0) else Throttle(sum, th.lastAt, th.lastBytes, th.files + 1)
  }

  /** One entry never lowers the sum; a report resets the throttle to the new
      sum and clock reading, no report keeps the last report; and the
      throttle's bounds (reported at most the sum, fewer than 200 files and
      less than 8 MiB pending) are kept. */
  lemma ThrottleStepKeeps(th: Throttle, e: Walk.WalkEntry, showHidden: bool, ignores: seq<string>)
    ensures var r := ThrottleStep(th, e, showHidden, ignores);
      (!Walk.Counts(e, showHidden, ignores) ==> r == th) &&
      r.sum >= th.sum &&
      (Emits(th, e, showHidden, ignores) ==> r.lastBytes == r.sum && r.lastAt == e.at && r.files == 0) &&
      (!Emits(th, e, showHidden, ignores) ==> r.lastBytes == th.lastBytes && r.lastAt == th.lastAt) &&
      (th.lastBytes <= th.sum ==> r.lastBytes <= r.sum) &&
      (th.files < MANY_FILES ==> r.files < MANY_FILES) &&
      (SatSub(th.sum, th.lastBytes) < BIG_JUMP ==> SatSub(r.sum, r.lastBytes) < BIG_JUMP)
  {
  }

  /** The state after scanning some entries, and the sums reported on the way. */
  datatype ScanTrace = ScanTrace(th: Throttle, reported: seq<u64>)

  function Trace(es: seq<Walk.WalkEntry>, showHidden: bool, ignores: seq<string>, start: int): ScanTrace
  {
    if |es| == 0 then ScanTrace(StartThrottle(start), [])
    else
      var prev := Trace(es[..|es| - 1], showHidden, ignores, start);
      var e := es[|es| - 1];
      var th := ThrottleStep(prev.th, e, showHidden, ignores);
      ScanTrace(th, if Emits(prev.th, e, showHidden, ignores) then prev.reported + [th.sum] else prev.reported)
  }

  /** The reports of a scan followed by the final flush, made when the last
      report is not the final sum. */
  function Flushed(tr: ScanTrace): seq<u64>
  {
    tr.reported + (if tr.th.lastBytes != tr.th.sum then [tr.th.sum] else [])
  }

  lemma TraceSnoc(es: seq<Walk.WalkEntry>, i: nat, showHidden: bool, ignores: seq<string>, start: int)
    requires i < |es|
    ensures var prev := Trace(es[..i], showHidden, ignores, start);
      var th := ThrottleStep(prev.th, es[i], showHidden, ignores);
      Trace(es[..i + 1], showHidden, ignores, start)
        == ScanTrace(th, if Emits(prev.th, es[i], showHidden, ignores) then prev.reported + [th.sum] else prev.reported)
  {
    assert es[..i + 1][..i] == es[..i];
  }

  /** The scan's sum is the saturating total of the counted files. */
  lemma {:induction false} TraceSum(es: seq<Walk.WalkEntry>, showHidden: bool, ignores: seq<string>, start: int)
    ensures Trace(es, showHidden, ignores, start).th.sum == Walk.WalkBytes(es, showHidden, ignores)
  {
    if |es| > 0 {
      TraceSum(es[..|es| - 1], showHidden, ignores, start);
    }
  }

  ghost predicate NonDecreasing(s: seq<u64>)
  {
    forall i, j :: 0 <= i < j < |s| ==> s[i] <= s[j]
  }

  /** What holds of a scan at every step: the last reported sum is remembered,
      reports never go backwards and never exceed the sum, and fewer than 200
      files and less than 8 MiB have gone unreported. */
  ghost predicate ThrottleInvariant(tr: ScanTrace)
  {
    tr.th.lastBytes == (if |tr.reported| == 0 then 0 else tr.reported[|tr.reported| - 1]) &&
    NonDecreasing(tr.reported) &&
    (forall i :: 0 <= i < |tr.reported| ==> tr.reported[i] <= tr.th.sum) &&
    tr.th.files < MANY_FILES && tr.th.sum - tr.th.lastBytes < BIG_JUMP
  }

  lemma {:induction false} TraceInvariant(es: seq<Walk.WalkEntry>, showHidden: bool, ignores: seq<string>, start: int)
    ensures ThrottleInvariant(Trace(es, showHidden, ignores, start))
  {
    if |es| > 0 {
      var prev := Trace(es[..|es| - 1], showHidden, ignores, start);
      TraceInvariant(es[..|es| - 1], showHidden, ignores, start);
      var tr := Trace(es, showHidden, ignores, start);
      assert prev.th.sum <= tr.th.sum;
      if Emits(prev.th, es[|es| - 1], showHidden, ignores) {
        forall i, j | 0 <= i < j < |tr.reported| ensures tr.reported[i] <= tr.reported[j] {
          assert tr.reported[i] == prev.reported[i];
          if j < |prev.reported| {
            assert tr.reported[j] == prev.reported[j];
          }
        }
        forall i | 0 <= i < |tr.reported| ensures tr.reported[i] <= tr.th.sum {
          if i < |prev.reported| {
            assert tr.reported[i] == prev.reported[i];
          }
        }
      }
    }
  }

  /** The sums a child reports, flush included, never go backwards; whenever
      it reports at all, its last report is its final sum, and a positive sum
      is always reported. */
  lemma ReportsEndAtSum(es: seq<Walk.WalkEntry>, showHidden: bool, ignores: seq<string>, start: int)
    ensures var f := Flushed(Trace(es, showHidden, ignores, start));
      NonDecreasing(f) &&
      (|f| > 0 ==> f[|f| - 1] == Walk.WalkBytes(es, showHidden, ignores)) &&
      (Walk.WalkBytes(es, showHidden, ignores) > 0 ==> |f| > 0)
  {
    TraceInvariant(es, showHidden, ignores, start);
    TraceSum(es, showHidden, ignores, start);
    var tr := Trace(es, showHidden, ignores, start);
    var f := Flushed(tr);
    forall i, j | 0 <= i < j < |f| ensures f[i] <= f[j] {
      assert f[i] == tr.reported[i];
    }
  }

  /** The sums a child reports as an event log. */
  function ProgressEvents(jobId: string, scanKey: string, name: string, sums: seq<u64>): seq<SizerEvent>
  {
    seq(|sums|, i requires 0 <= i < |sums| => Progress(jobId, scanKey, name, sums[i]))
  }

  lemma ProgressEventsSnoc(jobId: string, scanKey: string, name: string, sums: seq<u64>, x: u64)
    ensures ProgressEvents(jobId, scanKey, name, sums + [x])
         == ProgressEvents(jobId, scanKey, name, sums) + [Progress(jobId, scanKey, name, x)]
  {
  }

  // ---------------------------------------------------------------------------
  // The per-child cache decision.

  /** A child is taken from a completed snapshot record, else from a completed
      live record, else scanned. */
  datatype Decision = Cached(bytes: nat) | Scan

  function Decide(snapshot: map<CacheKey, CacheEntry>, live: map<CacheKey, CacheEntry>, key: CacheKey): Decision
  {
    if key in snapshot && snapshot[key].completed then Cached(snapshot[key].bytes)
    else if key in live && live[key].completed then Cached(live[key].bytes)
    else Scan
  }

  /** A child is scanned exactly when neither cache holds a completed record
      for it; a reused child takes the bytes of a completed record, the
      snapshot's when it has one. */
  lemma DecideReusesCompleted(snapshot: map<CacheKey, CacheEntry>, live: map<CacheKey, CacheEntry>, key: CacheKey)
    ensures var d := Decide(snapshot, live, key);
      (d.Scan? <==> !(key in snapshot && snapshot[key].completed) && !(key in live && live[key].completed)) &&
      (key in snapshot && snapshot[key].completed ==> d == Cached(snapshot[key].bytes)) &&
      (d.Cached? ==>
        (key in snapshot && snapshot[key].completed && d.bytes == snapshot[key].bytes) ||
        (key in live && live[key].completed && d.bytes == live[key].bytes))
  {
  }

  /** The events of the decision: the child event of a reused record, or the
      progress of the partial records with bytes, first the snapshot's, then the live one's. */
  function DecisionEvents(jobId: string, scanKey: string, name: string,
                          snapshot: map<CacheKey, CacheEntry>, live: map<CacheKey, CacheEntry>, key: CacheKey)
    : seq<SizerEvent>
  {
    if key in snapshot && snapshot[key].completed then [Child(jobId, scanKey, name, snapshot[key].bytes)]
    else
      (if key in snapshot && snapshot[key].bytes > 0 then [Progress(jobId, scanKey, name, snapshot[key].bytes)] else [])
      + (if key in live && live[key].completed then [Child(jobId, scanKey, name, live[key].bytes)]
         else if key in live && live[key].bytes > 0 then [Progress(jobId, scanKey, name, live[key].bytes)]
         else [])
  }

  /** A reused child gets exactly one child event, the last one, carrying the
      cached size; a child to scan gets none, and each progress event it gets
      carries the positive size of an incomplete record under its key. */
  lemma DecisionEventsMatch(jobId: string, scanKey: string, name: string,
                            snapshot: map<CacheKey, CacheEntry>, live: map<CacheKey, CacheEntry>, key: CacheKey)
    ensures var evs := DecisionEvents(jobId, scanKey, name, snapshot, live, key);
      match Decide(snapshot, live, key)
      case Cached(b) =>
        |evs| > 0 && evs[|evs| - 1] == Child(jobId, scanKey, name, b) &&
        (forall i :: 0 <= i < |evs| - 1 ==> evs[i].Progress?)
      case Scan =>
        |evs| <= 2 &&
        forall i :: 0 <= i < |evs| ==> (evs[i].Progress? && evs[i].name == name && evs[i].bytes > 0 &&
          ((key in snapshot && !snapshot[key].completed && evs[i].bytes == snapshot[key].bytes) ||
           (key in live && !live[key].completed && evs[i].bytes == live[key].bytes)))
  {
  }

  // ---------------------------------------------------------------------------
  // The root pass.

  /** Lists the root (a root that cannot be read has no entries): see `RootEntries`. */
  method RootPass(root: Result<seq<Walk.RootEntry>>, showHidden: bool, ignores: seq<string>, token: CancelToken)
    returns (childDirs: seq<string>, rootTotal: u64)
    modifies token
    ensures root.Err? ==> childDirs == [] && rootTotal == 0 && token.LoadsLeft() == old(token.LoadsLeft())
    ensures root.Ok? ==>
      var es := root.value;
      var k := Budget(old(token.LoadsLeft()), |es|);
      childDirs == Walk.ChildDirs(es[..k], showHidden, ignores) &&
      rootTotal == Walk.RootFilesTotal(es[..k], showHidden, ignores) &&
      token.LoadsLeft() == Consume(old(token.LoadsLeft()), if k < |es| then k + 1 else k) &&
      (k < |es| ==> token.canceled)
    ensures old(token.canceled) ==> token.canceled
  {
    if root.Err? {
      return [], 0;
    }
    childDirs, rootTotal := RootEntries(root.value, showHidden, ignores, token);
  }

  /** The loop over the root's entries: stops at the first entry for which
      cancellation is seen; keeps the directories the filter lets through and
      sums the files' lengths with saturation. */
  method RootEntries(es: seq<Walk.RootEntry>, showHidden: bool, ignores: seq<string>, token: CancelToken)
    returns (childDirs: seq<string>, rootTotal: u64)
    modifies token
    ensures var k := Budget(old(token.LoadsLeft()), |es|);
      childDirs == Walk.ChildDirs(es[..k], showHidden, ignores) &&
      rootTotal == Walk.RootFilesTotal(es[..k], showHidden, ignores) &&
      token.LoadsLeft() == Consume(old(token.LoadsLeft()), if k < |es| then k + 1 else k) &&
      (k < |es| ==> token.canceled)
    ensures old(token.canceled) ==> token.canceled
  {
    childDirs, rootTotal := [], 0;
    ghost var left := token.LoadsLeft();
    var i := 0;
    while i < |es|
      invariant 0 <= i <= |es|
      invariant left.None? || i <= left.value
      invariant token.LoadsLeft() == Consume(left, i)
      invariant old(token.canceled) ==> token.canceled
      invariant childDirs == Walk.ChildDirs(es[..i], showHidden, ignores)
      invariant rootTotal == Walk.RootFilesTotal(es[..i], showHidden, ignores)
    {
      var c := token.Load();
      if c {
        break;
      }
      assert es[..i + 1][..i] == es[..i];
      var e := es[i];
      if !Keys.ShouldSkip(e.name, showHidden, ignores) {
        match e.kind
        case Directory =>
          childDirs := childDirs + [e.name];
        case File(len) =>
          rootTotal := SatAdd(rootTotal, len);
        case Other =>
      }
      i := i + 1;
    }
    assert Budget(left, |es|) == i;
  }

  /** The walk of one child directory as the environment provides it: its
      entries, the clock reading when its scan starts, and whether the blocking
      task delivers its result (`false`: the task failed). */
  datatype ChildScan = ChildScan(walk: seq<Walk.WalkEntry>, start: int, joined: bool)

  /** The names of the scanned children. */
  function TaskNames(tasks: seq<(string, nat)>): set<string>
  {
    set t | t in tasks :: t.0
  }

  /** `after` is `before` followed by events none of which is a summary. */
  ghost predicate ExtendsWithoutSummary(before: seq<SizerEvent>, after: seq<SizerEvent>)
  {
    |before| <= |after| && after[..|before|] == before &&
    forall i :: |before| <= i < |after| ==> !after[i].Summary?
  }

  /** Some event of `after` beyond the prefix `before` is a summary. */
  ghost predicate SummaryAfter(before: seq<SizerEvent>, after: seq<SizerEvent>)
  {
    exists i :: |before| <= i < |after| && after[i].Summary?
  }

  lemma ExtendsWithoutSummaryTrans(a: seq<SizerEvent>, b: seq<SizerEvent>, c: seq<SizerEvent>)
    requires ExtendsWithoutSummary(a, b) && ExtendsWithoutSummary(b, c)
    ensures ExtendsWithoutSummary(a, c)
  {
    assert c[..|a|] == c[..|b|][..|a|];
  }

  // ---------------------------------------------------------------------------
  // What one child contributes.

  /** The cache key of the child `name` of `root`. */
  function ChildKey(canon: Keys.Canon, root: string, name: string, showHidden: bool, ignores: seq<string>): CacheKey
  {
    Keys.MakeCacheKey(canon, JoinPath(root, name), showHidden, ignores)
  }

  /** How many walk entries a child task sees when the flag's schedule is `left` as it starts. */
  function TaskSeen(left: Option<nat>, scan: ChildScan): nat
  {
    Budget(Consume(left, 1), |scan.walk|)
  }

  /** The bytes a child task reports: 0 when cancellation is seen before it
      starts or its blocking task fails, otherwise the sum of the walk before
      cancellation is seen. */
  function TaskBytes(left: Option<nat>, scan: ChildScan, showHidden: bool, ignores: seq<string>): nat
  {
    if left == Some(0) || !scan.joined then 0
    else Walk.WalkBytes(scan.walk[..TaskSeen(left, scan)], showHidden, ignores)
  }

  /** The record a child task writes is complete iff its walk ran to the end. */
  predicate TaskFinished(left: Option<nat>, scan: ChildScan)
  {
    left != Some(0) && scan.joined && TaskSeen(left, scan) == |scan.walk|
  }

  /** The cache after a child task. */
  function TaskCache(live: map<CacheKey, CacheEntry>, key: CacheKey, left: Option<nat>, scan: ChildScan,
                     showHidden: bool, ignores: seq<string>): map<CacheKey, CacheEntry>
  {
    if left == Some(0) then live
    else live[key := CacheEntry(TaskBytes(left, scan, showHidden, ignores), 0, TaskFinished(left, scan))]
  }

  /** The events of a child task: its flushed progress, then its child event. */
  function TaskEvents(jobId: string, scanKey: string, name: string, left: Option<nat>, scan: ChildScan,
                      showHidden: bool, ignores: seq<string>): seq<SizerEvent>
  {
    if left == Some(0) then []
    else if !scan.joined then [Child(jobId, scanKey, name, 0)]
    else
      ProgressEvents(jobId, scanKey, name, Flushed(Trace(scan.walk[..TaskSeen(left, scan)], showHidden, ignores, scan.start)))
      + [Child(jobId, scanKey, name, TaskBytes(left, scan, showHidden, ignores))]
  }

  /** A child's full size: the sum of its whole walk, 0 when its blocking task fails. */
  function FullBytes(scan: ChildScan, showHidden: bool, ignores: seq<string>): nat
  {
    if scan.joined then Walk.WalkBytes(scan.walk, showHidden, ignores) else 0
  }

  /** The total a decision stands for: the cached size, or the child's full size. */
  function Expected(d: Decision, scan: ChildScan, showHidden: bool, ignores: seq<string>): nat
  {
    match d
    case Cached(b) => b
    case Scan => FullBytes(scan, showHidden, ignores)
  }

  /** The flag's schedule after a child task that started with `left`: one
      load before it starts, then one per walk entry seen and one more for
      the entry at which cancellation is seen. */
  function TaskLeft(left: Option<nat>, scan: ChildScan): Option<nat>
  {
    var l1 := Consume(left, 1);
    if left == Some(0) || !scan.joined then l1
    else
      var k := Budget(l1, |scan.walk|);
      Consume(l1, if k < |scan.walk| then k + 1 else k)
  }

  /** A child task that never sees cancellation: it starts, and its walk runs
      to the end when the blocking task delivers. */
  predicate TaskQuiet(left: Option<nat>, scan: ChildScan)
  {
    left != Some(0) && (scan.joined ==> TaskSeen(left, scan) == |scan.walk|)
  }

  /** A child task never reports more than the child's full size; when it
      never sees cancellation (always so when the flag is never raised) it
      reports exactly that, records it as complete iff the blocking task
      delivered, and emits what a task without cancellation emits. */
  lemma TaskBytesBound(left: Option<nat>, scan: ChildScan, showHidden: bool, ignores: seq<string>)
    ensures TaskBytes(left, scan, showHidden, ignores) <= FullBytes(scan, showHidden, ignores)
    ensures left.None? ==> TaskQuiet(left, scan)
    ensures TaskQuiet(left, scan) ==>
      TaskBytes(left, scan, showHidden, ignores) == FullBytes(scan, showHidden, ignores) &&
      (TaskFinished(left, scan) <==> scan.joined) &&
      forall jobId, scanKey, name :: TaskEvents(jobId, scanKey, name, left, scan, showHidden, ignores)
        == TaskEvents(jobId, scanKey, name, None, scan, showHidden, ignores)
  {
    if left != Some(0) && scan.joined {
      Walk.WalkBytesMonotone(scan.walk, TaskSeen(left, scan), showHidden, ignores);
    }
    if TaskQuiet(left, scan) && scan.joined {
      assert scan.walk[..TaskSeen(left, scan)] == scan.walk[..TaskSeen(None, scan)] == scan.walk;
    }
  }

  // ---------------------------------------------------------------------------
  // The children loop, as a record of what it did to each child.

  /** What the children loop did for one child, whose task (if any) starts
      with the flag's schedule `left`: it decided against the snapshot and the
      cache as it then was; a reused child counts its cached size and leaves
      the cache alone; a scanned child counts what its task reports and the
      cache is left as the task leaves it. */
  ghost predicate VisitOutcome(snapshot: map<CacheKey, CacheEntry>, live: map<CacheKey, CacheEntry>,
                               live2: map<CacheKey, CacheEntry>, key: CacheKey, scan: ChildScan,
                               showHidden: bool, ignores: seq<string>, left: Option<nat>, d: Decision, v: nat)
  {
    d == Decide(snapshot, live, key) &&
    (d.Cached? ==> v == d.bytes && live2 == live) &&
    (d.Scan? ==>
      v == TaskBytes(left, scan, showHidden, ignores) && live2 == TaskCache(live, key, left, scan, showHidden, ignores))
  }

  /** The flag's schedule after visiting a child: a reused child makes no load. */
  function VisitLeft(left: Option<nat>, d: Decision, scan: ChildScan): Option<nat>
  {
    if d.Cached? then left else TaskLeft(left, scan)
  }

  /** A visit never counts more than the total its decision stands for, and
      exactly that when the child's task does not see cancellation. */
  lemma VisitOutcomeBound(snapshot: map<CacheKey, CacheEntry>, live: map<CacheKey, CacheEntry>,
                          live2: map<CacheKey, CacheEntry>, key: CacheKey, scan: ChildScan,
                          showHidden: bool, ignores: seq<string>, left: Option<nat>, d: Decision, v: nat)
    requires VisitOutcome(snapshot, live, live2, key, scan, showHidden, ignores, left, d, v)
    ensures v <= Expected(d, scan, showHidden, ignores)
    ensures (d.Scan? ==> TaskQuiet(left, scan)) ==>
      v == Expected(d, scan, showHidden, ignores) &&
      (d.Scan? ==> live2 == live[key := CacheEntry(v, 0, scan.joined)])
  {
    TaskBytesBound(left, scan, showHidden, ignores);
  }

  /** The state of the children loop after the first `|ds|` children: their
      record, and the reused totals and scanned tasks it has collected. */
  ghost predicate Scheduled(snapshot: map<CacheKey, CacheEntry>, canon: Keys.Canon, root: string, childDirs: seq<string>,
                            scans: string -> ChildScan, showHidden: bool, ignores: seq<string>, lefts: seq<Option<nat>>,
                            ds: seq<Decision>, vs: seq<nat>, lives: seq<map<CacheKey, CacheEntry>>,
                            totals: map<string, nat>, tasks: seq<(string, nat)>)
  {
    Visits(snapshot, canon, root, childDirs, scans, showHidden, ignores, lefts, ds, vs, lives) &&
    totals == Totals.InsertAll(map[], Split(childDirs, ds, vs, true)) &&
    tasks == Split(childDirs, ds, vs, false) &&
    totals.Keys + TaskNames(tasks) == Walk.Names(childDirs[..|ds|])
  }

  /** The loop visited the first `|ds|` children in order: `ds` are their
      decisions, `vs` their counted totals, `lives[i]` the cache and
      `lefts[i]` the flag's schedule before child `i` (`lives[0]` is the
      snapshot; the last ones are the cache and the schedule after the loop). */
  ghost predicate Visits(snapshot: map<CacheKey, CacheEntry>, canon: Keys.Canon, root: string, childDirs: seq<string>,
                         scans: string -> ChildScan, showHidden: bool, ignores: seq<string>, lefts: seq<Option<nat>>,
                         ds: seq<Decision>, vs: seq<nat>, lives: seq<map<CacheKey, CacheEntry>>)
  {
    |ds| == |vs| <= |childDirs| && |lives| == |ds| + 1 && |lefts| == |ds| + 1 && lives[0] == snapshot &&
    forall i :: 0 <= i < |ds| ==> VisitedAt(snapshot, canon, root, childDirs, scans, showHidden, ignores, lefts, ds, vs, lives, i)
  }

  /** Child `i` was visited after the loop's load read `false` (one load
      taken from `lefts[i]`), with decision `ds[i]`, total `vs[i]`, the cache
      going from `lives[i]` to `lives[i + 1]` and the schedule to `lefts[i + 1]`. */
  ghost predicate VisitedAt(snapshot: map<CacheKey, CacheEntry>, canon: Keys.Canon, root: string, childDirs: seq<string>,
                            scans: string -> ChildScan, showHidden: bool, ignores: seq<string>, lefts: seq<Option<nat>>,
                            ds: seq<Decision>, vs: seq<nat>, lives: seq<map<CacheKey, CacheEntry>>, i: int)
  {
    0 <= i < |ds| && i < |vs| && i < |childDirs| && i + 1 < |lives| && i + 1 < |lefts| &&
    lefts[i] != Some(0) &&
    VisitOutcome(snapshot, lives[i], lives[i + 1], ChildKey(canon, root, childDirs[i], showHidden, ignores),
                 scans(childDirs[i]), showHidden, ignores, Consume(lefts[i], 1), ds[i], vs[i]) &&
    lefts[i + 1] == VisitLeft(Consume(lefts[i], 1), ds[i], scans(childDirs[i]))
  }

  lemma {:induction false} VisitsSnoc(snapshot: map<CacheKey, CacheEntry>, canon: Keys.Canon, root: string, childDirs: seq<string>,
                   scans: string -> ChildScan, showHidden: bool, ignores: seq<string>, lefts: seq<Option<nat>>,
                   ds: seq<Decision>, vs: seq<nat>, lives: seq<map<CacheKey, CacheEntry>>,
                   live2: map<CacheKey, CacheEntry>, left2: Option<nat>, d: Decision, v: nat)
    requires Visits(snapshot, canon, root, childDirs, scans, showHidden, ignores, lefts, ds, vs, lives)
    requires |ds| < |childDirs|
    requires VisitedAt(snapshot, canon, root, childDirs, scans, showHidden, ignores, lefts + [left2],
                       ds + [d], vs + [v], lives + [live2], |ds|)
    ensures Visits(snapshot, canon, root, childDirs, scans, showHidden, ignores, lefts + [left2],
                   ds + [d], vs + [v], lives + [live2])
  {
    var ds2, vs2, lives2, lefts2 := ds + [d], vs + [v], lives + [live2], lefts + [left2];
    forall i | 0 <= i < |ds2|
      ensures VisitedAt(snapshot, canon, root, childDirs, scans, showHidden, ignores, lefts2, ds2, vs2, lives2, i)
    {
      if i < |ds| {
        assert VisitedAt(snapshot, canon, root, childDirs, scans, showHidden, ignores, lefts, ds, vs, lives, i);
        assert ds2[i] == ds[i] && vs2[i] == vs[i] && lives2[i] == lives[i] && lives2[i + 1] == lives[i + 1];
        assert lefts2[i] == lefts[i] && lefts2[i + 1] == lefts[i + 1];
      }
    }
  }

  /** Visiting the next child extends the loop's state: a reused child's total
      goes into the totals, a scanned child's into the tasks. */
  lemma {:induction false} ScheduledSnoc(snapshot: map<CacheKey, CacheEntry>, canon: Keys.Canon, root: string, childDirs: seq<string>,
                      scans: string -> ChildScan, showHidden: bool, ignores: seq<string>, lefts: seq<Option<nat>>,
                      ds: seq<Decision>, vs: seq<nat>, lives: seq<map<CacheKey, CacheEntry>>,
                      totals: map<string, nat>, tasks: seq<(string, nat)>,
                      live2: map<CacheKey, CacheEntry>, left2: Option<nat>, d: Decision, v: nat)
    requires Scheduled(snapshot, canon, root, childDirs, scans, showHidden, ignores, lefts, ds, vs, lives, totals, tasks)
    requires |ds| < |childDirs|
    requires VisitedAt(snapshot, canon, root, childDirs, scans, showHidden, ignores, lefts + [left2],
                       ds + [d], vs + [v], lives + [live2], |ds|)
    ensures d.Cached? ==>
      Scheduled(snapshot, canon, root, childDirs, scans, showHidden, ignores, lefts + [left2],
                ds + [d], vs + [v], lives + [live2], totals[childDirs[|ds|] := v], tasks)
    ensures d.Scan? ==>
      Scheduled(snapshot, canon, root, childDirs, scans, showHidden, ignores, lefts + [left2],
                ds + [d], vs + [v], lives + [live2], totals, tasks + [(childDirs[|ds|], v)])
  {
    VisitsSnoc(snapshot, canon, root, childDirs, scans, showHidden, ignores, lefts, ds, vs, lives, live2, left2, d, v);
    SplitTotalsSnoc(childDirs, ds, vs, totals, tasks, d, v);
  }

  /** What one turn of the children loop does to its records, given what the
      visit of the next child did to the cache, the schedule and the event log. */
  lemma {:induction false} ScheduleStep(jobId: string, scanKey: string, snapshot: map<CacheKey, CacheEntry>,
                                        canon: Keys.Canon, root: string, childDirs: seq<string>,
                                        scans: string -> ChildScan, showHidden: bool, ignores: seq<string>,
                                        lefts: seq<Option<nat>>, start: seq<SizerEvent>,
                                        ds: seq<Decision>, vs: seq<nat>, lives: seq<map<CacheKey, CacheEntry>>,
                                        evs: seq<seq<SizerEvent>>, totals: map<string, nat>, tasks: seq<(string, nat)>,
                                        before: seq<SizerEvent>, after: seq<SizerEvent>,
                                        live2: map<CacheKey, CacheEntry>, left2: Option<nat>, d: Decision, v: nat,
                                        totals2: map<string, nat>, tasks2: seq<(string, nat)>)
    requires Scheduled(snapshot, canon, root, childDirs, scans, showHidden, ignores, lefts, ds, vs, lives, totals, tasks)
    requires Emitted(jobId, scanKey, snapshot, canon, root, childDirs, scans, showHidden, ignores, lefts, ds, vs, lives, evs)
    requires |ds| < |childDirs|
    requires totals2 == if d.Cached? then totals[childDirs[|ds|] := v] else totals
    requires tasks2 == if d.Cached? then tasks else tasks + [(childDirs[|ds|], v)]
    requires before == start + Concat(evs)
    requires |before| <= |after| && after[..|before|] == before
    requires VisitedAt(snapshot, canon, root, childDirs, scans, showHidden, ignores, lefts + [left2],
                       ds + [d], vs + [v], lives + [live2], |ds|)
    requires VisitEvents(jobId, scanKey, childDirs[|ds|], snapshot, lives[|ds|],
                         ChildKey(canon, root, childDirs[|ds|], showHidden, ignores), scans(childDirs[|ds|]),
                         showHidden, ignores, Consume(lefts[|ds|], 1), d, after[|before|..])
    ensures Scheduled(snapshot, canon, root, childDirs, scans, showHidden, ignores, lefts + [left2], ds + [d], vs + [v],
                      lives + [live2], totals2, tasks2)
    ensures Emitted(jobId, scanKey, snapshot, canon, root, childDirs, scans, showHidden, ignores, lefts + [left2],
                    ds + [d], vs + [v], lives + [live2], evs + [after[|before|..]])
    ensures after == start + Concat(evs + [after[|before|..]])
  {
    ScheduledSnoc(snapshot, canon, root, childDirs, scans, showHidden, ignores, lefts, ds, vs, lives, totals, tasks,
                  live2, left2, d, v);
    var e := after[|before|..];
    EmittedSnoc(jobId, scanKey, snapshot, canon, root, childDirs, scans, showHidden, ignores, lefts, ds, vs, lives, evs,
                live2, left2, d, v, e);
    LogGrows(start, Concat(evs), before, after);
  }

  /** A log that extends `start + c` is `start + c` followed by its new part. */
  lemma LogGrows(start: seq<SizerEvent>, c: seq<SizerEvent>, before: seq<SizerEvent>, after: seq<SizerEvent>)
    requires before == start + c
    requires |before| <= |after| && after[..|before|] == before
    ensures after == start + (c + after[|before|..])
  {
    assert after == before + after[|before|..];
  }

  lemma {:induction false} SplitTotalsSnoc(childDirs: seq<string>, ds: seq<Decision>, vs: seq<nat>,
                        totals: map<string, nat>, tasks: seq<(string, nat)>, d: Decision, v: nat)
    requires |ds| == |vs| < |childDirs|
    requires totals == Totals.InsertAll(map[], Split(childDirs, ds, vs, true))
    requires tasks == Split(childDirs, ds, vs, false)
    requires totals.Keys + TaskNames(tasks) == Walk.Names(childDirs[..|ds|])
    ensures var name := childDirs[|ds|];
      var totals2 := if d.Cached? then totals[name := v] else totals;
      var tasks2 := if d.Cached? then tasks else tasks + [(name, v)];
      totals2 == Totals.InsertAll(map[], Split(childDirs, ds + [d], vs + [v], true)) &&
      tasks2 == Split(childDirs, ds + [d], vs + [v], false) &&
      totals2.Keys + TaskNames(tasks2) == Walk.Names(childDirs[..|ds| + 1])
  {
    var name := childDirs[|ds|];
    SplitSnoc(childDirs, ds, vs, d, v, true);
    SplitSnoc(childDirs, ds, vs, d, v, false);
    Walk.NamesSnoc(childDirs, |ds|);
    var ps := Split(childDirs, ds, vs, true);
    if d.Cached? {
      InsertAllSnoc(map[], ps, (name, v));
    } else {
      assert Split(childDirs, ds + [d], vs + [v], true) == ps + [] == ps;
      assert TaskNames(tasks + [(name, v)]) == TaskNames(tasks) + {name};
    }
  }

  lemma {:induction false} InsertAllSnoc(m: map<string, nat>, ps: seq<(string, nat)>, p: (string, nat))
    ensures Totals.InsertAll(m, ps + [p]) == Totals.InsertAll(m, ps)[p.0 := p.1]
  {
    assert (ps + [p])[..|ps|] == ps;
  }

  /** No child task the loop ran saw cancellation. */
  ghost predicate Quiet(childDirs: seq<string>, scans: string -> ChildScan, ds: seq<Decision>, lefts: seq<Option<nat>>)
  {
    forall i :: 0 <= i < |ds| ==> QuietAt(childDirs, scans, ds, lefts, i)
  }

  /** Child `i`, when scanned, had a task that did not see cancellation. */
  ghost predicate QuietAt(childDirs: seq<string>, scans: string -> ChildScan, ds: seq<Decision>, lefts: seq<Option<nat>>,
                          i: int)
  {
    0 <= i < |ds| && i < |childDirs| && i < |lefts| &&
    (ds[i].Scan? ==> TaskQuiet(Consume(lefts[i], 1), scans(childDirs[i])))
  }

  lemma {:induction false} QuietSnoc(childDirs: seq<string>, scans: string -> ChildScan, ds: seq<Decision>,
                                     lefts: seq<Option<nat>>, d: Decision, left2: Option<nat>)
    requires Quiet(childDirs, scans, ds, lefts)
    requires |ds| < |childDirs| && |lefts| == |ds| + 1
    requires d.Scan? ==> TaskQuiet(Consume(lefts[|ds|], 1), scans(childDirs[|ds|]))
    ensures Quiet(childDirs, scans, ds + [d], lefts + [left2])
  {
    var ds2, lefts2 := ds + [d], lefts + [left2];
    forall i | 0 <= i < |ds2|
      ensures QuietAt(childDirs, scans, ds2, lefts2, i)
    {
      if i < |ds| {
        assert QuietAt(childDirs, scans, ds, lefts, i);
        assert ds2[i] == ds[i] && lefts2[i] == lefts[i];
      }
    }
  }

  /** The events the children loop emitted for one child: the decision's
      events, followed for a scanned child by the events of its task. */
  ghost predicate VisitEvents(jobId: string, scanKey: string, name: string, snapshot: map<CacheKey, CacheEntry>,
                              live: map<CacheKey, CacheEntry>, key: CacheKey, scan: ChildScan,
                              showHidden: bool, ignores: seq<string>, left: Option<nat>, d: Decision,
                              e: seq<SizerEvent>)
  {
    var decided := DecisionEvents(jobId, scanKey, name, snapshot, live, key);
    (d.Cached? ==> e == decided) &&
    (d.Scan? ==> e == decided + TaskEvents(jobId, scanKey, name, left, scan, showHidden, ignores))
  }

  /** A child task emits nothing when cancellation is seen before it starts,
      otherwise progress events of that child and a last child event with the
      total it reports. */
  lemma TaskEventsShape(jobId: string, scanKey: string, name: string, left: Option<nat>, scan: ChildScan,
                        showHidden: bool, ignores: seq<string>)
    ensures var t := TaskEvents(jobId, scanKey, name, left, scan, showHidden, ignores);
      (left == Some(0) ==> t == [] && TaskBytes(left, scan, showHidden, ignores) == 0) &&
      (left != Some(0) ==>
        |t| > 0 && t[|t| - 1] == Child(jobId, scanKey, name, TaskBytes(left, scan, showHidden, ignores)) &&
        forall j :: 0 <= j < |t| - 1 ==> t[j].Progress? && t[j].name == name)
  {
  }

  /** A child task emits no summary. */
  lemma TaskEventsNoSummary(jobId: string, scanKey: string, name: string, left: Option<nat>, scan: ChildScan,
                            showHidden: bool, ignores: seq<string>, before: seq<SizerEvent>)
    ensures ExtendsWithoutSummary(before, before + TaskEvents(jobId, scanKey, name, left, scan, showHidden, ignores))
  {
    var t := TaskEvents(jobId, scanKey, name, left, scan, showHidden, ignores);
    TaskEventsShape(jobId, scanKey, name, left, scan, showHidden, ignores);
    assert (before + t)[..|before|] == before;
    forall i | |before| <= i < |before + t| ensures !(before + t)[i].Summary? {
      assert (before + t)[i] == t[i - |before|];
    }
  }

  /** The events of the visited children, one after the other. */
  function Concat(evs: seq<seq<SizerEvent>>): seq<SizerEvent>
  {
    if |evs| == 0 then [] else Concat(evs[..|evs| - 1]) + evs[|evs| - 1]
  }

  /** `evs[i]` are the events the loop emitted for child `i`. */
  ghost predicate Emitted(jobId: string, scanKey: string, snapshot: map<CacheKey, CacheEntry>, canon: Keys.Canon,
                          root: string, childDirs: seq<string>, scans: string -> ChildScan, showHidden: bool,
                          ignores: seq<string>, lefts: seq<Option<nat>>, ds: seq<Decision>, vs: seq<nat>,
                          lives: seq<map<CacheKey, CacheEntry>>, evs: seq<seq<SizerEvent>>)
  {
    |evs| == |ds| == |vs| <= |childDirs| && |lives| == |ds| + 1 && |lefts| == |ds| + 1 &&
    forall i :: 0 <= i < |evs| ==>
      EmittedAt(jobId, scanKey, snapshot, canon, root, childDirs, scans, showHidden, ignores, lefts, ds, vs, lives, evs, i)
  }

  /** `evs[i]` are the events emitted for child `i`. */
  ghost predicate EmittedAt(jobId: string, scanKey: string, snapshot: map<CacheKey, CacheEntry>, canon: Keys.Canon,
                            root: string, childDirs: seq<string>, scans: string -> ChildScan, showHidden: bool,
                            ignores: seq<string>, lefts: seq<Option<nat>>, ds: seq<Decision>, vs: seq<nat>,
                            lives: seq<map<CacheKey, CacheEntry>>, evs: seq<seq<SizerEvent>>, i: int)
  {
    0 <= i < |evs| && i < |ds| && i < |vs| && i < |childDirs| && i < |lives| && i < |lefts| &&
    VisitEvents(jobId, scanKey, childDirs[i], snapshot, lives[i], ChildKey(canon, root, childDirs[i], showHidden, ignores),
                scans(childDirs[i]), showHidden, ignores, Consume(lefts[i], 1), ds[i], evs[i])
  }

  lemma {:induction false} EmittedSnoc(jobId: string, scanKey: string, snapshot: map<CacheKey, CacheEntry>,
                                       canon: Keys.Canon, root: string, childDirs: seq<string>,
                                       scans: string -> ChildScan, showHidden: bool, ignores: seq<string>,
                                       lefts: seq<Option<nat>>, ds: seq<Decision>, vs: seq<nat>,
                                       lives: seq<map<CacheKey, CacheEntry>>, evs: seq<seq<SizerEvent>>,
                                       live2: map<CacheKey, CacheEntry>, left2: Option<nat>, d: Decision, v: nat,
                                       e: seq<SizerEvent>)
    requires Emitted(jobId, scanKey, snapshot, canon, root, childDirs, scans, showHidden, ignores, lefts, ds, vs, lives, evs)
    requires |ds| < |childDirs|
    requires VisitEvents(jobId, scanKey, childDirs[|ds|], snapshot, lives[|ds|],
                         ChildKey(canon, root, childDirs[|ds|], showHidden, ignores), scans(childDirs[|ds|]),
                         showHidden, ignores, Consume(lefts[|ds|], 1), d, e)
    ensures Emitted(jobId, scanKey, snapshot, canon, root, childDirs, scans, showHidden, ignores, lefts + [left2],
                    ds + [d], vs + [v], lives + [live2], evs + [e])
    ensures Concat(evs + [e]) == Concat(evs) + e
  {
    var ds2, vs2, lives2, lefts2, evs2 := ds + [d], vs + [v], lives + [live2], lefts + [left2], evs + [e];
    forall i | 0 <= i < |evs2|
      ensures EmittedAt(jobId, scanKey, snapshot, canon, root, childDirs, scans, showHidden, ignores, lefts2,
                        ds2, vs2, lives2, evs2, i)
    {
      if i < |evs| {
        assert EmittedAt(jobId, scanKey, snapshot, canon, root, childDirs, scans, showHidden, ignores, lefts,
                         ds, vs, lives, evs, i);
        EmittedAtKept(jobId, scanKey, snapshot, canon, root, childDirs, scans, showHidden, ignores,
                      lefts, ds, vs, lives, evs, lefts2, ds2, vs2, lives2, evs2, i);
      }
    }
    assert evs2[..|evs|] == evs;
  }

  /** What was emitted for child `i` stays so when the records grow. */
  lemma EmittedAtKept(jobId: string, scanKey: string, snapshot: map<CacheKey, CacheEntry>,
                      canon: Keys.Canon, root: string, childDirs: seq<string>,
                      scans: string -> ChildScan, showHidden: bool, ignores: seq<string>,
                      lefts: seq<Option<nat>>, ds: seq<Decision>, vs: seq<nat>,
                      lives: seq<map<CacheKey, CacheEntry>>, evs: seq<seq<SizerEvent>>,
                      lefts2: seq<Option<nat>>, ds2: seq<Decision>, vs2: seq<nat>,
                      lives2: seq<map<CacheKey, CacheEntry>>, evs2: seq<seq<SizerEvent>>, i: int)
    requires EmittedAt(jobId, scanKey, snapshot, canon, root, childDirs, scans, showHidden, ignores,
                       lefts, ds, vs, lives, evs, i)
    requires i < |evs2| && i < |ds2| && i < |vs2| && i < |lives2| && i < |lefts2|
    requires ds2[i] == ds[i] && lives2[i] == lives[i] && lefts2[i] == lefts[i] && evs2[i] == evs[i]
    ensures EmittedAt(jobId, scanKey, snapshot, canon, root, childDirs, scans, showHidden, ignores,
                      lefts2, ds2, vs2, lives2, evs2, i)
  {
  }

  /** The keys of the children's records. */
  ghost function ChildKeys(canon: Keys.Canon, root: string, names: seq<string>, showHidden: bool, ignores: seq<string>)
    : set<CacheKey>
  {
    set n | n in names :: ChildKey(canon, root, n, showHidden, ignores)
  }

  /** The children loop changes no record but the children's own. */
  lemma {:induction false} VisitsWriteChildKeys(snapshot: map<CacheKey, CacheEntry>, canon: Keys.Canon, root: string,
                                                childDirs: seq<string>, scans: string -> ChildScan, showHidden: bool,
                                                ignores: seq<string>, lefts: seq<Option<nat>>, ds: seq<Decision>,
                                                vs: seq<nat>, lives: seq<map<CacheKey, CacheEntry>>, j: nat)
    requires Visits(snapshot, canon, root, childDirs, scans, showHidden, ignores, lefts, ds, vs, lives)
    requires j < |lives|
    ensures lives[j] - ChildKeys(canon, root, childDirs, showHidden, ignores)
         == snapshot - ChildKeys(canon, root, childDirs, showHidden, ignores)
  {
    if j > 0 {
      var keys := ChildKeys(canon, root, childDirs, showHidden, ignores);
      VisitsWriteChildKeys(snapshot, canon, root, childDirs, scans, showHidden, ignores, lefts, ds, vs, lives, j - 1);
      var key := ChildKey(canon, root, childDirs[j - 1], showHidden, ignores);
      assert key in keys;
      assert VisitedAt(snapshot, canon, root, childDirs, scans, showHidden, ignores, lefts, ds, vs, lives, j - 1);
      VisitWritesOwnKey(snapshot, lives[j - 1], lives[j], key, scans(childDirs[j - 1]), showHidden, ignores,
                        Consume(lefts[j - 1], 1), ds[j - 1], vs[j - 1]);
      OwnKeyOutside(lives[j - 1], lives[j], key, keys);
    }
  }

  lemma OwnKeyOutside(live: map<CacheKey, CacheEntry>, live2: map<CacheKey, CacheEntry>, key: CacheKey,
                      keys: set<CacheKey>)
    requires key in keys
    requires live2 == live || (key in live2 && live2 == live[key := live2[key]])
    ensures live2 - keys == live - keys
  {
  }

  /** A visit writes at most the child's own record. */
  lemma VisitWritesOwnKey(snapshot: map<CacheKey, CacheEntry>, live: map<CacheKey, CacheEntry>,
                          live2: map<CacheKey, CacheEntry>, key: CacheKey, scan: ChildScan,
                          showHidden: bool, ignores: seq<string>, left: Option<nat>, d: Decision, v: nat)
    requires VisitOutcome(snapshot, live, live2, key, scan, showHidden, ignores, left, d, v)
    ensures live2 == live || (key in live2 && live2 == live[key := live2[key]])
  {
  }

  /** The (name, total) pairs of the reused children (`cached`) or of the
      scanned ones, in the order of the children. */
  function Split(names: seq<string>, ds: seq<Decision>, vs: seq<nat>, cached: bool): seq<(string, nat)>
    requires |ds| == |vs| <= |names|
  {
    if |ds| == 0 then []
    else
      var i := |ds| - 1;
      Split(names, ds[..i], vs[..i], cached) + (if ds[i].Cached? == cached then [(names[i], vs[i])] else [])
  }

  /** `v` is the total counted for some child named `n`. */
  ghost predicate Counted(n: string, v: nat, names: seq<string>, vs: seq<nat>)
  {
    exists i :: 0 <= i < |vs| && i < |names| && names[i] == n && vs[i] == v
  }

  /** Each pair names some child with the total counted for it. */
  ghost predicate PairsFrom(ps: seq<(string, nat)>, names: seq<string>, vs: seq<nat>)
  {
    forall j :: 0 <= j < |ps| ==> Counted(ps[j].0, ps[j].1, names, vs)
  }

  /** Each collected total is the total counted for some child of that name. */
  ghost predicate CollectedFrom(m: map<string, nat>, names: seq<string>, vs: seq<nat>)
  {
    forall n :: n in m ==> Counted(n, m[n], names, vs)
  }

  lemma {:induction false} SplitFrom(names: seq<string>, ds: seq<Decision>, vs: seq<nat>, cached: bool)
    requires |ds| == |vs| <= |names|
    ensures PairsFrom(Split(names, ds, vs, cached), names, vs)
  {
    if |ds| > 0 {
      var i := |ds| - 1;
      SplitFrom(names, ds[..i], vs[..i], cached);
      var p := Split(names, ds[..i], vs[..i], cached);
      var ps := Split(names, ds, vs, cached);
      forall j | 0 <= j < |ps|
        ensures Counted(ps[j].0, ps[j].1, names, vs)
      {
        if j < |p| {
          assert Counted(p[j].0, p[j].1, names, vs[..i]);
          var l :| 0 <= l < |vs[..i]| && l < |names| && names[l] == p[j].0 && vs[..i][l] == p[j].1;
          assert vs[l] == ps[j].1;
        } else {
          assert names[i] == ps[j].0 && vs[i] == ps[j].1;
        }
      }
    }
  }

  lemma {:induction false} SplitSnoc(names: seq<string>, ds: seq<Decision>, vs: seq<nat>, d: Decision, v: nat, cached: bool)
    requires |ds| == |vs| < |names|
    ensures Split(names, ds + [d], vs + [v], cached)
         == Split(names, ds, vs, cached) + (if d.Cached? == cached then [(names[|ds|], v)] else [])
  {
    assert (ds + [d])[..|ds|] == ds && (vs + [v])[..|vs|] == vs;
  }

  /** Inserting pairs that each name a child with its counted total keeps every
      total one counted for a child of that name. */
  lemma {:induction false} InsertAllFrom(m: map<string, nat>, ps: seq<(string, nat)>, names: seq<string>, vs: seq<nat>)
    requires CollectedFrom(m, names, vs) && PairsFrom(ps, names, vs)
    ensures CollectedFrom(Totals.InsertAll(m, ps), names, vs)
  {
    if |ps| > 0 {
      var p := ps[..|ps| - 1];
      PairsFromPrefix(ps, names, vs, |ps| - 1);
      InsertAllFrom(m, p, names, vs);
      assert Counted(ps[|ps| - 1].0, ps[|ps| - 1].1, names, vs);
    }
  }

  lemma {:induction false} PairsFromPrefix(ps: seq<(string, nat)>, names: seq<string>, vs: seq<nat>, m: nat)
    requires PairsFrom(ps, names, vs) && m <= |ps|
    ensures PairsFrom(ps[..m], names, vs)
  {
    forall j | 0 <= j < m
      ensures Counted(ps[..m][j].0, ps[..m][j].1, names, vs)
    {
      assert ps[..m][j] == ps[j];
    }
  }

  /** Every child total the worker sums is that of a visited child of the same
      name: decided against the snapshot and the cache as it then was, no
      larger than the total the decision stands for, and exactly that one when
      no child task saw cancellation. */
  lemma {:induction false} ChildTotalsMatchDecisions(snapshot: map<CacheKey, CacheEntry>, canon: Keys.Canon, root: string,
                                  childDirs: seq<string>, scans: string -> ChildScan, showHidden: bool,
                                  ignores: seq<string>, lefts: seq<Option<nat>>, ds: seq<Decision>, vs: seq<nat>,
                                  lives: seq<map<CacheKey, CacheEntry>>, m: map<string, nat>)
    requires Visits(snapshot, canon, root, childDirs, scans, showHidden, ignores, lefts, ds, vs, lives)
    requires CollectedFrom(m, childDirs, vs)
    ensures forall n :: n in m ==>
      exists i :: (0 <= i < |ds| && childDirs[i] == n &&
        ds[i] == Decide(snapshot, lives[i], ChildKey(canon, root, n, showHidden, ignores)) &&
        m[n] <= Expected(ds[i], scans(n), showHidden, ignores) &&
        (Quiet(childDirs, scans, ds, lefts) ==> m[n] == Expected(ds[i], scans(n), showHidden, ignores)))
  {
    forall n | n in m
      ensures exists i :: (0 <= i < |ds| && childDirs[i] == n &&
        ds[i] == Decide(snapshot, lives[i], ChildKey(canon, root, n, showHidden, ignores)) &&
        m[n] <= Expected(ds[i], scans(n), showHidden, ignores) &&
        (Quiet(childDirs, scans, ds, lefts) ==> m[n] == Expected(ds[i], scans(n), showHidden, ignores)))
    {
      assert Counted(n, m[n], childDirs, vs);
      var i :| 0 <= i < |vs| && i < |childDirs| && childDirs[i] == n && vs[i] == m[n];
      assert VisitedAt(snapshot, canon, root, childDirs, scans, showHidden, ignores, lefts, ds, vs, lives, i);
      VisitOutcomeBound(snapshot, lives[i], lives[i + 1], ChildKey(canon, root, n, showHidden, ignores),
                        scans(n), showHidden, ignores, Consume(lefts[i], 1), ds[i], vs[i]);
      if Quiet(childDirs, scans, ds, lefts) {
        assert QuietAt(childDirs, scans, ds, lefts, i);
      }
    }
  }

  class ScanWorker {
    /** `SIZE_CACHE`. */
    const sizeCache: Cache.SizeCache
    /** `JOBS`, keyed by scan key. */
    var jobs: map<string, Job>
    /** The events emitted so far. */
    var events: seq<SizerEvent>

    constructor (sizeCache: Cache.SizeCache)
      ensures this.sizeCache == sizeCache && jobs == map[] && events == []
    {
      this.sizeCache := sizeCache;
      jobs, events := map[], [];
    }

    /** Registers the job of a new scan: a job already registered under the
        scan key is removed and cancelled, then a job with a fresh flag takes
        its place. `visibleAfter` is the environment's schedule for the new flag.
        Returns the new job's flag, which the worker shares. */
    method ReplaceJob(canon: Keys.Canon, path: string, showHidden: bool, ignores: seq<string>,
                      visibleAfter: Option<nat>)
      returns (token: CancelToken)
      modifies this`jobs
      modifies if Keys.ScanKey(path, showHidden, ignores) in jobs
        then {jobs[Keys.ScanKey(path, showHidden, ignores)].cancel} else {}
      ensures var scanKey := Keys.ScanKey(path, showHidden, ignores);
        jobs == old(jobs)[scanKey := Job(Keys.MakeCacheKey(canon, path, showHidden, ignores), token)] &&
        (scanKey in old(jobs) ==> old(jobs)[scanKey].cancel.canceled)
      ensures fresh(token) && !token.canceled && token.visibleAfter == visibleAfter
    {
      var scanKey := Keys.ScanKey(path, showHidden, ignores);
      if scanKey in jobs {
        var previous := jobs[scanKey];
        jobs := jobs - {scanKey};
        previous.cancel.Store();
      }
      token := new CancelToken(visibleAfter);
      jobs := jobs[scanKey := Job(Keys.MakeCacheKey(canon, path, showHidden, ignores), token)];
    }

    /** One entry of a child scan: a counted file is added to the sum, and a
        progress event with the new sum is emitted when a trigger holds. */
    method CountEntry(jobId: string, scanKey: string, name: string, showHidden: bool, ignores: seq<string>,
                      th: Throttle, e: Walk.WalkEntry)
      returns (next: Throttle)
      modifies this`events
      ensures next == ThrottleStep(th, e, showHidden, ignores)
      ensures events == old(events) + (if Emits(th, e, showHidden, ignores) then [Progress(jobId, scanKey, name, next.sum)] else [])
    {
      next := th;
      if !Keys.ShouldSkip(e.name, showHidden, ignores) {
        if e.isFile && e.len.Some? {
          var sum := SatAdd(th.sum, e.len.value);
          var files := th.files + 1;
          var dueTime := e.at - th.lastAt >= DUE_MS;
          var bigJump := SatSub(sum, th.lastBytes) >= BIG_JUMP;
          var manyFiles := files >= MANY_FILES;
          if dueTime || bigJump || manyFiles {
            events := events + [Progress(jobId, scanKey, name, sum)];
            next := Throttle(sum, e.at, sum, 0);
          } else {
            next := Throttle(sum, th.lastAt, th.lastBytes, files);
          }
        }
      }
    }

    /** The walk loop of a child scan: stops at the first entry for which
        cancellation is seen and reports throttled progress of the counted
        files before it. Returns the throttle state and whether it stopped early. */
    method ScanEntries(jobId: string, scanKey: string, name: string, showHidden: bool, ignores: seq<string>,
                       walk: seq<Walk.WalkEntry>, start: int, token: CancelToken)
      returns (th: Throttle, canceled: bool)
      modifies this`events, token
      ensures var k := Budget(old(token.LoadsLeft()), |walk|);
        var tr := Trace(walk[..k], showHidden, ignores, start);
        th == tr.th && (canceled <==> k < |walk|) && (canceled ==> token.canceled) &&
        events == old(events) + ProgressEvents(jobId, scanKey, name, tr.reported) &&
        token.LoadsLeft() == Consume(old(token.LoadsLeft()), if k < |walk| then k + 1 else k)
      ensures old(token.canceled) ==> token.canceled
    {
      ghost var left := token.LoadsLeft();
      th := StartThrottle(start);
      ghost var reported: seq<u64> := [];
      canceled := false;
      var i := 0;
      while i < |walk|
        invariant 0 <= i <= |walk|
        invariant left.None? || i <= left.value
        invariant token.LoadsLeft() == Consume(left, i)
        invariant old(token.canceled) ==> token.canceled
        invariant ScanTrace(th, reported) == Trace(walk[..i], showHidden, ignores, start)
        invariant events == old(events) + ProgressEvents(jobId, scanKey, name, reported)
        invariant !canceled
      {
        var c := token.Load();
        if c {
          canceled := true;
          break;
        }
        TraceSnoc(walk, i, showHidden, ignores, start);
        ghost var emits := Emits(th, walk[i], showHidden, ignores);
        th := CountEntry(jobId, scanKey, name, showHidden, ignores, th, walk[i]);
        if emits {
          ProgressEventsSnoc(jobId, scanKey, name, reported, th.sum);
          reported := reported + [th.sum];
        }
        i := i + 1;
      }
      assert Budget(left, |walk|) == i;
    }

    /** The blocking scan of one child: the walk loop, then the final flush of
        the sum when it was not the last report. Returns the sum and whether
        the walk ran to its end. */
    method ScanChild(jobId: string, scanKey: string, name: string, showHidden: bool, ignores: seq<string>,
                     walk: seq<Walk.WalkEntry>, start: int, token: CancelToken)
      returns (bytes: u64, finished: bool)
      modifies this`events, token
      ensures var k := Budget(old(token.LoadsLeft()), |walk|);
        bytes == Walk.WalkBytes(walk[..k], showHidden, ignores) &&
        (finished <==> k == |walk|) && (!finished ==> token.canceled) &&
        events == old(events) + ProgressEvents(jobId, scanKey, name, Flushed(Trace(walk[..k], showHidden, ignores, start))) &&
        token.LoadsLeft() == Consume(old(token.LoadsLeft()), if k < |walk| then k + 1 else k)
      ensures old(token.canceled) ==> token.canceled
    {
      ghost var k := Budget(token.LoadsLeft(), |walk|);
      ghost var tr := Trace(walk[..k], showHidden, ignores, start);
      var th, canceled := ScanEntries(jobId, scanKey, name, showHidden, ignores, walk, start, token);
      TraceSum(walk[..k], showHidden, ignores, start);
      if th.lastBytes != th.sum {
        ProgressEventsSnoc(jobId, scanKey, name, tr.reported, th.sum);
        events := events + [Progress(jobId, scanKey, name, th.sum)];
      } else {
        assert Flushed(tr) == tr.reported;
      }
      bytes, finished := th.sum, !canceled;
    }

    /** One spawned child task: if cancellation is seen before it starts it
        reports 0 and does nothing else; otherwise it scans the child (a failed
        scan counts as 0 bytes, unfinished), records the result in the cache,
        complete exactly when the scan ran to its end, and emits the child event. */
    method ChildTask(jobId: string, scanKey: string, childKey: CacheKey, name: string,
                     showHidden: bool, ignores: seq<string>, scan: ChildScan, token: CancelToken)
      returns (bytes: u64)
      modifies this`events, sizeCache`entries, token
      ensures bytes == TaskBytes(old(token.LoadsLeft()), scan, showHidden, ignores)
      ensures sizeCache.entries == TaskCache(old(sizeCache.entries), childKey, old(token.LoadsLeft()), scan, showHidden, ignores)
      ensures events == old(events) + TaskEvents(jobId, scanKey, name, old(token.LoadsLeft()), scan, showHidden, ignores)
      ensures token.LoadsLeft() == TaskLeft(old(token.LoadsLeft()), scan)
      ensures old(token.LoadsLeft()) == Some(0) ==> token.canceled
      ensures !token.canceled ==> TaskQuiet(old(token.LoadsLeft()), scan)
      ensures old(token.canceled) ==> token.canceled
    {
      var c := token.Load();
      if c {
        return 0;
      }
      var finished: bool;
      if scan.joined {
        bytes, finished := ScanChild(jobId, scanKey, name, showHidden, ignores, scan.walk, scan.start, token);
      } else {
        bytes, finished := 0, false;
      }
      sizeCache.entries := sizeCache.entries[childKey := CacheEntry(bytes, 0, finished)];
      events := events + [Child(jobId, scanKey, name, bytes)];
    }

    /** The cache decision for one child: emits the decision's events and says
        whether the child is reused (with its size) or must be scanned. */
    method DecideChild(jobId: string, scanKey: string, name: string, key: CacheKey,
                       snapshot: map<CacheKey, CacheEntry>)
      returns (d: Decision)
      modifies this`events
      ensures d == Decide(snapshot, sizeCache.entries, key)
      ensures events == old(events) + DecisionEvents(jobId, scanKey, name, snapshot, sizeCache.entries, key)
      ensures ExtendsWithoutSummary(old(events), events)
    {
      if key in snapshot {
        var entry := snapshot[key];
        if entry.completed {
          events := events + [Child(jobId, scanKey, name, entry.bytes)];
          return Cached(entry.bytes);
        } else if entry.bytes > 0 {
          events := events + [Progress(jobId, scanKey, name, entry.bytes)];
        }
      }
      var skipScan := false;
      var cachedBytes := 0;
      if key in sizeCache.entries {
        var entry := sizeCache.entries[key];
        if entry.completed {
          skipScan := true;
          cachedBytes := entry.bytes;
        } else if entry.bytes > 0 {
          events := events + [Progress(jobId, scanKey, name, entry.bytes)];
        }
      }
      if skipScan {
        events := events + [Child(jobId, scanKey, name, cachedBytes)];
        return Cached(cachedBytes);
      }
      d := Scan;
    }

    /** One child before the scan limit: the cache decision, then, for a child
        to scan, its task. Returns the decision and the child's bytes. */
    method VisitChild(jobId: string, scanKey: string, childKey: CacheKey, name: string,
                      showHidden: bool, ignores: seq<string>, snapshot: map<CacheKey, CacheEntry>,
                      scan: ChildScan, token: CancelToken)
      returns (d: Decision, bytes: nat)
      modifies this`events, sizeCache`entries, token
      ensures VisitOutcome(snapshot, old(sizeCache.entries), sizeCache.entries, childKey, scan, showHidden, ignores,
                           old(token.LoadsLeft()), d, bytes)
      ensures ExtendsWithoutSummary(old(events), events)
      ensures VisitEvents(jobId, scanKey, name, snapshot, old(sizeCache.entries), childKey, scan, showHidden, ignores,
                          old(token.LoadsLeft()), d, events[|old(events)|..])
      ensures token.LoadsLeft() == VisitLeft(old(token.LoadsLeft()), d, scan)
      ensures !token.canceled && d.Scan? ==> TaskQuiet(old(token.LoadsLeft()), scan)
      ensures old(token.canceled) ==> token.canceled
    {
      ghost var left := token.LoadsLeft();
      d := DecideChild(jobId, scanKey, name, childKey, snapshot);
      if d.Cached? {
        bytes := d.bytes;
        assert events[|old(events)|..] == DecisionEvents(jobId, scanKey, name, snapshot, old(sizeCache.entries), childKey);
      } else {
        ghost var middle := events;
        bytes := ChildTask(jobId, scanKey, childKey, name, showHidden, ignores, scan, token);
        TaskEventsNoSummary(jobId, scanKey, name, left, scan, showHidden, ignores, middle);
        ExtendsWithoutSummaryTrans(old(events), middle, events);
        assert events[|old(events)|..] == DecisionEvents(jobId, scanKey, name, snapshot, old(sizeCache.entries), childKey)
          + TaskEvents(jobId, scanKey, name, left, scan, showHidden, ignores);
      }
    }

    /** The loop over the child directories: stops at the first child for
        which cancellation is seen; reuses or scans each child before that,
        the reused ones going straight into `totals` and the scanned ones
        into `tasks` as `(name, bytes)`. The ghost results record what the
        loop did to each child it visited. */
    method ScheduleChildren(jobId: string, scanKey: string, canon: Keys.Canon, root: string,
                            childDirs: seq<string>, showHidden: bool, ignores: seq<string>,
                            scans: string -> ChildScan, token: CancelToken)
      returns (totals: map<string, nat>, tasks: seq<(string, nat)>,
               ghost ds: seq<Decision>, ghost vs: seq<nat>, ghost lives: seq<map<CacheKey, CacheEntry>>,
               ghost lefts: seq<Option<nat>>, ghost evs: seq<seq<SizerEvent>>)
      modifies this`events, sizeCache`entries, token
      ensures Visits(old(sizeCache.entries), canon, root, childDirs, scans, showHidden, ignores, lefts, ds, vs, lives)
      ensures Emitted(jobId, scanKey, old(sizeCache.entries), canon, root, childDirs, scans, showHidden, ignores,
                      lefts, ds, vs, lives, evs)
      ensures lefts[0] == old(token.LoadsLeft()) && token.LoadsLeft() == lefts[|ds|]
      ensures events == old(events) + Concat(evs)
      ensures sizeCache.entries == lives[|ds|]
      ensures totals == Totals.InsertAll(map[], Split(childDirs, ds, vs, true))
      ensures tasks == Split(childDirs, ds, vs, false)
      ensures totals.Keys + TaskNames(tasks) == Walk.Names(childDirs[..|ds|])
      ensures |ds| < |childDirs| ==> token.canceled && lefts[|ds|] == Some(0)
      ensures !token.canceled ==> Quiet(childDirs, scans, ds, lefts)
      ensures old(token.canceled) ==> token.canceled
      ensures ExtendsWithoutSummary(old(events), events)
      ensures old(token.LoadsLeft()).None? ==> |ds| == |childDirs| && token.LoadsLeft().None?
      ensures old(token.LoadsLeft()) == Some(0) ==> ds == [] && events == old(events)
    {
      totals, tasks := map[], [];
      var snapshot := sizeCache.entries;
      ds, vs, lives, lefts, evs := [], [], [snapshot], [token.LoadsLeft()], [];
      var i := 0;
      while i < |childDirs|
        invariant i <= |childDirs| && |ds| == i
        invariant Scheduled(snapshot, canon, root, childDirs, scans, showHidden, ignores, lefts, ds, vs, lives, totals, tasks)
        invariant Emitted(jobId, scanKey, snapshot, canon, root, childDirs, scans, showHidden, ignores, lefts, ds, vs, lives, evs)
        invariant lefts[0] == old(token.LoadsLeft()) && token.LoadsLeft() == lefts[i]
        invariant events == old(events) + Concat(evs)
        invariant sizeCache.entries == lives[i]
        invariant !token.canceled ==> Quiet(childDirs, scans, ds, lefts)
        invariant old(token.canceled) ==> token.canceled
        invariant ExtendsWithoutSummary(old(events), events)
        invariant token.LoadsLeft().None? <==> old(token.LoadsLeft()).None?
        invariant old(token.LoadsLeft()) == Some(0) ==> i == 0 && events == old(events)
      {
        var c := token.Load();
        if c {
          break;
        }
        ghost var before := events;
        totals, tasks, ds, vs, lives, lefts, evs :=
          ScheduleChild(jobId, scanKey, canon, root, childDirs, showHidden, ignores, scans, token, snapshot, i,
                        old(events), totals, tasks, ds, vs, lives, lefts, evs);
        ExtendsWithoutSummaryTrans(old(events), before, events);
        i := i + 1;
      }
    }

    /** One turn of the children loop, once the flag was found down: visits
        child `i` and files its total under `totals` or `tasks`. */
    method ScheduleChild(jobId: string, scanKey: string, canon: Keys.Canon, root: string,
                         childDirs: seq<string>, showHidden: bool, ignores: seq<string>,
                         scans: string -> ChildScan, token: CancelToken, snapshot: map<CacheKey, CacheEntry>,
                         i: nat, ghost start: seq<SizerEvent>,
                         totals: map<string, nat>, tasks: seq<(string, nat)>,
                         ghost ds: seq<Decision>, ghost vs: seq<nat>, ghost lives: seq<map<CacheKey, CacheEntry>>,
                         ghost lefts: seq<Option<nat>>, ghost evs: seq<seq<SizerEvent>>)
      returns (totals2: map<string, nat>, tasks2: seq<(string, nat)>,
               ghost ds2: seq<Decision>, ghost vs2: seq<nat>, ghost lives2: seq<map<CacheKey, CacheEntry>>,
               ghost lefts2: seq<Option<nat>>, ghost evs2: seq<seq<SizerEvent>>)
      requires i == |ds| < |childDirs|
      requires Scheduled(snapshot, canon, root, childDirs, scans, showHidden, ignores, lefts, ds, vs, lives, totals, tasks)
      requires Emitted(jobId, scanKey, snapshot, canon, root, childDirs, scans, showHidden, ignores, lefts, ds, vs, lives, evs)
      requires sizeCache.entries == lives[|ds|]
      requires events == start + Concat(evs)
      requires lefts[|ds|] != Some(0) && token.LoadsLeft() == Consume(lefts[|ds|], 1)
      requires !token.canceled && Quiet(childDirs, scans, ds, lefts)
      modifies this`events, sizeCache`entries, token
      ensures |ds2| == |ds| + 1 && lefts2 == lefts + [token.LoadsLeft()]
      ensures Scheduled(snapshot, canon, root, childDirs, scans, showHidden, ignores, lefts2, ds2, vs2, lives2, totals2, tasks2)
      ensures Emitted(jobId, scanKey, snapshot, canon, root, childDirs, scans, showHidden, ignores, lefts2, ds2, vs2, lives2, evs2)
      ensures sizeCache.entries == lives2[|ds2|]
      ensures events == start + Concat(evs2)
      ensures !token.canceled ==> Quiet(childDirs, scans, ds2, lefts2)
      ensures ExtendsWithoutSummary(old(events), events)
      ensures token.LoadsLeft().None? <==> lefts[|ds|].None?
    {
      var name := childDirs[i];
      var childKey := ChildKey(canon, root, name, showHidden, ignores);
      var d, bytes := VisitChild(jobId, scanKey, childKey, name, showHidden, ignores, snapshot, scans(name), token);
      totals2 := if d.Cached? then totals[name := bytes] else totals;
      tasks2 := if d.Cached? then tasks else tasks + [(name, bytes)];
      ds2, vs2, lives2, lefts2 := ds + [d], vs + [bytes], lives + [sizeCache.entries], lefts + [token.LoadsLeft()];
      evs2 := evs + [events[|old(events)|..]];
      assert VisitedAt(snapshot, canon, root, childDirs, scans, showHidden, ignores, lefts2, ds2, vs2, lives2, i);
      ScheduleStep(jobId, scanKey, snapshot, canon, root, childDirs, scans, showHidden, ignores, lefts, start,
                   ds, vs, lives, evs, totals, tasks, old(events), events, sizeCache.entries, token.LoadsLeft(),
                   d, bytes, totals2, tasks2);
      if !token.canceled {
        QuietSnoc(childDirs, scans, ds, lefts, d, token.LoadsLeft());
      }
    }

    /** The end of the worker: when cancellation is seen, the job is dropped
        and nothing else happens; otherwise the root's total (its own files
        plus every child total) is cached as complete, reported as the
        summary, and the job is dropped. The job dropped is whatever job is
        registered under the scan key. */
    method Finish(jobId: string, scanKey: string, cacheKey: CacheKey, rootTotal: u64,
                  totals: map<string, nat>, token: CancelToken)
      returns (ghost summarized: bool)
      modifies this`jobs, this`events, sizeCache`entries, token
      ensures jobs == old(jobs) - {scanKey}
      ensures summarized <==> !token.canceled
      ensures old(token.canceled) ==> token.canceled
      ensures old(token.LoadsLeft()).None? ==> summarized
      ensures old(token.LoadsLeft()) == Some(0) ==> !summarized
      ensures !summarized ==> events == old(events) && sizeCache.entries == old(sizeCache.entries)
      ensures summarized ==>
        var total := rootTotal + Totals.MapSum(totals);
        sizeCache.entries == old(sizeCache.entries)[cacheKey := CacheEntry(total, 0, true)] &&
        events == old(events) + [Summary(jobId, scanKey, total)]
    {
      var c := token.Load();
      if c {
        jobs := jobs - {scanKey};
        return false;
      }
      var childSum := Totals.SumValues(totals);
      var total := rootTotal + childSum;
      sizeCache.entries := sizeCache.entries[cacheKey := CacheEntry(total, 0, true)];
      events := events + [Summary(jobId, scanKey, total)];
      jobs := jobs - {scanKey};
      summarized := true;
    }

    /** The children loop followed by the collect loop: the child totals the
        summary adds up, each one counted for a visited child of that name.
        When cancellation is not seen, every child was visited, none of their
        tasks saw cancellation, and every child has its total. */
    method ProcessChildren(jobId: string, scanKey: string, canon: Keys.Canon, root: string,
                           childDirs: seq<string>, showHidden: bool, ignores: seq<string>,
                           scans: string -> ChildScan, token: CancelToken)
      returns (collected: map<string, nat>,
               ghost ds: seq<Decision>, ghost vs: seq<nat>, ghost lives: seq<map<CacheKey, CacheEntry>>,
               ghost lefts: seq<Option<nat>>, ghost evs: seq<seq<SizerEvent>>)
      modifies this`events, sizeCache`entries, token
      ensures Visits(old(sizeCache.entries), canon, root, childDirs, scans, showHidden, ignores, lefts, ds, vs, lives)
      ensures Emitted(jobId, scanKey, old(sizeCache.entries), canon, root, childDirs, scans, showHidden, ignores,
                      lefts, ds, vs, lives, evs)
      ensures lefts[0] == old(token.LoadsLeft())
      ensures events == old(events) + Concat(evs)
      ensures sizeCache.entries == lives[|ds|]
      ensures CollectedFrom(collected, childDirs, vs)
      ensures ExtendsWithoutSummary(old(events), events)
      ensures old(token.canceled) ==> token.canceled
      ensures !token.canceled ==>
        |ds| == |childDirs| && collected.Keys == Walk.Names(childDirs) && Quiet(childDirs, scans, ds, lefts)
      ensures old(token.LoadsLeft()).None? ==> token.LoadsLeft().None?
      ensures old(token.LoadsLeft()) == Some(0) ==>
        ds == [] && events == old(events) && token.LoadsLeft() == Some(0)
    {
      var totals, tasks;
      totals, tasks, ds, vs, lives, lefts, evs := ScheduleChildren(jobId, scanKey, canon, root, childDirs, showHidden, ignores, scans, token);
      var m;
      collected, m := Totals.Collect(tasks, totals, token);
      SplitFrom(childDirs, ds, vs, true);
      InsertAllFrom(map[], Split(childDirs, ds, vs, true), childDirs, vs);
      SplitFrom(childDirs, ds, vs, false);
      PairsFromPrefix(tasks, childDirs, vs, m);
      InsertAllFrom(totals, tasks[..m], childDirs, vs);
      if !token.canceled {
        assert childDirs[..|ds|] == childDirs && tasks[..m] == tasks;
        Totals.InsertAllDomain(totals, tasks);
      }
    }

    /** The spawned worker of `ensure_path_sizer`, run with the flag
        `ReplaceJob` returned: the root pass, then `Conclude`. Whatever job is
        registered under the scan key is dropped. Exactly when cancellation was
        not seen, the last event is the summary, whose children are the totals
        counted for the visited children, and the root's record is complete;
        otherwise only the children's records may have changed. When
        cancellation is not seen, the summary covers the root's own files and
        every child directory, and no child task saw cancellation (always so
        when the flag is never raised); when the flag was already raised,
        nothing is emitted or cached. */
    method RunWorker(jobId: string, canon: Keys.Canon, path: string, showHidden: bool, ignores: seq<string>,
                     root: Result<seq<Walk.RootEntry>>, scans: string -> ChildScan, token: CancelToken)
      returns (ghost rootTotal: u64, ghost childDirs: seq<string>, ghost childTotals: map<string, nat>,
               ghost ds: seq<Decision>, ghost vs: seq<nat>, ghost lives: seq<map<CacheKey, CacheEntry>>,
               ghost lefts: seq<Option<nat>>, ghost evs: seq<seq<SizerEvent>>)
      modifies this`jobs, this`events, sizeCache`entries, token
      ensures jobs == old(jobs) - {Keys.ScanKey(path, showHidden, ignores)}
      ensures |events| >= |old(events)| && events[..|old(events)|] == old(events)
      ensures SummaryAfter(old(events), events) <==> !token.canceled
      ensures Visits(old(sizeCache.entries), canon, path, childDirs, scans, showHidden, ignores, lefts, ds, vs, lives)
      ensures root.Err? ==> childDirs == [] && rootTotal == 0 && lefts[0] == old(token.LoadsLeft())
      ensures root.Ok? ==>
        var k := Budget(old(token.LoadsLeft()), |root.value|);
        childDirs == Walk.ChildDirs(root.value[..k], showHidden, ignores) &&
        rootTotal == Walk.RootFilesTotal(root.value[..k], showHidden, ignores) &&
        lefts[0] == Consume(old(token.LoadsLeft()), if k < |root.value| then k + 1 else k)
      ensures Emitted(jobId, Keys.ScanKey(path, showHidden, ignores), old(sizeCache.entries), canon, path, childDirs,
                      scans, showHidden, ignores, lefts, ds, vs, lives, evs)
      ensures CollectedFrom(childTotals, childDirs, vs)
      ensures token.canceled ==> events == old(events) + Concat(evs)
      ensures token.canceled ==>
        sizeCache.entries - ChildKeys(canon, path, childDirs, showHidden, ignores)
          == old(sizeCache.entries) - ChildKeys(canon, path, childDirs, showHidden, ignores)
      ensures !token.canceled ==>
        var total := rootTotal + Totals.MapSum(childTotals);
        var cacheKey := Keys.MakeCacheKey(canon, path, showHidden, ignores);
        events == old(events) + Concat(evs) + [Summary(jobId, Keys.ScanKey(path, showHidden, ignores), total)] &&
        sizeCache.entries == lives[|ds|][cacheKey := CacheEntry(total, 0, true)]
      ensures !token.canceled ==>
        childDirs == (if root.Ok? then Walk.ChildDirs(root.value, showHidden, ignores) else []) &&
        rootTotal == (if root.Ok? then Walk.RootFilesTotal(root.value, showHidden, ignores) else 0) &&
        |ds| == |childDirs| && childTotals.Keys == Walk.Names(childDirs) && Quiet(childDirs, scans, ds, lefts)
      ensures old(token.LoadsLeft()).None? ==> !token.canceled
      ensures old(token.LoadsLeft()) == Some(0) ==>
        events == old(events) && sizeCache.entries == old(sizeCache.entries)
    {
      var scanKey := Keys.ScanKey(path, showHidden, ignores);
      var cacheKey := Keys.MakeCacheKey(canon, path, showHidden, ignores);
      ghost var left := token.LoadsLeft();
      var dirs, rootFiles := RootPass(root, showHidden, ignores, token);
      rootTotal, childDirs := rootFiles, dirs;
      if root.Ok? {
        if Budget(left, |root.value|) == |root.value| {
          assert root.value[..|root.value|] == root.value;
        } else if left == Some(0) {
          assert root.value[..0] == [];
        }
      }
      childTotals, ds, vs, lives, lefts, evs :=
        Conclude(jobId, scanKey, cacheKey, canon, path, dirs, rootFiles, showHidden, ignores, scans, token);
    }

    /** The children, the collect loop and the end of the worker, given the
        root pass's results. */
    method Conclude(jobId: string, scanKey: string, cacheKey: CacheKey, canon: Keys.Canon, path: string,
                    childDirs: seq<string>, rootTotal: u64, showHidden: bool, ignores: seq<string>,
                    scans: string -> ChildScan, token: CancelToken)
      returns (ghost childTotals: map<string, nat>,
               ghost ds: seq<Decision>, ghost vs: seq<nat>, ghost lives: seq<map<CacheKey, CacheEntry>>,
               ghost lefts: seq<Option<nat>>, ghost evs: seq<seq<SizerEvent>>)
      modifies this`jobs, this`events, sizeCache`entries, token
      ensures jobs == old(jobs) - {scanKey}
      ensures |events| >= |old(events)| && events[..|old(events)|] == old(events)
      ensures SummaryAfter(old(events), events) <==> !token.canceled
      ensures Visits(old(sizeCache.entries), canon, path, childDirs, scans, showHidden, ignores, lefts, ds, vs, lives)
      ensures Emitted(jobId, scanKey, old(sizeCache.entries), canon, path, childDirs, scans, showHidden, ignores,
                      lefts, ds, vs, lives, evs)
      ensures lefts[0] == old(token.LoadsLeft())
      ensures CollectedFrom(childTotals, childDirs, vs)
      ensures token.canceled ==> sizeCache.entries == lives[|ds|] && events == old(events) + Concat(evs)
      ensures token.canceled ==>
        sizeCache.entries - ChildKeys(canon, path, childDirs, showHidden, ignores)
          == old(sizeCache.entries) - ChildKeys(canon, path, childDirs, showHidden, ignores)
      ensures !token.canceled ==>
        var total := rootTotal + Totals.MapSum(childTotals);
        events == old(events) + Concat(evs) + [Summary(jobId, scanKey, total)] &&
        sizeCache.entries == lives[|ds|][cacheKey := CacheEntry(total, 0, true)]
      ensures !token.canceled ==>
        |ds| == |childDirs| && childTotals.Keys == Walk.Names(childDirs) && Quiet(childDirs, scans, ds, lefts)
      ensures old(token.canceled) ==> token.canceled
      ensures old(token.LoadsLeft()).None? ==> !token.canceled
      ensures old(token.LoadsLeft()) == Some(0) ==>
        events == old(events) && sizeCache.entries == old(sizeCache.entries)
    {
      var collected;
      collected, ds, vs, lives, lefts, evs :=
        ProcessChildren(jobId, scanKey, canon, path, childDirs, showHidden, ignores, scans, token);
      ghost var beforeFinish := events;
      var summarized := Finish(jobId, scanKey, cacheKey, rootTotal, collected, token);
      childTotals := collected;
      if summarized {
        assert events[|events| - 1].Summary?;
      } else {
        assert events == beforeFinish;
        VisitsWriteChildKeys(old(sizeCache.entries), canon, path, childDirs, scans, showHidden, ignores,
                             lefts, ds, vs, lives, |ds|);
      }
    }
  }
}
