/** The per-job directory sizer (src-tauri/src/api/dir_sizer.rs): jobs keyed
    by a caller-chosen id with an explicit cancel command, a one-level pre-scan
    of the root, one saturating walk per child directory, and a summary of the
    root's files plus the collected child totals. It keeps no cache.

    Child tasks run one after the other, each when it is spawned; another
    thread's cancellation reaches them through the token's schedule. */
module DirSizer {
  import opened Common
  import Keys
  import Walk
  import Totals
  import opened Cancel

  /** The `dir_size:child` and `dir_size:summary` payloads of this sizer. */
  datatype DirEvent =
    | ChildSize(jobId: string, name: string, bytes: nat)
    | DirSummary(jobId: string, bytes: nat)

  /** The walk of one child directory as the environment provides it, and
      whether the blocking task delivers its result (`false`: the task failed). */
  datatype ChildWalk = ChildWalk(walk: seq<Walk.WalkEntry>, joined: bool)

  /** The size a child reports when no cancellation reaches it. */
  function ChildBytes(cw: ChildWalk, showHidden: bool, ignores: seq<string>): nat
  {
    if cw.joined then Walk.WalkBytes(cw.walk, showHidden, ignores) else 0
  }

  /** What a child task reports when the flag's schedule is `left` as it
      starts: 0 when cancellation is seen before it starts or its blocking
      task fails, otherwise the sum of the walk before cancellation is seen. */
  function ChildSum(left: Option<nat>, cw: ChildWalk, showHidden: bool, ignores: seq<string>): nat
  {
    if left == Some(0) || !cw.joined then 0
    else Walk.WalkBytes(cw.walk[..Budget(Consume(left, 1), |cw.walk|)], showHidden, ignores)
  }

  /** The flag's schedule after a child task that started with `left`: its
      first load, then one load per walk entry up to the first `true`. */
  function ChildLeft(left: Option<nat>, cw: ChildWalk): Option<nat>
  {
    if left == Some(0) || !cw.joined then Consume(left, 1)
    else
      var l1 := Consume(left, 1);
      var k := Budget(l1, |cw.walk|);
      Consume(l1, if k < |cw.walk| then k + 1 else k)
  }

  /** A child task none of whose loads reads `true`. */
  predicate ChildQuiet(left: Option<nat>, cw: ChildWalk)
  {
    left != Some(0) && (cw.joined ==> Budget(Consume(left, 1), |cw.walk|) == |cw.walk|)
  }

  /** A child task reports at most its child's size, and exactly that size
      when none of its loads reads `true`, which is so when nobody cancels;
      once cancellation is seen every later task reports 0. */
  lemma ChildSumBound(left: Option<nat>, cw: ChildWalk, showHidden: bool, ignores: seq<string>)
    ensures ChildSum(left, cw, showHidden, ignores) <= ChildBytes(cw, showHidden, ignores)
    ensures left.None? ==> ChildQuiet(left, cw) && ChildLeft(left, cw).None?
    ensures ChildQuiet(left, cw) ==> ChildSum(left, cw, showHidden, ignores) == ChildBytes(cw, showHidden, ignores)
    ensures left == Some(0) ==> ChildLeft(left, cw) == Some(0) && ChildSum(left, cw, showHidden, ignores) == 0
  {
    if left != Some(0) && cw.joined {
      Walk.WalkBytesMonotone(cw.walk, Budget(Consume(left, 1), |cw.walk|), showHidden, ignores);
      assert cw.walk[..|cw.walk|] == cw.walk;
    }
  }

  /** The child events of the started tasks, in order. */
  function SizeEvents(jobId: string, tasks: seq<(string, nat)>): seq<DirEvent>
  {
    if |tasks| == 0 then [] else SizeEvents(jobId, tasks[..|tasks| - 1]) + [ChildSize(jobId, tasks[|tasks| - 1].0, tasks[|tasks| - 1].1)]
  }

  /** Task `i` ran for child `i` with the schedule `lefts[i]`, reported what
      that schedule lets it see, and left the schedule `lefts[i + 1]`. */
  ghost predicate SpawnedAt(childDirs: seq<string>, walks: string -> ChildWalk, showHidden: bool, ignores: seq<string>,
                            lefts: seq<Option<nat>>, tasks: seq<(string, nat)>, i: int)
  {
    0 <= i < |tasks| && i < |childDirs| && i + 1 < |lefts| &&
    tasks[i] == (childDirs[i], ChildSum(lefts[i], walks(childDirs[i]), showHidden, ignores)) &&
    lefts[i + 1] == ChildLeft(lefts[i], walks(childDirs[i]))
  }

  /** The first `|tasks|` tasks ran one after the other from the schedule `lefts[0]`. */
  ghost predicate Spawned(childDirs: seq<string>, walks: string -> ChildWalk, showHidden: bool, ignores: seq<string>,
                          lefts: seq<Option<nat>>, tasks: seq<(string, nat)>)
  {
    |tasks| <= |childDirs| && |lefts| == |tasks| + 1 &&
    forall i :: 0 <= i < |tasks| ==> SpawnedAt(childDirs, walks, showHidden, ignores, lefts, tasks, i)
  }

  /** A log made of earlier events, child events and a last event: the
      earlier events stay a prefix, and every event between them and the last
      is a child event. */
  lemma {:induction false} SummaryLog(jobId: string, start: seq<DirEvent>, tasks: seq<(string, nat)>, last: DirEvent)
    ensures var e := start + SizeEvents(jobId, tasks) + [last];
      |e| > |start| && e[..|start|] == start && e[|e| - 1] == last &&
      forall i :: |start| <= i < |e| - 1 ==> e[i].ChildSize?
  {
    var e := start + SizeEvents(jobId, tasks) + [last];
    assert e[..|start|] == start;
    SizeEventsAreSizes(jobId, tasks);
    forall i | |start| <= i < |e| - 1 ensures e[i].ChildSize? {
      assert e[i] == SizeEvents(jobId, tasks)[i - |start|];
    }
  }

  /** The child events of the tasks are one per task, in order. */
  lemma {:induction false} SizeEventsAreSizes(jobId: string, tasks: seq<(string, nat)>)
    ensures |SizeEvents(jobId, tasks)| == |tasks|
    ensures forall i :: 0 <= i < |tasks| ==> SizeEvents(jobId, tasks)[i] == ChildSize(jobId, tasks[i].0, tasks[i].1)
  {
    if |tasks| > 0 {
      SizeEventsAreSizes(jobId, tasks[..|tasks| - 1]);
    }
  }

  /** The tasks before `started` saw the flag down as they started; when
      some task did not, every task from `started` on saw cancellation at
      once and the schedule stays exhausted. */
  ghost predicate StartedPrefix(lefts: seq<Option<nat>>, started: nat)
  {
    started < |lefts| &&
    (forall j :: 0 <= j < started ==> lefts[j] != Some(0)) &&
    (started < |lefts| - 1 ==> forall j :: started <= j < |lefts| ==> lefts[j] == Some(0))
  }

  /** What sizing the children did: the record of the spawned tasks (one per
      child, in order) with the flag's schedule `left0` as the first starts;
      the collect loop took the first `m` of them, stopping after the first
      total for which cancellation is seen; `collected` holds their totals,
      each for a listed child and no larger than its full size; and it holds
      every child's full size when cancellation is not seen (always so when
      the flag is never raised). */
  ghost predicate SizedChildren(childDirs: seq<string>, walks: string -> ChildWalk, showHidden: bool,
                                ignores: seq<string>, left0: Option<nat>, canceled: bool,
                                tasks: seq<(string, nat)>, m: nat, lefts: seq<Option<nat>>, started: nat,
                                collected: map<string, nat>)
  {
    |tasks| == |childDirs| && Spawned(childDirs, walks, showHidden, ignores, lefts, tasks) &&
    lefts[0] == left0 && StartedPrefix(lefts, started) &&
    m == Min(Budget(lefts[|tasks|], |tasks|) + 1, |tasks|) &&
    collected == Totals.InsertAll(map[], tasks[..m]) &&
    collected.Keys <= Walk.Names(childDirs) &&
    (forall n :: n in collected ==> collected[n] <= ChildBytes(walks(n), showHidden, ignores)) &&
    (!canceled ==> collected == FullTotals(childDirs, walks, showHidden, ignores)) &&
    (left0.None? ==> collected == FullTotals(childDirs, walks, showHidden, ignores))
  }

  /** Running the next task extends the record of the spawned tasks; the
      tasks started (those that do not see cancellation at once) stay a prefix,
      and only they emit, each its own child event. */
  lemma {:induction false} SpawnStep(jobId: string, childDirs: seq<string>, walks: string -> ChildWalk, showHidden: bool,
                                     ignores: seq<string>, lefts: seq<Option<nat>>, tasks: seq<(string, nat)>,
                                     started: nat, start: seq<DirEvent>, before: seq<DirEvent>, after: seq<DirEvent>,
                                     bytes: nat, left2: Option<nat>)
    requires |tasks| < |childDirs|
    requires Spawned(childDirs, walks, showHidden, ignores, lefts, tasks)
    requires StartedPrefix(lefts, started)
    requires before == start + SizeEvents(jobId, tasks[..started])
    requires bytes == ChildSum(lefts[|tasks|], walks(childDirs[|tasks|]), showHidden, ignores)
    requires left2 == ChildLeft(lefts[|tasks|], walks(childDirs[|tasks|]))
    requires lefts[|tasks|] == Some(0) ==> after == before
    requires lefts[|tasks|] != Some(0) ==> after == before + [ChildSize(jobId, childDirs[|tasks|], bytes)]
    ensures var i := |tasks|;
      var tasks2, lefts2 := tasks + [(childDirs[i], bytes)], lefts + [left2];
      var started2 := if lefts[i] != Some(0) then i + 1 else started;
      Spawned(childDirs, walks, showHidden, ignores, lefts2, tasks2) &&
      StartedPrefix(lefts2, started2) &&
      after == start + SizeEvents(jobId, tasks2[..started2])
  {
    var i := |tasks|;
    var tasks2, lefts2 := tasks + [(childDirs[i], bytes)], lefts + [left2];
    forall j | 0 <= j < |tasks2|
      ensures SpawnedAt(childDirs, walks, showHidden, ignores, lefts2, tasks2, j)
    {
      if j < i {
        assert SpawnedAt(childDirs, walks, showHidden, ignores, lefts, tasks, j);
      }
    }
    ChildSumBound(lefts[i], walks(childDirs[i]), showHidden, ignores);
    if lefts[i] != Some(0) {
      assert started == i;
      assert tasks2[..i + 1] == tasks2 && tasks2[..i] == tasks && tasks[..started] == tasks;
      assert SizeEvents(jobId, tasks2) == SizeEvents(jobId, tasks) + [ChildSize(jobId, childDirs[i], bytes)];
    } else {
      assert tasks2[..started] == tasks[..started];
    }
  }

  /** The child totals of a run that nothing cancels: every child with its full size. */
  ghost function FullTotals(childDirs: seq<string>, walks: string -> ChildWalk, showHidden: bool, ignores: seq<string>)
    : map<string, nat>
  {
    map n | n in Walk.Names(childDirs) :: ChildBytes(walks(n), showHidden, ignores)
  }

  /** Pre-scans the root (a root that cannot be read has no entries): keeps
      the directories the filter lets through, in listing order, and sums the
      lengths of the files it lets through with saturation. */
  method PreScan(root: Result<seq<Walk.RootEntry>>, showHidden: bool, ignores: seq<string>)
    returns (childDirs: seq<string>, rootTotal: u64)
    ensures root.Err? ==> childDirs == [] && rootTotal == 0
    ensures root.Ok? ==> childDirs == Walk.ChildDirs(root.value, showHidden, ignores)
    ensures root.Ok? ==> rootTotal == Walk.RootFilesTotal(root.value, showHidden, ignores)
  {
    childDirs, rootTotal := [], 0;
    if root.Err? {
      return;
    }
    var es := root.value;
    for i := 0 to |es|
      invariant childDirs == Walk.ChildDirs(es[..i], showHidden, ignores)
      invariant rootTotal == Walk.RootFilesTotal(es[..i], showHidden, ignores)
    {
      assert es[..i + 1][..i] == es[..i];
      var e := es[i];
      if !e.kind.Other? {
        if !showHidden && Keys.IsHidden(e.name) {
          continue;
        }
        if Keys.AnyContains(e.name, ignores) {
          continue;
        }
        if e.kind.Directory? {
          childDirs := childDirs + [e.name];
        } else {
          rootTotal := SatAdd(rootTotal, e.kind.len);
        }
      }
    }
    assert es[..|es|] == es;
  }

  /** The blocking walk of one child: stops at the first entry for which
      cancellation is seen and sums, with saturation, the lengths of the files
      the filter lets through before it. */
  method SumChild(walk: seq<Walk.WalkEntry>, showHidden: bool, ignores: seq<string>, token: CancelToken)
    returns (sum: u64)
    modifies token
    ensures var k := Budget(old(token.LoadsLeft()), |walk|);
      sum == Walk.WalkBytes(walk[..k], showHidden, ignores) &&
      token.LoadsLeft() == Consume(old(token.LoadsLeft()), if k < |walk| then k + 1 else k) &&
      (k < |walk| ==> token.canceled)
    ensures old(token.canceled) ==> token.canceled
  {
    ghost var left := token.LoadsLeft();
    sum := 0;
    var i := 0;
    while i < |walk|
      invariant 0 <= i <= |walk|
      invariant left.None? || i <= left.value
      invariant token.LoadsLeft() == Consume(left, i)
      invariant old(token.canceled) ==> token.canceled
      invariant sum == Walk.WalkBytes(walk[..i], showHidden, ignores)
    {
      var c := token.Load();
      if c {
        break;
      }
      assert walk[..i + 1][..i] == walk[..i];
      var e := walk[i];
      if !Keys.ShouldSkip(e.name, showHidden, ignores) && e.isFile && e.len.Some? {
        sum := SatAdd(sum, e.len.value);
      }
      i := i + 1;
    }
    assert Budget(left, |walk|) == i;
  }

  /** Collecting every task of a list that has one task per child, each
      reporting its child's size, gives exactly the children, each with its size. */
  lemma CollectedAll(childDirs: seq<string>, tasks: seq<(string, nat)>, walks: string -> ChildWalk,
                     showHidden: bool, ignores: seq<string>)
    requires |tasks| == |childDirs|
    requires forall i :: 0 <= i < |tasks| ==> tasks[i].0 == childDirs[i]
    requires forall i :: 0 <= i < |tasks| ==> tasks[i].1 == ChildBytes(walks(childDirs[i]), showHidden, ignores)
    ensures Totals.InsertAll(map[], tasks) == FullTotals(childDirs, walks, showHidden, ignores)
  {
    var f := (n: string) => ChildBytes(walks(n), showHidden, ignores);
    Totals.InsertAllDomain(map[], tasks);
    forall n ensures n in (set p | p in tasks :: p.0) <==> n in childDirs {
      if n in childDirs {
        var i :| 0 <= i < |childDirs| && childDirs[i] == n;
        assert tasks[i] in tasks;
      }
    }
    Totals.InsertAllAgrees(map[], tasks, f);
  }

  /** Collected totals bounded by the children's full sizes add up to at most
      the uncancelled run's total. */
  lemma CollectedSumBounded(childDirs: seq<string>, walks: string -> ChildWalk, showHidden: bool,
                            ignores: seq<string>, m: map<string, nat>)
    requires m.Keys <= Walk.Names(childDirs)
    requires forall n :: n in m ==> m[n] <= ChildBytes(walks(n), showHidden, ignores)
    ensures Totals.MapSum(m) <= Totals.MapSum(FullTotals(childDirs, walks, showHidden, ignores))
  {
    Totals.MapSumMonotone(m, FullTotals(childDirs, walks, showHidden, ignores));
  }

  /** Collecting the first `m` tasks of a list that has one task per child,
      each reporting at most its child's size, gives some of the children,
      each with at most its size. */
  lemma CollectedBounded(childDirs: seq<string>, tasks: seq<(string, nat)>, walks: string -> ChildWalk,
                         showHidden: bool, ignores: seq<string>, m: nat)
    requires |tasks| == |childDirs| && m <= |tasks|
    requires forall i :: 0 <= i < |tasks| ==> tasks[i].0 == childDirs[i]
    requires forall i :: 0 <= i < |tasks| ==> tasks[i].1 <= ChildBytes(walks(childDirs[i]), showHidden, ignores)
    ensures Totals.InsertAll(map[], tasks[..m]).Keys <= Walk.Names(childDirs)
    ensures forall n :: n in Totals.InsertAll(map[], tasks[..m]) ==>
      Totals.InsertAll(map[], tasks[..m])[n] <= ChildBytes(walks(n), showHidden, ignores)
  {
    var ps := tasks[..m];
    var f := (n: string) => ChildBytes(walks(n), showHidden, ignores);
    Totals.InsertAllDomain(map[], ps);
    forall p | p in ps ensures p.0 in childDirs {
      var i :| 0 <= i < m && ps[i] == p;
      assert tasks[i] == p;
    }
    forall i | 0 <= i < |ps| ensures ps[i].1 <= f(ps[i].0) {
      assert ps[i] == tasks[i];
    }
    Totals.InsertAllBounded(map[], ps, f);
  }

  class DirSizerJobs {
    /** `JOBS`, keyed by job id: each job is its cancellation flag. */
    var jobs: map<string, CancelToken>
    /** The events emitted so far. */
    var events: seq<DirEvent>

    constructor ()
      ensures jobs == map[] && events == []
    {
      jobs, events := map[], [];
    }

    /** `cancel_dir_sizer`: removes the job and raises its flag; an unknown id
        changes nothing. */
    method CancelDirSizer(jobId: string)
      modifies this`jobs
      modifies if jobId in jobs then {jobs[jobId]} else {}
      ensures jobs == old(jobs) - {jobId}
      ensures jobId in old(jobs) ==> old(jobs)[jobId].canceled
    {
      if jobId in jobs {
        var job := jobs[jobId];
        jobs := jobs - {jobId};
        job.Store();
      }
    }

    /** The synchronous part of `start_dir_sizer`: registers a fresh flag under
        the id, overwriting (and not cancelling) any job already there.
        `visibleAfter` is the environment's schedule for the new flag. */
    method StartDirSizer(jobId: string, visibleAfter: Option<nat>) returns (token: CancelToken)
      modifies this`jobs
      ensures jobs == old(jobs)[jobId := token]
      ensures fresh(token) && !token.canceled && token.visibleAfter == visibleAfter
      ensures jobId in old(jobs) ==> unchanged(old(jobs)[jobId])
    {
      token := new CancelToken(visibleAfter);
      jobs := jobs[jobId := token];
    }

    /** One spawned child task: when cancellation is seen before it starts it
        reports 0 and emits nothing; otherwise it walks the child (a failed walk
        counts as 0) and emits the child's size. */
    method ChildTask(jobId: string, name: string, showHidden: bool, ignores: seq<string>,
                     cw: ChildWalk, token: CancelToken)
      returns (bytes: u64)
      modifies this`events, token
      ensures old(token.LoadsLeft()) == Some(0) ==> bytes == 0 && events == old(events)
      ensures old(token.LoadsLeft()) != Some(0) ==>
        events == old(events) + [ChildSize(jobId, name, bytes)] &&
        (!cw.joined ==> bytes == 0) &&
        (cw.joined ==>
          bytes == Walk.WalkBytes(cw.walk[..Budget(Consume(old(token.LoadsLeft()), 1), |cw.walk|)], showHidden, ignores))
      ensures bytes <= ChildBytes(cw, showHidden, ignores)
      ensures old(token.LoadsLeft()).None? ==> bytes == ChildBytes(cw, showHidden, ignores) && token.LoadsLeft().None?
      ensures old(token.canceled) ==> token.canceled
      ensures bytes == ChildSum(old(token.LoadsLeft()), cw, showHidden, ignores)
      ensures token.LoadsLeft() == ChildLeft(old(token.LoadsLeft()), cw)
      ensures !token.canceled ==> ChildQuiet(old(token.LoadsLeft()), cw)
    {
      ChildSumBound(token.LoadsLeft(), cw, showHidden, ignores);
      var c := token.Load();
      if c {
        return 0;
      }
      if cw.joined {
        bytes := SumChild(cw.walk, showHidden, ignores, token);
      } else {
        bytes := 0;
      }
      events := events + [ChildSize(jobId, name, bytes)];
    }

    /** Spawns one task per child directory, in order, with no cancellation
        check of its own. Returns each task's `(name, bytes)`. */
    method SpawnChildren(jobId: string, childDirs: seq<string>, showHidden: bool, ignores: seq<string>,
                         walks: string -> ChildWalk, token: CancelToken)
      returns (tasks: seq<(string, nat)>, ghost lefts: seq<Option<nat>>, ghost started: nat)
      modifies this`events, token
      ensures |tasks| == |childDirs|
      ensures Spawned(childDirs, walks, showHidden, ignores, lefts, tasks)
      ensures lefts[0] == old(token.LoadsLeft()) && token.LoadsLeft() == lefts[|tasks|]
      ensures StartedPrefix(lefts, started)
      ensures events == old(events) + SizeEvents(jobId, tasks[..started])
      ensures !token.canceled ==>
        started == |tasks| && forall i :: 0 <= i < |tasks| ==> tasks[i].1 == ChildBytes(walks(childDirs[i]), showHidden, ignores)
      ensures forall i :: 0 <= i < |tasks| ==> tasks[i].0 == childDirs[i]
      ensures forall i :: 0 <= i < |tasks| ==> tasks[i].1 <= ChildBytes(walks(childDirs[i]), showHidden, ignores)
      ensures old(token.LoadsLeft()).None? ==>
        token.LoadsLeft().None? &&
        forall i :: 0 <= i < |tasks| ==> tasks[i].1 == ChildBytes(walks(childDirs[i]), showHidden, ignores)
      ensures old(token.canceled) ==> token.canceled
      ensures |events| >= |old(events)| && events[..|old(events)|] == old(events)
      ensures forall i :: |old(events)| <= i < |events| ==> events[i].ChildSize?
    {
      tasks, lefts, started := [], [token.LoadsLeft()], 0;
      for i := 0 to |childDirs|
        invariant |tasks| == i
        invariant Spawned(childDirs, walks, showHidden, ignores, lefts, tasks)
        invariant lefts[0] == old(token.LoadsLeft()) && token.LoadsLeft() == lefts[i]
        invariant StartedPrefix(lefts, started)
        invariant events == old(events) + SizeEvents(jobId, tasks[..started])
        invariant !token.canceled ==>
          started == i && forall j :: 0 <= j < i ==> tasks[j].1 == ChildBytes(walks(childDirs[j]), showHidden, ignores)
        invariant forall j :: 0 <= j < i ==> tasks[j].0 == childDirs[j]
        invariant forall j :: 0 <= j < i ==> tasks[j].1 <= ChildBytes(walks(childDirs[j]), showHidden, ignores)
        invariant old(token.LoadsLeft()).None? ==>
          token.LoadsLeft().None? &&
          forall j :: 0 <= j < i ==> tasks[j].1 == ChildBytes(walks(childDirs[j]), showHidden, ignores)
        invariant old(token.canceled) ==> token.canceled
        invariant |events| >= |old(events)| && events[..|old(events)|] == old(events)
        invariant forall j :: |old(events)| <= j < |events| ==> events[j].ChildSize?
      {
        var name := childDirs[i];
        ghost var left := token.LoadsLeft();
        ghost var before := events;
        var bytes := ChildTask(jobId, name, showHidden, ignores, walks(name), token);
        ChildSumBound(left, walks(name), showHidden, ignores);
        SpawnStep(jobId, childDirs, walks, showHidden, ignores, lefts, tasks, started, old(events), before, events,
                  bytes, token.LoadsLeft());
        if left != Some(0) {
          started := i + 1;
        }
        tasks, lefts := tasks + [(name, bytes)], lefts + [token.LoadsLeft()];
      }
    }

    /** Spawns the child tasks and collects their results (the collect loop
        stops right after cancellation is seen), then sums the collected
        totals. Each collected total is at most its child's size; without
        cancellation every child is collected with its size. */
    method SizeChildren(jobId: string, childDirs: seq<string>, showHidden: bool, ignores: seq<string>,
                        walks: string -> ChildWalk, token: CancelToken)
      returns (childSum: nat, ghost collected: map<string, nat>, ghost tasks: seq<(string, nat)>, ghost m: nat,
               ghost lefts: seq<Option<nat>>, ghost started: nat)
      modifies this`events, token
      ensures SizedChildren(childDirs, walks, showHidden, ignores, old(token.LoadsLeft()), token.canceled,
                            tasks, m, lefts, started, collected)
      ensures childSum == Totals.MapSum(collected)
      ensures events == old(events) + SizeEvents(jobId, tasks[..started])
    {
      ghost var before := token.LoadsLeft();
      var ts;
      ts, lefts, started := SpawnChildren(jobId, childDirs, showHidden, ignores, walks, token);
      var totals, n := Totals.Collect(ts, map[], token);
      childSum := Totals.SumValues(totals);
      collected, tasks, m := totals, ts, n;
      CollectedBounded(childDirs, tasks, walks, showHidden, ignores, m);
      if before.None? || !token.canceled {
        assert tasks[..m] == tasks;
        CollectedAll(childDirs, tasks, walks, showHidden, ignores);
      }
    }

    /** The spawned task of `start_dir_sizer`, run with the flag it registered:
        the pre-scan, the child tasks and the collect loop, then the summary of
        the root's files plus the collected child totals, emitted even after
        cancellation, and the removal of whatever job is registered under the id. */
    method RunJob(jobId: string, showHidden: bool, ignores: seq<string>,
                  root: Result<seq<Walk.RootEntry>>, walks: string -> ChildWalk, token: CancelToken)
      returns (ghost rootTotal: u64, ghost childDirs: seq<string>, ghost childTotals: map<string, nat>,
               ghost total: nat, ghost tasks: seq<(string, nat)>, ghost m: nat, ghost lefts: seq<Option<nat>>,
               ghost started: nat)
      modifies this`jobs, this`events, token
      ensures jobs == old(jobs) - {jobId}
      ensures rootTotal == (if root.Ok? then Walk.RootFilesTotal(root.value, showHidden, ignores) else 0)
      ensures childDirs == (if root.Ok? then Walk.ChildDirs(root.value, showHidden, ignores) else [])
      ensures SizedChildren(childDirs, walks, showHidden, ignores, old(token.LoadsLeft()), token.canceled,
                            tasks, m, lefts, started, childTotals)
      ensures total == rootTotal + Totals.MapSum(childTotals)
      ensures total <= rootTotal + Totals.MapSum(FullTotals(childDirs, walks, showHidden, ignores))
      ensures events == old(events) + SizeEvents(jobId, tasks[..started]) + [DirSummary(jobId, total)]
    {
      var dirs, rootFiles := PreScan(root, showHidden, ignores);
      var childSum;
      childSum, childTotals, tasks, m, lefts, started := SizeChildren(jobId, dirs, showHidden, ignores, walks, token);
      var sum := rootFiles + childSum;
      events := events + [DirSummary(jobId, sum)];
      jobs := jobs - {jobId};
      rootTotal, childDirs, total := rootFiles, dirs, sum;
      CollectedSumBounded(dirs, walks, showHidden, ignores, childTotals);
    }
  }
}
