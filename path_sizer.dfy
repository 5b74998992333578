/** The first-generation path sizer (src-tauri/src/api/path_sizer.rs): one
    background walker per cache key, de-duplicated through an in-flight set,
    publishing throttled partial totals to the cache and as
    `path_sizer:update` events, then a completed total. Keys use the raw path. */
module PathSizer {
  import opened Common
  import Keys
  import Walk

  /** `make_key`: the raw path, the hidden flag and the sorted, comma-joined ignore list. */
  function MakeKey(path: string, showHidden: bool, ignores: seq<string>): CacheKey
  {
    CacheKey(path, showHidden, Keys.Join(Keys.SortStrings(ignores), ","))
  }

  /** Permuting the ignore patterns does not change the key. */
  lemma MakeKeyPermutation(path: string, showHidden: bool, a: seq<string>, b: seq<string>)
    requires multiset(a) == multiset(b)
    ensures MakeKey(path, showHidden, a) == MakeKey(path, showHidden, b)
  {
    Keys.SortStringsPermutation(a, b);
  }

  /** This key is the later cache key of a path that canonicalisation leaves as it is. */
  lemma MakeKeyIsUncanonicalCacheKey(canon: Keys.Canon, path: string, showHidden: bool, ignores: seq<string>)
    requires path !in canon
    ensures MakeKey(path, showHidden, ignores) == Keys.MakeCacheKey(canon, path, showHidden, ignores)
  {
  }

  /** `PathSizeEvent`, the payload of `path_sizer:update`. */
  datatype PathSizeEvent = PathSizeEvent(path: string, showHidden: bool, ignoresSig: string,
                                         bytes: u64, items: u64, completed: bool)

  /** Minimum time between two partial updates, in milliseconds. */
  const EMIT_EVERY_MS: int := 250

  /** The walker's running state: the totals so far and the time of the last partial update. */
  datatype Tally = Tally(bytes: u64, items: u64, lastEmit: int)

  /** A skipped name changes nothing; a counted file adds its length and one item. */
  function TallyStep(t: Tally, e: Walk.WalkEntry, showHidden: bool, ignores: seq<string>): (r: Tally)
    ensures t.bytes <= r.bytes && t.items <= r.items
  {
    if Keys.ShouldSkip(e.name, showHidden, ignores) then t
    else
      var counted := Walk.Counts(e, showHidden, ignores);
      var bytes := if counted then SatAdd(t.bytes, e.len.value) else t.bytes;
      var items := if counted then SatAdd(t.items, 1) else t.items;
      if Emits(t, e, showHidden, ignores) then Tally(bytes, items, e.at) else Tally(bytes, items, t.lastEmit)
  }

  /** Every entry that is not skipped triggers a partial update once the throttle interval has elapsed. */
  predicate Emits(t: Tally, e: Walk.WalkEntry, showHidden: bool, ignores: seq<string>)
  {
    !Keys.ShouldSkip(e.name, showHidden, ignores) && e.at - t.lastEmit >= EMIT_EVERY_MS
  }

  /** The state after a walk and the `(bytes, items)` of every partial update it made, in order. */
  datatype Trace = Trace(tally: Tally, updates: seq<(u64, u64)>)

  /** The trace of a walk that started at time `start`. */
  function TallyTrace(es: seq<Walk.WalkEntry>, showHidden: bool, ignores: seq<string>, start: int): Trace
  {
    if |es| == 0 then Trace(Tally(0, 0, start), [])
    else
      var prev := TallyTrace(es[..|es| - 1], showHidden, ignores, start);
      var e := es[|es| - 1];
      var t := TallyStep(prev.tally, e, showHidden, ignores);
      Trace(t, if Emits(prev.tally, e, showHidden, ignores) then prev.updates + [(t.bytes, t.items)] else prev.updates)
  }

  /** The walker's totals are the saturating byte total and file count of the counted files. */
  lemma {:induction false} TallyTraceTotals(es: seq<Walk.WalkEntry>, showHidden: bool, ignores: seq<string>, start: int)
    ensures TallyTrace(es, showHidden, ignores, start).tally.bytes == Walk.WalkBytes(es, showHidden, ignores)
    ensures TallyTrace(es, showHidden, ignores, start).tally.items == Walk.WalkItems(es, showHidden, ignores)
  {
    if |es| > 0 {
      TallyTraceTotals(es[..|es| - 1], showHidden, ignores, start);
    }
  }

  /** The partial updates of a trace never go backwards, in bytes or in items,
      and never exceed its current totals. */
  ghost predicate UpdatesBelowTally(tr: Trace)
  {
    (forall i, j :: 0 <= i < j < |tr.updates| ==>
      tr.updates[i].0 <= tr.updates[j].0 && tr.updates[i].1 <= tr.updates[j].1) &&
    (forall i :: 0 <= i < |tr.updates| ==> tr.updates[i].0 <= tr.tally.bytes && tr.updates[i].1 <= tr.tally.items)
  }

  /** Every walk's partial updates are non-decreasing and bounded by its totals. */
  lemma {:induction false} TallyTraceMonotone(es: seq<Walk.WalkEntry>, showHidden: bool, ignores: seq<string>, start: int)
    ensures UpdatesBelowTally(TallyTrace(es, showHidden, ignores, start))
  {
    if |es| > 0 {
      var prev := TallyTrace(es[..|es| - 1], showHidden, ignores, start);
      TallyTraceMonotone(es[..|es| - 1], showHidden, ignores, start);
      var r := TallyTrace(es, showHidden, ignores, start);
      forall i | 0 <= i < |r.updates| ensures r.updates[i].0 <= r.tally.bytes && r.updates[i].1 <= r.tally.items {
        if i < |prev.updates| {
          assert r.updates[i] == prev.updates[i];
        }
      }
      forall i, j | 0 <= i < j < |r.updates|
        ensures r.updates[i].0 <= r.updates[j].0 && r.updates[i].1 <= r.updates[j].1
      {
        assert r.updates[i] == prev.updates[i];
        if j < |prev.updates| {
          assert r.updates[j] == prev.updates[j];
        }
      }
    }
  }

  /** The trace of one more entry extends the trace of the entries before it by one step. */
  lemma TallyTraceSnoc(es: seq<Walk.WalkEntry>, i: nat, showHidden: bool, ignores: seq<string>, start: int)
    requires i < |es|
    ensures var prev := TallyTrace(es[..i], showHidden, ignores, start);
      var t := TallyStep(prev.tally, es[i], showHidden, ignores);
      TallyTrace(es[..i + 1], showHidden, ignores, start)
        == Trace(t, if Emits(prev.tally, es[i], showHidden, ignores) then prev.updates + [(t.bytes, t.items)] else prev.updates)
  {
    assert es[..i + 1][..i] == es[..i];
  }

  /** The events of the given partial updates. */
  function UpdateEvents(path: string, showHidden: bool, sig: string, snaps: seq<(u64, u64)>): seq<PathSizeEvent>
  {
    seq(|snaps|, i requires 0 <= i < |snaps| => PathSizeEvent(path, showHidden, sig, snaps[i].0, snaps[i].1, false))
  }

  /** The cache writes of the given partial updates. */
  function UpdateWrites(key: CacheKey, snaps: seq<(u64, u64)>): seq<(CacheKey, CacheEntry)>
  {
    seq(|snaps|, i requires 0 <= i < |snaps| => (key, CacheEntry(snaps[i].0, snaps[i].1, false)))
  }

  lemma UpdateSnoc(key: CacheKey, path: string, showHidden: bool, snaps: seq<(u64, u64)>, x: (u64, u64))
    ensures UpdateEvents(path, showHidden, key.ignoresSig, snaps + [x])
         == UpdateEvents(path, showHidden, key.ignoresSig, snaps) + [PathSizeEvent(path, showHidden, key.ignoresSig, x.0, x.1, false)]
    ensures UpdateWrites(key, snaps + [x]) == UpdateWrites(key, snaps) + [(key, CacheEntry(x.0, x.1, false))]
  {
  }

  /** The `(bytes, items)` carried by a sequence of events never go backwards. */
  ghost predicate EventsNonDecreasing(evs: seq<PathSizeEvent>)
  {
    forall i, j :: 0 <= i < j < |evs| ==> evs[i].bytes <= evs[j].bytes && evs[i].items <= evs[j].items
  }

  /** The events of one blocking walk (its throttled updates, then the forced one
      with the final totals) never go backwards, and the last one carries the
      walk's totals. */
  lemma WalkEventsNonDecreasing(path: string, showHidden: bool, ignores: seq<string>, sig: string,
                                walk: seq<Walk.WalkEntry>, start: int)
    ensures var totals := (Walk.WalkBytes(walk, showHidden, ignores), Walk.WalkItems(walk, showHidden, ignores));
      var evs := UpdateEvents(path, showHidden, sig, TallyTrace(walk, showHidden, ignores, start).updates + [totals]);
      EventsNonDecreasing(evs) && |evs| > 0 &&
      evs[|evs| - 1].bytes == totals.0 && evs[|evs| - 1].items == totals.1
  {
    TallyTraceMonotone(walk, showHidden, ignores, start);
    TallyTraceTotals(walk, showHidden, ignores, start);
    var tr := TallyTrace(walk, showHidden, ignores, start);
    var all := tr.updates + [(tr.tally.bytes, tr.tally.items)];
    forall i, j | 0 <= i < j < |all| ensures all[i].0 <= all[j].0 && all[i].1 <= all[j].1 {
      assert all[i] == tr.updates[i];
    }
  }

  class LegacySizer {
    /** `SIZE_CACHE`. */
    var cache: map<CacheKey, CacheEntry>
    /** `IN_FLIGHT` (the start instant of each marker is not modelled). */
    var inFlight: set<CacheKey>
    /** The `path_sizer:update` events emitted so far. */
    var events: seq<PathSizeEvent>
    /** Every insertion into the cache, in order. */
    ghost var writes: seq<(CacheKey, CacheEntry)>

    constructor ()
      ensures cache == map[] && inFlight == {} && events == [] && writes == []
    {
      cache, inFlight, events := map[], {}, [];
      writes := [];
    }

    /** `get_cached_sizes`: one answer per path, in order, `None` exactly for the
        paths without a record. Only reads the cache. */
    method GetCachedSizes(paths: seq<string>, showHidden: bool, ignores: seq<string>)
      returns (out: seq<Option<CachedSize>>)
      ensures |out| == |paths|
      ensures forall i :: 0 <= i < |paths| ==>
        var key := MakeKey(paths[i], showHidden, ignores);
        (out[i].None? <==> key !in cache) &&
        (out[i].Some? ==> out[i].value == (cache[key].bytes, cache[key].items, cache[key].completed))
    {
      out := [];
      for k := 0 to |paths|
        invariant |out| == k
        invariant forall i :: 0 <= i < k ==> out[i] == Lookup(cache, MakeKey(paths[i], showHidden, ignores))
      {
        var key := MakeKey(paths[k], showHidden, ignores);
        if key in cache {
          var e := cache[key];
          out := out + [Some((e.bytes, e.items, e.completed))];
        } else {
          out := out + [None];
        }
      }
    }

    /** The synchronous part of `ensure_path_sizer`: nothing to do when the key
        already has a completed record or a worker in flight; otherwise mark it
        in flight and seed a `{0, 0, incomplete}` record unless one exists.
        `spawn` says whether a worker is to be started. */
    method EnsurePathSizer(path: string, showHidden: bool, ignores: seq<string>) returns (spawn: bool)
      modifies this`cache, this`inFlight, this`writes
      ensures var key := MakeKey(path, showHidden, ignores);
        spawn <==> !(key in old(cache) && old(cache)[key].completed) && key !in old(inFlight)
      ensures !spawn ==> cache == old(cache) && inFlight == old(inFlight) && writes == old(writes)
      ensures spawn ==> var key := MakeKey(path, showHidden, ignores);
        inFlight == old(inFlight) + {key} &&
        (key in old(cache) ==> cache == old(cache) && writes == old(writes)) &&
        (key !in old(cache) ==> cache == old(cache)[key := CacheEntry(0, 0, false)]
                                && writes == old(writes) + [(key, CacheEntry(0, 0, false))])
    {
      var key := MakeKey(path, showHidden, ignores);
      if key in cache && cache[key].completed {
        return false;
      }
      if key in inFlight {
        return false;
      }
      inFlight := inFlight + {key};
      if key !in cache {
        cache := cache[key := CacheEntry(0, 0, false)];
        writes := writes + [(key, CacheEntry(0, 0, false))];
      }
      spawn := true;
    }

    /** One entry of the walk: a counted file is added to the totals and, when
        the entry passes the filter and the throttle interval has elapsed, a
        partial record is written and an update event emitted. */
    method TallyEntry(key: CacheKey, path: string, showHidden: bool, ignores: seq<string>,
                      t: Tally, e: Walk.WalkEntry)
      returns (next: Tally)
      modifies this`cache, this`events, this`writes
      ensures next == TallyStep(t, e, showHidden, ignores)
      ensures Emits(t, e, showHidden, ignores) ==>
        cache == old(cache)[key := CacheEntry(next.bytes, next.items, false)] &&
        writes == old(writes) + [(key, CacheEntry(next.bytes, next.items, false))] &&
        events == old(events) + [PathSizeEvent(path, showHidden, key.ignoresSig, next.bytes, next.items, false)]
      ensures !Emits(t, e, showHidden, ignores) ==>
        cache == old(cache) && writes == old(writes) && events == old(events)
    {
      next := t;
      if !Keys.ShouldSkip(e.name, showHidden, ignores) {
        if e.isFile && e.len.Some? {
          next := next.(bytes := SatAdd(next.bytes, e.len.value), items := SatAdd(next.items, 1));
        }
        if e.at - next.lastEmit >= EMIT_EVERY_MS {
          next := next.(lastEmit := e.at);
          cache := cache[key := CacheEntry(next.bytes, next.items, false)];
          writes := writes + [(key, CacheEntry(next.bytes, next.items, false))];
          events := events + [PathSizeEvent(path, showHidden, key.ignoresSig, next.bytes, next.items, false)];
        }
      }
    }

    /** The blocking walk of the worker: accumulate the counted files, publish a
        partial record and event whenever the throttle interval has elapsed, then
        a final forced partial record and event. Every record it writes is
        incomplete. Returns the totals. */
    method BlockingWalk(key: CacheKey, path: string, showHidden: bool, ignores: seq<string>,
                        walk: seq<Walk.WalkEntry>, start: int)
      returns (bytes: u64, items: u64)
      modifies this`cache, this`events, this`writes
      ensures bytes == Walk.WalkBytes(walk, showHidden, ignores) && items == Walk.WalkItems(walk, showHidden, ignores)
      ensures cache == old(cache)[key := CacheEntry(bytes, items, false)]
      ensures var snaps := TallyTrace(walk, showHidden, ignores, start).updates;
        events == old(events) + UpdateEvents(path, showHidden, key.ignoresSig, snaps + [(bytes, items)]) &&
        writes == old(writes) + UpdateWrites(key, snaps + [(bytes, items)])
    {
      var tally := Tally(0, 0, start);
      ghost var snaps: seq<(u64, u64)> := [];
      for i := 0 to |walk|
        invariant Trace(tally, snaps) == TallyTrace(walk[..i], showHidden, ignores, start)
        invariant events == old(events) + UpdateEvents(path, showHidden, key.ignoresSig, snaps)
        invariant writes == old(writes) + UpdateWrites(key, snaps)
        invariant |snaps| == 0 ==> cache == old(cache)
        invariant |snaps| > 0 ==> cache == old(cache)[key := CacheEntry(snaps[|snaps| - 1].0, snaps[|snaps| - 1].1, false)]
      {
        TallyTraceSnoc(walk, i, showHidden, ignores, start);
        var emits := Emits(tally, walk[i], showHidden, ignores);
        var next := TallyEntry(key, path, showHidden, ignores, tally, walk[i]);
        if emits {
          UpdateSnoc(key, path, showHidden, snaps, (next.bytes, next.items));
          snaps := snaps + [(next.bytes, next.items)];
        }
        tally := next;
      }
      assert walk[..|walk|] == walk;
      TallyTraceTotals(walk, showHidden, ignores, start);
      bytes, items := tally.bytes, tally.items;
      UpdateSnoc(key, path, showHidden, snaps, (bytes, items));
      ForceUpdate(key, path, showHidden, bytes, items);
    }

    /** The final forced update of the walk: an incomplete record and an update
        event with the final totals. */
    method ForceUpdate(key: CacheKey, path: string, showHidden: bool, bytes: u64, items: u64)
      modifies this`cache, this`events, this`writes
      ensures cache == old(cache)[key := CacheEntry(bytes, items, false)]
      ensures writes == old(writes) + [(key, CacheEntry(bytes, items, false))]
      ensures events == old(events) + [PathSizeEvent(path, showHidden, key.ignoresSig, bytes, items, false)]
    {
      cache := cache[key := CacheEntry(bytes, items, false)];
      writes := writes + [(key, CacheEntry(bytes, items, false))];
      events := events + [PathSizeEvent(path, showHidden, key.ignoresSig, bytes, items, false)];
    }

    /** The spawned worker of `ensure_path_sizer`: the blocking walk (a failed
        blocking task counts as `(0, 0)`), then the completed record and event,
        then the in-flight marker is cleared. */
    method RunWorker(key: CacheKey, path: string, showHidden: bool, ignores: seq<string>,
                     walk: seq<Walk.WalkEntry>, start: int, joined: bool)
      returns (bytes: u64, items: u64)
      modifies this`cache, this`events, this`writes, this`inFlight
      ensures joined ==> bytes == Walk.WalkBytes(walk, showHidden, ignores) && items == Walk.WalkItems(walk, showHidden, ignores)
      ensures !joined ==> bytes == 0 && items == 0
      ensures cache == old(cache)[key := CacheEntry(bytes, items, true)]
      ensures inFlight == old(inFlight) - {key}
      ensures joined ==> var snaps := TallyTrace(walk, showHidden, ignores, start).updates + [(bytes, items)];
        events == old(events) + UpdateEvents(path, showHidden, key.ignoresSig, snaps)
                  + [PathSizeEvent(path, showHidden, key.ignoresSig, bytes, items, true)] &&
        writes == old(writes) + UpdateWrites(key, snaps) + [(key, CacheEntry(bytes, items, true))]
      ensures !joined ==>
        events == old(events) + [PathSizeEvent(path, showHidden, key.ignoresSig, 0, 0, true)] &&
        writes == old(writes) + [(key, CacheEntry(0, 0, true))]
      ensures |events| > |old(events)| && events[..|events| - 1][..|old(events)|] == old(events)
      ensures EventsNonDecreasing(events[|old(events)|..])
      ensures forall i :: |old(events)| <= i < |events| - 1 ==> !events[i].completed
      ensures events[|events| - 1] == PathSizeEvent(path, showHidden, key.ignoresSig, bytes, items, true)
      ensures |writes| > |old(writes)| && writes[..|old(writes)|] == old(writes)
      ensures forall i :: |old(writes)| <= i < |writes| - 1 ==> writes[i].0 == key && !writes[i].1.completed
      ensures writes[|writes| - 1] == (key, CacheEntry(bytes, items, true))
    {
      if joined {
        bytes, items := BlockingWalk(key, path, showHidden, ignores, walk, start);
        WalkEventsNonDecreasing(path, showHidden, ignores, key.ignoresSig, walk, start);
      } else {
        bytes, items := 0, 0;
      }
      ghost var midEvents, midWrites := events, writes;
      cache := cache[key := CacheEntry(bytes, items, true)];
      writes := writes + [(key, CacheEntry(bytes, items, true))];
      events := events + [PathSizeEvent(path, showHidden, key.ignoresSig, bytes, items, true)];
      inFlight := inFlight - {key};
      assert events[..|events| - 1] == midEvents;
      assert writes[..|writes| - 1] == midWrites;
    }
  }
}
