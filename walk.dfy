/** The filesystem as the sizing walkers see it.

    A one-level listing of the root is a finite sequence of entries whose kind
    comes from non-following metadata (a symbolic link, a special file or an
    entry whose metadata cannot be read is `Other`). A recursive walk below a
    child is the finite sequence of entries `walkdir` yields, in its order,
    errors already filtered out; each carries the clock reading (in
    milliseconds) at which the walker examines it. The specification functions
    below recurse on the last entry, so that a loop over a prefix extends them
    by one step. */
module Walk {
  import opened Common
  import Keys

  datatype Kind = Directory | File(len: u64) | Other

  /** One entry of `read_dir(root)`. */
  datatype RootEntry = RootEntry(name: string, kind: Kind)

  /** One entry of a recursive walk: its own file name (never the full path),
      whether it is a regular file, its length when the metadata can be read,
      and the time at which it is examined. */
  datatype WalkEntry = WalkEntry(name: string, isFile: bool, len: Option<u64>, at: int)

  // ---------------------------------------------------------------------------
  // Root pass.

  /** The names a sequence holds. */
  function Names(s: seq<string>): set<string>
  {
    set n | n in s
  }

  lemma NamesSnoc(s: seq<string>, i: nat)
    requires i < |s|
    ensures Names(s[..i + 1]) == Names(s[..i]) + {s[i]}
  {
    assert s[..i + 1] == s[..i] + [s[i]];
  }

  /** Names of the non-skipped child directories, in listing order. */
  function ChildDirs(es: seq<RootEntry>, showHidden: bool, ignores: seq<string>): seq<string>
  {
    if |es| == 0 then []
    else
      var e := es[|es| - 1];
      ChildDirs(es[..|es| - 1], showHidden, ignores)
        + (if !Keys.ShouldSkip(e.name, showHidden, ignores) && e.kind.Directory? then [e.name] else [])
  }

  /** Saturating total of the lengths of the non-skipped regular files. */
  function RootFilesTotal(es: seq<RootEntry>, showHidden: bool, ignores: seq<string>): u64
  {
    if |es| == 0 then 0
    else
      var e := es[|es| - 1];
      var acc := RootFilesTotal(es[..|es| - 1], showHidden, ignores);
      if !Keys.ShouldSkip(e.name, showHidden, ignores) && e.kind.File? then SatAdd(acc, e.kind.len) else acc
  }

  /** The exact (unbounded) total of the same lengths. */
  function RootFilesRaw(es: seq<RootEntry>, showHidden: bool, ignores: seq<string>): nat
  {
    if |es| == 0 then 0
    else
      var e := es[|es| - 1];
      RootFilesRaw(es[..|es| - 1], showHidden, ignores)
        + (if !Keys.ShouldSkip(e.name, showHidden, ignores) && e.kind.File? then e.kind.len else 0)
  }

  /** A name is among the child directories exactly when some listed entry of
      that name is a directory the filter keeps. */
  lemma {:induction false} ChildDirsMembers(es: seq<RootEntry>, showHidden: bool, ignores: seq<string>, n: string)
    ensures n in ChildDirs(es, showHidden, ignores) <==>
      exists i :: 0 <= i < |es| && es[i].name == n && es[i].kind.Directory? && !Keys.ShouldSkip(n, showHidden, ignores)
  {
    if |es| > 0 {
      var p := es[..|es| - 1];
      ChildDirsMembers(p, showHidden, ignores, n);
      if i :| 0 <= i < |p| && p[i].name == n && p[i].kind.Directory? && !Keys.ShouldSkip(n, showHidden, ignores) {
        assert es[i] == p[i];
      }
      if i :| 0 <= i < |es| - 1 && es[i].name == n && es[i].kind.Directory? && !Keys.ShouldSkip(n, showHidden, ignores) {
        assert p[i] == es[i];
      }
    }
  }

  /** The saturating root total is the exact total capped at `u64::MAX`. */
  lemma {:induction false} RootFilesTotalSaturates(es: seq<RootEntry>, showHidden: bool, ignores: seq<string>)
    ensures RootFilesTotal(es, showHidden, ignores) == Min(RootFilesRaw(es, showHidden, ignores), U64_MAX)
  {
    if |es| > 0 {
      var p := es[..|es| - 1];
      RootFilesTotalSaturates(p, showHidden, ignores);
      var e := es[|es| - 1];
      if !Keys.ShouldSkip(e.name, showHidden, ignores) && e.kind.File? {
        SatAddTracksMin(RootFilesTotal(p, showHidden, ignores), RootFilesRaw(p, showHidden, ignores), e.kind.len);
      }
    }
  }

  // ---------------------------------------------------------------------------
  // Recursive walk.

  /** A walk entry contributes to the totals: its own name passes the filter,
      it is a regular file and its metadata could be read. A skipped directory
      is not pruned: the entries below it are still examined one by one. */
  predicate Counts(e: WalkEntry, showHidden: bool, ignores: seq<string>)
  {
    !Keys.ShouldSkip(e.name, showHidden, ignores) && e.isFile && e.len.Some?
  }

  /** Saturating total of the lengths of the counted files. */
  function WalkBytes(es: seq<WalkEntry>, showHidden: bool, ignores: seq<string>): u64
  {
    if |es| == 0 then 0
    else
      var e := es[|es| - 1];
      var acc := WalkBytes(es[..|es| - 1], showHidden, ignores);
      if Counts(e, showHidden, ignores) then SatAdd(acc, e.len.value) else acc
  }

  /** Saturating count of the counted files. */
  function WalkItems(es: seq<WalkEntry>, showHidden: bool, ignores: seq<string>): u64
  {
    if |es| == 0 then 0
    else
      var acc := WalkItems(es[..|es| - 1], showHidden, ignores);
      if Counts(es[|es| - 1], showHidden, ignores) then SatAdd(acc, 1) else acc
  }

  /** The exact total of the counted lengths. */
  function WalkRaw(es: seq<WalkEntry>, showHidden: bool, ignores: seq<string>): nat
  {
    if |es| == 0 then 0
    else
      var e := es[|es| - 1];
      WalkRaw(es[..|es| - 1], showHidden, ignores) + (if Counts(e, showHidden, ignores) then e.len.value else 0)
  }

  /** The saturating walk total is the exact total capped at `u64::MAX`. */
  lemma {:induction false} WalkBytesSaturates(es: seq<WalkEntry>, showHidden: bool, ignores: seq<string>)
    ensures WalkBytes(es, showHidden, ignores) == Min(WalkRaw(es, showHidden, ignores), U64_MAX)
  {
    if |es| > 0 {
      var p := es[..|es| - 1];
      WalkBytesSaturates(p, showHidden, ignores);
      var e := es[|es| - 1];
      if Counts(e, showHidden, ignores) {
        SatAddTracksMin(WalkBytes(p, showHidden, ignores), WalkRaw(p, showHidden, ignores), e.len.value);
      }
    }
  }

  /** Extending a walk never lowers its total. */
  lemma {:induction false} WalkBytesMonotone(es: seq<WalkEntry>, n: nat, showHidden: bool, ignores: seq<string>)
    requires n <= |es|
    ensures WalkBytes(es[..n], showHidden, ignores) <= WalkBytes(es, showHidden, ignores)
    decreases |es|
  {
    if n < |es| {
      var p := es[..|es| - 1];
      assert p[..n] == es[..n];
      WalkBytesMonotone(p, n, showHidden, ignores);
    } else {
      assert es[..n] == es;
    }
  }
}
