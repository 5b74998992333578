/** The one-level directory lister (src-tauri/src/api/fs_list.rs).

    `read_dir` is given as its outcome: either the error opening the directory,
    or the sequence of per-entry reads, each of which may itself fail or carry
    metadata whose own read may fail. The modification time arrives already
    formatted (or absent). */
module FsList {
  import opened Common
  import Keys

  /** `FileEntry` (src-tauri/src/api/types.rs). */
  datatype FileEntry = FileEntry(name: string, isDir: bool, size: u64, modified: Option<string>)

  datatype Metadata = Metadata(isDir: bool, len: u64, modified: Option<string>)

  /** One item of the `read_dir` iterator: an error, or an entry with its metadata read. */
  datatype DirRead = ReadFailed(error: string) | Read(name: string, md: Result<Metadata>)

  predicate ReadOk(d: DirRead)
  {
    d.Read? && d.md.Ok?
  }

  function ReadError(d: DirRead): string
    requires !ReadOk(d)
  {
    if d.ReadFailed? then d.error else d.md.error
  }

  /** The entry built from one successful read: a directory is listed with size 0. */
  function MakeEntry(d: DirRead): FileEntry
    requires ReadOk(d)
  {
    var md := d.md.value;
    FileEntry(d.name, md.isDir, if md.isDir then 0 else md.len, md.modified)
  }

  /** The entries built from a listing every read of which succeeded, in read order. */
  function Built(listing: seq<DirRead>): (r: seq<FileEntry>)
    requires forall i :: 0 <= i < |listing| ==> ReadOk(listing[i])
    ensures |r| == |listing|
  {
    if |listing| == 0 then []
    else Built(listing[..|listing| - 1]) + [MakeEntry(listing[|listing| - 1])]
  }

  lemma {:induction false} BuiltAt(listing: seq<DirRead>, k: nat)
    requires forall i :: 0 <= i < |listing| ==> ReadOk(listing[i])
    requires k < |listing|
    ensures Built(listing)[k] == MakeEntry(listing[k])
  {
    if k < |listing| - 1 {
      BuiltAt(listing[..|listing| - 1], k);
    }
  }

  /** Every entry of a reordering of the built list is a directory of size 0 or
      a file carrying its own length, and comes from some entry of the listing. */
  lemma {:induction false} EntriesDescribeListing(listing: seq<DirRead>, es: seq<FileEntry>)
    requires forall i :: 0 <= i < |listing| ==> ReadOk(listing[i])
    requires multiset(es) == multiset(Built(listing))
    ensures forall e :: e in es ==> (e.isDir ==> e.size == 0)
    ensures forall e :: e in es ==>
      exists i :: (0 <= i < |listing| && listing[i].name == e.name && e.isDir == listing[i].md.value.isDir
        && e.size == (if e.isDir then 0 else listing[i].md.value.len))
  {
    forall e | e in es
      ensures e.isDir ==> e.size == 0
      ensures exists i :: (0 <= i < |listing| && listing[i].name == e.name && e.isDir == listing[i].md.value.isDir
        && e.size == (if e.isDir then 0 else listing[i].md.value.len))
    {
      assert e in multiset(Built(listing));
      var k :| 0 <= k < |listing| && Built(listing)[k] == e;
      BuiltAt(listing, k);
    }
  }

  // ---------------------------------------------------------------------------
  // The comparator of `sort_by`.

  /** `char::to_lowercase`, for ASCII letters; other characters are kept. */
  function LowerChar(c: char): char
  {
    if 'A' <= c <= 'Z' then (c as int + 32) as char else c
  }

  /** `str::to_lowercase`. */
  function Lower(s: string): (r: string)
    ensures |r| == |s|
    ensures forall i :: 0 <= i < |r| ==> !('A' <= r[i] <= 'Z')
    ensures forall i :: 0 <= i < |s| && !('A' <= s[i] <= 'Z') ==> r[i] == s[i]
  {
    seq(|s|, i requires 0 <= i < |s| => LowerChar(s[i]))
  }

  datatype Ordering = Less | Equal | Greater

  /** `Ord::cmp` on strings. */
  function CmpStr(a: string, b: string): Ordering
  {
    if a == b then Equal else if Keys.LexLe(a, b) then Less else Greater
  }

  /** Directories before files; within a kind, by lower-cased name. */
  function CompareEntries(a: FileEntry, b: FileEntry): (r: Ordering)
    ensures a.isDir && !b.isDir ==> r == Less
    ensures !a.isDir && b.isDir ==> r == Greater
    ensures a.isDir == b.isDir ==> (r == Equal <==> Lower(a.name) == Lower(b.name))
    ensures a.isDir == b.isDir ==> (r != Greater <==> Keys.LexLe(Lower(a.name), Lower(b.name)))
  {
    CmpStrLe(Lower(a.name), Lower(b.name));
    match (a.isDir, b.isDir)
    case (true, false) => Less
    case (false, true) => Greater
    case _ => CmpStr(Lower(a.name), Lower(b.name))
  }

  /** `a` may stand before `b` in the sorted listing. */
  predicate EntryLe(a: FileEntry, b: FileEntry)
  {
    CompareEntries(a, b) != Greater
  }

  lemma CmpStrLe(a: string, b: string)
    ensures CmpStr(a, b) != Greater <==> Keys.LexLe(a, b)
  {
    if a == b {
      Keys.LexLeReflexive(a);
    }
  }

  /** The comparator answers consistently from both sides: `a < b` exactly when `b > a`,
      and `a == b` exactly when `b == a`. */
  lemma CompareEntriesAntisymmetric(a: FileEntry, b: FileEntry)
    ensures CompareEntries(a, b) == Less <==> CompareEntries(b, a) == Greater
    ensures CompareEntries(a, b) == Equal <==> CompareEntries(b, a) == Equal
  {
    var x, y := Lower(a.name), Lower(b.name);
    if a.isDir == b.isDir && x != y {
      Keys.LexLeTotal(x, y);
      if Keys.LexLe(x, y) && Keys.LexLe(y, x) {
        Keys.LexLeAntisymmetric(x, y);
      }
    }
  }

  /** The comparator is a total preorder: reflexive, transitive, and any two entries are comparable. */
  lemma EntryLeReflexive(a: FileEntry)
    ensures EntryLe(a, a)
  {
  }

  lemma EntryLeTotal(a: FileEntry, b: FileEntry)
    ensures EntryLe(a, b) || EntryLe(b, a)
  {
    CmpStrLe(Lower(a.name), Lower(b.name));
    CmpStrLe(Lower(b.name), Lower(a.name));
    Keys.LexLeTotal(Lower(a.name), Lower(b.name));
  }

  lemma EntryLeTransitive(a: FileEntry, b: FileEntry, c: FileEntry)
    requires EntryLe(a, b) && EntryLe(b, c)
    ensures EntryLe(a, c)
  {
    if a.isDir == b.isDir == c.isDir {
      CmpStrLe(Lower(a.name), Lower(b.name));
      CmpStrLe(Lower(b.name), Lower(c.name));
      CmpStrLe(Lower(a.name), Lower(c.name));
      Keys.LexLeTransitive(Lower(a.name), Lower(b.name), Lower(c.name));
    }
  }

  // ---------------------------------------------------------------------------
  // The stable sort `sort_by` performs, written as an insertion sort.

  ghost predicate EntriesSorted(s: seq<FileEntry>)
  {
    forall i, j :: 0 <= i < j < |s| ==> EntryLe(s[i], s[j])
  }

  /** Inserts `x` before the first element it may precede, so that an element
      coming earlier in the input stays before the elements it ties with. */
  function InsertEntry(x: FileEntry, s: seq<FileEntry>): (r: seq<FileEntry>)
    ensures |r| == |s| + 1
    ensures multiset(r) == multiset(s) + multiset{x}
  {
    if |s| == 0 || EntryLe(x, s[0]) then [x] + s
    else
      assert s == [s[0]] + s[1..];
      [s[0]] + InsertEntry(x, s[1..])
  }

  function SortEntries(s: seq<FileEntry>): (r: seq<FileEntry>)
    ensures |r| == |s|
    ensures multiset(r) == multiset(s)
  {
    if |s| == 0 then []
    else
      assert s == [s[0]] + s[1..];
      InsertEntry(s[0], SortEntries(s[1..]))
  }

  /** Putting in front of a sorted list an entry that may precede all of its elements keeps it sorted. */
  lemma ConsSorted(h: FileEntry, t: seq<FileEntry>)
    requires EntriesSorted(t)
    requires forall y :: y in multiset(t) ==> EntryLe(h, y)
    ensures EntriesSorted([h] + t)
  {
    var r := [h] + t;
    forall i, j | 0 <= i < j < |r| ensures EntryLe(r[i], r[j]) {
      if i == 0 {
        assert r[j] == t[j - 1] && t[j - 1] in multiset(t);
      } else {
        assert r[i] == t[i - 1] && r[j] == t[j - 1];
      }
    }
  }

  lemma {:induction false} InsertEntrySorted(x: FileEntry, s: seq<FileEntry>)
    requires EntriesSorted(s)
    ensures EntriesSorted(InsertEntry(x, s))
  {
    if |s| == 0 || EntryLe(x, s[0]) {
      forall y | y in multiset(s) ensures EntryLe(x, y) {
        var k :| 0 <= k < |s| && s[k] == y;
        if k > 0 {
          EntryLeTransitive(x, s[0], y);
        }
      }
      ConsSorted(x, s);
    } else {
      EntryLeTotal(x, s[0]);
      var t := InsertEntry(x, s[1..]);
      InsertEntrySorted(x, s[1..]);
      forall y | y in multiset(t) ensures EntryLe(s[0], y) {
        if y != x {
          assert y in multiset(s[1..]);
          var k :| 0 <= k < |s[1..]| && s[1..][k] == y;
          assert s[k + 1] == y;
        }
      }
      ConsSorted(s[0], t);
    }
  }

  lemma {:induction false} SortEntriesSorted(s: seq<FileEntry>)
    ensures EntriesSorted(SortEntries(s))
  {
    if |s| > 0 {
      SortEntriesSorted(s[1..]);
      InsertEntrySorted(s[0], SortEntries(s[1..]));
    }
  }

  /** The comparator finds `a` and `b` equal: same kind, same lower-cased name. */
  predicate Ties(a: FileEntry, b: FileEntry)
  {
    CompareEntries(a, b) == Equal
  }

  /** The entries of `s` that tie with `k`, in their order in `s`. */
  function TiesWith(k: FileEntry, s: seq<FileEntry>): seq<FileEntry>
  {
    if |s| == 0 then [] else (if Ties(k, s[0]) then [s[0]] else []) + TiesWith(k, s[1..])
  }

  /** An inserted entry goes before every entry it ties with. */
  lemma {:induction false} InsertEntryTies(x: FileEntry, s: seq<FileEntry>, k: FileEntry)
    ensures TiesWith(k, InsertEntry(x, s)) == (if Ties(k, x) then [x] else []) + TiesWith(k, s)
  {
    var r := InsertEntry(x, s);
    if |s| == 0 || EntryLe(x, s[0]) {
      assert r[1..] == s;
    } else {
      InsertEntryTies(x, s[1..], k);
      assert r[0] == s[0] && r[1..] == InsertEntry(x, s[1..]);
      if Ties(k, x) && Ties(k, s[0]) {
        CompareEntriesAntisymmetric(k, x);
        EntryLeTransitive(x, k, s[0]);
      }
    }
  }

  /** The sort is stable: entries the comparator finds equal keep their input order. */
  lemma {:induction false} SortEntriesStable(s: seq<FileEntry>, k: FileEntry)
    ensures TiesWith(k, SortEntries(s)) == TiesWith(k, s)
  {
    if |s| > 0 {
      SortEntriesStable(s[1..], k);
      InsertEntryTies(s[0], SortEntries(s[1..]), k);
    }
  }

  /** In a sorted listing no file stands before a directory, and entries of the
      same kind are in non-decreasing order of their lower-cased names. */
  lemma SortedListingOrder(s: seq<FileEntry>)
    requires EntriesSorted(s)
    ensures forall i, j :: 0 <= i < j < |s| ==> !(!s[i].isDir && s[j].isDir)
    ensures forall i, j :: 0 <= i < j < |s| && s[i].isDir == s[j].isDir ==> Keys.LexLe(Lower(s[i].name), Lower(s[j].name))
  {
    forall i, j | 0 <= i < j < |s| && s[i].isDir == s[j].isDir
      ensures Keys.LexLe(Lower(s[i].name), Lower(s[j].name))
    {
      assert EntryLe(s[i], s[j]);
      CmpStrLe(Lower(s[i].name), Lower(s[j].name));
    }
  }

  // ---------------------------------------------------------------------------

  /** `list_dir`: one entry per directory entry read, directories with size 0 and
      files with their length, directories first and then by lower-cased name.
      The first failing read (of the directory, of an entry or of its metadata)
      aborts the whole listing with that error. */
  method ListDir(dir: Result<seq<DirRead>>) returns (r: Result<seq<FileEntry>>)
    ensures dir.Err? ==> r == Err(dir.error)
    ensures dir.Ok? ==> (r.Ok? <==> forall i :: 0 <= i < |dir.value| ==> ReadOk(dir.value[i]))
    ensures dir.Ok? && r.Err? ==>
      exists i :: (0 <= i < |dir.value| && !ReadOk(dir.value[i]) && r.error == ReadError(dir.value[i])
        && forall j :: 0 <= j < i ==> ReadOk(dir.value[j]))
    ensures r.Ok? ==> dir.Ok? && r.value == SortEntries(Built(dir.value))
    ensures r.Ok? ==> dir.Ok? && |r.value| == |dir.value| && multiset(r.value) == multiset(Built(dir.value))
    ensures r.Ok? ==> EntriesSorted(r.value)
    ensures r.Ok? ==> forall e :: e in r.value ==> (e.isDir ==> e.size == 0)
    ensures r.Ok? ==> forall e :: e in r.value ==>
      exists i :: (0 <= i < |dir.value| && dir.value[i].name == e.name && e.isDir == dir.value[i].md.value.isDir
        && e.size == (if e.isDir then 0 else dir.value[i].md.value.len))
  {
    if dir.Err? {
      return Err(dir.error);
    }
    var listing := dir.value;
    var out: seq<FileEntry> := [];
    for i := 0 to |listing|
      invariant forall j :: 0 <= j < i ==> ReadOk(listing[j])
      invariant out == Built(listing[..i])
    {
      var d := listing[i];
      if d.ReadFailed? {
        return Err(d.error);
      }
      if d.md.Err? {
        return Err(d.md.error);
      }
      var md := d.md.value;
      var size := if md.isDir then 0 else md.len;
      assert listing[..i + 1][..i] == listing[..i];
      out := out + [FileEntry(d.name, md.isDir, size, md.modified)];
    }
    assert listing[..|listing|] == listing;
    var sorted := SortEntries(out);
    SortEntriesSorted(out);
    EntriesDescribeListing(listing, sorted);
    r := Ok(sorted);
  }
}
