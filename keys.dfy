/** Key derivation and the skip filter (src-tauri/src/api/path_sizer/keys.rs).

    Everything here is a pure function of its arguments. Path canonicalisation
    depends on the filesystem; it is given as a map from a path to its
    canonical form, a path the map does not resolve standing for itself. */
module Keys {
  import opened Common

  // ---------------------------------------------------------------------------
  // Rust's order on `String`: lexicographic by code point.

  predicate LexLe(a: string, b: string)
  {
    |a| == 0 || (|b| > 0 && (a[0] < b[0] || (a[0] == b[0] && LexLe(a[1..], b[1..]))))
  }

  lemma {:induction false} LexLeReflexive(a: string)
    ensures LexLe(a, a)
  {
    if |a| > 0 {
      LexLeReflexive(a[1..]);
    }
  }

  lemma {:induction false} LexLeAntisymmetric(a: string, b: string)
    requires LexLe(a, b) && LexLe(b, a)
    ensures a == b
  {
    if |a| > 0 && |b| > 0 {
      LexLeAntisymmetric(a[1..], b[1..]);
      assert a == [a[0]] + a[1..] && b == [b[0]] + b[1..];
    }
  }

  lemma {:induction false} LexLeTransitive(a: string, b: string, c: string)
    requires LexLe(a, b) && LexLe(b, c)
    ensures LexLe(a, c)
  {
    if |a| > 0 && |b| > 0 && |c| > 0 && a[0] == b[0] == c[0] {
      LexLeTransitive(a[1..], b[1..], c[1..]);
    }
  }

  lemma {:induction false} LexLeTotal(a: string, b: string)
    ensures LexLe(a, b) || LexLe(b, a)
  {
    if |a| > 0 && |b| > 0 && a[0] == b[0] {
      LexLeTotal(a[1..], b[1..]);
    }
  }

  // ---------------------------------------------------------------------------
  // `ig.sort()`: the ignore list in ascending order.

  ghost predicate StringsSorted(s: seq<string>)
  {
    forall i, j :: 0 <= i < j < |s| ==> LexLe(s[i], s[j])
  }

  function InsertString(x: string, s: seq<string>): (r: seq<string>)
    ensures |r| == |s| + 1
    ensures multiset(r) == multiset(s) + multiset{x}
  {
    if |s| == 0 || LexLe(x, s[0]) then [x] + s
    else
      assert s == [s[0]] + s[1..];
      [s[0]] + InsertString(x, s[1..])
  }

  function SortStrings(s: seq<string>): (r: seq<string>)
    ensures |r| == |s|
    ensures multiset(r) == multiset(s)
  {
    if |s| == 0 then []
    else
      assert s == [s[0]] + s[1..];
      InsertString(s[0], SortStrings(s[1..]))
  }

  lemma {:induction false} InsertStringSorted(x: string, s: seq<string>)
    requires StringsSorted(s)
    ensures StringsSorted(InsertString(x, s))
  {
    var r := InsertString(x, s);
    if |s| == 0 || LexLe(x, s[0]) {
      forall i, j | 0 <= i < j < |r| ensures LexLe(r[i], r[j]) {
        if i == 0 && j > 1 {
          LexLeTransitive(x, s[0], s[j - 1]);
        }
      }
    } else {
      LexLeTotal(x, s[0]);
      var t := InsertString(x, s[1..]);
      InsertStringSorted(x, s[1..]);
      forall i, j | 0 <= i < j < |r| ensures LexLe(r[i], r[j]) {
        if i == 0 {
          var y := t[j - 1];
          assert y in multiset(t);
          if y != x {
            assert y in multiset(s[1..]);
            var k :| 0 <= k < |s[1..]| && s[1..][k] == y;
            assert s[k + 1] == y;
          }
        }
      }
    }
  }

  lemma {:induction false} SortStringsSorted(s: seq<string>)
    ensures StringsSorted(SortStrings(s))
  {
    if |s| > 0 {
      SortStringsSorted(s[1..]);
      InsertStringSorted(s[0], SortStrings(s[1..]));
    }
  }

  lemma TailMultiset(s: seq<string>)
    requires |s| > 0
    ensures multiset(s[1..]) == multiset(s) - multiset{s[0]}
  {
    assert s == [s[0]] + s[1..];
  }

  /** The head of an ascending list is below every element of it. */
  lemma SortedHeadIsLeast(s: seq<string>, y: string)
    requires StringsSorted(s) && y in multiset(s)
    ensures LexLe(s[0], y)
  {
    var j :| 0 <= j < |s| && s[j] == y;
    if j == 0 {
      LexLeReflexive(y);
    }
  }

  lemma SortedTail(s: seq<string>)
    requires StringsSorted(s) && |s| > 0
    ensures StringsSorted(s[1..])
  {
    forall i, j | 0 <= i < j < |s| - 1 ensures LexLe(s[1..][i], s[1..][j]) {
      assert s[1..][i] == s[i + 1] && s[1..][j] == s[j + 1];
    }
  }

  /** Two non-empty ascending lists holding the same strings start alike. */
  lemma SortedHeadsAgree(a: seq<string>, b: seq<string>)
    requires StringsSorted(a) && StringsSorted(b)
    requires multiset(a) == multiset(b) && |a| > 0 && |b| > 0
    ensures a[0] == b[0]
  {
    assert a[0] in multiset(a) && b[0] in multiset(b);
    SortedHeadIsLeast(a, b[0]);
    SortedHeadIsLeast(b, a[0]);
    LexLeAntisymmetric(a[0], b[0]);
  }

  /** Two ascending lists holding the same strings are the same list. */
  lemma {:induction false} SortedUnique(a: seq<string>, b: seq<string>)
    requires StringsSorted(a) && StringsSorted(b)
    requires multiset(a) == multiset(b)
    ensures a == b
    decreases |a|
  {
    assert |a| == |multiset(a)| == |multiset(b)| == |b|;
    if |a| > 0 {
      SortedHeadsAgree(a, b);
      TailMultiset(a);
      TailMultiset(b);
      SortedTail(a);
      SortedTail(b);
      SortedUnique(a[1..], b[1..]);
      assert a == [a[0]] + a[1..] && b == [b[0]] + b[1..];
    }
  }

  /** Sorting is determined by the multiset of its input: any permutation sorts to the same list. */
  lemma {:induction false} SortStringsPermutation(a: seq<string>, b: seq<string>)
    requires multiset(a) == multiset(b)
    ensures SortStrings(a) == SortStrings(b)
  {
    SortStringsSorted(a);
    SortStringsSorted(b);
    SortedUnique(SortStrings(a), SortStrings(b));
  }

  // ---------------------------------------------------------------------------
  // `join(",")`.

  function Join(parts: seq<string>, sep: string): string
  {
    if |parts| == 0 then ""
    else if |parts| == 1 then parts[0]
    else parts[0] + sep + Join(parts[1..], sep)
  }

  /** `ignores_sig`: the ignore patterns, sorted, joined with commas. */
  function IgnoresSig(ignores: seq<string>): string
  {
    Join(SortStrings(ignores), ",")
  }

  /** The signature does not depend on the order in which the patterns are given. */
  lemma IgnoresSigPermutation(a: seq<string>, b: seq<string>)
    requires multiset(a) == multiset(b)
    ensures IgnoresSig(a) == IgnoresSig(b)
  {
    SortStringsPermutation(a, b);
  }

  /** Each part occurs in the joined text. */
  lemma {:induction false} JoinOccurs(parts: seq<string>, sep: string, i: nat)
    requires i < |parts|
    ensures exists k :: OccursAt(Join(parts, sep), parts[i], k)
  {
    var s := Join(parts, sep);
    if |parts| == 1 || i == 0 {
      assert OccursAt(s, parts[i], 0);
    } else {
      JoinOccurs(parts[1..], sep, i - 1);
      var rest := Join(parts[1..], sep);
      var k :| OccursAt(rest, parts[1..][i - 1], k);
      var off := |parts[0]| + |sep|;
      assert s == parts[0] + sep + rest;
      assert s[off + k..off + k + |parts[i]|] == rest[k..k + |parts[i]|];
      assert OccursAt(s, parts[i], off + k);
    }
  }

  /** Every ignore pattern occurs in the signature. */
  lemma IgnoresSigContainsPatterns(ignores: seq<string>, p: string)
    requires p in ignores
    ensures Contains(IgnoresSig(ignores), p)
  {
    var sorted := SortStrings(ignores);
    assert p in multiset(sorted);
    var i :| 0 <= i < |sorted| && sorted[i] == p;
    JoinOccurs(sorted, ",", i);
    ContainsIff(IgnoresSig(ignores), p);
  }

  /** No patterns give the empty signature; one pattern is its own signature. */
  lemma IgnoresSigSmall(p: string)
    ensures IgnoresSig([]) == ""
    ensures IgnoresSig([p]) == p
  {
  }

  /** The signature is not injective: a pattern containing a comma collides with
      the list of its comma-separated pieces, although the two lists filter
      different names. */
  lemma IgnoresSigCollision()
    ensures IgnoresSig(["a,b"]) == IgnoresSig(["a", "b"])
    ensures !ShouldSkip("a", true, ["a,b"]) && ShouldSkip("a", true, ["a", "b"])
  {
    assert LexLe("a", "b");
    assert SortStrings(["a", "b"]) == ["a", "b"] by {
      assert ["a", "b"][1..] == ["b"];
    }
    assert !Contains("a", "a,b") by {
      assert !("a,b" <= "a");
      assert "a"[1..] == "";
      assert !("a,b" <= "");
    }
    assert Contains("a", "a") by {
      assert "a" <= "a";
    }
  }

  // ---------------------------------------------------------------------------
  // Cache key and scan key.

  /** The filesystem's answer to `canonicalize`, for the paths it resolves. */
  type Canon = map<string, string>

  /** `normalize_path`: the canonical path, or the path itself when canonicalisation fails. */
  function NormalizePath(canon: Canon, p: string): string
  {
    if p in canon then canon[p] else p
  }

  /** `make_cache_key`. */
  function MakeCacheKey(canon: Canon, path: string, showHidden: bool, ignores: seq<string>): CacheKey
  {
    CacheKey(NormalizePath(canon, path), showHidden, IgnoresSig(ignores))
  }

  /** The cache key holds the canonical path when canonicalisation succeeds and
      the path as given when it fails, the hidden flag, and a signature in
      which every ignore pattern occurs. */
  lemma MakeCacheKeyFields(canon: Canon, path: string, showHidden: bool, ignores: seq<string>)
    ensures var key := MakeCacheKey(canon, path, showHidden, ignores);
      (path in canon ==> key.path == canon[path]) &&
      (path !in canon ==> key.path == path) &&
      key.showHidden == showHidden &&
      forall p :: p in ignores ==> Contains(key.ignoresSig, p)
  {
    forall p | p in ignores ensures Contains(IgnoresSig(ignores), p) {
      IgnoresSigContainsPatterns(ignores, p);
    }
  }

  /** Two requests share a cache record exactly when their normalised paths,
      hidden flags and ignore signatures agree; in particular the order of the
      ignore patterns never matters. */
  lemma CacheKeyAgreement(canon: Canon, p: string, q: string, h1: bool, h2: bool, a: seq<string>, b: seq<string>)
    ensures MakeCacheKey(canon, p, h1, a) == MakeCacheKey(canon, q, h2, b)
        <==> NormalizePath(canon, p) == NormalizePath(canon, q) && h1 == h2 && IgnoresSig(a) == IgnoresSig(b)
    ensures NormalizePath(canon, p) == NormalizePath(canon, q) && h1 == h2 && multiset(a) == multiset(b)
        ==> MakeCacheKey(canon, p, h1, a) == MakeCacheKey(canon, q, h2, b)
  {
    if multiset(a) == multiset(b) {
      IgnoresSigPermutation(a, b);
    }
  }

  /** Rust's `Display` for `bool`. */
  function BoolText(b: bool): string
  {
    if b then "true" else "false"
  }

  /** `make_scan_key`: the RAW path (not canonicalised), the hidden flag and the
      ignore signature, separated by bars. It identifies a job and its events. */
  function ScanKey(rawPath: string, showHidden: bool, ignores: seq<string>): string
  {
    rawPath + "|" + BoolText(showHidden) + "|" + IgnoresSig(ignores)
  }

  /** The scan key starts with the raw path exactly as given, followed by a bar. */
  lemma ScanKeyStartsWithRawPath(rawPath: string, showHidden: bool, ignores: seq<string>)
    ensures rawPath + "|" <= ScanKey(rawPath, showHidden, ignores)
  {
    assert ScanKey(rawPath, showHidden, ignores) == (rawPath + "|") + (BoolText(showHidden) + "|" + IgnoresSig(ignores));
  }

  /** Permuting the ignore patterns does not change the scan key. */
  lemma ScanKeyPermutation(rawPath: string, showHidden: bool, a: seq<string>, b: seq<string>)
    requires multiset(a) == multiset(b)
    ensures ScanKey(rawPath, showHidden, a) == ScanKey(rawPath, showHidden, b)
  {
    IgnoresSigPermutation(a, b);
  }

  /** A common prefix can be cancelled from two equal strings. */
  lemma PrefixCancel(p: string, x: string, y: string)
    requires p + x == p + y
    ensures x == y
  {
    assert x == (p + x)[|p|..];
    assert y == (p + y)[|p|..];
  }

  /** The bar-separated text of a path, a flag and a signature determines the
      flag and the signature. */
  lemma BarTextDistinguishes(p: string, h1: bool, h2: bool, s1: string, s2: string)
    ensures p + "|" + BoolText(h1) + "|" + s1 == p + "|" + BoolText(h2) + "|" + s2 <==> h1 == h2 && s1 == s2
  {
    var t1 := BoolText(h1) + "|" + s1;
    var t2 := BoolText(h2) + "|" + s2;
    assert p + "|" + BoolText(h1) + "|" + s1 == (p + "|") + t1;
    assert p + "|" + BoolText(h2) + "|" + s2 == (p + "|") + t2;
    if (p + "|") + t1 == (p + "|") + t2 {
      PrefixCancel(p + "|", t1, t2);
      assert t1[0] == BoolText(h1)[0] && t2[0] == BoolText(h2)[0];
      assert h1 == h2;
      assert t1 == (BoolText(h1) + "|") + s1;
      assert t2 == (BoolText(h1) + "|") + s2;
      PrefixCancel(BoolText(h1) + "|", s1, s2);
    }
  }

  /** For one raw path, two scan keys are equal exactly when the hidden flags and
      the ignore signatures are. */
  lemma ScanKeyDistinguishes(rawPath: string, h1: bool, h2: bool, a: seq<string>, b: seq<string>)
    ensures ScanKey(rawPath, h1, a) == ScanKey(rawPath, h2, b) <==> h1 == h2 && IgnoresSig(a) == IgnoresSig(b)
  {
    BarTextDistinguishes(rawPath, h1, h2, IgnoresSig(a), IgnoresSig(b));
  }

  // ---------------------------------------------------------------------------
  // The skip filter.

  /** `str::contains`: `pat` occurs somewhere in `s`. */
  predicate Contains(s: string, pat: string)
  {
    pat <= s || (|s| > 0 && Contains(s[1..], pat))
  }

  /** `pat` occurs in `s` starting at index `k`. */
  ghost predicate OccursAt(s: string, pat: string, k: int)
  {
    0 <= k && k + |pat| <= |s| && s[k..k + |pat|] == pat
  }

  lemma {:induction false} ContainsIff(s: string, pat: string)
    ensures Contains(s, pat) <==> exists k :: OccursAt(s, pat, k)
  {
    if pat <= s {
      assert OccursAt(s, pat, 0);
    }
    if |s| > 0 {
      ContainsIff(s[1..], pat);
      if Contains(s[1..], pat) {
        var k :| OccursAt(s[1..], pat, k);
        assert s[1..][k..k + |pat|] == s[k + 1..k + 1 + |pat|];
        assert OccursAt(s, pat, k + 1);
      }
      if k :| OccursAt(s, pat, k) {
        if k > 0 {
          assert s[1..][k - 1..k - 1 + |pat|] == s[k..k + |pat|];
          assert OccursAt(s[1..], pat, k - 1);
        } else {
          assert pat <= s;
        }
      }
    } else {
      if k :| OccursAt(s, pat, k) {
        assert |pat| == 0 && pat <= s;
      }
    }
  }

  /** `ignores.iter().any(|ig| name.contains(ig))`. */
  predicate AnyContains(name: string, ignores: seq<string>)
  {
    |ignores| > 0 && (Contains(name, ignores[0]) || AnyContains(name, ignores[1..]))
  }

  lemma {:induction false} AnyContainsIff(name: string, ignores: seq<string>)
    ensures AnyContains(name, ignores) <==> exists i :: 0 <= i < |ignores| && Contains(name, ignores[i])
  {
    if |ignores| > 0 {
      AnyContainsIff(name, ignores[1..]);
      if i :| 1 <= i < |ignores| && Contains(name, ignores[i]) {
        assert ignores[1..][i - 1] == ignores[i];
      }
    }
  }

  /** A hidden name: one starting with a dot. */
  predicate IsHidden(name: string)
  {
    |name| > 0 && name[0] == '.'
  }

  /** `should_skip`: hidden names when hidden files are not shown, and any name
      containing one of the ignore patterns. */
  predicate ShouldSkip(name: string, showHidden: bool, ignores: seq<string>)
  {
    if !showHidden && IsHidden(name) then true
    else AnyContains(name, ignores)
  }

  /** The filter skips a name exactly when it is hidden and hidden files are not
      shown, or some ignore pattern occurs in it as a substring. */
  lemma ShouldSkipIff(name: string, showHidden: bool, ignores: seq<string>)
    ensures ShouldSkip(name, showHidden, ignores) <==>
      (!showHidden && IsHidden(name)) ||
      exists i, k :: 0 <= i < |ignores| && OccursAt(name, ignores[i], k)
  {
    AnyContainsIff(name, ignores);
    if i, k :| 0 <= i < |ignores| && OccursAt(name, ignores[i], k) {
      ContainsIff(name, ignores[i]);
    }
    if i :| 0 <= i < |ignores| && Contains(name, ignores[i]) {
      ContainsIff(name, ignores[i]);
    }
  }

  /** An empty ignore pattern matches, and so skips, every name. */
  lemma EmptyPatternSkipsAll(name: string, showHidden: bool, ignores: seq<string>)
    requires "" in ignores
    ensures ShouldSkip(name, showHidden, ignores)
  {
    var i :| 0 <= i < |ignores| && ignores[i] == "";
    assert OccursAt(name, ignores[i], 0);
    ShouldSkipIff(name, showHidden, ignores);
  }
}
