/** The process-wide size cache and its batch lookup
    (src-tauri/src/api/path_sizer/cache.rs). */
module Cache {
  import opened Common
  import Keys

  /** `SIZE_CACHE`: one record per cache key. */
  class SizeCache {
    var entries: map<CacheKey, CacheEntry>

    constructor ()
      ensures entries == map[]
    {
      entries := map[];
    }

    /** `get_cached_sizes`: one answer per requested path, in request order,
        every path keyed with the same filter options. Only reads the cache. */
    method GetCachedSizes(canon: Keys.Canon, paths: seq<string>, showHidden: bool, ignores: seq<string>)
      returns (out: seq<Option<CachedSize>>)
      ensures |out| == |paths|
      ensures forall i :: 0 <= i < |paths| ==>
        var key := Keys.MakeCacheKey(canon, paths[i], showHidden, ignores);
        (out[i].None? <==> key !in entries) &&
        (out[i].Some? ==> out[i].value == (entries[key].bytes, entries[key].items, entries[key].completed))
      ensures forall i, j :: 0 <= i < |paths| && 0 <= j < |paths| && paths[i] == paths[j] ==> out[i] == out[j]
    {
      out := [];
      for k := 0 to |paths|
        invariant |out| == k
        invariant forall i :: 0 <= i < k ==> out[i] == Lookup(entries, Keys.MakeCacheKey(canon, paths[i], showHidden, ignores))
      {
        var key := Keys.MakeCacheKey(canon, paths[k], showHidden, ignores);
        if key in entries {
          var e := entries[key];
          out := out + [Some((e.bytes, e.items, e.completed))];
        } else {
          out := out + [None];
        }
      }
    }
  }

  /** The answer for a path does not depend on the order of the ignore patterns. */
  lemma LookupIgnoresOrder(entries: map<CacheKey, CacheEntry>, canon: Keys.Canon, p: string, showHidden: bool,
                           a: seq<string>, b: seq<string>)
    requires multiset(a) == multiset(b)
    ensures Lookup(entries, Keys.MakeCacheKey(canon, p, showHidden, a))
         == Lookup(entries, Keys.MakeCacheKey(canon, p, showHidden, b))
  {
    Keys.CacheKeyAgreement(canon, p, p, showHidden, showHidden, a, b);
  }
}
