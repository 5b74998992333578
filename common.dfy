/** Vocabulary shared by every part of the directory-size engine: optional
    values, results carrying an error message, unsigned 64-bit quantities with
    saturating arithmetic, and the size-cache key and record. */
module Common {

  datatype Option<+T> = None | Some(value: T)

  /** A fallible result; errors are the stringified messages the commands return. */
  datatype Result<+T> = Ok(value: T) | Err(error: string)

  const U64_MAX: nat := 0xFFFF_FFFF_FFFF_FFFF

  /** Rust's `u64`. */
  type u64 = x: int | 0 <= x <= U64_MAX

  /** `u64::saturating_add`: the exact sum when it fits, otherwise `u64::MAX`. */
  function SatAdd(a: u64, b: u64): (r: u64)
    ensures a <= r && b <= r && r <= a + b
    ensures r < U64_MAX ==> r == a + b
    ensures a + b <= U64_MAX ==> r == a + b
  {
    if a + b > U64_MAX then U64_MAX else a + b
  }

  /** `u64::saturating_sub`: the exact difference when it is not negative, otherwise 0. */
  function SatSub(a: u64, b: u64): (r: u64)
    ensures r <= a
    ensures b <= a ==> r + b == a
    ensures a <= b ==> r == 0
  {
    if a >= b then a - b else 0
  }

  function Min(a: int, b: int): int {
    if a <= b then a else b
  }

  /** A saturating accumulator that has absorbed an exact total `raw` holds `min(raw, u64::MAX)`;
      adding one more non-negative amount keeps it so. */
  lemma SatAddTracksMin(acc: u64, raw: nat, x: u64)
    requires acc == Min(raw, U64_MAX)
    ensures SatAdd(acc, x) == Min(raw + x, U64_MAX)
  {
  }

  /** Key of the size cache: the (normalised) path plus the two filter options,
      the ignore list being folded into its order-independent signature. */
  datatype CacheKey = CacheKey(path: string, showHidden: bool, ignoresSig: string)

  /** A size-cache record. `completed` is false while the size is only a lower
      bound from a scan that is still running or was interrupted. The
      `updated_at` timestamp of the source is not modelled. */
  datatype CacheEntry = CacheEntry(bytes: nat, items: nat, completed: bool)

  /** The `(bytes, items, completed)` triple the cache lookup commands return. */
  type CachedSize = (nat, nat, bool)

  /** The answer to one path of a batch lookup: the record under `key`, if any. */
  function Lookup(entries: map<CacheKey, CacheEntry>, key: CacheKey): (r: Option<CachedSize>)
    ensures r.None? <==> key !in entries
    ensures r.Some? ==> r.value == (entries[key].bytes, entries[key].items, entries[key].completed)
  {
    if key in entries then
      var e := entries[key];
      Some((e.bytes, e.items, e.completed))
    else
      None
  }
}
