/** Machine words, options and the cached object, shared by the cache modules. */
module Words {

  datatype Option<+T> = None | Some(value: T)

  // Go's uint64, with wrap-around arithmetic.
  type u64 = x: int | 0 <= x < 0x1_0000_0000_0000_0000

  type byte = x: int | 0 <= x < 256

  // A Go byte slice: its length is an int, so it always fits a uint64.
  type Bytes = b: seq<byte> | |b| < 0x8000_0000_0000_0000

  function AddU64(a: u64, b: u64): u64 {
    if a + b < 0x1_0000_0000_0000_0000 then a + b else a + b - 0x1_0000_0000_0000_0000
  }

  function SubU64(a: u64, b: u64): u64 {
    if b <= a then a - b else a - b + 0x1_0000_0000_0000_0000
  }

  // Go's ^x
  function NotU64(a: u64): u64 {
    0xFFFF_FFFF_FFFF_FFFF - a
  }

  // How the caches subtract: atomic.AddUint64(&a, ^uint64(n-1)).
  function MinusU64(a: u64, n: u64): (r: u64)
    ensures r == SubU64(a, n)
  {
    AddU64(a, NotU64(SubU64(n, 1)))
  }

  // A natural number reduced to a word.
  function Reduced(total: nat): u64 {
    total % 0x1_0000_0000_0000_0000
  }

  predicate Tracks(size: u64, total: nat) {
    size == Reduced(total)
  }

  // A wrapped size keeps tracking a total through a change, however large both have become.
  lemma TracksChange(size: u64, total: nat, oldSize: u64, newSize: u64)
    requires Tracks(size, total) && oldSize <= total
    ensures Tracks(AddU64(size, SubU64(newSize, oldSize)), total - oldSize + newSize)
    ensures SubU64(newSize, oldSize) == 0 ==> newSize == oldSize
  {
  }

  lemma TracksMinus(size: u64, total: nat, n: u64)
    requires Tracks(size, total) && n <= total
    ensures Tracks(SubU64(size, n), total - n)
  {
  }

  /** cacheobj.CacheObj, without the header and time fields no cache decision reads. */
  datatype CacheObj = CacheObj(body: Bytes, code: int, lastModified: int, size: u64, hitCount: u64)

  function Hit(o: CacheObj): CacheObj {
    o.(hitCount := AddU64(o.hitCount, 1))
  }

  // Equal up to the hit counter.
  predicate Same(a: CacheObj, b: CacheObj) {
    a.(hitCount := 0) == b.(hitCount := 0)
  }
}
