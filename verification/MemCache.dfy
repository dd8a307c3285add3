/** Grove's memory cache with whole operations atomic: exact uint64 accounting, agreement of
    map and LRU, and what a garbage collection evicts. */
module MemCaches {
  import opened Words
  import opened LruList

  /** `gcChan` is the one-slot channel to the collector goroutine. */
  datatype Mem = Mem(cache: map<Key, CacheObj>, lru: Lru, sizeBytes: u64, maxSizeBytes: u64, gcChan: Option<u64>)

  function Empty(max: u64): Mem {
    Mem(map[], Lru([], map[]), 0, max, None)
  }

  // doGC: a send that does not block.
  function DoGc(m: Mem, size: u64): Mem {
    if m.gcChan.None? then m.(gcChan := Some(size)) else m
  }

  function Add(m: Mem, key: Key, val: CacheObj): Mem {
    var change := SubU64(val.size, Recorded(m.lru, key));
    var m1 := m.(cache := m.cache[key := val], lru := Touch(m.lru, key, val.size));
    if change == 0 then m1
    else
      var m2 := m1.(sizeBytes := AddU64(m1.sizeBytes, change));
      if m2.sizeBytes <= m2.maxSizeBytes then m2 else DoGc(m2, m2.sizeBytes)
  }

  function Peek(m: Mem, key: Key): Option<CacheObj> {
    if key in m.cache then Some(m.cache[key]) else None
  }

  // A hit moves the key to the front and counts on the stored object.
  function Get(m: Mem, key: Key): (Mem, Option<CacheObj>) {
    if key !in m.cache then (m, None)
    else
      var obj := m.cache[key];
      (m.(lru := Touch(m.lru, key, obj.size), cache := m.cache[key := Hit(obj)]), Some(Hit(obj)))
  }

  function EvictOne(m: Mem): Mem
    requires m.lru.order != []
  {
    var k := Oldest(m.lru);
    m.(lru := DropOldest(m.lru), cache := m.cache - {k}, sizeBytes := MinusU64(m.sizeBytes, Recorded(m.lru, k)))
  }

  function Gc(m: Mem, size: u64): Mem
    decreases |m.lru.order|
  {
    if size <= m.maxSizeBytes then m
    else if m.lru.order == [] then m.(sizeBytes := 0)
    else
      var m1 := EvictOne(m);
      Gc(m1, m1.sizeBytes)
  }

  // gcManager takes a request off the channel and collects.
  function Collect(m: Mem): Mem {
    if m.gcChan.None? then m else Gc(m.(gcChan := None), m.gcChan.value)
  }

  // ---------- the accounting invariant ----------

  // The sizes of the cached objects.
  function SizesOf(cache: map<Key, CacheObj>): map<Key, u64> {
    map k | k in cache :: cache[k].size
  }

  // The sum of the sizes of all cached objects.
  ghost function CachedBytes(m: Mem): nat {
    Sum(SizesOf(m.cache))
  }

  ghost predicate Inv(m: Mem) {
    && Valid(m.lru)
    && (forall k :: k in m.cache <==> k in m.lru.sizes)
    && (forall k | k in m.cache :: m.lru.sizes[k] == m.cache[k].size)
    && Tracks(m.sizeBytes, Total(m.lru))
    && (m.gcChan.Some? ==> m.gcChan.value > m.maxSizeBytes && m.lru.order != [])
  }

  lemma AddKeeps(m: Mem, key: Key, val: CacheObj)
    requires Inv(m)
    ensures Inv(Add(m, key, val))
  {
    hide Valid, Weight;
    TouchValid(m.lru, key, val.size);
    TouchTotal(m.lru, key, val.size);
    RecordedLe(m.lru, key);
    TracksChange(m.sizeBytes, Total(m.lru), Recorded(m.lru, key), val.size);
  }

  lemma GetKeeps(m: Mem, key: Key)
    requires Inv(m)
    ensures Inv(Get(m, key).0)
  {
    hide Valid, Weight;
    if key in m.cache {
      var size := m.cache[key].size;
      TouchValid(m.lru, key, size);
      TouchTotal(m.lru, key, size);
    }
  }

  lemma EvictKeeps(m: Mem)
    requires Inv(m) && m.gcChan.None? && m.lru.order != []
    ensures Inv(EvictOne(m))
  {
    hide Valid, Weight;
    var k := Oldest(m.lru);
    DropValid(m.lru);
    DropTotal(m.lru);
    RecordedLe(m.lru, k);
    TracksMinus(m.sizeBytes, Total(m.lru), m.lru.sizes[k]);
  }

  // ---------- garbage collection ----------

  function Restricted(cache: map<Key, CacheObj>, keys: seq<Key>): map<Key, CacheObj> {
    map k | k in cache && k in keys :: cache[k]
  }

  // What remains after keeping the `keep` newest entries weighs, as the cache tracks it.
  function NewestSize(m: Mem, keep: nat): u64
    requires keep <= |m.lru.order|
  {
    Reduced(Weight(m.lru.order[..keep], m.lru.sizes))
  }

  /** A collection given the current size keeps the longest newest-first run of entries that
      fits, so it evicts exactly the shortest oldest-first run; and it keeps their objects and
      nothing else. */
  lemma {:induction false} GcExact(m: Mem)
    requires Inv(m) && m.gcChan.None?
    ensures var r := Gc(m, m.sizeBytes);
      var keep := |r.lru.order|;
      && Inv(r) && r.gcChan.None? && r.maxSizeBytes == m.maxSizeBytes
      && keep <= |m.lru.order| && r.lru.order == m.lru.order[..keep]
      && r.cache == Restricted(m.cache, m.lru.order[..keep])
      && r.sizeBytes == NewestSize(m, keep) <= m.maxSizeBytes
      && forall j | keep < j <= |m.lru.order| :: NewestSize(m, j) > m.maxSizeBytes
    decreases |m.lru.order|
  {
    hide Valid, Weight, Recorded, MinusU64, Restricted;
    var n := |m.lru.order|;
    assert m.lru.order[..n] == m.lru.order;
    if m.sizeBytes <= m.maxSizeBytes {
      KeepAll(m);
    } else {
      PositiveSize(m);
      var m1 := EvictOne(m);
      EvictKeeps(m);
      GcExact(m1);
      forall j | 0 <= j < n
        ensures m1.lru.order[..j] == m.lru.order[..j] && NewestSize(m1, j) == NewestSize(m, j)
        ensures Restricted(m1.cache, m1.lru.order[..j]) == Restricted(m.cache, m.lru.order[..j])
      {
        EvictedPrefix(m, j);
      }
    }
  }

  lemma KeepAll(m: Mem)
    requires Inv(m)
    ensures Restricted(m.cache, m.lru.order) == m.cache
  {
  }

  // A nonzero tracked size means a nonempty list.
  lemma PositiveSize(m: Mem)
    requires Inv(m) && m.sizeBytes > 0
    ensures m.lru.order != []
  {
  }

  lemma EvictedPrefix(m: Mem, j: nat)
    requires Inv(m) && j < |m.lru.order|
    ensures var m1 := EvictOne(m);
      && m1.lru.order[..j] == m.lru.order[..j] && NewestSize(m1, j) == NewestSize(m, j)
      && Restricted(m1.cache, m1.lru.order[..j]) == Restricted(m.cache, m.lru.order[..j])
  {
    hide Weight, MinusU64, Reduced;
    var m1 := EvictOne(m);
    assert m1.lru.order[..j] == m.lru.order[..j];
    assert Oldest(m.lru) !in m.lru.order[..j];
    WeightSame(m.lru.order[..j], m.lru.sizes, m1.lru.sizes);
  }

  /** With less than 2^64 bytes cached, the entries a collection keeps are the longest
      newest-first run whose exact sizes sum to at most the maximum. */
  lemma GcLargestFit(m: Mem)
    requires Inv(m) && m.gcChan.None? && Total(m.lru) < 0x1_0000_0000_0000_0000
    ensures var keep := |Gc(m, m.sizeBytes).lru.order|;
      && keep <= |m.lru.order|
      && Weight(m.lru.order[..keep], m.lru.sizes) <= m.maxSizeBytes
      && forall j | keep < j <= |m.lru.order| :: Weight(m.lru.order[..j], m.lru.sizes) > m.maxSizeBytes
  {
    hide Valid, Weight, Gc, Restricted;
    GcExact(m);
    forall j | 0 <= j <= |m.lru.order| ensures NewestSize(m, j) == Weight(m.lru.order[..j], m.lru.sizes) {
      PrefixWeight(m.lru.order, j, m.lru.sizes);
    }
  }

  // gc finds the list empty and sets the size to zero.
  predicate Resets(m: Mem, size: u64)
    decreases |m.lru.order|
  {
    size > m.maxSizeBytes && (m.lru.order == [] || Resets(EvictOne(m), EvictOne(m).sizeBytes))
  }

  // A collection that starts on a nonempty list never empties it and goes on.
  lemma {:induction false} GcNeverResets(m: Mem, size: u64)
    requires Inv(m) && m.gcChan.None? && (size > m.maxSizeBytes ==> m.lru.order != [])
    ensures !Resets(m, size)
    decreases |m.lru.order|
  {
    if size > m.maxSizeBytes {
      var m1 := EvictOne(m);
      EvictKeeps(m);
      hide Inv;
      if m1.sizeBytes > m1.maxSizeBytes {
        PositiveSize(m1);
      }
      GcNeverResets(m1, m1.sizeBytes);
    }
  }

  // A collection keeps the invariant whatever size it was asked with, as long as the list is nonempty.
  lemma GcKeeps(m: Mem, size: u64)
    requires Inv(m) && m.gcChan.None? && (size > m.maxSizeBytes ==> m.lru.order != [])
    ensures Inv(Gc(m, size)) && Gc(m, size).gcChan.None?
    ensures size > m.maxSizeBytes ==> Gc(m, size).sizeBytes <= m.maxSizeBytes
  {
    if size > m.maxSizeBytes {
      EvictKeeps(m);
      GcExact(EvictOne(m));
    }
  }

  lemma CollectKeeps(m: Mem)
    requires Inv(m)
    ensures Inv(Collect(m))
  {
    if m.gcChan.Some? {
      GcKeeps(m.(gcChan := None), m.gcChan.value);
    }
  }

  // ---------- whole runs ----------

  datatype Op = AddOp(key: Key, val: CacheObj) | GetOp(key: Key) | CollectOp

  function Step(m: Mem, op: Op): Mem {
    match op
    case AddOp(k, v) => Add(m, k, v)
    case GetOp(k) => Get(m, k).0
    case CollectOp => Collect(m)
  }

  function Run(max: u64, ops: seq<Op>): Mem {
    if ops == [] then Empty(max) else Step(Run(max, ops[..|ops| - 1]), ops[|ops| - 1])
  }

  // The time of the last operation that used a key: an Add, or a Get that hit; -1 for never.
  function LastUse(max: u64, ops: seq<Op>, k: Key): int {
    if ops == [] then -1
    else if Uses(max, ops, k) then |ops| - 1
    else LastUse(max, ops[..|ops| - 1], k)
  }

  // The last operation of `ops` used `k`.
  predicate Uses(max: u64, ops: seq<Op>, k: Key)
    requires ops != []
  {
    match ops[|ops| - 1]
    case AddOp(key, _) => key == k
    case GetOp(key) => key == k && k in Run(max, ops[..|ops| - 1]).cache
    case CollectOp => false
  }

  // Later in the list means used earlier.
  ghost predicate InUseOrder(max: u64, ops: seq<Op>, order: seq<Key>) {
    && (forall i, j | 0 <= i < j < |order| :: LastUse(max, ops, order[i]) > LastUse(max, ops, order[j]))
    && (forall i | 0 <= i < |order| :: 0 <= LastUse(max, ops, order[i]) < |ops|)
  }

  lemma {:induction false} RunInv(max: u64, ops: seq<Op>)
    ensures Inv(Run(max, ops))
  {
    if ops != [] {
      hide Inv;
      var m := Run(max, ops[..|ops| - 1]);
      RunInv(max, ops[..|ops| - 1]);
      match ops[|ops| - 1]
      case AddOp(k, v) => AddKeeps(m, k, v);
      case GetOp(k) => GetKeeps(m, k);
      case CollectOp => CollectKeeps(m);
    }
  }

  lemma TouchUse(max: u64, ops: seq<Op>, l: Lru, k: Key, size: u64)
    requires ops != [] && Uses(max, ops, k) && forall x | x != k :: !Uses(max, ops, x)
    requires Valid(l) && InUseOrder(max, ops[..|ops| - 1], l.order)
    ensures InUseOrder(max, ops, Touch(l, k, size).order)
  {
    var rest := if k in l.sizes then Without(l.order, k) else l.order;
    RestUse(max, ops, l, k, rest);
    FrontUse(max, ops, k, rest);
  }

  // The other keys keep their last use, and their order.
  lemma RestUse(max: u64, ops: seq<Op>, l: Lru, k: Key, rest: seq<Key>)
    requires ops != [] && (forall x | x != k :: !Uses(max, ops, x)) && Valid(l) && InUseOrder(max, ops[..|ops| - 1], l.order)
    requires rest == if k in l.sizes then Without(l.order, k) else l.order
    ensures forall i | 0 <= i < |rest| :: 0 <= LastUse(max, ops, rest[i]) < |ops| - 1
    ensures forall i, j | 0 <= i < j < |rest| :: LastUse(max, ops, rest[i]) > LastUse(max, ops, rest[j])
  {
    var before := ops[..|ops| - 1];
    WithoutMembers(l.order, k);
    WithoutOrder(l.order, k, x => LastUse(max, before, x));
    hide Uses, Without, LastUse;
    forall i | 0 <= i < |rest|
      ensures LastUse(max, ops, rest[i]) == LastUse(max, before, rest[i]) && 0 <= LastUse(max, before, rest[i]) < |before|
    {
      assert rest[i] in rest;
      assert rest[i] in l.order && rest[i] != k;
      UseKept(max, ops, l.order, rest[i]);
    }
  }

  // The key just used goes to the front.
  lemma FrontUse(max: u64, ops: seq<Op>, k: Key, rest: seq<Key>)
    requires ops != [] && Uses(max, ops, k)
    requires forall i | 0 <= i < |rest| :: 0 <= LastUse(max, ops, rest[i]) < |ops| - 1
    requires forall i, j | 0 <= i < j < |rest| :: LastUse(max, ops, rest[i]) > LastUse(max, ops, rest[j])
    ensures InUseOrder(max, ops, [k] + rest)
  {
    assert LastUse(max, ops, k) == |ops| - 1;
    hide Uses, LastUse;
    var all := [k] + rest;
    forall i, j | 0 <= i < j < |all| ensures LastUse(max, ops, all[i]) > LastUse(max, ops, all[j]) {
      assert all[j] == rest[j - 1] && (i > 0 ==> all[i] == rest[i - 1]);
    }
    forall i | 0 <= i < |all| ensures 0 <= LastUse(max, ops, all[i]) < |ops| {
      assert i > 0 ==> all[i] == rest[i - 1];
    }
  }

  lemma UseKept(max: u64, ops: seq<Op>, order: seq<Key>, x: Key)
    requires ops != [] && !Uses(max, ops, x) && x in order && InUseOrder(max, ops[..|ops| - 1], order)
    ensures LastUse(max, ops, x) == LastUse(max, ops[..|ops| - 1], x) && 0 <= LastUse(max, ops, x) < |ops| - 1
  {
    hide Uses;
    var j :| 0 <= j < |order| && order[j] == x;
  }

  // The list is always in order of last use.
  lemma {:induction false} RunOrder(max: u64, ops: seq<Op>)
    ensures InUseOrder(max, ops, Run(max, ops).lru.order)
  {
    if ops != [] {
      var before := ops[..|ops| - 1];
      var m := Run(max, before);
      RunOrder(max, before);
      RunInv(max, before);
      match ops[|ops| - 1]
      case AddOp(k, v) =>
        TouchUse(max, ops, m.lru, k, v.size);
      case GetOp(k) =>
        if k in m.cache {
          TouchUse(max, ops, m.lru, k, m.cache[k].size);
        }
      case CollectOp =>
        CollectOrder(m);
    }
  }

  /** After any run of whole operations the tracked size is the sum of the cached sizes modulo
      2^64, and map and list hold the same keys and sizes, the list in order of last use. */
  lemma RunAccounts(max: u64, ops: seq<Op>)
    ensures var m := Run(max, ops);
      && m.sizeBytes == Reduced(CachedBytes(m))
      && (forall k :: k in m.cache <==> k in m.lru.order)
      && (forall k | k in m.cache :: k in m.lru.sizes && m.lru.sizes[k] == m.cache[k].size)
      && InUseOrder(max, ops, m.lru.order)
  {
    RunInv(max, ops);
    RunOrder(max, ops);
    var m := Run(max, ops);
    WeightSame(m.lru.order, m.lru.sizes, SizesOf(m.cache));
    WeightIsSum(m.lru.order, SizesOf(m.cache));
  }

  /** After any run, the collection that is asked for, however stale its request, never takes the
      branch for an empty list. */
  lemma RunNeverResets(max: u64, ops: seq<Op>)
    ensures var m := Run(max, ops); m.gcChan.Some? ==> !Resets(m.(gcChan := None), m.gcChan.value)
  {
    RunInv(max, ops);
    var m := Run(max, ops);
    if m.gcChan.Some? {
      GcNeverResets(m.(gcChan := None), m.gcChan.value);
    }
  }

  // A collection only shortens the list.
  lemma CollectOrder(m: Mem)
    requires Inv(m)
    ensures Collect(m).lru.order <= m.lru.order
  {
    if m.gcChan.Some? {
      GcPrefix(m.(gcChan := None), m.gcChan.value);
    }
  }

  lemma {:induction false} GcPrefix(m: Mem, size: u64)
    ensures Gc(m, size).lru.order <= m.lru.order
    decreases |m.lru.order|
  {
    if size > m.maxSizeBytes && m.lru.order != [] {
      GcPrefix(EvictOne(m), EvictOne(m).sizeBytes);
    }
  }

  // ---------- a collection is asked for, and helps ----------

  lemma StepAsks(m: Mem, op: Op)
    requires Inv(m) && (m.sizeBytes > m.maxSizeBytes ==> m.gcChan.Some?)
    ensures var r := Step(m, op); r.maxSizeBytes == m.maxSizeBytes && (r.sizeBytes > r.maxSizeBytes ==> r.gcChan.Some?)
    ensures op.CollectOp? ==> Step(m, op).gcChan.None? && Step(m, op).sizeBytes <= m.maxSizeBytes
  {
    if op.CollectOp? && m.gcChan.Some? {
      GcKeeps(m.(gcChan := None), m.gcChan.value);
      GcSameMax(m.(gcChan := None), m.gcChan.value);
    }
    hide Inv, Gc, Touch;
  }

  lemma {:induction false} GcSameMax(m: Mem, size: u64)
    ensures Gc(m, size).maxSizeBytes == m.maxSizeBytes
    decreases |m.lru.order|
  {
    if size > m.maxSizeBytes && m.lru.order != [] {
      GcSameMax(EvictOne(m), EvictOne(m).sizeBytes);
    }
  }

  /** After any run, a tracked size over the maximum has a collection asked for; so with none
      pending the cached bytes, modulo 2^64, are within the maximum. And a collection leaves none
      pending. */
  lemma {:induction false} RunAsks(max: u64, ops: seq<Op>)
    ensures var m := Run(max, ops);
      && m.maxSizeBytes == max && (m.sizeBytes > max ==> m.gcChan.Some?)
      && (m.gcChan.None? ==> Reduced(CachedBytes(m)) <= max)
      && (ops != [] && ops[|ops| - 1].CollectOp? ==> m.gcChan.None?)
  {
    if ops != [] {
      hide Inv, Step, CachedBytes;
      RunAsks(max, ops[..|ops| - 1]);
      RunInv(max, ops[..|ops| - 1]);
      StepAsks(Run(max, ops[..|ops| - 1]), ops[|ops| - 1]);
    }
    hide Run, CachedBytes, Inv, InUseOrder;
    RunAccounts(max, ops);
  }

  // An Add over the maximum asks with the new size, unless a request is waiting: that one stays.
  lemma RequestKept(m: Mem, k: Key, v: CacheObj)
    requires Inv(m)
    ensures m.gcChan.Some? ==> Add(m, k, v).gcChan == m.gcChan
    ensures m.gcChan.None? && Add(m, k, v).sizeBytes > m.maxSizeBytes && v.size != Recorded(m.lru, k) ==>
      Add(m, k, v).gcChan == Some(Add(m, k, v).sizeBytes)
    ensures m.gcChan.None? && Add(m, k, v).sizeBytes <= m.maxSizeBytes ==> Add(m, k, v).gcChan.None?
  {
    hide Inv, Touch;
  }

  // ---------- the cache as a map ----------

  /** An Add is found until it is replaced or collected, and touches no other key; a Get finds
      exactly what a Peek finds, counted once more, and leaves that behind. */
  lemma MapLaws(m: Mem, k: Key, v: CacheObj, x: Key)
    ensures Peek(Add(m, k, v), x) == if x == k then Some(v) else Peek(m, x)
    ensures Peek(m, k).None? ==> Get(m, k) == (m, None)
    ensures Peek(m, k).Some? ==>
      && Get(m, k).1 == Some(Hit(Peek(m, k).value)) && Get(m, k).1.value.hitCount == AddU64(Peek(m, k).value.hitCount, 1)
      && Peek(Get(m, k).0, x) == if x == k then Get(m, k).1 else Peek(m, x)
    ensures Peek(Empty(m.maxSizeBytes), x).None? && (Peek(m, x).Some? <==> x in m.cache)
  {
    hide Touch;
  }

  // ---------- the cache as it is kept in memory ----------

  class MemCache {
    const lru: LRU
    var cache: map<Key, CacheObj>
    var sizeBytes: u64
    const maxSizeBytes: u64
    var gcChan: Option<u64>

    ghost function View(): Mem
      reads this, lru
    {
      Mem(cache, lru.View(), sizeBytes, maxSizeBytes, gcChan)
    }

    constructor (bytes: u64)
      ensures View() == Empty(bytes) && Inv(View()) && fresh(lru)
    {
      lru := new LRU();
      cache, sizeBytes, maxSizeBytes, gcChan := map[], 0, bytes, None;
    }

    method GetObj(key: Key) returns (obj: Option<CacheObj>)
      requires Inv(View())
      modifies this, lru
      ensures View() == Get(old(View()), key).0 && obj == Get(old(View()), key).1 && Inv(View())
    {
      GetKeeps(View(), key);
      hide Inv;
      if key !in cache {
        return None;
      }
      obj := Some(Hit(cache[key]));
      var _ := lru.Add(key, cache[key].size);
      cache := cache[key := obj.value];
    }

    method PeekObj(key: Key) returns (obj: Option<CacheObj>)
      ensures obj == Peek(View(), key)
    {
      obj := if key in cache then Some(cache[key]) else None;
    }

    method AddObj(key: Key, val: CacheObj) returns (evicted: bool)
      requires Inv(View())
      modifies this, lru
      ensures View() == Add(old(View()), key, val) && Inv(View()) && !evicted
    {
      AddKeeps(View(), key, val);
      hide Inv, Touch;
      evicted := false;
      cache := cache[key := val];
      var oldSize := lru.Add(key, val.size);
      var sizeChange := SubU64(val.size, oldSize);
      if sizeChange == 0 {
        return;
      }
      sizeBytes := AddU64(sizeBytes, sizeChange);
      if sizeBytes <= maxSizeBytes {
        return;
      }
      if gcChan.None? {
        gcChan := Some(sizeBytes);
      }
    }

    // One round of gcManager.
    method CollectOnce()
      requires Inv(View())
      modifies this, lru
      ensures View() == Collect(old(View())) && Inv(View())
    {
      CollectKeeps(View());
      if gcChan.Some? {
        var request := gcChan.value;
        gcChan := None;
        GcLoop(request);
      }
    }

    // gc; the branch for an empty list is shown unreachable by the assertion in it.
    method GcLoop(request: u64)
      requires Inv(View()) && gcChan.None? && (request > maxSizeBytes ==> lru.l != [])
      modifies this, lru
      ensures View() == Gc(old(View()), request) && Inv(View())
    {
      hide Valid, Total, Tracks;
      var cacheSizeBytes: u64 := request;
      while cacheSizeBytes > maxSizeBytes
        invariant Inv(View()) && gcChan.None?
        invariant Gc(View(), cacheSizeBytes) == Gc(old(View()), request)
        invariant cacheSizeBytes > maxSizeBytes ==> lru.l != []
        decreases |lru.l|
      {
        EvictKeeps(View());
        var oldest := lru.RemoveOldest();
        if oldest.None? {
          assert false;
          return;
        }
        var (key, size) := oldest.value;
        cache := cache - {key};
        sizeBytes := MinusU64(sizeBytes, size);
        cacheSizeBytes := sizeBytes;
        if cacheSizeBytes > maxSizeBytes {
          PositiveSize(View());
        }
      }
    }
  }
}
