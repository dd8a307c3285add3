/** The whole cache stack: a memory cache in front of hash-sharded disk caches. Whatever is
    evicted where, a hit returns the object last added for the key. */
module TierCaches {
  import opened Words
  import opened LruList
  import M = MemCaches
  import D = DiskCaches

  /** The codec of the disk tier and the hash that spreads keys over its files. */
  datatype Env = Env(codec: D.Codec, hash: Key -> u64)

  datatype Tier = Tier(first: M.Mem, second: seq<D.Disk>)

  // MultiDiskCache.keyIdx
  function KeyIdx(e: Env, n: nat, key: Key): nat
    requires n > 0
    ensures KeyIdx(e, n, key) < n && exists q: nat :: e.hash(key) == q * n + KeyIdx(e, n, key)
  {
    assert e.hash(key) == (e.hash(key) / n) * n + e.hash(key) % n;
    e.hash(key) % n
  }

  function Shard(e: Env, t: Tier, key: Key): D.Disk
    requires t.second != []
  {
    t.second[KeyIdx(e, |t.second|, key)]
  }

  function WithShard(e: Env, t: Tier, key: Key, d: D.Disk): Tier
    requires t.second != []
  {
    t.(second := t.second[KeyIdx(e, |t.second|, key) := d])
  }

  function Peek(e: Env, t: Tier, key: Key): Option<CacheObj>
    requires t.second != []
  {
    var v := M.Peek(t.first, key);
    if v.Some? then v else D.Peek(e.codec, Shard(e, t, key), key)
  }

  // A hit in the second tier only is promoted into the first.
  function Get(e: Env, t: Tier, key: Key): (Tier, Option<CacheObj>)
    requires t.second != []
  {
    var (m, v) := M.Get(t.first, key);
    if v.Some? then (t.(first := m), v)
    else
      var (d, w) := D.Get(e.codec, Shard(e, t, key), key);
      var t1 := WithShard(e, t, key, d);
      if w.Some? then (t1.(first := M.Add(m, key, w.value)), w) else (t1.(first := m), None)
  }

  function Add(e: Env, t: Tier, key: Key, val: CacheObj, putOk: bool): Tier
    requires t.second != []
  {
    WithShard(e, t, key, D.Add(e.codec, Shard(e, t, key), key, val, putOk)).(first := M.Add(t.first, key, val))
  }

  // ---------- what an operation finds ----------

  // The key's file has an entry for it that can be decoded.
  predicate OnDisk(e: Env, t: Tier, key: Key)
    requires t.second != []
  {
    key in Shard(e, t, key).store && e.codec.decode(Shard(e, t, key).store[key]).Some?
  }

  // What the tiers hold for a key: the first one's object, else the second one's.
  function Held(e: Env, t: Tier, key: Key): CacheObj
    requires t.second != [] && (key in t.first.cache || OnDisk(e, t, key))
  {
    if key in t.first.cache then t.first.cache[key] else e.codec.decode(Shard(e, t, key).store[key]).value
  }

  /** A lookup hits exactly when a tier holds the key, and returns what the first tier that has it
      holds; a Get counts it once more and leaves it in the first tier, and takes nothing away. */
  lemma LookupExact(e: Env, t: Tier, key: Key, x: Key)
    requires t.second != []
    ensures var found := key in t.first.cache || OnDisk(e, t, key); var (t', v) := Get(e, t, key);
      && (v.Some? <==> found) && (Peek(e, t, key).Some? <==> found)
      && (found ==>
            && Peek(e, t, key) == Some(Held(e, t, key)) && v == Some(Hit(Held(e, t, key)))
            && key in t'.first.cache && t'.first.cache[key] == v.value)
      && (x != key ==> (x in t'.first.cache <==> x in t.first.cache) && Peek(e, t', x) == Peek(e, t, x))
      && (OnDisk(e, t', x) <==> OnDisk(e, t, x))
  {
    hide Touch, KeyIdx;
  }

  /** An Add is found in the first tier whatever becomes of the write, and in the second if it
      succeeds; it changes nothing for other keys. */
  lemma AddExact(e: Env, t: Tier, key: Key, val: CacheObj, putOk: bool, x: Key)
    requires t.second != [] && D.CodecOk(e.codec)
    ensures var t' := Add(e, t, key, val, putOk);
      && key in t'.first.cache && t'.first.cache[key] == val && Peek(e, t', key) == Some(val)
      && (putOk && e.codec.encode(val).Some? ==> D.Peek(e.codec, Shard(e, t', key), key) == Some(val))
      && (x != key ==> (x in t'.first.cache <==> x in t.first.cache) && Peek(e, t', x) == Peek(e, t, x))
  {
    hide Touch, KeyIdx;
  }

  // ---------- runs of whole operations ----------

  datatype Op =
    | AddOp(key: Key, val: CacheObj, putOk: bool)
    | GetOp(key: Key)
    | CollectFirst
    | CollectSecond(shard: nat, i: nat, stuck: set<Key>)

  function Step(e: Env, t: Tier, op: Op): (r: Tier)
    requires t.second != []
    ensures |r.second| == |t.second|
  {
    match op
    case AddOp(k, v, ok) => Add(e, t, k, v, ok)
    case GetOp(k) => Get(e, t, k).0
    case CollectFirst => t.(first := M.Collect(t.first))
    case CollectSecond(j, i, stuck) =>
      if j < |t.second| then t.(second := t.second[j := D.Collect(t.second[j], i, stuck)]) else t
  }

  function Run(e: Env, t: Tier, ops: seq<Op>): (r: Tier)
    requires t.second != []
    ensures |r.second| == |t.second|
  {
    if ops == [] then t else Step(e, Run(e, t, ops[..|ops| - 1]), ops[|ops| - 1])
  }

  // The disk tier takes the write.
  predicate Written(e: Env, op: Op) {
    op.AddOp? ==> op.putOk && e.codec.encode(op.val).Some?
  }

  // ---------- the lossy map ----------

  /** The map a perfect cache would hold: what each Add put there last, over what was found
      on disk at the start. */
  function Latest(e: Env, t0: Tier, ops: seq<Op>, key: Key): Option<CacheObj>
    requires t0.second != []
  {
    if ops == [] then D.Peek(e.codec, Shard(e, t0, key), key)
    else
      var op := ops[|ops| - 1];
      if op.AddOp? && op.key == key then Some(op.val) else Latest(e, t0, ops[..|ops| - 1], key)
  }

  // `o` is the object the map holds, up to its hit count.
  predicate Agrees(o: CacheObj, latest: Option<CacheObj>) {
    latest.Some? && Same(o, latest.value)
  }

  // Whatever either tier holds for the key is what the map holds.
  predicate CoherentAt(e: Env, t: Tier, key: Key, latest: Option<CacheObj>)
    requires t.second != []
  {
    && (key in t.first.cache ==> Agrees(t.first.cache[key], latest))
    && var onDisk := D.Peek(e.codec, Shard(e, t, key), key);
       (onDisk.Some? ==> Agrees(onDisk.value, latest))
  }

  // An operation on the first tier holds no object it did not hold or was given.
  lemma {:induction false} MemGcShrinks(m: M.Mem, size: u64, key: Key)
    ensures M.Peek(M.Gc(m, size), key) in {None, M.Peek(m, key)}
    decreases |m.lru.order|
  {
    if size > m.maxSizeBytes && m.lru.order != [] {
      MemGcShrinks(M.EvictOne(m), M.EvictOne(m).sizeBytes, key);
    }
  }

  lemma {:induction false} DiskGcShrinks(c: D.Codec, d: D.Disk, size: u64, stuck: set<Key>, key: Key)
    ensures D.Peek(c, D.Gc(d, size, stuck), key) in {None, D.Peek(c, d, key)}
    decreases |d.lru.order|
  {
    if size > d.maxSizeBytes && d.lru.order != [] {
      var d1 := D.EvictOne(d, Oldest(d.lru) !in stuck);
      DiskGcShrinks(c, d1, d1.sizeBytes, stuck, key);
    }
  }

  lemma GetCoherent(e: Env, t: Tier, k: Key, key: Key, latest: Option<CacheObj>)
    requires t.second != [] && CoherentAt(e, t, key, latest)
    ensures CoherentAt(e, Get(e, t, k).0, key, latest)
  {
  }

  lemma CollectCoherent(e: Env, t: Tier, op: Op, key: Key, latest: Option<CacheObj>)
    requires t.second != [] && CoherentAt(e, t, key, latest) && (op.CollectFirst? || op.CollectSecond?)
    ensures CoherentAt(e, Step(e, t, op), key, latest)
  {
    hide M.Gc, D.Gc;
    if op.CollectFirst? && t.first.gcChan.Some? {
      MemGcShrinks(t.first.(gcChan := None), t.first.gcChan.value, key);
    } else if op.CollectSecond? && op.shard < |t.second| && op.i < |t.second[op.shard].pending| {
      var d := t.second[op.shard];
      DiskGcShrinks(e.codec, d.(pending := d.pending[..op.i] + d.pending[op.i + 1..]), d.pending[op.i], op.stuck, key);
    }
  }

  lemma AddOther(e: Env, t: Tier, k: Key, v: CacheObj, putOk: bool, key: Key, latest: Option<CacheObj>)
    requires t.second != [] && key != k && CoherentAt(e, t, key, latest)
    ensures CoherentAt(e, Add(e, t, k, v, putOk), key, latest)
  {
  }

  /** An Add keeps its key coherent exactly when the disk write succeeds, or fails over no
      decodable entry or one with the same contents. */
  lemma AddCoherentIff(e: Env, t: Tier, k: Key, v: CacheObj, putOk: bool)
    requires t.second != [] && D.CodecOk(e.codec)
    ensures var old_ := D.Peek(e.codec, Shard(e, t, k), k);
      CoherentAt(e, Add(e, t, k, v, putOk), k, Some(v)) <==>
      (putOk && e.codec.encode(v).Some?) || old_.None? || Same(old_.value, v)
  {
  }

  lemma {:induction false} RunCoherent(e: Env, t0: Tier, ops: seq<Op>, key: Key)
    requires t0.second != [] && t0.first.cache == map[] && D.CodecOk(e.codec)
    requires forall i | 0 <= i < |ops| :: Written(e, ops[i])
    ensures CoherentAt(e, Run(e, t0, ops), key, Latest(e, t0, ops, key))
  {
    if ops != [] {
      var before, op := ops[..|ops| - 1], ops[|ops| - 1];
      var t, latest := Run(e, t0, before), Latest(e, t0, before, key);
      RunCoherent(e, t0, before, key);
      hide CoherentAt, Add, Get, D.CodecOk;
      assert Written(e, op);
      match op
      case AddOp(k, v, ok) =>
        if k == key {
          AddCoherentIff(e, t, k, v, ok);
        } else {
          AddOther(e, t, k, v, ok, key, latest);
        }
      case GetOp(k) => GetCoherent(e, t, k, key, latest);
      case _ => CollectCoherent(e, t, op, key, latest);
    }
  }

  /** The stack refines a lossy map: after any run in which the disk tier takes its writes, a
      hit, by Get or by Peek, returns the object last added for that key, up to its hit count;
      however entries were evicted from either tier, sharded or promoted. */
  lemma HitIsLatest(e: Env, t0: Tier, ops: seq<Op>, key: Key)
    requires t0.second != [] && t0.first.cache == map[] && D.CodecOk(e.codec)
    requires forall i | 0 <= i < |ops| :: Written(e, ops[i])
    ensures var t := Run(e, t0, ops);
      var latest := Latest(e, t0, ops, key);
      && (Get(e, t, key).1.Some? ==> Agrees(Get(e, t, key).1.value, latest))
      && (Peek(e, t, key).Some? ==> Agrees(Peek(e, t, key).value, latest))
  {
    hide D.CodecOk, Touch;
    RunCoherent(e, t0, ops, key);
  }

  /** After a failed write the new object is served only until the first tier evicts it; then
      the old one is back. */
  lemma FailedWriteServesStale(e: Env, t: Tier, k: Key, v: CacheObj, old_: CacheObj)
    requires t.second != [] && D.Peek(e.codec, Shard(e, t, k), k) == Some(old_)
    ensures var t1 := Add(e, t, k, v, false);
      && Peek(e, t1, k) == Some(v)
      && (forall m: M.Mem | k !in m.cache :: Peek(e, t1.(first := m), k) == Some(old_))
  {
  }

  // A codec for one object, of one byte.
  const OLD_OBJECT := CacheObj([1], 200, 0, 1, 1)
  const OLD_BYTES: Bytes := [7]

  function OneObject(): D.Codec {
    D.Codec(o => if o == OLD_OBJECT then Some(OLD_BYTES) else None, b => if b == OLD_BYTES then Some(OLD_OBJECT) else None)
  }

  // One disk file that holds the old object, behind a memory tier of 50 bytes.
  function StaleStart(k: Key): Tier {
    Tier(M.Empty(50), [D.Disk(map[k := OLD_BYTES], Lru([k], map[k := 1]), 1, 1000, [])])
  }

  /** Such a state is reached: an object of 60 bytes whose disk write fails is served until the
      memory tier collects, and after that the old one is. */
  lemma StaleRun(k: Key, v: CacheObj)
    requires v.size == 60
    ensures var e := Env(OneObject(), _ => 0);
      var added := AddOp(k, v, false);
      && D.CodecOk(e.codec)
      && Peek(e, Run(e, StaleStart(k), [added]), k) == Some(v)
      && Peek(e, Run(e, StaleStart(k), [added, CollectFirst]), k) == Some(OLD_OBJECT)
      && Latest(e, StaleStart(k), [added, CollectFirst], k) == Some(v)
  {
    var e, t := Env(OneObject(), _ => 0), StaleStart(k);
    var ops, added := [AddOp(k, v, false), CollectFirst], [AddOp(k, v, false)];
    assert ops[..1] == added && added[..0] == [];
    assert Run(e, t, []) == t;
    var t1 := Add(e, t, k, v, false);
    assert Run(e, t, added) == t1;
    var m := t1.first;
    assert m == M.Mem(map[k := v], Lru([k], map[k := 60]), 60, 50, Some(60));
    assert t1.second == t.second;
    StaleCollect(k, v);
    assert Run(e, t, ops) == t1.(first := M.Collect(m));
  }

  lemma StaleCollect(k: Key, v: CacheObj)
    ensures M.Collect(M.Mem(map[k := v], Lru([k], map[k := 60]), 60, 50, Some(60))).cache == map[]
  {
    var m := M.Mem(map[k := v], Lru([k], map[k := 60]), 60, 50, None);
    var m1 := M.EvictOne(m);
    assert m1.cache == map[] && m1.sizeBytes == 0 && m1.maxSizeBytes == 50;
    assert M.Gc(m1, 0) == m1;
    assert M.Gc(m, 60) == M.Gc(m1, m1.sizeBytes);
  }

  // ---------- the stack as it is kept in memory ----------

  class MultiDiskCache {
    const env: Env
    const caches: seq<D.DiskCache>

    // The files are separate objects with separate lists.
    ghost predicate Separate()
    {
      && caches != []
      && (forall i | 0 <= i < |caches| :: caches[i].codec == env.codec)
      && (forall i, j | 0 <= i < j < |caches| :: caches[i] != caches[j] && caches[i].lru != caches[j].lru)
    }

    ghost predicate ListsValid()
      reads caches, set c | c in caches :: c.lru
    {
      forall i | 0 <= i < |caches| :: Valid(caches[i].lru.View())
    }

    ghost function View(): (v: seq<D.Disk>)
      reads caches, set c | c in caches :: c.lru
      ensures |v| == |caches| && forall i | 0 <= i < |caches| :: v[i] == caches[i].View()
    {
      seq(|caches|, i requires 0 <= i < |caches| reads caches, set c | c in caches :: c.lru => caches[i].View())
    }

    constructor (env: Env, caches: seq<D.DiskCache>)
      ensures this.env == env && this.caches == caches
    {
      this.env, this.caches := env, caches;
    }

    method AddObj(key: Key, val: CacheObj, putOk: bool) returns (evicted: bool)
      requires Separate() && ListsValid()
      modifies caches, set c | c in caches :: c.lru
      ensures ListsValid() && !evicted
      ensures var i := KeyIdx(env, |caches|, key);
        View() == old(View())[i := D.Add(env.codec, old(View())[i], key, val, putOk)]
    {
      var i := KeyIdx(env, |caches|, key);
      evicted := caches[i].AddObj(key, val, putOk);
    }

    method GetObj(key: Key) returns (obj: Option<CacheObj>)
      requires Separate() && ListsValid()
      modifies set c | c in caches :: c.lru
      ensures ListsValid()
      ensures var i := KeyIdx(env, |caches|, key);
        && View() == old(View())[i := D.Get(env.codec, old(View())[i], key).0]
        && obj == D.Get(env.codec, old(View())[i], key).1
    {
      var i := KeyIdx(env, |caches|, key);
      obj := caches[i].GetObj(key);
    }

    method PeekObj(key: Key) returns (obj: Option<CacheObj>)
      requires Separate()
      ensures obj == D.Peek(env.codec, View()[KeyIdx(env, |caches|, key)], key)
    {
      var i := KeyIdx(env, |caches|, key);
      obj := caches[i].PeekObj(key);
    }
  }

  class TierCache {
    const first: M.MemCache
    const second: MultiDiskCache

    ghost predicate Separate() {
      second.Separate() && forall c | c in second.caches :: c.lru != first.lru
    }

    ghost predicate Ok()
      reads first, first.lru, second.caches, set c | c in second.caches :: c.lru
    {
      M.Inv(first.View()) && second.ListsValid()
    }

    ghost function View(): Tier
      reads first, first.lru, second.caches, set c | c in second.caches :: c.lru
    {
      Tier(first.View(), second.View())
    }

    constructor (first: M.MemCache, second: MultiDiskCache)
      ensures this.first == first && this.second == second
    {
      this.first, this.second := first, second;
    }

    method AddObj(key: Key, val: CacheObj, putOk: bool) returns (evicted: bool)
      requires Separate() && Ok()
      modifies first, first.lru, second.caches, set c | c in second.caches :: c.lru
      ensures Ok() && View() == Add(second.env, old(View()), key, val, putOk) && !evicted
    {
      hide M.Inv, Valid, M.Add, D.Add;
      var aevict := first.AddObj(key, val);
      var bevict := second.AddObj(key, val, putOk);
      evicted := aevict || bevict;
    }

    method GetObj(key: Key) returns (obj: Option<CacheObj>)
      requires Separate() && Ok()
      modifies first, first.lru, set c | c in second.caches :: c.lru
      ensures Ok() && View() == Get(second.env, old(View()), key).0 && obj == Get(second.env, old(View()), key).1
    {
      hide M.Inv, Valid, M.Add, M.Get, D.Get, KeyIdx;
      obj := first.GetObj(key);
      if obj.None? {
        obj := second.GetObj(key);
        if obj.Some? {
          var _ := first.AddObj(key, obj.value);
        }
      }
    }

    method PeekObj(key: Key) returns (obj: Option<CacheObj>)
      requires Separate()
      ensures obj == Peek(second.env, View(), key)
    {
      obj := first.PeekObj(key);
      if obj.None? {
        obj := second.PeekObj(key);
      }
    }
  }
}
