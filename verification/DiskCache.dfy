/** Grove's disk cache over an abstract key-value store: a tracked size that may over-count but
    never under-counts, its collection, and its recovery after a restart. */
module DiskCaches {
  import opened Words
  import opened LruList

  /** How objects are serialised; either direction may fail. */
  datatype Codec = Codec(encode: CacheObj -> Option<Bytes>, decode: Bytes -> Option<CacheObj>)

  // Decoding undoes encoding, and no object is longer than its encoding.
  ghost predicate CodecOk(c: Codec) {
    && (forall o :: c.encode(o).Some? ==> c.decode(c.encode(o).value) == Some(o))
    && (forall b :: c.decode(b).Some? ==> c.decode(b).value.size <= |b|)
  }

  /** `pending` holds the collections started but not yet run, each with the size it was started with. */
  datatype Disk = Disk(store: map<Key, Bytes>, lru: Lru, sizeBytes: u64, maxSizeBytes: u64, pending: seq<u64>)

  function Put(d: Disk, key: Key, b: Bytes): Disk {
    var size := AddU64(d.sizeBytes, |b|);
    d.(store := d.store[key := b], lru := Touch(d.lru, key, |b|), sizeBytes := size,
       pending := if size > d.maxSizeBytes then d.pending + [size] else d.pending)
  }

  function Empty(max: u64): Disk {
    Disk(map[], Lru([], map[]), 0, max, [])
  }

  // `putOk` says whether the store accepts the write.
  function Add(c: Codec, d: Disk, key: Key, val: CacheObj, putOk: bool): Disk {
    var b := c.encode(val);
    if b.None? || !putOk then d else Put(d, key, b.value)
  }

  function Peek(c: Codec, d: Disk, key: Key): Option<CacheObj> {
    if key in d.store then c.decode(d.store[key]) else None
  }

  // A hit records the object's own size, and counts only on the returned copy.
  function Get(c: Codec, d: Disk, key: Key): (Disk, Option<CacheObj>) {
    var found := Peek(c, d, key);
    if found.None? then (d, None)
    else (d.(lru := Touch(d.lru, key, found.value.size)), Some(Hit(found.value)))
  }

  // `deleted` says whether the store carried out the deletion; the size is reduced either way.
  function EvictOne(d: Disk, deleted: bool): Disk
    requires d.lru.order != []
  {
    var k := Oldest(d.lru);
    d.(lru := DropOldest(d.lru), store := if deleted then d.store - {k} else d.store,
       sizeBytes := MinusU64(d.sizeBytes, Recorded(d.lru, k)))
  }

  // `stuck` are the keys whose deletion the store refuses.
  function Gc(d: Disk, size: u64, stuck: set<Key>): Disk
    decreases |d.lru.order|
  {
    if size <= d.maxSizeBytes then d
    else if d.lru.order == [] then d.(sizeBytes := 0)
    else
      var d1 := EvictOne(d, Oldest(d.lru) !in stuck);
      Gc(d1, d1.sizeBytes, stuck)
  }

  // Runs the pending collection number `i`.
  function Collect(d: Disk, i: nat, stuck: set<Key>): Disk {
    if i >= |d.pending| then d
    else Gc(d.(pending := d.pending[..i] + d.pending[i + 1..]), d.pending[i], stuck)
  }

  // ---------- the invariant ----------

  function Lengths(store: map<Key, Bytes>): map<Key, nat> {
    map k | k in store :: |store[k]|
  }

  // The bytes on disk.
  ghost function StoredBytes(d: Disk): nat {
    Sum(Lengths(d.store))
  }

  /** The list covers the store, records no entry as longer than it is, and the tracked size
      covers all stored bytes. */
  ghost predicate Inv(d: Disk) {
    && Valid(d.lru)
    && (forall k :: k in d.store <==> k in d.lru.sizes)
    && (forall k | k in d.store :: d.lru.sizes[k] <= |d.store[k]|)
    && Weight(d.lru.order, Lengths(d.store)) <= d.sizeBytes
  }

  lemma StoredIsWeight(d: Disk)
    requires Inv(d)
    ensures StoredBytes(d) == Weight(d.lru.order, Lengths(d.store)) <= d.sizeBytes
  {
    WeightIsSum(d.lru.order, Lengths(d.store));
  }

  // A write keeps the invariant exactly when the tracked size does not wrap around.
  lemma PutKeepsIff(d: Disk, key: Key, b: Bytes)
    requires Inv(d)
    ensures Inv(Put(d, key, b)) <==> d.sizeBytes + |b| < 0x1_0000_0000_0000_0000
  {
    hide Weight, Valid;
    var d' := Put(d, key, b);
    TouchValid(d.lru, key, |b|);
    TouchWeight(d.lru, key, |b|, Lengths(d.store), |b|);
    assert Lengths(d'.store) == Lengths(d.store)[key := |b|];
    Listed(d.lru, key);
    Listed(d'.lru, key);
    if key in d.store {
      WeightMember(d.lru.order, key, Lengths(d.store));
    }
    WeightMember(d'.lru.order, key, Lengths(d'.store));
  }

  lemma GetKeeps(c: Codec, d: Disk, key: Key)
    requires CodecOk(c) && Inv(d)
    ensures Inv(Get(c, d, key).0)
  {
    hide Weight;
    var found := Peek(c, d, key);
    if found.Some? {
      TouchValid(d.lru, key, found.value.size);
      TouchWeight(d.lru, key, found.value.size, Lengths(d.store), |d.store[key]|);
      assert Lengths(d.store)[key := |d.store[key]|] == Lengths(d.store);
    }
  }

  // An eviction never underflows, and keeps the invariant exactly when the store obeys.
  lemma EvictKeepsIff(d: Disk, deleted: bool)
    requires Inv(d) && d.lru.order != []
    ensures Recorded(d.lru, Oldest(d.lru)) <= d.sizeBytes
    ensures EvictOne(d, deleted).sizeBytes == d.sizeBytes - Recorded(d.lru, Oldest(d.lru))
    ensures Inv(EvictOne(d, deleted)) <==> deleted
  {
    hide Weight;
    var k := Oldest(d.lru);
    assert k in d.lru.order;
    WeightMember(d.lru.order, k, Lengths(d.store));
    if deleted {
      DropValid(d.lru);
      DropWeight(d.lru, Lengths(d.store));
      assert Lengths(d.store - {k}) == Lengths(d.store) - {k};
    } else {
      assert k in d.store && k !in DropOldest(d.lru).sizes;
    }
  }

  /** A collection ends with the tracked size, and so the stored bytes, within the maximum. */
  lemma {:induction false} GcFits(d: Disk, size: u64)
    requires Inv(d)
    ensures var r := Gc(d, size, {});
      && Inv(r) && r.maxSizeBytes == d.maxSizeBytes && r.pending == d.pending
      && (size > d.maxSizeBytes ==> r.sizeBytes <= d.maxSizeBytes)
      && (d.sizeBytes <= d.maxSizeBytes ==> r.sizeBytes <= d.maxSizeBytes)
      && r.lru.order <= d.lru.order
    decreases |d.lru.order|
  {
    hide Valid;
    if size > d.maxSizeBytes {
      if d.lru.order == [] {
        EmptyInv(d);
      } else {
        var d1 := EvictOne(d, true);
        EvictKeepsIff(d, true);
        GcFits(d1, d1.sizeBytes);
      }
    }
  }

  // What the entries after the `keep` newest are recorded as, together.
  function Older(d: Disk, keep: nat): nat
    requires keep <= |d.lru.order|
  {
    Weight(d.lru.order[keep..], d.lru.sizes)
  }

  // The store without the entries evicted when `keep` are kept, except those it refuses to delete.
  function KeptStore(d: Disk, keep: nat, stuck: set<Key>): map<Key, Bytes>
    requires keep <= |d.lru.order|
  {
    map k | k in d.store && (k !in d.lru.order[keep..] || k in stuck) :: d.store[k]
  }

  // What a collection over the maximum leaves of `d`: see GcExact.
  ghost predicate Collected(d: Disk, size: u64, stuck: set<Key>, r: Disk) {
    var n, keep := |d.lru.order|, |r.lru.order|;
    && keep <= n && (n > 0 ==> keep < n) && r.lru.order == d.lru.order[..keep] && r.store == KeptStore(d, keep, stuck)
    && (forall j | keep < j < n :: d.sizeBytes - Older(d, j) > d.maxSizeBytes)
    && r.sizeBytes == (if Resets(d, size) then 0 else d.sizeBytes - Older(d, keep)) <= d.maxSizeBytes
    && (Resets(d, size) ==> keep == 0)
  }

  /** A collection with a request within the maximum changes nothing. One over it evicts oldest
      first, at least one entry if there is any, and no more than it has to: had it stopped before,
      the size would still have been over the maximum. The size is reduced by what was evicted,
      or reset, and exactly the evicted entries are gone, save those that could not be deleted. */
  lemma {:induction false} GcExact(d: Disk, size: u64, stuck: set<Key>)
    requires Valid(d.lru) && Total(d.lru) <= d.sizeBytes
    ensures size <= d.maxSizeBytes ==> Gc(d, size, stuck) == d
    ensures size > d.maxSizeBytes ==> Collected(d, size, stuck, Gc(d, size, stuck))
    decreases |d.lru.order|
  {
    if size > d.maxSizeBytes {
      if d.lru.order == [] {
        assert KeptStore(d, 0, stuck) == d.store;
      } else {
        var d1 := EvictOne(d, Oldest(d.lru) !in stuck);
        EvictStep(d, stuck);
        GcExact(d1, d1.sizeBytes, stuck);
        hide Valid, Total, Collected, EvictOne;
        CollectedStep(d, size, stuck, Gc(d1, d1.sizeBytes, stuck));
      }
    }
  }

  lemma EvictStep(d: Disk, stuck: set<Key>)
    requires Valid(d.lru) && Total(d.lru) <= d.sizeBytes && d.lru.order != []
    ensures var d1 := EvictOne(d, Oldest(d.lru) !in stuck);
      && Valid(d1.lru) && Total(d1.lru) <= d1.sizeBytes == d.sizeBytes - Recorded(d.lru, Oldest(d.lru))
      && |d1.lru.order| == |d.lru.order| - 1 && d1.maxSizeBytes == d.maxSizeBytes
  {
    hide Weight, Valid;
    DropValid(d.lru);
    DropTotal(d.lru);
    RecordedLe(d.lru, Oldest(d.lru));
  }

  lemma CollectedStep(d: Disk, size: u64, stuck: set<Key>, r: Disk)
    requires Valid(d.lru) && Total(d.lru) <= d.sizeBytes && d.lru.order != [] && size > d.maxSizeBytes
    requires var d1 := EvictOne(d, Oldest(d.lru) !in stuck);
      if d1.sizeBytes <= d.maxSizeBytes then r == d1 else Collected(d1, d1.sizeBytes, stuck, r)
    ensures Collected(d, size, stuck, r)
  {
    hide KeptStore, Older, EvictOne, Total, Valid, Resets, Recorded;
    var d1, n := EvictOne(d, Oldest(d.lru) !in stuck), |d.lru.order|;
    EvictStep(d, stuck);
    ResetsStep(d, size, stuck);
    NothingOlder(d1, stuck);
    forall j | 0 <= j < n ensures EvictedAt(d, d1, j, stuck) {
      EvictedOlder(d, j, stuck);
    }
    assert d1.lru.order[..n - 1] == d1.lru.order;
    assert EvictedAt(d, d1, |r.lru.order|, stuck);
    forall j | |r.lru.order| < j < n ensures d.sizeBytes - Older(d, j) > d.maxSizeBytes {
      assert EvictedAt(d, d1, j, stuck);
    }
  }

  lemma ResetsStep(d: Disk, size: u64, stuck: set<Key>)
    requires d.lru.order != [] && size > d.maxSizeBytes
    ensures var d1 := EvictOne(d, Oldest(d.lru) !in stuck); Resets(d, size) == Resets(d1, d1.sizeBytes)
  {
    var d1 := EvictOne(d, Oldest(d.lru) !in stuck);
    ResetsIgnoreStore(EvictOne(d, true), d1.store, d1.sizeBytes);
  }

  // Evicting the oldest entry, seen from the `j` newest.
  ghost predicate EvictedAt(d: Disk, d1: Disk, j: nat, stuck: set<Key>) {
    && j <= |d1.lru.order| && j <= |d.lru.order| && d.lru.order != [] && d1.lru.order[..j] == d.lru.order[..j]
    && Older(d, j) == Older(d1, j) + Recorded(d.lru, Oldest(d.lru))
    && KeptStore(d, j, stuck) == KeptStore(d1, j, stuck)
  }

  lemma NothingOlder(d: Disk, stuck: set<Key>)
    ensures var n := |d.lru.order|; Older(d, n) == 0 && KeptStore(d, n, stuck) == d.store
    ensures d.sizeBytes <= d.maxSizeBytes ==> !Resets(d, d.sizeBytes)
  {
    assert d.lru.order[|d.lru.order|..] == [];
  }

  lemma EvictedOlder(d: Disk, j: nat, stuck: set<Key>)
    requires Valid(d.lru) && j < |d.lru.order|
    ensures EvictedAt(d, EvictOne(d, Oldest(d.lru) !in stuck), j, stuck)
  {
    var n := |d.lru.order| - 1;
    assert d.lru.order[..n][..j] == d.lru.order[..j];
    EvictedWeight(d.lru, j);
    EvictedStore(d, j, stuck);
    hide Weight, KeptStore, MinusU64, Recorded, Valid;
  }

  lemma OlderSplit(l: Lru, j: nat)
    requires Valid(l) && j < |l.order|
    ensures var rest := DropOldest(l).order[j..]; l.order[j..] == rest + [Oldest(l)] && Oldest(l) !in rest && Oldest(l) in l.sizes
  {
    var n := |l.order| - 1;
    assert l.order[..n][j..] == l.order[j..n];
    assert l.order[j..] == l.order[j..n] + [l.order[n]];
    assert Oldest(l) in l.order;
  }

  lemma EvictedWeight(l: Lru, j: nat)
    requires Valid(l) && j < |l.order|
    ensures Weight(l.order[j..], l.sizes) == Weight(DropOldest(l).order[j..], DropOldest(l).sizes) + Recorded(l, Oldest(l))
  {
    OlderSplit(l, j);
    var rest, k := DropOldest(l).order[j..], Oldest(l);
    WeightSnoc(rest, k, l.sizes);
    hide Valid, Weight;
    WeightSame(rest, l.sizes, l.sizes - {k});
  }

  lemma EvictedStore(d: Disk, j: nat, stuck: set<Key>)
    requires Valid(d.lru) && j < |d.lru.order|
    ensures KeptStore(d, j, stuck) == KeptStore(EvictOne(d, Oldest(d.lru) !in stuck), j, stuck)
  {
    OlderSplit(d.lru, j);
    hide Valid, MinusU64, Recorded;
  }

  // Whether a collection resets does not depend on the store.
  lemma {:induction false} ResetsIgnoreStore(d: Disk, store: map<Key, Bytes>, size: u64)
    ensures Resets(d.(store := store), size) == Resets(d, size)
    decreases |d.lru.order|
  {
    if size > d.maxSizeBytes && d.lru.order != [] {
      var d1 := EvictOne(d, true);
      ResetsIgnoreStore(d1, EvictOne(d.(store := store), true).store, d1.sizeBytes);
    }
  }

  // With nothing listed nothing is stored, so a size of zero is right.
  lemma EmptyInv(d: Disk)
    requires Inv(d) && d.lru.order == []
    ensures Inv(d.(sizeBytes := 0)) && d.store == map[]
  {
  }

  // gc finds the list empty and sets the size to zero.
  predicate Resets(d: Disk, size: u64)
    decreases |d.lru.order|
  {
    size > d.maxSizeBytes &&
    (d.lru.order == [] || Resets(EvictOne(d, true), EvictOne(d, true).sizeBytes))
  }

  /** The branch that "should never happen" is taken exactly when the tracked size over-counts the
      recorded sizes by more than the maximum, or a stale collection runs on an empty cache. */
  lemma {:induction false} ResetsIff(d: Disk, size: u64)
    requires Inv(d) && size > d.maxSizeBytes
    ensures Total(d.lru) <= d.sizeBytes
    ensures Resets(d, size) <==> d.lru.order == [] || d.sizeBytes - Total(d.lru) > d.maxSizeBytes
    decreases |d.lru.order|
  {
    hide Valid;
    TotalLe(d);
    if d.lru.order != [] {
      var d1 := EvictOne(d, true);
      EvictKeepsIff(d, true);
      DropTotal(d.lru);
      if d1.sizeBytes > d1.maxSizeBytes {
        ResetsIff(d1, d1.sizeBytes);
      } else {
        TotalLe(d1);
      }
    }
  }

  lemma TotalLe(d: Disk)
    requires Inv(d)
    ensures Total(d.lru) <= d.sizeBytes
  {
    WeightLe(d.lru.order, d.lru.sizes, Lengths(d.store));
  }

  // Over-counting is real: writing one key three times before a collection runs makes it reset.
  lemma OverCountResets(k: Key, b: Bytes)
    requires |b| == 60
    ensures var d := Put(Put(Put(Disk(map[], Lru([], map[]), 0, 100, []), k, b), k, b), k, b);
      && Inv(d) && StoredBytes(d) == 60 && d.sizeBytes == 180
      && d.pending == [120, 180] && Resets(d, 120)
  {
    var d0, l := Disk(map[], Lru([], map[]), 0, 100, []), Lru([k], map[k := 60]);
    var d1, d2, d3 := Disk(map[k := b], l, 60, 100, []), Disk(map[k := b], l, 120, 100, [120]), Disk(map[k := b], l, 180, 100, [120, 180]);
    assert Put(d0, k, b) == d1;
    assert Put(d1, k, b) == d2;
    assert Put(d2, k, b) == d3;
    OneEntryInv(d3, k, b);
    hide Put, Inv;
    ResetsIff(d3, 120);
  }

  lemma OneEntryInv(d: Disk, k: Key, b: Bytes)
    requires d.store == map[k := b] && d.lru == Lru([k], map[k := |b|]) && |b| <= d.sizeBytes
    ensures Inv(d) && StoredBytes(d) == |b| && Total(d.lru) == |b|
  {
    assert Weight([k], Lengths(d.store)) == |b|;
    assert Weight([k], d.lru.sizes) == |b|;
    StoredIsWeight(d);
  }

  // ---------- whole runs ----------

  datatype Op = AddOp(key: Key, val: CacheObj, putOk: bool) | GetOp(key: Key) | CollectOp(i: nat)

  function Step(c: Codec, d: Disk, op: Op): Disk {
    match op
    case AddOp(k, v, ok) => Add(c, d, k, v, ok)
    case GetOp(k) => Get(c, d, k).0
    case CollectOp(i) => Collect(d, i, {})
  }

  // The operation does not make the tracked size wrap around.
  predicate NoWrap(c: Codec, d: Disk, op: Op) {
    op.AddOp? && op.putOk && c.encode(op.val).Some? ==>
      d.sizeBytes + |c.encode(op.val).value| < 0x1_0000_0000_0000_0000
  }

  function Run(c: Codec, d: Disk, ops: seq<Op>): Disk {
    if ops == [] then d else Step(c, Run(c, d, ops[..|ops| - 1]), ops[|ops| - 1])
  }

  predicate RunNoWrap(c: Codec, d: Disk, ops: seq<Op>) {
    ops == [] || (RunNoWrap(c, d, ops[..|ops| - 1]) && NoWrap(c, Run(c, d, ops[..|ops| - 1]), ops[|ops| - 1]))
  }

  lemma StepKeeps(c: Codec, d: Disk, op: Op)
    requires CodecOk(c) && Inv(d) && NoWrap(c, d, op)
    ensures Inv(Step(c, d, op)) && Step(c, d, op).maxSizeBytes == d.maxSizeBytes
  {
    hide Valid, Weight, Gc;
    match op
    case AddOp(k, v, ok) =>
      if c.encode(v).Some? && ok {
        PutKeepsIff(d, k, c.encode(v).value);
      }
    case GetOp(k) => GetKeeps(c, d, k);
    case CollectOp(i) =>
      if i < |d.pending| {
        GcFits(d.(pending := d.pending[..i] + d.pending[i + 1..]), d.pending[i]);
      }
  }

  /** Through any run of whole operations on a store that obeys deletions, the tracked size covers
      the stored bytes. */
  lemma {:induction false} RunNeverUnderCounts(c: Codec, d: Disk, ops: seq<Op>)
    requires CodecOk(c) && Inv(d) && RunNoWrap(c, d, ops)
    ensures var r := Run(c, d, ops);
      Inv(r) && r.maxSizeBytes == d.maxSizeBytes && StoredBytes(r) <= r.sizeBytes
  {
    if ops != [] {
      hide Inv, NoWrap, CodecOk;
      RunNeverUnderCounts(c, d, ops[..|ops| - 1]);
      StepKeeps(c, Run(c, d, ops[..|ops| - 1]), ops[|ops| - 1]);
    }
    StoredIsWeight(Run(c, d, ops));
  }

  // ---------- within the maximum ----------

  // Collections are only started over the maximum.
  predicate PendingOver(d: Disk) {
    forall i | 0 <= i < |d.pending| :: d.pending[i] > d.maxSizeBytes
  }

  // Unless a collection is pending, the tracked size is within the maximum.
  predicate Bounded(d: Disk) {
    d.pending == [] ==> d.sizeBytes <= d.maxSizeBytes
  }

  // The operation puts an entry into the store.
  predicate Writes(c: Codec, op: Op) {
    op.AddOp? && op.putOk && c.encode(op.val).Some?
  }

  predicate SomeWrite(c: Codec, ops: seq<Op>) {
    exists i :: 0 <= i < |ops| && Writes(c, ops[i])
  }

  // A write makes up for a size over the maximum: it starts a collection.
  lemma StepBounds(c: Codec, d: Disk, op: Op)
    requires Inv(d) && PendingOver(d) && NoWrap(c, d, op)
    ensures var r := Step(c, d, op);
      && PendingOver(r)
      && (Bounded(d) || Writes(c, op) ==> Bounded(r))
      && (d.pending == [] && !Writes(c, op) ==> r.pending == [] && r.sizeBytes == d.sizeBytes && r.store == d.store)
  {
    hide Gc, Touch, Inv;
    if op.CollectOp? && op.i < |d.pending| {
      GcFits(d.(pending := d.pending[..op.i] + d.pending[op.i + 1..]), d.pending[op.i]) by { SamePending(d, op.i); }
    }
  }

  lemma SamePending(d: Disk, i: nat)
    requires Inv(d) && i < |d.pending|
    ensures Inv(d.(pending := d.pending[..i] + d.pending[i + 1..]))
  {
  }

  /** How a run from `d` to `r` ends: with a collection pending or the size within the maximum if
      and only if it began so or wrote something; and otherwise as it began. */
  predicate Ends(d: Disk, r: Disk, wrote: bool) {
    && PendingOver(r) && (Bounded(r) <==> Bounded(d) || wrote)
    && (d.pending == [] && !wrote ==> r.pending == [] && r.sizeBytes == d.sizeBytes && r.store == d.store)
  }

  lemma EndsStep(c: Codec, d: Disk, r: Disk, op: Op, wrote: bool)
    requires Ends(d, r, wrote) && r.maxSizeBytes == d.maxSizeBytes && Inv(r) && NoWrap(c, r, op)
    requires Step(c, r, op).maxSizeBytes == r.maxSizeBytes
    ensures Ends(d, Step(c, r, op), wrote || Writes(c, op))
  {
    hide Inv, NoWrap, Step, PendingOver, Writes;
    StepBounds(c, r, op);
  }

  lemma {:induction false} RunBoundedIff(c: Codec, d: Disk, ops: seq<Op>)
    requires CodecOk(c) && Inv(d) && PendingOver(d) && RunNoWrap(c, d, ops)
    ensures Ends(d, Run(c, d, ops), SomeWrite(c, ops))
  {
    hide Inv, CodecOk, Step, Writes;
    if ops != [] {
      hide Ends, NoWrap, SomeWrite, Sum;
      var before, op := ops[..|ops| - 1], ops[|ops| - 1];
      RunBoundedIff(c, d, before);
      RunNeverUnderCounts(c, d, before);
      RunNeverUnderCounts(c, d, ops);
      EndsStep(c, d, Run(c, d, before), op, SomeWrite(c, before));
      SomeWriteSnoc(c, ops);
    }
  }

  lemma SomeWriteSnoc(c: Codec, ops: seq<Op>)
    requires ops != []
    ensures SomeWrite(c, ops) <==> SomeWrite(c, ops[..|ops| - 1]) || Writes(c, ops[|ops| - 1])
  {
    hide Writes;
    var before := ops[..|ops| - 1];
    if SomeWrite(c, before) {
      var i :| 0 <= i < |before| && Writes(c, before[i]);
      assert ops[i] == before[i];
    }
    if SomeWrite(c, ops) {
      var i :| 0 <= i < |ops| && Writes(c, ops[i]);
      assert i < |before| ==> before[i] == ops[i];
    }
  }

  // ---------- the disk cache as a map ----------

  /** A write that succeeds is found until it is replaced or collected, one that fails changes
      nothing, and neither touches another key; a Get finds exactly what a Peek finds, counted once
      more in the copy it returns only. */
  lemma MapLaws(c: Codec, d: Disk, k: Key, v: CacheObj, putOk: bool, x: Key)
    requires CodecOk(c)
    ensures Writes(c, AddOp(k, v, putOk)) ==> Peek(c, Add(c, d, k, v, putOk), x) == if x == k then Some(v) else Peek(c, d, x)
    ensures !Writes(c, AddOp(k, v, putOk)) ==> Add(c, d, k, v, putOk) == d
    ensures Peek(c, d, k).None? ==> Get(c, d, k) == (d, None)
    ensures Peek(c, d, k).Some? ==> Get(c, d, k).1 == Some(Hit(Peek(c, d, k).value)) && Peek(c, Get(c, d, k).0, x) == Peek(c, d, x)
    ensures Peek(c, d, x).Some? <==> x in d.store && c.decode(d.store[x]).Some?
  {
    hide Touch;
  }

  /** Running a pending collection takes its request away and brings the size within the maximum;
      with all of them run, none is left. */
  lemma CollectRuns(d: Disk, i: nat)
    requires Inv(d) && PendingOver(d) && i < |d.pending|
    ensures var r := Collect(d, i, {});
      Inv(r) && PendingOver(r) && r.pending == d.pending[..i] + d.pending[i + 1..] && r.sizeBytes <= r.maxSizeBytes == d.maxSizeBytes
  {
    hide Inv, Gc;
    SamePending(d, i);
    var d0 := d.(pending := d.pending[..i] + d.pending[i + 1..]);
    GcFits(d0, d.pending[i]);
    assert forall j | 0 <= j < |d0.pending| :: d0.pending[j] == if j < i then d.pending[j] else d.pending[j + 1];
  }

  function CollectAll(d: Disk): Disk
    decreases |d.pending|, 1
  {
    if d.pending == [] then d
    else
      var r := Collect(d, 0, {});
      if |r.pending| < |d.pending| then CollectAll(r) else r
  }

  lemma {:induction false} SettlesWithinLimit(d: Disk)
    requires Inv(d) && PendingOver(d) && d.pending != []
    ensures CollectAll(d).pending == [] && StoredBytes(CollectAll(d)) <= d.maxSizeBytes
    decreases |d.pending|
  {
    CollectRuns(d, 0);
    var r := Collect(d, 0, {});
    if r.pending == [] {
      StoredIsWeight(r);
    } else {
      SettlesWithinLimit(r);
    }
  }

  // ---------- order of use ----------

  // The last operation of `ops` used `k`: it wrote it, or found it.
  predicate Uses(c: Codec, max: u64, ops: seq<Op>, k: Key)
    requires ops != []
  {
    match ops[|ops| - 1]
    case AddOp(key, v, _) => key == k && Writes(c, ops[|ops| - 1])
    case GetOp(key) => key == k && Peek(c, Run(c, Empty(max), ops[..|ops| - 1]), k).Some?
    case CollectOp(_) => false
  }

  // The time of the last operation that used a key, -1 for never, and the size it recorded.
  function LastUse(c: Codec, max: u64, ops: seq<Op>, k: Key): int {
    if ops == [] then -1
    else if Uses(c, max, ops, k) then |ops| - 1
    else LastUse(c, max, ops[..|ops| - 1], k)
  }

  function LastSize(c: Codec, max: u64, ops: seq<Op>, k: Key): nat {
    if ops == [] then 0
    else if !Uses(c, max, ops, k) then LastSize(c, max, ops[..|ops| - 1], k)
    else
      var op := ops[|ops| - 1];
      if op.AddOp? then |c.encode(op.val).value| else Peek(c, Run(c, Empty(max), ops[..|ops| - 1]), k).value.size
  }

  ghost predicate InUseOrder(c: Codec, max: u64, ops: seq<Op>, l: Lru) {
    && Valid(l) && Ranked(l.order, k => LastUse(c, max, ops, k))
    && (forall k | k in l.sizes :: 0 <= LastUse(c, max, ops, k) < |ops| && l.sizes[k] == LastSize(c, max, ops, k))
  }

  lemma TouchUse(c: Codec, max: u64, ops: seq<Op>, l: Lru, k: Key, size: u64)
    requires ops != [] && Uses(c, max, ops, k) && (forall x | x != k :: !Uses(c, max, ops, x)) && size == LastSize(c, max, ops, k)
    requires InUseOrder(c, max, ops[..|ops| - 1], l)
    ensures InUseOrder(c, max, ops, Touch(l, k, size))
  {
    var before := ops[..|ops| - 1];
    forall x | x in l.order && x != k
      ensures LastUse(c, max, ops, x) == LastUse(c, max, before, x) < LastUse(c, max, ops, k)
    {
      assert x in l.sizes;
    }
    hide Uses;
    TouchValid(l, k, size);
    TouchRanked(l, k, size, x => LastUse(c, max, before, x), x => LastUse(c, max, ops, x));
    hide Valid, Ranked;
  }

  // Nothing was used: what is left of the list stays in order.
  lemma DropUse(c: Codec, max: u64, ops: seq<Op>, l: Lru, l': Lru)
    requires ops != [] && (forall x :: !Uses(c, max, ops, x)) && InUseOrder(c, max, ops[..|ops| - 1], l)
    requires Valid(l') && l'.order <= l.order && forall k | k in l'.sizes :: k in l.sizes && l'.sizes[k] == l.sizes[k]
    ensures InUseOrder(c, max, ops, l')
  {
    hide Uses, Valid;
    var before := ops[..|ops| - 1];
    assert forall x :: LastUse(c, max, ops, x) == LastUse(c, max, before, x) && LastSize(c, max, ops, x) == LastSize(c, max, before, x);
  }

  lemma {:induction false} GcKeepsList(d: Disk, size: u64, stuck: set<Key>)
    requires Valid(d.lru)
    ensures var l := Gc(d, size, stuck).lru;
      Valid(l) && l.order <= d.lru.order && forall k | k in l.sizes :: k in d.lru.sizes && l.sizes[k] == d.lru.sizes[k]
    decreases |d.lru.order|
  {
    if size > d.maxSizeBytes && d.lru.order != [] {
      var d1 := EvictOne(d, Oldest(d.lru) !in stuck);
      DropValid(d.lru);
      hide Valid;
      GcKeepsList(d1, d1.sizeBytes, stuck);
    }
  }

  /** Through any run on an empty disk cache, the list is in order of the last write or hit of each
      key, and records for each the length that was written, or the size of the object found. */
  lemma {:induction false} RunOrder(c: Codec, max: u64, ops: seq<Op>)
    ensures InUseOrder(c, max, ops, Run(c, Empty(max), ops).lru)
  {
    if ops != [] {
      var before, op := ops[..|ops| - 1], ops[|ops| - 1];
      var d := Run(c, Empty(max), before);
      RunOrder(c, max, before);
      assert Valid(d.lru);
      hide InUseOrder, Valid;
      if op.AddOp? && Writes(c, op) {
        TouchUse(c, max, ops, d.lru, op.key, |c.encode(op.val).value|);
      } else if op.GetOp? && Peek(c, d, op.key).Some? {
        TouchUse(c, max, ops, d.lru, op.key, Peek(c, d, op.key).value.size);
      } else {
        if op.CollectOp? && op.i < |d.pending| {
          GcKeepsList(d.(pending := d.pending[..op.i] + d.pending[op.i + 1..]), d.pending[op.i], {});
        }
        DropUse(c, max, ops, d.lru, Run(c, Empty(max), ops).lru);
      }
    }
  }

  // ---------- when no collection ever resets ----------

  // Operations of these Adds, each any number of times, with any reads and collections between them.
  predicate Drawn(w: set<Op>, ops: seq<Op>) {
    forall i | 0 <= i < |ops| :: ops[i] in w || ops[i].GetOp? || ops[i].CollectOp?
  }

  // The pending collection number `i` finds the list empty.
  predicate PendingResets(d: Disk, i: nat) {
    i < |d.pending| && Resets(d.(pending := d.pending[..i] + d.pending[i + 1..]), d.pending[i])
  }

  ghost predicate NeverResets(c: Codec, w: set<Op>, max: u64) {
    forall ops, i | Drawn(w, ops) :: !PendingResets(Run(c, Empty(max), ops), i)
  }

  // The Add puts a nonempty entry into the store.
  predicate Fills(c: Codec, op: Op) {
    Writes(c, op) && c.encode(op.val).value != []
  }

  function Repeated(op: Op, n: nat): seq<Op> {
    seq(n, _ => op)
  }

  lemma RepeatedSnoc(op: Op, n: nat)
    ensures |Repeated(op, n + 1)| == n + 1 && Repeated(op, n + 1)[n] == op && Repeated(op, n + 1)[..n] == Repeated(op, n)
  {
  }

  // n * len
  function Times(n: nat, len: nat): nat {
    if n == 0 then 0 else Times(n - 1, len) + len
  }

  lemma {:induction false} TimesIs(n: nat, len: nat)
    ensures Times(n, len) == n * len
  {
    if n > 0 {
      TimesIs(n - 1, len);
      assert (n - 1) * len + len == n * len;
    }
  }

  // After `n` writes of one key it is listed once and counted `n` times.
  lemma {:induction false} CountedAgain(c: Codec, op: Op, n: nat, max: u64)
    requires Fills(c, op) && 0 < n && Times(n, |c.encode(op.val).value|) < 0x1_0000_0000_0000_0000
    ensures var d := Run(c, Empty(max), Repeated(op, n)); var len := |c.encode(op.val).value|;
      && d.lru == Lru([op.key], map[op.key := len]) && d.sizeBytes == Times(n, len) && d.maxSizeBytes == max
      && (Times(n, len) > max ==> d.pending != [] && d.pending[|d.pending| - 1] == Times(n, len))
  {
    RepeatedSnoc(op, n - 1);
    if n == 1 {
      assert Repeated(op, 0) == [] && Run(c, Empty(max), Repeated(op, 0)) == Empty(max);
    } else {
      CountedAgain(c, op, n - 1, max);
    }
  }

  // Written often enough before a collection runs, any nonempty entry makes it reset.
  lemma RewritesReset(c: Codec, w: set<Op>, op: Op, max: u64)
    requires op in w && Fills(c, op) && max < 0x8000_0000_0000_0000
    ensures !NeverResets(c, w, max)
  {
    var len := |c.encode(op.val).value|;
    if len < 0x4000_0000_0000_0000 {
      SmallRewritesReset(c, w, op, max);
    } else {
      LargeRewritesReset(c, w, op, max);
    }
  }

  lemma SmallRewritesReset(c: Codec, w: set<Op>, op: Op, max: u64)
    requires op in w && Fills(c, op) && max < 0x8000_0000_0000_0000 && |c.encode(op.val).value| < 0x4000_0000_0000_0000
    ensures !NeverResets(c, w, max)
  {
    var len := |c.encode(op.val).value|;
    var n := EnoughRewrites(max, len);
    CountedAgain(c, op, n, max);
    var ops := Repeated(op, n);
    var d := Run(c, Empty(max), ops);
    assert Drawn(w, ops);
    hide Run, NeverResets, Drawn, PendingResets, Times, Repeated, Fills;
    OneEntryResets(d, op.key, len, |d.pending| - 1);
    NotNever(c, w, max, ops, |d.pending| - 1);
  }

  // Three writes of an entry this large count twice its length after an eviction, wrapped around or not.
  lemma LargeRewritesReset(c: Codec, w: set<Op>, op: Op, max: u64)
    requires op in w && Fills(c, op) && max < 0x8000_0000_0000_0000 && |c.encode(op.val).value| >= 0x4000_0000_0000_0000
    ensures !NeverResets(c, w, max)
  {
    var b := c.encode(op.val).value;
    TimesIs(2, |b|);
    CountedAgain(c, op, 2, max);
    RepeatedSnoc(op, 2);
    var d2, d3 := Run(c, Empty(max), Repeated(op, 2)), Run(c, Empty(max), Repeated(op, 3));
    assert d3 == Put(d2, op.key, b);
    assert Drawn(w, Repeated(op, 3));
    hide Run, NeverResets, Drawn, PendingResets, Times, Repeated, Fills;
    var i := |d2.pending| - 1;
    assert d3.lru == Lru([op.key], map[op.key := |b|]) && d3.pending[i] == 2 * |b|;
    OneEntryResets(d3, op.key, |b|, i);
    NotNever(c, w, max, Repeated(op, 3), i);
  }

  lemma OneEntryResets(d: Disk, k: Key, len: u64, i: nat)
    requires d.lru == Lru([k], map[k := len]) && i < |d.pending| && d.pending[i] > d.maxSizeBytes
    requires SubU64(d.sizeBytes, len) > d.maxSizeBytes
    ensures PendingResets(d, i)
  {
    var d1 := EvictOne(d.(pending := d.pending[..i] + d.pending[i + 1..]), true);
    assert d1.sizeBytes == SubU64(d.sizeBytes, len) && d1.lru.order == [];
  }

  lemma NotNever(c: Codec, w: set<Op>, max: u64, ops: seq<Op>, i: nat)
    requires Drawn(w, ops) && PendingResets(Run(c, Empty(max), ops), i)
    ensures !NeverResets(c, w, max)
  {
  }

  lemma EnoughRewrites(max: nat, len: nat) returns (n: nat)
    requires len > 0
    ensures n > 0 && max < Times(n, len) - len && Times(n, len) <= max + 2 * len
  {
    n := max / len + 2;
    TimesIs(n, len);
    assert n * len == (max / len) * len + 2 * len;
  }

  // Without nonempty writes nothing is ever counted.
  lemma {:induction false} NothingCounted(c: Codec, w: set<Op>, ops: seq<Op>, max: u64)
    requires Drawn(w, ops) && forall op | op in w :: !Fills(c, op)
    ensures Run(c, Empty(max), ops).sizeBytes == 0 && Run(c, Empty(max), ops).pending == []
  {
    if ops != [] {
      NothingCounted(c, w, ops[..|ops| - 1], max);
      var op := ops[|ops| - 1];
      assert op in w || op.GetOp? || op.CollectOp?;
    }
  }

  /** A disk cache used with these Adds, each any number of times, with reads and collections at any
      moment, never finds its list empty if and only if none of them writes a nonempty entry. */
  lemma NeverResetsIff(c: Codec, w: set<Op>, max: u64)
    requires max < 0x8000_0000_0000_0000 && forall op | op in w :: op.AddOp?
    ensures NeverResets(c, w, max) <==> forall op | op in w :: !Fills(c, op)
  {
    if forall op | op in w :: !Fills(c, op) {
      forall ops, i | Drawn(w, ops) ensures !PendingResets(Run(c, Empty(max), ops), i) {
        NothingCounted(c, w, ops, max);
      }
    } else {
      var op :| op in w && Fills(c, op);
      RewritesReset(c, w, op, max);
    }
  }

  // ---------- recovery after a restart ----------

  // The list after visiting `keys` of the store: each recorded with its length, `size` bytes in all.
  ghost predicate Recovered(l: Lru, keys: seq<Key>, store: map<Key, Bytes>, size: nat) {
    && Valid(l) && size == Total(l)
    && (forall k :: k in l.sizes <==> k in keys)
    && (forall k | k in l.sizes :: k in store && l.sizes[k] == |store[k]|)
  }

  lemma RecoverOne(l: Lru, keys: seq<Key>, store: map<Key, Bytes>, size: nat, k: Key)
    requires Recovered(l, keys, store, size) && k in store && k !in keys
    ensures Recovered(Touch(l, k, |store[k]|), keys + [k], store, size + |store[k]|)
  {
    hide Weight, Valid;
    TouchValid(l, k, |store[k]|);
    TouchTotal(l, k, |store[k]|);
  }

  lemma RecoveredSize(l: Lru, keys: seq<Key>, store: map<Key, Bytes>, size: nat)
    requires Recovered(l, keys, store, size) && forall k :: k in keys <==> k in store
    ensures size == Sum(Lengths(store))
  {
    WeightSame(l.order, l.sizes, Lengths(store));
    WeightIsSum(l.order, Lengths(store));
  }

  lemma RecoverAll(d: Disk, keys: seq<Key>)
    requires Recovered(d.lru, keys, d.store, d.sizeBytes) && forall k :: k in keys <==> k in d.store
    ensures Inv(d) && d.sizeBytes == StoredBytes(d)
  {
    WeightSame(d.lru.order, d.lru.sizes, Lengths(d.store));
    StoredIsWeight(d);
  }

  // What recovery leaves behind, whatever the store held.
  ghost predicate JustRecovered(d: Disk) {
    Inv(d) && d.sizeBytes == StoredBytes(d) && d.pending == []
  }

  /** All runs after recovery: the tracked size always covers the stored bytes; and these are
      within the maximum whenever no collection is pending if and only if the recovered store was,
      or something has been written since. */
  lemma RunAfterRecovery(c: Codec, d: Disk, ops: seq<Op>)
    requires CodecOk(c) && JustRecovered(d) && RunNoWrap(c, d, ops)
    ensures var r := Run(c, d, ops);
      && Inv(r) && StoredBytes(r) <= r.sizeBytes
      && ((r.pending == [] ==> StoredBytes(r) <= r.maxSizeBytes) <==> StoredBytes(d) <= d.maxSizeBytes || SomeWrite(c, ops))
  {
    RunNeverUnderCounts(c, d, ops);
    RunBoundedIff(c, d, ops);
    hide Inv, CodecOk, SomeWrite, Sum;
  }

  /** Recovery starts no collection: a store found over the maximum, as after the limit was
      lowered, stays so until something is written, however often it is read. */
  lemma RecoveredOverLimit(c: Codec, k: Key, b: Bytes, ops: seq<Op>)
    requires CodecOk(c) && |b| == 60 && !SomeWrite(c, ops)
    ensures var d := Disk(map[k := b], Lru([k], map[k := 60]), 60, 50, []); var r := Run(c, d, ops);
      JustRecovered(d) && r.pending == [] && StoredBytes(r) == 60 && r.maxSizeBytes == 50
  {
    var d := Disk(map[k := b], Lru([k], map[k := 60]), 60, 50, []);
    assert Weight([k], Lengths(d.store)) == 60;
    StoredIsWeight(d);
    ReadsDoNotWrap(c, d, ops);
    RunBoundedIff(c, d, ops);
    RunNeverUnderCounts(c, d, ops);
  }

  lemma {:induction false} ReadsDoNotWrap(c: Codec, d: Disk, ops: seq<Op>)
    requires !SomeWrite(c, ops)
    ensures RunNoWrap(c, d, ops)
  {
    if ops != [] {
      SomeWriteSnoc(c, ops);
      ReadsDoNotWrap(c, d, ops[..|ops| - 1]);
    }
  }

  // ---------- the cache as it is kept in memory ----------

  class DiskCache {
    const codec: Codec
    const lru: LRU
    var store: map<Key, Bytes>
    var sizeBytes: u64
    const maxSizeBytes: u64
    var pending: seq<u64>

    ghost function View(): Disk
      reads this, lru
    {
      Disk(store, lru.View(), sizeBytes, maxSizeBytes, pending)
    }

    // Opens a store with whatever it holds; nothing is listed or counted yet.
    constructor (codec: Codec, existing: map<Key, Bytes>, cacheSizeBytes: u64)
      ensures this.codec == codec && fresh(lru) && Valid(lru.View())
      ensures View() == Disk(existing, Lru([], map[]), 0, cacheSizeBytes, [])
    {
      this.codec := codec;
      lru := new LRU();
      store, sizeBytes, maxSizeBytes, pending := existing, 0, cacheSizeBytes, [];
    }

    /** Rebuilds the list from the store, in the store's cursor order; the list must be empty. */
    method ResetAfterRestart(cursor: seq<Key>)
      requires lru.l == [] && lru.lElems == map[] && sizeBytes == 0
      requires Distinct(cursor) && forall k :: k in cursor <==> k in store
      requires Sum(Lengths(store)) < 0x8000_0000_0000_0000
      modifies this, lru
      ensures Inv(View()) && store == old(store) && pending == old(pending)
      ensures sizeBytes == StoredBytes(View()) && (pending == [] ==> JustRecovered(View()))
      ensures forall k | k in store :: lru.lElems[k] == |store[k]|
    {
      var size: nat := 0;
      var i := 0;
      while i < |cursor|
        invariant 0 <= i <= |cursor| && store == old(store) && pending == old(pending) && sizeBytes == 0
        invariant Recovered(lru.View(), cursor[..i], store, size)
      {
        assert cursor[..i + 1] == cursor[..i] + [cursor[i]];
        assert cursor[i] in cursor && cursor[i] !in cursor[..i];
        RecoverOne(lru.View(), cursor[..i], store, size, cursor[i]);
        var _ := lru.Add(cursor[i], |store[cursor[i]]|);
        size := size + |store[cursor[i]]|;
        i := i + 1;
      }
      assert cursor[..i] == cursor;
      RecoveredSize(lru.View(), cursor, store, size);
      sizeBytes := AddU64(sizeBytes, size);
      RecoverAll(View(), cursor);
    }

    method AddObj(key: Key, val: CacheObj, putOk: bool) returns (evicted: bool)
      requires Valid(lru.View())
      modifies this, lru
      ensures View() == Add(codec, old(View()), key, val, putOk) && Valid(lru.View()) && !evicted
    {
      evicted := false;
      var valBytes := codec.encode(val);
      if valBytes.None? || !putOk {
        return;
      }
      store := store[key := valBytes.value];
      var _ := lru.Add(key, |valBytes.value|);
      sizeBytes := AddU64(sizeBytes, |valBytes.value|);
      if sizeBytes > maxSizeBytes {
        pending := pending + [sizeBytes];
      }
    }

    method PeekObj(key: Key) returns (obj: Option<CacheObj>)
      ensures obj == Peek(codec, View(), key)
    {
      if key !in store {
        return None;
      }
      obj := codec.decode(store[key]);
    }

    method GetObj(key: Key) returns (obj: Option<CacheObj>)
      requires Valid(lru.View())
      modifies lru
      ensures View() == Get(codec, old(View()), key).0 && obj == Get(codec, old(View()), key).1 && Valid(lru.View())
    {
      var found := PeekObj(key);
      if found.None? {
        return None;
      }
      var _ := lru.Add(key, found.value.size);
      obj := Some(Hit(found.value));
    }

    // gc, run by one of the goroutines that Adds start; `stuck` are deletions the store refuses.
    method GcLoop(request: u64, stuck: set<Key>)
      requires Valid(lru.View())
      modifies this, lru
      ensures View() == Gc(old(View()), request, stuck) && Valid(lru.View())
    {
      var cacheSizeBytes: u64 := request;
      while cacheSizeBytes > maxSizeBytes
        invariant Valid(lru.View())
        invariant Gc(View(), cacheSizeBytes, stuck) == Gc(old(View()), request, stuck)
        decreases |lru.l|
      {
        hide Valid;
        var oldest := lru.RemoveOldest();
        if oldest.None? {
          sizeBytes := 0;
          return;
        }
        var (key, size) := oldest.value;
        if key !in stuck {
          store := store - {key};
        }
        sizeBytes := MinusU64(sizeBytes, size);
        cacheSizeBytes := sizeBytes;
      }
    }
  }
}
