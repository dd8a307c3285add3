/**
 When the memory cache's accounting survives the finest interleaving: an exact condition on the
 operations a cache is used with and on its maximum.
 */
module GcAccounts {
  import opened Words
  import opened LruList
  import opened GcSignals

  /** The operations a cache may be used with: any number of each, at any moment. Body lengths
      are Go ints. */
  predicate IsWorkload(w: set<Op>) {
    forall o | o in w :: (o.AddStore? && o.size < 0x8000_0000_0000_0000) || o.GetLook?
  }

  predicate Issues(w: set<Op>, s0: State) {
    forall i | 0 <= i < |s0.ops| :: s0.ops[i] in w
  }

  // No operation and no collection is under way.
  predicate AtRest(s: State) {
    s.gc.Idle? && s.gcChan.None? && forall i | 0 <= i < |s.ops| :: s.ops[i].Ended? || s.ops[i].AddStore? || s.ops[i].GetLook?
  }

  /** gc does not find the list empty, and whenever nothing is under way, map and list hold the
      same keys and sizes and the tracked size is their sum. */
  ghost predicate Sound(s: State) {
    && !s.gc.Reset?
    && (AtRest(s) ==> s.cache == s.lru.sizes && s.sizeBytes == Reduced(Sum(s.cache)))
  }

  ghost predicate AlwaysSound(w: set<Op>, max: u64) {
    forall s0, steps | Init(s0) && s0.maxSizeBytes == max && Issues(w, s0) && IsRun(s0, steps) :: Sound(After(s0, steps))
  }

  // ---------- the condition ----------

  // A key is only ever added with one size.
  predicate OneSize(w: set<Op>) {
    forall a, b | a in w && b in w && a.AddStore? && b.AddStore? && a.key == b.key :: a.size == b.size
  }

  // No key that is added with content is also read.
  predicate Unread(w: set<Op>) {
    forall a | a in w && a.AddStore? && a.size > 0 :: GetLook(a.key) !in w
  }

  function AddSizes(w: set<Op>): map<Key, u64>
    requires OneSize(w)
  {
    map a | a in w && a.AddStore? :: a.key := a.size
  }

  // What all the objects take together is within the maximum.
  ghost predicate Safe(w: set<Op>, max: u64) {
    OneSize(w) && Unread(w) && Sum(AddSizes(w)) <= max
  }

  // ---------- sums ----------

  lemma {:induction false} SumMonotone(v: map<Key, nat>, w: map<Key, nat>)
    requires forall k | k in v :: k in w && v[k] == w[k]
    ensures Sum(v) <= Sum(w)
    decreases |v|
  {
    if v != map[] {
      var k :| k in v;
      SumTakes(v, k);
      SumTakes(w, k);
      SumMonotone(v - {k}, w - {k});
    }
  }

  // ---------- a safe workload never collects ----------

  // What an operation carries, when every key has the size `sizes` gives it.
  predicate OpOk(sizes: map<Key, u64>, cache: map<Key, u64>, o: Op) {
    match o
    case AddStore(k, z) => k in sizes && sizes[k] == z
    case AddTouch(k, z) => k in sizes && sizes[k] == z && k in cache
    case AddSignal(_) => false
    case GetLook(k) => k in sizes ==> sizes[k] == 0
    case GetTouch(k, z) => k in sizes && sizes[k] == z == 0 && k in cache
    case _ => true
  }

  // A stored key is listed, or an Add is about to list it.
  predicate ListedSoon(s: State, k: Key) {
    k in s.lru.sizes || exists i :: 0 <= i < |s.ops| && s.ops[i].AddTouch? && s.ops[i].key == k
  }

  predicate KeysOk(sizes: map<Key, u64>, s: State) {
    && (forall k | k in s.lru.sizes :: k in s.cache && k in sizes && s.lru.sizes[k] == sizes[k])
    && (forall k | k in s.cache :: k in sizes && s.cache[k] == sizes[k] && ListedSoon(s, k))
  }

  ghost predicate Undisturbed(sizes: map<Key, u64>, s: State) {
    && s.gc.Idle? && s.gcChan.None? && Sum(sizes) <= s.maxSizeBytes
    && (forall i | 0 <= i < |s.ops| :: OpOk(sizes, s.cache, s.ops[i]))
    && KeysOk(sizes, s)
    && Valid(s.lru) && s.sizeBytes + Uncounted(s.ops) == Total(s.lru)
  }

  lemma TotalFits(sizes: map<Key, u64>, s: State)
    requires KeysOk(sizes, s) && Valid(s.lru)
    ensures Total(s.lru) == Sum(s.lru.sizes) <= Sum(sizes)
  {
    WeightIsSum(s.lru.order, s.lru.sizes);
    SumMonotone(s.lru.sizes, sizes);
  }

  // The operation's own keys after its step.
  lemma KeysKept(sizes: map<Key, u64>, s: State, i: nat)
    requires Undisturbed(sizes, s) && Enabled(s, OpStep(i))
    ensures KeysOk(sizes, OpApply(s, i)) && forall k | k in s.cache :: k in OpApply(s, i).cache
  {
    hide Valid, Total, Uncounted, Sum;
    var s' := OpApply(s, i);
    assert OpOk(sizes, s.cache, s.ops[i]);
    forall k | k in s'.cache ensures k in sizes && s'.cache[k] == sizes[k] && ListedSoon(s', k) {
      if k in s.cache && k !in s.lru.sizes {
        var j :| 0 <= j < |s.ops| && s.ops[j].AddTouch? && s.ops[j].key == k;
        assert j != i ==> s'.ops[j] == s.ops[j];
      } else if k !in s.cache {
        assert s'.ops[i].AddTouch? && s'.ops[i].key == k;
      }
    }
  }

  lemma SizeKept(sizes: map<Key, u64>, s: State, i: nat)
    requires Undisturbed(sizes, s) && Enabled(s, OpStep(i))
    ensures var s' := OpApply(s, i); Valid(s'.lru) && s'.sizeBytes + Uncounted(s'.ops) == Total(s'.lru)
  {
    hide Valid, Weight, Sum;
    var s' := OpApply(s, i);
    assert OpOk(sizes, s.cache, s.ops[i]);
    UncountedUpdate(s.ops, i, s'.ops[i]);
    assert s'.ops == s.ops[i := s'.ops[i]];
    TotalFits(sizes, s);
    UncountedMember(s.ops, i);
    if s.ops[i].AddTouch? || s.ops[i].GetTouch? {
      TouchValid(s.lru, s.ops[i].key, s.ops[i].size);
      TouchTotal(s.lru, s.ops[i].key, s.ops[i].size);
    }
  }

  lemma {:induction false} UncountedMember(ops: seq<Op>, i: nat)
    requires i < |ops|
    ensures ops[i].AddCount? ==> ops[i].change <= Uncounted(ops)
  {
    if i > 0 {
      UncountedMember(ops[1..], i - 1);
    }
  }

  lemma OpsKept(sizes: map<Key, u64>, s: State, i: nat)
    requires Undisturbed(sizes, s) && Enabled(s, OpStep(i))
    ensures var s' := OpApply(s, i);
      && s'.gc == s.gc && s'.gcChan == s.gcChan && s'.maxSizeBytes == s.maxSizeBytes
      && forall j | 0 <= j < |s'.ops| :: OpOk(sizes, s'.cache, s'.ops[j])
  {
    assert OpOk(sizes, s.cache, s.ops[i]);
    TotalFits(sizes, s);
    UncountedMember(s.ops, i);
    hide Valid, Weight, Sum, KeysOk, Uncounted, Touch;
    var s' := OpApply(s, i);
    assert OpOk(sizes, s'.cache, s'.ops[i]) by {
      assert KeysOk(sizes, s);
      if s.ops[i].GetLook? && s.ops[i].key in s.cache {
        CachedSize(sizes, s, s.ops[i].key);
      }
    }
    forall j | 0 <= j < |s'.ops| && j != i ensures OpOk(sizes, s'.cache, s'.ops[j]) {
      assert OpOk(sizes, s.cache, s.ops[j]);
    }
  }

  lemma CachedSize(sizes: map<Key, u64>, s: State, k: Key)
    requires KeysOk(sizes, s) && k in s.cache
    ensures k in sizes && s.cache[k] == sizes[k]
  {
  }

  lemma UndisturbedKept(sizes: map<Key, u64>, s: State, st: Step)
    requires Undisturbed(sizes, s) && Enabled(s, st)
    ensures Undisturbed(sizes, Apply(s, st))
  {
    KeysKept(sizes, s, st.i);
    SizeKept(sizes, s, st.i);
    OpsKept(sizes, s, st.i);
    hide Valid, Total, Sum, KeysOk, Uncounted, OpApply, OpOk;
  }

  lemma {:induction false} UndisturbedRun(sizes: map<Key, u64>, s: State, steps: seq<Step>)
    requires Undisturbed(sizes, s) && IsRun(s, steps)
    ensures Undisturbed(sizes, After(s, steps))
    decreases |steps|
  {
    if steps != [] {
      hide Undisturbed, Apply, Enabled;
      UndisturbedKept(sizes, s, steps[0]);
      UndisturbedRun(sizes, Apply(s, steps[0]), steps[1..]);
    }
  }

  lemma SafeStart(w: set<Op>, s0: State)
    requires Safe(w, s0.maxSizeBytes) && IsWorkload(w) && Init(s0) && Issues(w, s0)
    ensures Undisturbed(AddSizes(w), s0)
  {
    forall i | 0 <= i < |s0.ops| ensures OpOk(AddSizes(w), s0.cache, s0.ops[i]) {
      var o := s0.ops[i];
      assert o in w;
      if o.GetLook? && o.key in AddSizes(w) {
        var a :| a in w && a.AddStore? && a.key == o.key;
      }
    }
    InitCounts(s0.ops);
  }

  lemma UndisturbedSound(sizes: map<Key, u64>, s: State)
    requires Undisturbed(sizes, s)
    ensures Sound(s)
  {
    if AtRest(s) {
      RestUncounted(s.ops);
      TotalFits(sizes, s);
      hide Sum, Valid, Total;
      assert s.cache == s.lru.sizes;
    }
  }

  lemma {:induction false} RestUncounted(ops: seq<Op>)
    requires forall i | 0 <= i < |ops| :: !ops[i].AddCount?
    ensures Uncounted(ops) == 0
  {
    if ops != [] {
      RestUncounted(ops[1..]);
    }
  }

  // On a safe workload the cache never collects, in any interleaving.
  lemma SafeIsSound(w: set<Op>, s0: State, steps: seq<Step>)
    requires IsWorkload(w) && Safe(w, s0.maxSizeBytes) && Init(s0) && Issues(w, s0) && IsRun(s0, steps)
    ensures Sound(After(s0, steps)) && After(s0, steps).gc.Idle? && After(s0, steps).gcChan.None?
  {
    SafeStart(w, s0);
    UndisturbedRun(AddSizes(w), s0, steps);
    UndisturbedSound(AddSizes(w), After(s0, steps));
  }

  // ---------- an unsafe workload has a run that is not sound ----------

  lemma ReachedUnsound(w: set<Op>, s0: State, s: State)
    requires Init(s0) && Issues(w, s0) && Reachable(s0, s) && !Sound(s)
    ensures !AlwaysSound(w, s0.maxSizeBytes)
  {
    var steps :| IsRun(s0, steps) && After(s0, steps) == s;
  }

  // States with a single key, stored and listed with these sizes or not at all.
  function Single(k: Key, max: u64, ops: seq<Op>, gc: Collector, stored: Option<u64>, listed: Option<u64>,
                  size: u64, chan: Option<u64>): State {
    State(ops, gc, if stored.Some? then map[k := stored.value] else map[],
          if listed.Some? then Lru([k], map[k := listed.value]) else Lru([], map[]), 0, size, max, chan, 0)
  }

  function Start(k: Key, max: u64, ops: seq<Op>): State {
    Single(k, max, ops, Idle, None, None, 0, None)
  }

  // A Get between an Add's store and its touch records the size before the Add can count it.
  lemma ReadBreaks(w: set<Op>, max: u64, k: Key, z: u64)
    requires AddStore(k, z) in w && GetLook(k) in w && z > 0
    ensures !AlwaysSound(w, max)
  {
    hide Reachable, AlwaysSound, Sum;
    var s0, add := Start(k, max, [AddStore(k, z), GetLook(k)]), AddTouch(k, z);
    var s1 := Single(k, max, [add, GetLook(k)], Idle, Some(z), None, 0, None);
    var s2 := Single(k, max, [add, GetTouch(k, z)], Idle, Some(z), None, 0, None).(readers := 1);
    var s3 := Single(k, max, [add, GetLeave], Idle, Some(z), Some(z), 0, None).(drift := 0 - z, readers := 1);
    var s4 := s3.(ops := [add, Ended], readers := 0);
    var s5 := s4.(ops := [Ended, Ended]);
    Here(s0);
    Play(s0, s0, OpStep(0), s1);
    Play(s0, s1, OpStep(1), s2);
    Play(s0, s2, OpStep(1), s3);
    Play(s0, s3, OpStep(1), s4);
    Play(s0, s4, OpStep(0), s5);
    SumOne(k, z);
    ReachedUnsound(w, s0, s5);
  }

  lemma SumOne(k: Key, z: u64)
    ensures Sum(map[k := z]) == z
  {
    SumTakes(map[k := z], k);
    assert map[k := z] - {k} == map[];
  }

  // gc evicts the only key: off the list, off the map, off the size.
  lemma Evict(s0: State, k: Key, max: u64, ops: seq<Op>, local: u64, stored: Option<u64>, listed: u64, size: u64)
    requires local > max && listed <= size
    requires Reachable(s0, Single(k, max, ops, Check(local), stored, Some(listed), size, None))
    ensures Reachable(s0, Single(k, max, ops, Check(size - listed), None, None, size - listed, None))
  {
    hide Reachable;
    var s := Single(k, max, ops, Check(local), stored, Some(listed), size, None);
    var s1 := Single(k, max, ops, Delete(local, k, listed), stored, None, size, None);
    var s2 := Single(k, max, ops, Subtract(local, listed), None, None, size, None);
    assert map[k := listed] - {k} == map[] && s.cache - {k} == map[];
    Play(s0, s, GcStep, s1);
    Play(s0, s1, GcStep, s2);
    Play(s0, s2, GcStep, Single(k, max, ops, Check(size - listed), None, None, size - listed, None));
  }

  // Two Adds of one key: the smaller's change wraps around, and is counted first.
  lemma ResizeSignals(max: u64, k: Key, a: u64, b: u64)
    requires a < b < 0x8000_0000_0000_0000 && max < 0x8000_0000_0000_0000
    ensures Reachable(Start(k, max, [AddStore(k, b), AddStore(k, a)]),
                      Single(k, max, [AddCount(b), AddSignal(SubU64(a, b))], Idle, Some(a), Some(a), SubU64(a, b), None))
  {
    hide Reachable;
    var s0, c, first := Start(k, max, [AddStore(k, b), AddStore(k, a)]), SubU64(a, b), AddCount(b);
    var s1 := Single(k, max, [AddTouch(k, b), AddStore(k, a)], Idle, Some(b), None, 0, None);
    var s2 := Single(k, max, [first, AddStore(k, a)], Idle, Some(b), Some(b), 0, None);
    var s3 := Single(k, max, [first, AddTouch(k, a)], Idle, Some(a), Some(b), 0, None);
    var s4 := Single(k, max, [first, AddCount(c)], Idle, Some(a), Some(a), 0, None);
    Here(s0);
    Play(s0, s0, OpStep(0), s1);
    Play(s0, s1, OpStep(0), s2);
    Play(s0, s2, OpStep(1), s3);
    Play(s0, s3, OpStep(1), s4);
    Play(s0, s4, OpStep(1), Single(k, max, [first, AddSignal(c)], Idle, Some(a), Some(a), c, None));
  }

  // gc then evicts the key and finds the list empty.
  lemma ResizeBreaks(w: set<Op>, max: u64, k: Key, a: u64, b: u64)
    requires AddStore(k, a) in w && AddStore(k, b) in w && a < b < 0x8000_0000_0000_0000 && max < 0x8000_0000_0000_0000
    ensures !AlwaysSound(w, max)
  {
    ResizeSignals(max, k, a, b);
    hide Reachable, AlwaysSound, Sum;
    var s0, c, ops := Start(k, max, [AddStore(k, b), AddStore(k, a)]), SubU64(a, b), [AddCount(b), Ended];
    var s1 := Single(k, max, [AddCount(b), AddSignal(c)], Idle, Some(a), Some(a), c, None);
    var s2 := Single(k, max, ops, Idle, Some(a), Some(a), c, Some(c));
    Play(s0, s1, OpStep(1), s2);
    Play(s0, s2, GcStep, Single(k, max, ops, Check(c), Some(a), Some(a), c, None));
    Evict(s0, k, max, ops, c, Some(a), a, c);
    var s3 := Single(k, max, ops, Reset(c - a), None, None, c - a, None);
    Play(s0, Single(k, max, ops, Check(c - a), None, None, c - a, None), GcStep, s3);
    ReachedUnsound(w, s0, s3);
  }

  // One key over the maximum, added twice: gc starts on the first Add's request.
  lemma OversizeSignals(max: u64, k: Key, z: u64)
    requires max < z < 0x8000_0000_0000_0000
    ensures Reachable(Start(k, max, [AddStore(k, z), AddStore(k, z)]),
                      Single(k, max, [Ended, AddStore(k, z)], Check(z), Some(z), Some(z), z, None))
  {
    hide Reachable;
    var s0, two := Start(k, max, [AddStore(k, z), AddStore(k, z)]), AddStore(k, z);
    var s1 := Single(k, max, [AddTouch(k, z), two], Idle, Some(z), None, 0, None);
    var s2 := Single(k, max, [AddCount(z), two], Idle, Some(z), Some(z), 0, None);
    var s3 := Single(k, max, [AddSignal(z), two], Idle, Some(z), Some(z), z, None);
    var s4 := Single(k, max, [Ended, two], Idle, Some(z), Some(z), z, Some(z));
    Here(s0);
    Play(s0, s0, OpStep(0), s1);
    Play(s0, s1, OpStep(0), s2);
    Play(s0, s2, OpStep(0), s3);
    Play(s0, s3, OpStep(0), s4);
    Play(s0, s4, GcStep, Single(k, max, [Ended, two], Check(z), Some(z), Some(z), z, None));
  }

  // While gc is deleting the key, the second Add lists and counts it again.
  lemma OversizeAgain(s0: State, max: u64, k: Key, z: u64)
    requires max < z < 0x8000_0000_0000_0000
    requires Reachable(s0, Single(k, max, [Ended, AddStore(k, z)], Check(z), Some(z), Some(z), z, None))
    ensures Reachable(s0, Single(k, max, [Ended, AddSignal(2 * z)], Check(z), None, Some(z), z, None))
  {
    hide Reachable;
    var gc, signal := Delete(z, k, z), AddSignal(2 * z);
    var s1 := Single(k, max, [Ended, AddStore(k, z)], gc, Some(z), None, z, None);
    var s2 := Single(k, max, [Ended, AddTouch(k, z)], gc, Some(z), None, z, None);
    var s3 := Single(k, max, [Ended, AddCount(z)], gc, Some(z), Some(z), z, None);
    var s4 := Single(k, max, [Ended, signal], gc, Some(z), Some(z), 2 * z, None);
    var s5 := Single(k, max, [Ended, signal], Subtract(z, z), None, Some(z), 2 * z, None);
    assert map[k := z] - {k} == map[];
    Play(s0, Single(k, max, [Ended, AddStore(k, z)], Check(z), Some(z), Some(z), z, None), GcStep, s1);
    Play(s0, s1, OpStep(1), s2);
    Play(s0, s2, OpStep(1), s3);
    Play(s0, s3, OpStep(1), s4);
    Play(s0, s4, GcStep, s5);
    Play(s0, s5, GcStep, Single(k, max, [Ended, signal], Check(z), None, Some(z), z, None));
  }

  // So when gc has evicted it again, the second request is stale and finds the list empty.
  lemma OversizeBreaks(w: set<Op>, max: u64, k: Key, z: u64)
    requires AddStore(k, z) in w && max < z < 0x8000_0000_0000_0000
    ensures !AlwaysSound(w, max)
  {
    hide Reachable, AlwaysSound, Sum;
    var s0 := Start(k, max, [AddStore(k, z), AddStore(k, z)]);
    OversizeSignals(max, k, z);
    OversizeAgain(s0, max, k, z);
    Evict(s0, k, max, [Ended, AddSignal(2 * z)], z, None, z, z);
    var s1 := Single(k, max, [Ended, AddSignal(2 * z)], Check(0), None, None, 0, None);
    var s2 := Single(k, max, [Ended, AddSignal(2 * z)], Idle, None, None, 0, None);
    var s3 := Single(k, max, [Ended, Ended], Idle, None, None, 0, Some(2 * z));
    var s4 := Single(k, max, [Ended, Ended], Check(2 * z), None, None, 0, None);
    var s5 := Single(k, max, [Ended, Ended], Reset(2 * z), None, None, 0, None);
    Play(s0, s1, GcStep, s2);
    Play(s0, s2, OpStep(1), s3);
    Play(s0, s3, GcStep, s4);
    Play(s0, s4, GcStep, s5);
    ReachedUnsound(w, s0, s5);
  }

  // ---------- several keys that do not fit together ----------

  ghost function TotalBytes(f: map<Key, u64>): nat {
    Sum(f)
  }

  // All of them are over the maximum, and without any one of them they are within it.
  ghost predicate Tight(f: map<Key, u64>, max: u64) {
    TotalBytes(f) > max && forall k | k in f :: TotalBytes(f - {k}) <= max
  }

  lemma {:induction false} TightPart(f: map<Key, u64>, max: u64) returns (g: map<Key, u64>)
    requires TotalBytes(f) > max
    ensures Tight(g, max) && forall k | k in g :: k in f && g[k] == f[k]
    decreases |f|
  {
    if k :| k in f && TotalBytes(f - {k}) > max {
      g := TightPart(f - {k}, max);
    } else {
      g := f;
    }
  }

  lemma TightPositive(f: map<Key, u64>, max: u64, k: Key)
    requires Tight(f, max) && k in f
    ensures f[k] > 0 && TotalBytes(f) == f[k] + TotalBytes(f - {k})
  {
    SumTakes(f, k);
  }

  lemma {:induction false} KeyList(f: map<Key, u64>) returns (ks: seq<Key>)
    ensures Distinct(ks) && forall k :: k in ks <==> k in f
    decreases |f|
  {
    if f == map[] {
      ks := [];
    } else {
      var k :| k in f;
      ks := KeyList(f - {k});
      ks := ks + [k];
    }
  }

  // The keys of a tight map in some order.
  datatype Crowd = Crowd(keys: seq<Key>, sizes: map<Key, u64>, max: u64) {
    // Sizes and maximum are Go ints.
    ghost predicate Ok() {
      && Distinct(keys) && (forall k :: k in keys <==> k in sizes) && Tight(sizes, max)
      && max < 0x8000_0000_0000_0000 && forall k | k in sizes :: sizes[k] < 0x8000_0000_0000_0000
    }

    // The Add of a key.
    function Add(k: Key): Op {
      AddStore(k, if k in sizes then sizes[k] else 0)
    }

    // An Add of each key, and the first one's again; of the former, the first `j` have ended.
    function Ops(j: nat): seq<Op> {
      seq(|keys| + 1, i requires 0 <= i < |keys| + 1 =>
        if i < j then Ended else if i < |keys| then Add(keys[i]) else if keys != [] then Add(keys[0]) else Ended)
    }

    function Start(): State {
      State(Ops(0), Idle, map[], Lru([], map[]), 0, 0, max, None, 0)
    }
  }

  // The list holds the first `j` keys with their sizes, the first of them as the oldest.
  ghost predicate FirstKeys(l: Lru, c: Crowd, j: nat) {
    && j <= |c.keys| && Valid(l)
    && (forall k :: k in l.sizes <==> k in c.keys[..j])
    && (forall k | k in l.sizes :: k in c.sizes && l.sizes[k] == c.sizes[k])
    && (if j == 0 then l.order == [] else l.order != [] && Oldest(l) == c.keys[0])
  }

  // Nothing is under way, and what is listed is stored and counted.
  predicate Calm(s: State) {
    s.readers == 0 && s.gc.Idle? && s.gcChan.None? && s.sizeBytes == Total(s.lru) && s.cache == s.lru.sizes
  }

  ghost predicate Filled(s: State, c: Crowd, j: nat) {
    Calm(s) && s.maxSizeBytes == c.max && FirstKeys(s.lru, c, j)
  }

  lemma FilledTotal(s: State, c: Crowd, j: nat)
    requires Filled(s, c, j) && c.Ok()
    ensures j < |c.keys| ==> s.sizeBytes <= c.max
    ensures j == |c.keys| ==> s.lru.sizes == c.sizes && s.sizeBytes == TotalBytes(c.sizes) > c.max
  {
    hide Weight, Sum;
    WeightIsSum(s.lru.order, s.lru.sizes);
    hide Valid;
    if j < |c.keys| {
      NotYet(c.keys, j);
      SumMonotone(s.lru.sizes, c.sizes - {c.keys[j]});
    } else {
      assert c.keys[..j] == c.keys;
      assert s.lru.sizes == c.sizes;
    }
  }

  lemma NotYet(ks: seq<Key>, j: nat)
    requires j < |ks| && Distinct(ks)
    ensures ks[j] !in ks[..j]
  {
  }

  // What an undisturbed Add of a new key leaves behind, up to counting it.
  function Added(s: State, j: nat, k: Key, z: u64): State {
    var size := AddU64(s.sizeBytes, z);
    s.(ops := Replaced(s.ops, j, if size <= s.maxSizeBytes then Ended else AddSignal(size)),
       cache := s.cache[k := z], lru := Touch(s.lru, k, z), sizeBytes := size)
  }

  function Replaced(ops: seq<Op>, j: nat, o: Op): seq<Op> {
    if j < |ops| then ops[j := o] else ops
  }

  lemma AddAlone(s0: State, s: State, j: nat, k: Key, z: u64)
    requires Reachable(s0, s) && j < |s.ops| && s.ops[j] == AddStore(k, z) && s.readers == 0 && k !in s.lru.sizes && 0 < z
    ensures Reachable(s0, Added(s, j, k, z))
  {
    hide Reachable, Touch;
    var s1 := s.(ops := s.ops[j := AddTouch(k, z)], cache := s.cache[k := z]);
    var s2 := s1.(ops := s1.ops[j := AddCount(z)], lru := Touch(s.lru, k, z));
    var s3 := Added(s, j, k, z);
    Play(s0, s, OpStep(j), s1);
    Play(s0, s1, OpStep(j), s2);
    assert s2.ops[j := s3.ops[j]] == s3.ops;
    Play(s0, s2, OpStep(j), s3);
  }

  // The state with key number `j` added, up to counting it.
  function Next(s: State, c: Crowd, j: nat): State {
    if j < |c.keys| && c.keys[j] in c.sizes then Added(s, j, c.keys[j], c.sizes[c.keys[j]]) else s
  }

  lemma AddNext(s0: State, s: State, c: Crowd, j: nat)
    requires j < |c.keys| && c.Ok() && Reachable(s0, s) && Filled(s, c, j) && s.ops == c.Ops(j)
    ensures Reachable(s0, Next(s, c, j)) && Filled(Next(s, c, j), c, j + 1)
  {
    hide Reachable, FirstKeys, c.Ok, c.Ops, Total, Touch;
    var k := c.keys[j];
    KeyNext(s.lru, c, j);
    OpsAt(c, j);
    FilledTotal(s, c, j);
    FirstKeysNext(s.lru, c, j);
    AddAlone(s0, s, j, k, c.sizes[k]);
  }

  lemma OpsAt(c: Crowd, j: nat)
    requires j < |c.keys| && c.keys[j] in c.sizes
    ensures |c.Ops(j)| == |c.keys| + 1 && c.Ops(j)[j] == AddStore(c.keys[j], c.sizes[c.keys[j]])
  {
  }

  // Key number `j` is new to the list, and its size fits an int.
  lemma KeyNext(l: Lru, c: Crowd, j: nat)
    requires j < |c.keys| && c.Ok() && FirstKeys(l, c, j)
    ensures var k := c.keys[j];
      k in c.sizes && k !in l.sizes && 0 < c.sizes[k] < 0x8000_0000_0000_0000 && c.max < 0x8000_0000_0000_0000
  {
    NotYet(c.keys, j);
    assert c.keys[j] in c.sizes;
    TightPositive(c.sizes, c.max, c.keys[j]);
  }

  lemma FirstKeysNext(l: Lru, c: Crowd, j: nat)
    requires j < |c.keys| && c.Ok() && FirstKeys(l, c, j) && c.keys[j] in c.sizes && c.keys[j] !in l.sizes
    ensures var k := c.keys[j];
      && FirstKeys(Touch(l, k, c.sizes[k]), c, j + 1)
      && Touch(l, k, c.sizes[k]).sizes == l.sizes[k := c.sizes[k]]
      && Total(Touch(l, k, c.sizes[k])) == Total(l) + c.sizes[k]
  {
    hide c.Ok, Weight;
    var k := c.keys[j];
    TouchValid(l, k, c.sizes[k]);
    TouchTotal(l, k, c.sizes[k]);
    assert c.keys[..j + 1] == c.keys[..j] + [k];
    hide Valid;
  }

  // All keys but the last are added within the maximum.
  lemma {:induction false} FillUp(c: Crowd, j: nat) returns (s: State)
    requires j < |c.keys| && c.Ok()
    ensures Reachable(c.Start(), s) && Filled(s, c, j) && s.ops == c.Ops(j)
  {
    hide Reachable, FirstKeys, c.Ok, c.Ops;
    if j == 0 {
      s := c.Start();
      Here(s);
      StartKeys(c);
    } else {
      hide Filled, Next, c.Start;
      var t := FillUp(c, j - 1);
      AddNext(c.Start(), t, c, j - 1);
      s := Next(t, c, j - 1);
      FilledTotal(s, c, j);
      NextOps(t, s, c, j - 1);
    }
  }

  lemma StartKeys(c: Crowd)
    ensures FirstKeys(Lru([], map[]), c, 0) && Total(Lru([], map[])) == 0
  {
  }

  lemma NextOps(s: State, s': State, c: Crowd, j: nat)
    requires j < |c.keys| && c.Ok() && s.ops == c.Ops(j) && Filled(s, c, j) && s' == Next(s, c, j)
    ensures s'.sizeBytes <= c.max ==> s'.ops == c.Ops(j + 1)
    ensures s'.sizeBytes > c.max ==> s'.ops == Replaced(c.Ops(j), j, AddSignal(s'.sizeBytes))
  {
    hide Touch, Tight, FirstKeys, Total, Distinct;
    assert c.keys[j] in c.sizes;
  }

  // A collection of one entry: request, check, removal from list, map and size, and back to rest.
  lemma CollectOne(s0: State, s: State, i: nat)
    requires Reachable(s0, s) && i < |s.ops| && s.gc.Idle? && s.gcChan.None? && s.ops[i] == AddSignal(s.sizeBytes)
    requires s.sizeBytes > s.maxSizeBytes && s.lru.order != []
    ensures Reachable(s0, s.(ops := s.ops[i := Ended], gc := Delete(s.sizeBytes, Oldest(s.lru), Recorded(s.lru, Oldest(s.lru))),
                             lru := DropOldest(s.lru)))
  {
    hide Reachable, Recorded, DropOldest, Oldest;
    var s1 := s.(ops := s.ops[i := Ended], gcChan := Some(s.sizeBytes));
    var s2 := s1.(gc := Check(s.sizeBytes), gcChan := None);
    Play(s0, s, OpStep(i), s1);
    Play(s0, s1, GcStep, s2);
    Play(s0, s2, GcStep, s2.(gc := Delete(s.sizeBytes, Oldest(s.lru), Recorded(s.lru, Oldest(s.lru))), lru := DropOldest(s.lru)));
  }

  lemma FinishOne(s0: State, s: State)
    requires Reachable(s0, s) && s.gc.Delete? && s.readers == 0 && s.gc.size <= s.sizeBytes && s.sizeBytes - s.gc.size <= s.maxSizeBytes
    ensures Reachable(s0, s.(gc := Idle, cache := s.cache - {s.gc.key}, sizeBytes := s.sizeBytes - s.gc.size))
  {
    hide Reachable;
    var size := s.sizeBytes - s.gc.size;
    var s1 := s.(gc := Subtract(s.gc.local, s.gc.size), cache := s.cache - {s.gc.key});
    var s2 := s1.(gc := Check(size), sizeBytes := size);
    Play(s0, s, GcStep, s1);
    Play(s0, s1, GcStep, s2);
    Play(s0, s2, GcStep, s2.(gc := Idle));
  }

  /** Everything fits but for one entry, and an Add of the oldest key is still to come: it lists
      the key again while gc is deleting it from the map. */
  ghost predicate Brim(s: State, i: nat, e: nat) {
    && i < |s.ops| && e < |s.ops| && i != e && s.gc.Idle? && s.gcChan.None? && s.readers == 0
    && (forall j | 0 <= j < |s.ops| && j != i && j != e :: s.ops[j].Ended?)
    && Valid(s.lru) && |s.lru.order| >= 2 && s.cache == s.lru.sizes && s.sizeBytes > s.maxSizeBytes
    && s.ops[i] == AddSignal(s.sizeBytes)
    && s.ops[e] == AddStore(Oldest(s.lru), Recorded(s.lru, Oldest(s.lru)))
    && forall k | k in s.lru.sizes :: 0 < s.lru.sizes[k] <= s.sizeBytes && s.sizeBytes - s.lru.sizes[k] <= s.maxSizeBytes
  }

  // The first round: the key is back on the list, off the map, and about to be counted again.
  lemma BrimRelists(s0: State, s: State, i: nat, e: nat) returns (s': State)
    requires Reachable(s0, s) && Brim(s, i, e)
    ensures var k, z := Oldest(s.lru), Recorded(s.lru, Oldest(s.lru));
      && 0 < z <= s.sizeBytes
      && s' == s.(ops := s.ops[i := Ended][e := AddCount(z)], lru := Touch(DropOldest(s.lru), k, z),
                  cache := s.cache - {k}, sizeBytes := s.sizeBytes - z)
      && Reachable(s0, s')
  {
    var k, z, l := Oldest(s.lru), Recorded(s.lru, Oldest(s.lru)), DropOldest(s.lru);
    assert k in s.lru.order;
    assert k in s.lru.sizes && s.cache[k := z] == s.cache && k !in l.sizes;
    CollectOne(s0, s, i);
    hide Reachable, Touch, DropOldest, Valid;
    var s1 := s.(ops := s.ops[i := Ended], gc := Delete(s.sizeBytes, k, z), lru := l);
    var s2 := s1.(ops := s1.ops[e := AddTouch(k, z)]);
    var s3 := s1.(ops := s1.ops[e := AddCount(z)], lru := Touch(l, k, z));
    Play(s0, s1, OpStep(e), s2);
    assert s2.ops[e := AddCount(z)] == s3.ops;
    Play(s0, s2, OpStep(e), s3);
    FinishOne(s0, s3);
    s' := s3.(gc := Idle, cache := s3.cache - {k}, sizeBytes := s.sizeBytes - z);
  }

  // The second round evicts another key, and leaves the first one listed and not stored.
  lemma BrimBreaks(w: set<Op>, s0: State, s: State, i: nat, e: nat)
    requires Reachable(s0, s) && Brim(s, i, e) && Init(s0) && Issues(w, s0)
    ensures !AlwaysSound(w, s0.maxSizeBytes)
  {
    var k, z, l := Oldest(s.lru), Recorded(s.lru, Oldest(s.lru)), DropOldest(s.lru);
    var t := BrimRelists(s0, s, i, e);
    RelistedOldest(s.lru, z);
    hide Reachable, AlwaysSound, Touch, DropOldest, Valid, Sum;
    var t1 := t.(ops := t.ops[e := AddSignal(s.sizeBytes)], sizeBytes := s.sizeBytes);
    Play(s0, t, OpStep(e), t1);
    CollectOne(s0, t1, e);
    var k2 := Oldest(t1.lru);
    var t2 := t1.(ops := t1.ops[e := Ended], gc := Delete(s.sizeBytes, k2, Recorded(t1.lru, k2)), lru := DropOldest(t1.lru));
    FinishOne(s0, t2);
    var t3 := t2.(gc := Idle, cache := t2.cache - {k2}, sizeBytes := s.sizeBytes - t2.gc.size);
    assert AtRest(t3);
    assert k in t3.lru.sizes && k !in t3.cache;
    ReachedUnsound(w, s0, t3);
  }

  lemma RelistedOldest(l: Lru, z: u64)
    requires Valid(l) && |l.order| >= 2
    ensures var k, r := Oldest(l), Touch(DropOldest(l), Oldest(l), z);
      && r.order != [] && Oldest(r) != k && Oldest(r) in l.sizes && Recorded(r, Oldest(r)) == l.sizes[Oldest(r)]
      && k in DropOldest(r).sizes
  {
    var n := |l.order| - 1;
    assert l.order[n - 1] in l.order && l.order[n] in l.order;
  }

  // Adding the last key is too much, and its Add is about to say so.
  lemma Overfill(c: Crowd) returns (s: State)
    requires c.keys != [] && c.Ok()
    ensures Reachable(c.Start(), s) && Filled(s, c, |c.keys|)
    ensures s.ops == Replaced(c.Ops(|c.keys| - 1), |c.keys| - 1, AddSignal(s.sizeBytes))
  {
    hide Reachable, Filled, c.Ok, c.Ops, c.Start;
    var n := |c.keys| - 1;
    var t := FillUp(c, n);
    AddNext(c.Start(), t, c, n);
    s := Next(t, c, n);
    FilledTotal(s, c, n + 1);
    NextOps(t, s, c, n);
  }

  // With two keys or more, that is the brim.
  lemma AtBrim(s: State, c: Crowd)
    requires |c.keys| >= 2 && c.Ok() && Filled(s, c, |c.keys|)
    requires s.ops == Replaced(c.Ops(|c.keys| - 1), |c.keys| - 1, AddSignal(s.sizeBytes))
    ensures Brim(s, |c.keys| - 1, |c.keys|)
  {
    FilledTotal(s, c, |c.keys|);
    BrimList(s.lru, c);
    BrimOps(c, s.sizeBytes);
    BrimSizes(c);
    hide FirstKeys, c.Ok, c.Ops, Replaced, Valid, TotalBytes, Total;
  }

  lemma BrimSizes(c: Crowd)
    requires c.Ok()
    ensures forall k | k in c.sizes :: 0 < c.sizes[k] <= TotalBytes(c.sizes) && TotalBytes(c.sizes) - c.sizes[k] <= c.max
  {
    hide TotalBytes, Distinct;
    forall k | k in c.sizes ensures 0 < c.sizes[k] <= TotalBytes(c.sizes) && TotalBytes(c.sizes) - c.sizes[k] <= c.max {
      TightPositive(c.sizes, c.max, k);
    }
  }

  lemma BrimOps(c: Crowd, size: u64)
    requires |c.keys| >= 2 && c.Ok()
    ensures var n := |c.keys|; var ops := Replaced(c.Ops(n - 1), n - 1, AddSignal(size));
      && |ops| == n + 1 && ops[n - 1] == AddSignal(size) && c.keys[0] in c.sizes
      && ops[n] == AddStore(c.keys[0], c.sizes[c.keys[0]])
      && forall j | 0 <= j < n - 1 :: ops[j].Ended?
  {
    hide Tight, Distinct;
    assert c.keys[0] in c.keys;
    var n, ops := |c.keys|, c.Ops(|c.keys| - 1);
    assert |ops| == n + 1 && ops[n] == c.Add(c.keys[0]);
    assert forall j | 0 <= j < n - 1 :: ops[j] == Ended;
  }

  lemma BrimList(l: Lru, c: Crowd)
    requires |c.keys| >= 2 && c.Ok() && FirstKeys(l, c, |c.keys|)
    ensures Valid(l) && |l.order| >= 2 && Oldest(l) == c.keys[0]
  {
    hide Tight;
    var k, x := c.keys[0], c.keys[1];
    assert c.keys[..|c.keys|] == c.keys;
    assert k in l.order && x in l.order && k != x;
  }

  lemma CrowdBreaks(w: set<Op>, c: Crowd)
    requires c.Ok() && |c.keys| >= 2 && forall k | k in c.sizes :: AddStore(k, c.sizes[k]) in w
    ensures !AlwaysSound(w, c.max)
  {
    hide *;
    CrowdStart(w, c);
    var s := Overfill(c);
    AtBrim(s, c);
    BrimBreaks(w, c.Start(), s, |c.keys| - 1, |c.keys|);
  }

  lemma CrowdStart(w: set<Op>, c: Crowd)
    requires c.Ok() && c.keys != [] && forall k | k in c.sizes :: AddStore(k, c.sizes[k]) in w
    ensures Init(c.Start()) && Issues(w, c.Start()) && c.Start().maxSizeBytes == c.max
  {
    hide Tight, Distinct;
    assert forall i | 0 <= i < |c.keys| :: c.keys[i] in c.keys && c.keys[i] in c.sizes;
  }

  // ---------- the exact condition ----------

  lemma UnsafeBreaks(w: set<Op>, max: u64)
    requires IsWorkload(w) && max < 0x8000_0000_0000_0000 && !Safe(w, max)
    ensures !AlwaysSound(w, max)
  {
    hide AlwaysSound, Sum;
    if a, b :| a in w && b in w && a.AddStore? && b.AddStore? && a.key == b.key && a.size < b.size {
      ResizeBreaks(w, max, a.key, a.size, b.size);
    } else if a :| a in w && a.AddStore? && a.size > 0 && GetLook(a.key) in w {
      ReadBreaks(w, max, a.key, a.size);
    } else {
      var f := TightPart(AddSizes(w), max);
      var ks := KeyList(f);
      var c := Crowd(ks, f, max);
      assert forall k | k in f :: AddStore(k, f[k]) in w;
      assert c.Ok();
      if |ks| >= 2 {
        CrowdBreaks(w, c);
      } else {
        OneTight(c);
        OversizeBreaks(w, max, ks[0], f[ks[0]]);
      }
    }
  }

  lemma OneTight(c: Crowd)
    requires |c.keys| <= 1 && c.Ok()
    ensures |c.keys| == 1 && c.keys[0] in c.sizes && c.sizes[c.keys[0]] > c.max
  {
    var f := c.sizes;
    NoSum(f);
    hide Sum;
    var k :| k in f;
    assert k in c.keys && forall x | x in f :: x in c.keys && x == k;
    assert f == map[k := f[k]];
    SumOne(k, f[k]);
  }

  lemma NoSum(f: map<Key, u64>)
    ensures f == map[] ==> Sum(f) == 0
  {
  }

  /** A cache used with these operations, each any number of times and in any interleaving, keeps
      exact accounts and never finds its list empty if and only if no key is added with two
      sizes, no key added with content is read, and all objects together are within the maximum. */
  lemma AccountingIff(w: set<Op>, max: u64)
    requires IsWorkload(w) && max < 0x8000_0000_0000_0000
    ensures AlwaysSound(w, max) <==> Safe(w, max)
  {
    if Safe(w, max) {
      forall s0, steps | Init(s0) && s0.maxSizeBytes == max && Issues(w, s0) && IsRun(s0, steps) ensures Sound(After(s0, steps)) {
        SafeIsSound(w, s0, steps);
      }
    } else {
      UnsafeBreaks(w, max);
    }
  }

  // ---------- two Adds, once each ----------

  // Adds of 200 and 150 bytes on different keys, with a maximum of 100 bytes.
  function Twice(ops: seq<Op>, gc: Collector, cache: map<Key, u64>, l: Lru, size: u64, chan: Option<u64>): State {
    State(ops, gc, cache, l, 0, size, 100, chan, 0)
  }

  function TwiceStart(k: Key, j: Key): State {
    Twice([AddStore(k, 200), AddStore(j, 150)], Idle, map[], Lru([], map[]), 0, None)
  }

  // The larger object is listed but not counted when the smaller one's Add signals.
  lemma TwiceSignals(k: Key, j: Key)
    requires k != j
    ensures var both := map[k := 200, j := 150];
      Reachable(TwiceStart(k, j), Twice([AddCount(200), Ended], Idle, both, Lru([j, k], both), 150, Some(150)))
  {
    hide Reachable;
    var s0, first, both := TwiceStart(k, j), map[k := 200], map[k := 200, j := 150];
    var a, b, l := AddCount(200), AddStore(j, 150), Lru([j, k], both);
    assert first[j := 150] == both && [j] + [k] == [j, k];
    var s1 := Twice([AddTouch(k, 200), b], Idle, first, Lru([], map[]), 0, None);
    var s2 := Twice([a, b], Idle, first, Lru([k], first), 0, None);
    var s3 := Twice([a, AddTouch(j, 150)], Idle, both, Lru([k], first), 0, None);
    var s4 := Twice([a, AddCount(150)], Idle, both, l, 0, None);
    var s5 := Twice([a, AddSignal(150)], Idle, both, l, 150, None);
    Here(s0);
    Play(s0, s0, OpStep(0), s1);
    Play(s0, s1, OpStep(0), s2);
    Play(s0, s2, OpStep(1), s3);
    Play(s0, s3, OpStep(1), s4);
    Play(s0, s4, OpStep(1), s5);
    Play(s0, s5, OpStep(1), Twice([a, Ended], Idle, both, l, 150, Some(150)));
  }

  // gc evicts the larger one first, and the size wraps around.
  lemma TwiceWraps(k: Key, j: Key)
    requires k != j
    ensures var rest := map[j := 150];
      Reachable(TwiceStart(k, j), Twice([AddCount(200), Ended], Check(SubU64(150, 200)), rest, Lru([j], rest), SubU64(150, 200), None))
  {
    TwiceSignals(k, j);
    hide Reachable;
    var s0, both, rest, ops := TwiceStart(k, j), map[k := 200, j := 150], map[j := 150], [AddCount(200), Ended];
    assert both - {k} == rest && [j, k][..1] == [j];
    var s1 := Twice(ops, Idle, both, Lru([j, k], both), 150, Some(150));
    var s2 := Twice(ops, Check(150), both, Lru([j, k], both), 150, None);
    var s3 := Twice(ops, Delete(150, k, 200), both, Lru([j], rest), 150, None);
    var s4 := Twice(ops, Subtract(150, 200), rest, Lru([j], rest), 150, None);
    Play(s0, s1, GcStep, s2);
    Play(s0, s2, GcStep, s3);
    Play(s0, s3, GcStep, s4);
    Play(s0, s4, GcStep, Twice(ops, Check(SubU64(150, 200)), rest, Lru([j], rest), SubU64(150, 200), None));
  }

  /** Neither a Get nor a repeated key is needed for gc to find its list empty: two Adds on
      different keys, issued once each, are enough. */
  lemma AddsAloneReset(k: Key, j: Key) returns (s: State)
    requires k != j
    ensures Init(TwiceStart(k, j)) && Reachable(TwiceStart(k, j), s) && s.gc.Reset?
  {
    TwiceWraps(k, j);
    hide Reachable;
    var s0, rest, ops := TwiceStart(k, j), map[j := 150], [AddCount(200), Ended];
    var v, v' := SubU64(150, 200), SubU64(150, 200) - 150;
    assert rest - {j} == map[];
    var s1 := Twice(ops, Check(v), rest, Lru([j], rest), v, None);
    var s2 := Twice(ops, Delete(v, j, 150), rest, Lru([], map[]), v, None);
    var s3 := Twice(ops, Subtract(v, 150), map[], Lru([], map[]), v, None);
    var s4 := Twice(ops, Check(v'), map[], Lru([], map[]), v', None);
    s := Twice(ops, Reset(v'), map[], Lru([], map[]), v', None);
    Play(s0, s1, GcStep, s2);
    Play(s0, s2, GcStep, s3);
    Play(s0, s3, GcStep, s4);
    Play(s0, s4, GcStep, s);
  }
}
