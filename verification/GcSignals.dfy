/**
 The memory cache at its finest grain: concurrent `Add`s and `Get`s and the collector
 goroutine interleave, with one step per lock section, LRU call, atomic and channel action.
 */
module GcSignals {
  import opened Words
  import opened LruList

  // A running Add or Get.
  datatype Op =
    | AddStore(key: Key, size: u64)    // about to store the object in the map
    | AddTouch(key: Key, size: u64)    // about to record it in the LRU
    | AddCount(change: u64)            // about to add the change to sizeBytes
    | AddSignal(newSize: u64)          // about to ask for a collection
    | GetLook(key: Key)                // about to take the read lock and look up
    | GetTouch(key: Key, size: u64)    // holds the read lock, about to record the use
    | GetLeave                         // holds the read lock, about to count and release it
    | Ended

  // The collector; `local` is gc's variable cacheSizeBytes.
  datatype Collector =
    | Idle
    | Check(local: u64)
    | Delete(local: u64, key: Key, size: u64)
    | Subtract(local: u64, size: u64)
    | Reset(local: u64)

  /** `readers` counts holders of the read lock. `drift` is bookkeeping: the bytes by which
      sizeBytes has come to differ from the recorded sizes. */
  datatype State = State(
    ops: seq<Op>, gc: Collector, cache: map<Key, u64>, lru: Lru, readers: nat,
    sizeBytes: u64, maxSizeBytes: u64, gcChan: Option<u64>, drift: int)

  // Operation number `i` takes a step, or the collector does.
  datatype Step = OpStep(i: nat) | GcStep

  predicate Enabled(s: State, st: Step) {
    match st
    case OpStep(i) =>
      && i < |s.ops| && !s.ops[i].Ended?
      && (s.ops[i].AddStore? ==> s.readers == 0)
      && (s.ops[i].GetLeave? ==> s.readers > 0)
    case GcStep =>
      match s.gc
      case Idle => s.gcChan.Some?
      case Delete(_, _, _) => s.readers == 0
      case _ => true
  }

  function OpApply(s: State, i: nat): State
    requires Enabled(s, OpStep(i))
  {
    match s.ops[i]
    case AddStore(k, size) =>
      s.(ops := s.ops[i := AddTouch(k, size)], cache := s.cache[k := size])
    case AddTouch(k, size) =>
      var change := SubU64(size, Recorded(s.lru, k));
      s.(ops := s.ops[i := if change == 0 then Ended else AddCount(change)], lru := Touch(s.lru, k, size))
    case AddCount(change) =>
      var size := AddU64(s.sizeBytes, change);
      s.(ops := s.ops[i := if size <= s.maxSizeBytes then Ended else AddSignal(size)], sizeBytes := size)
    case AddSignal(size) =>
      s.(ops := s.ops[i := Ended], gcChan := if s.gcChan.None? then Some(size) else s.gcChan)
    case GetLook(k) =>
      if k in s.cache then s.(ops := s.ops[i := GetTouch(k, s.cache[k])], readers := s.readers + 1)
      else s.(ops := s.ops[i := Ended])
    case GetTouch(k, size) =>
      s.(ops := s.ops[i := GetLeave], lru := Touch(s.lru, k, size), drift := s.drift + Recorded(s.lru, k) - size)
    case GetLeave =>
      s.(ops := s.ops[i := Ended], readers := s.readers - 1)
  }

  function GcApply(s: State): State
    requires Enabled(s, GcStep)
  {
    match s.gc
    case Idle => s.(gc := Check(s.gcChan.value), gcChan := None)
    case Check(v) =>
      if v <= s.maxSizeBytes then s.(gc := Idle)
      else if s.lru.order == [] then s.(gc := Reset(v))
      else
        var k := Oldest(s.lru);
        s.(gc := Delete(v, k, Recorded(s.lru, k)), lru := DropOldest(s.lru))
    case Delete(v, k, size) => s.(gc := Subtract(v, size), cache := s.cache - {k})
    case Subtract(_, size) =>
      var v := MinusU64(s.sizeBytes, size);
      s.(gc := Check(v), sizeBytes := v)
    case Reset(_) => s.(gc := Idle, sizeBytes := 0, drift := s.drift - s.sizeBytes)
  }

  function Apply(s: State, st: Step): State
    requires Enabled(s, st)
  {
    match st
    case OpStep(i) => OpApply(s, i)
    case GcStep => GcApply(s)
  }

  // Any number of Adds and Gets, none started, on an empty cache.
  predicate Init(s: State) {
    && s.gc.Idle? && s.cache == map[] && s.lru == Lru([], map[]) && s.readers == 0
    && s.sizeBytes == 0 && s.gcChan.None? && s.drift == 0
    && forall i | 0 <= i < |s.ops| :: s.ops[i].AddStore? || s.ops[i].GetLook?
  }

  // ---------- no collection request is lost ----------

  // gc is inside its loop, with a local size above the maximum.
  predicate Collecting(s: State) {
    !s.gc.Idle? && s.gc.local > s.maxSizeBytes
  }

  // Somebody is about to signal, has signalled, or is collecting.
  predicate Pending(s: State) {
    || (exists i :: 0 <= i < |s.ops| && s.ops[i].AddSignal?)
    || s.gcChan.Some?
    || Collecting(s)
  }

  predicate SignalInv(s: State) {
    && (s.sizeBytes > s.maxSizeBytes ==> Pending(s))
    && (s.gcChan.Some? ==> s.gcChan.value > s.maxSizeBytes)
    && (forall i | 0 <= i < |s.ops| && s.ops[i].AddSignal? :: s.ops[i].newSize > s.maxSizeBytes)
    && (s.gc.Delete? || s.gc.Subtract? || s.gc.Reset? ==> Collecting(s))
  }

  lemma SignalKept(s: State, st: Step)
    requires SignalInv(s) && Enabled(s, st)
    ensures SignalInv(Apply(s, st))
  {
    hide SignalInv, Enabled, OpApply, GcApply;
    match st
    case OpStep(i) => OpSignalKept(s, i);
    case GcStep => GcSignalKept(s);
  }

  lemma GcSignalKept(s: State)
    requires SignalInv(s) && Enabled(s, GcStep)
    ensures SignalInv(GcApply(s))
  {
    hide DropOldest, Recorded, Oldest;
    assert GcApply(s).ops == s.ops;
  }

  lemma OpSignalKept(s: State, i: nat)
    requires SignalInv(s) && Enabled(s, OpStep(i))
    ensures SignalInv(OpApply(s, i))
  {
    hide Touch, Recorded, AddU64, SubU64;
    var s' := OpApply(s, i);
    assert forall j | 0 <= j < |s.ops| && j != i :: s'.ops[j] == s.ops[j];
    if s'.ops[i].AddSignal? {
      assert Pending(s');
    } else if j :| 0 <= j < |s.ops| && s.ops[j].AddSignal? {
      assert j == i || s'.ops[j].AddSignal?;
    }
  }

  // ---------- the read lock ----------

  predicate Reading(o: Op) {
    o.GetTouch? || o.GetLeave?
  }

  function ReadersOf(ops: seq<Op>): nat {
    if ops == [] then 0 else (if Reading(ops[0]) then 1 else 0) + ReadersOf(ops[1..])
  }

  lemma {:induction false} ReadersUpdate(ops: seq<Op>, i: nat, o: Op)
    requires i < |ops|
    ensures ReadersOf(ops[i := o]) == ReadersOf(ops) - (if Reading(ops[i]) then 1 else 0) + (if Reading(o) then 1 else 0)
  {
    if i == 0 {
      assert ops[i := o][1..] == ops[1..];
    } else {
      assert ops[i := o][1..] == ops[1..][i - 1 := o];
      ReadersUpdate(ops[1..], i - 1, o);
    }
  }

  lemma {:induction false} ReaderExists(ops: seq<Op>) returns (i: nat)
    requires ReadersOf(ops) > 0
    ensures i < |ops| && Reading(ops[i])
  {
    if Reading(ops[0]) {
      i := 0;
    } else {
      i := ReaderExists(ops[1..]);
      i := i + 1;
    }
  }

  lemma {:induction false} NoReaders(ops: seq<Op>, i: nat)
    requires i < |ops| && Reading(ops[i])
    ensures ReadersOf(ops) > 0
  {
    if i > 0 {
      NoReaders(ops[1..], i - 1);
    }
  }

  lemma ReadersKept(s: State, st: Step)
    requires s.readers == ReadersOf(s.ops) && Enabled(s, st)
    ensures Apply(s, st).readers == ReadersOf(Apply(s, st).ops)
  {
    hide Touch, DropOldest, Recorded, Oldest, AddU64, SubU64, MinusU64;
    if st.OpStep? {
      ReadersUpdate(s.ops, st.i, Apply(s, st).ops[st.i]);
      assert Apply(s, st).ops == s.ops[st.i := Apply(s, st).ops[st.i]];
    }
  }

  // ---------- termination ----------

  function Rank(o: Op): nat {
    match o
    case AddStore(_, _) => 4
    case AddTouch(_, _) => 3
    case AddCount(_) => 2
    case AddSignal(_) => 1
    case GetLook(_) => 3
    case GetTouch(_, _) => 2
    case GetLeave => 1
    case Ended => 0
  }

  function Work(ops: seq<Op>): nat {
    if ops == [] then 0 else Rank(ops[0]) + Work(ops[1..])
  }

  lemma {:induction false} WorkUpdate(ops: seq<Op>, i: nat, o: Op)
    requires i < |ops|
    ensures Work(ops[i := o]) == Work(ops) - Rank(ops[i]) + Rank(o)
  {
    if i == 0 {
      assert ops[i := o][1..] == ops[1..];
    } else {
      assert ops[i := o][1..] == ops[1..][i - 1 := o];
      WorkUpdate(ops[1..], i - 1, o);
    }
  }

  function GcRank(c: Collector): nat {
    match c
    case Idle => 0
    case Reset(_) => 1
    case Check(_) => 2
    case Subtract(_, _) => 3
    case Delete(_, _, _) => 4
  }

  // A bound on the steps still to come; listing an entry costs its later eviction.
  function Potential(s: State): nat {
    8 * Work(s.ops) + 3 * (if s.gcChan.Some? then 1 else 0) + 4 * |s.lru.order| + GcRank(s.gc)
  }

  lemma OpWorks(s: State, i: nat)
    requires Enabled(s, OpStep(i))
    ensures Potential(OpApply(s, i)) < Potential(s)
  {
    hide Recorded, AddU64, SubU64, Without;
    var s' := OpApply(s, i);
    WorkUpdate(s.ops, i, s'.ops[i]);
    assert s'.ops == s.ops[i := s'.ops[i]];
    OpRanks(s, i);
    hide Work, OpApply, Rank;
  }

  lemma OpRanks(s: State, i: nat)
    requires Enabled(s, OpStep(i))
    ensures var s' := OpApply(s, i);
      && i < |s'.ops| && Rank(s'.ops[i]) < Rank(s.ops[i]) && |s'.lru.order| <= |s.lru.order| + 1
      && s'.gc == s.gc && (s'.gcChan == s.gcChan || (s.ops[i].AddSignal? && s'.lru == s.lru))
      && (s'.lru.order == s.lru.order || s'.gcChan == s.gcChan)
  {
    hide AddU64, SubU64;
  }

  lemma GcWorks(s: State)
    requires Enabled(s, GcStep)
    ensures Potential(GcApply(s)) < Potential(s)
  {
    hide Recorded, MinusU64, Work;
  }

  lemma StepWorks(s: State, st: Step)
    requires Enabled(s, st)
    ensures Potential(Apply(s, st)) < Potential(s)
  {
    hide Potential, Enabled, OpApply, GcApply;
    match st
    case OpStep(i) => OpWorks(s, i);
    case GcStep => GcWorks(s);
  }

  // ---------- the ledger ----------

  // The sum of the changes recorded in the LRU that their Adds have not counted yet.
  function Uncounted(ops: seq<Op>): nat {
    if ops == [] then 0 else (if ops[0].AddCount? then ops[0].change else 0) + Uncounted(ops[1..])
  }

  lemma {:induction false} UncountedUpdate(ops: seq<Op>, i: nat, o: Op)
    requires i < |ops|
    ensures Uncounted(ops[i := o]) ==
      Uncounted(ops) - (if ops[i].AddCount? then ops[i].change else 0) + (if o.AddCount? then o.change else 0)
  {
    if i == 0 {
      assert ops[i := o][1..] == ops[1..];
    } else {
      assert ops[i := o][1..] == ops[1..][i - 1 := o];
      UncountedUpdate(ops[1..], i - 1, o);
    }
  }

  // What gc has taken off the LRU but not yet off sizeBytes.
  function Unsubtracted(c: Collector): nat {
    if c.Delete? || c.Subtract? then c.size else 0
  }

  // The multiple of 2^64 by which tracked and recorded sizes may differ, plus the drift.
  function Imbalance(s: State): int {
    s.sizeBytes + Uncounted(s.ops) - Unsubtracted(s.gc) - Total(s.lru) - s.drift
  }

  predicate Balanced(x: int) {
    x % 0x1_0000_0000_0000_0000 == 0
  }

  ghost predicate LedgerInv(s: State) {
    Valid(s.lru) && Balanced(Imbalance(s))
  }

  // A step moves the imbalance by a multiple of the word.
  lemma OpImbalance(s: State, i: nat)
    requires Valid(s.lru) && Enabled(s, OpStep(i))
    ensures var s' := OpApply(s, i);
      Valid(s'.lru) && Imbalance(s') - Imbalance(s) in {0, 0x1_0000_0000_0000_0000, -0x1_0000_0000_0000_0000}
  {
    hide Valid, Weight;
    var s' := OpApply(s, i);
    UncountedUpdate(s.ops, i, s'.ops[i]);
    assert s'.ops == s.ops[i := s'.ops[i]];
    if s.ops[i].AddTouch? || s.ops[i].GetTouch? {
      TouchValid(s.lru, s.ops[i].key, s.ops[i].size);
      TouchTotal(s.lru, s.ops[i].key, s.ops[i].size);
    }
  }

  lemma GcImbalance(s: State)
    requires Valid(s.lru) && Enabled(s, GcStep)
    ensures var s' := GcApply(s);
      Valid(s'.lru) && Imbalance(s') - Imbalance(s) in {0, 0x1_0000_0000_0000_0000, -0x1_0000_0000_0000_0000}
  {
    hide Valid, Weight;
    if s.gc.Check? && s.gc.local > s.maxSizeBytes && s.lru.order != [] {
      DropValid(s.lru);
      DropTotal(s.lru);
    }
  }

  lemma BalancedShift(x: int, y: int)
    requires Balanced(x) && y - x in {0, 0x1_0000_0000_0000_0000, -0x1_0000_0000_0000_0000}
    ensures Balanced(y)
  {
  }

  lemma LedgerKept(s: State, st: Step)
    requires LedgerInv(s) && Enabled(s, st)
    ensures LedgerInv(Apply(s, st))
  {
    hide Valid, Imbalance, Balanced, OpApply, GcApply;
    match st {
      case OpStep(i) => OpImbalance(s, i);
      case GcStep => GcImbalance(s);
    }
    BalancedShift(Imbalance(s), Imbalance(Apply(s, st)));
  }

  // ---------- whole runs ----------

  ghost predicate Inv(s: State) {
    SignalInv(s) && s.readers == ReadersOf(s.ops) && LedgerInv(s)
  }

  ghost predicate IsRun(s: State, steps: seq<Step>)
    decreases |steps|
  {
    steps == [] || (Enabled(s, steps[0]) && IsRun(Apply(s, steps[0]), steps[1..]))
  }

  ghost function After(s: State, steps: seq<Step>): State
    requires IsRun(s, steps)
    decreases |steps|
  {
    if steps == [] then s else After(Apply(s, steps[0]), steps[1..])
  }

  lemma InitInv(s: State)
    requires Init(s)
    ensures Inv(s)
  {
    InitCounts(s.ops);
  }

  lemma {:induction false} InitCounts(ops: seq<Op>)
    requires forall i | 0 <= i < |ops| :: ops[i].AddStore? || ops[i].GetLook?
    ensures ReadersOf(ops) == 0 && Uncounted(ops) == 0
  {
    if ops != [] {
      InitCounts(ops[1..]);
    }
  }

  lemma {:induction false} RunKeeps(s: State, steps: seq<Step>)
    requires Inv(s) && IsRun(s, steps)
    ensures Inv(After(s, steps)) && Potential(After(s, steps)) + |steps| <= Potential(s)
    decreases |steps|
  {
    if steps != [] {
      hide SignalInv, LedgerInv, Potential, Apply;
      SignalKept(s, steps[0]);
      ReadersKept(s, steps[0]);
      LedgerKept(s, steps[0]);
      StepWorks(s, steps[0]);
      RunKeeps(Apply(s, steps[0]), steps[1..]);
    }
  }

  predicate Quiescent(s: State) {
    s.gc.Idle? && s.gcChan.None? && forall i | 0 <= i < |s.ops| :: s.ops[i].Ended?
  }

  /** No collection request is lost: in every reachable state, if the tracked size is over the
      maximum then an adder is about to signal, the channel is full, or gc is in its loop with a
      local value over the maximum. */
  lemma NoLostCollection(s0: State, steps: seq<Step>)
    requires Init(s0) && IsRun(s0, steps)
    ensures var s := After(s0, steps); s.sizeBytes > s.maxSizeBytes ==> Pending(s)
    ensures Quiescent(After(s0, steps)) ==> After(s0, steps).sizeBytes <= After(s0, steps).maxSizeBytes
  {
    InitInv(s0);
    RunKeeps(s0, steps);
  }

  // Unless everything is at rest, some step can be taken.
  lemma Progress(s: State) returns (st: Step)
    requires s.readers == ReadersOf(s.ops) && !Quiescent(s)
    ensures Enabled(s, st)
  {
    if s.readers > 0 {
      var i := ReaderExists(s.ops);
      st := OpStep(i);
    } else if s.gc.Idle? && s.gcChan.None? {
      var i :| 0 <= i < |s.ops| && !s.ops[i].Ended?;
      if s.ops[i].GetLeave? {
        NoReaders(s.ops, i);
      }
      st := OpStep(i);
    } else {
      st := GcStep;
    }
  }

  /** Every run is finite, of at most eight times its initial work in steps, and where no step
      is possible the cache is at rest with its tracked size within the maximum. */
  lemma SettlesWithinLimit(s0: State, steps: seq<Step>)
    requires Init(s0) && IsRun(s0, steps)
    ensures |steps| <= 8 * Work(s0.ops)
    ensures (forall st :: !Enabled(After(s0, steps), st)) ==>
      Quiescent(After(s0, steps)) && After(s0, steps).sizeBytes <= After(s0, steps).maxSizeBytes
  {
    InitInv(s0);
    RunKeeps(s0, steps);
    var s := After(s0, steps);
    if !Quiescent(s) {
      var st := Progress(s);
    }
  }

  /** What the tracked size is worth once everything is at rest: it differs from the recorded
      sizes by the drift alone, modulo 2^64. */
  lemma TrackedIsRecordedUpToDrift(s0: State, steps: seq<Step>)
    requires Init(s0) && IsRun(s0, steps) && Quiescent(After(s0, steps))
    ensures var s := After(s0, steps);
      && Balanced(s.sizeBytes - Total(s.lru) - s.drift)
      && (s.sizeBytes == Reduced(Total(s.lru)) <==> Balanced(s.drift))
  {
    hide SignalInv;
    InitInv(s0);
    RunKeeps(s0, steps);
    var s := After(s0, steps);
    EndedUncounted(s.ops);
    hide Init, IsRun, After, Total, Valid, Balanced, Reduced;
    BalancedWords(s.sizeBytes, Total(s.lru), s.drift);
  }

  lemma BalancedWords(size: u64, total: nat, drift: int)
    requires Balanced(size - total - drift)
    ensures size == Reduced(total) <==> Balanced(drift)
  {
  }

  lemma {:induction false} EndedUncounted(ops: seq<Op>)
    requires forall i | 0 <= i < |ops| :: ops[i].Ended?
    ensures Uncounted(ops) == 0
  {
    if ops != [] {
      EndedUncounted(ops[1..]);
    }
  }

  lemma {:induction false} Extend(s: State, steps: seq<Step>, st: Step)
    requires IsRun(s, steps) && Enabled(After(s, steps), st)
    ensures IsRun(s, steps + [st]) && After(s, steps + [st]) == Apply(After(s, steps), st)
    decreases |steps|
  {
    hide Enabled, Apply;
    if steps == [] {
      assert steps + [st] == [st];
    } else {
      assert (steps + [st])[1..] == steps[1..] + [st];
      Extend(Apply(s, steps[0]), steps[1..], st);
    }
  }

  ghost predicate Reachable(s0: State, s: State) {
    exists steps :: IsRun(s0, steps) && After(s0, steps) == s
  }

  lemma Here(s0: State)
    ensures Reachable(s0, s0)
  {
    assert IsRun(s0, []) && After(s0, []) == s0;
  }

  // Takes one more step, to the given state.
  lemma Play(s0: State, s: State, st: Step, next: State)
    requires Reachable(s0, s) && Enabled(s, st) && Apply(s, st) == next
    ensures Reachable(s0, next)
  {
    var steps :| IsRun(s0, steps) && After(s0, steps) == s;
    Extend(s0, steps, st);
  }

  // Two Adds and a Get on one key, with a maximum of 100 bytes.
  function Scene(k: Key, ops: seq<Op>, gc: Collector, stored: map<Key, u64>, listed: map<Key, u64>, readers: nat,
                 size: u64, chan: Option<u64>, drift: int): State {
    State(ops, gc, stored, Lru(if listed == map[] then [] else [k], listed), readers, size, 100, chan, drift)
  }

  function SceneStart(k: Key): State {
    Scene(k, [AddStore(k, 150), GetLook(k), AddStore(k, 10)], Idle, map[], map[], 0, 0, None, 0)
  }

  // The first Add is over the maximum and signals.
  lemma SceneSignalled(k: Key)
    ensures Reachable(SceneStart(k), Scene(k, [Ended, GetLook(k), AddStore(k, 10)], Idle, map[k := 150], map[k := 150], 0, 150, Some(150), 0))
  {
    hide Reachable;
    var s0, one := SceneStart(k), map[k := 150];
    var ops := [AddStore(k, 150), GetLook(k), AddStore(k, 10)];
    var s1 := Scene(k, ops[0 := AddTouch(k, 150)], Idle, one, map[], 0, 0, None, 0);
    var s2 := Scene(k, ops[0 := AddCount(150)], Idle, one, one, 0, 0, None, 0);
    var s3 := Scene(k, ops[0 := AddSignal(150)], Idle, one, one, 0, 150, None, 0);
    Here(s0);
    Play(s0, s0, OpStep(0), s1);
    Play(s0, s1, OpStep(0), s2);
    Play(s0, s2, OpStep(0), s3);
    Play(s0, s3, OpStep(0), Scene(k, [Ended, GetLook(k), AddStore(k, 10)], Idle, one, one, 0, 150, Some(150), 0));
  }

  // gc takes the key off the list, and the Get lists it again before gc deletes it from the map.
  lemma SceneRelisted(k: Key)
    ensures Reachable(SceneStart(k), Scene(k, [Ended, Ended, AddStore(k, 10)], Delete(150, k, 150), map[k := 150], map[k := 150], 0, 150, None, -150))
  {
    SceneSignalled(k);
    hide Reachable;
    var s0, one, gc := SceneStart(k), map[k := 150], Delete(150, k, 150);
    var ops := [Ended, GetLook(k), AddStore(k, 10)];
    var s4 := Scene(k, ops, Idle, one, one, 0, 150, Some(150), 0);
    var s5 := Scene(k, ops, Check(150), one, one, 0, 150, None, 0);
    var s6 := Scene(k, ops, gc, one, map[], 0, 150, None, 0);
    var s7 := Scene(k, ops[1 := GetTouch(k, 150)], gc, one, map[], 1, 150, None, 0);
    var s8 := Scene(k, ops[1 := GetLeave], gc, one, one, 1, 150, None, -150);
    Play(s0, s4, GcStep, s5);
    assert one - {k} == map[];
    Play(s0, s5, GcStep, s6);
    Play(s0, s6, OpStep(1), s7);
    Play(s0, s7, OpStep(1), s8);
    Play(s0, s8, OpStep(1), Scene(k, [Ended, Ended, AddStore(k, 10)], gc, one, one, 0, 150, None, -150));
  }

  /** A Get that lists the key again before gc deletes it from the map leaves an entry nobody
      counts: everything but the second Add has ended, yet the tracked size is 0, nothing is
      stored and 150 bytes are recorded. */
  lemma AccountingDrifts(k: Key)
    ensures Init(SceneStart(k))
    ensures Reachable(SceneStart(k), Scene(k, [Ended, Ended, AddStore(k, 10)], Idle, map[], map[k := 150], 0, 0, None, -150))
  {
    SceneRelisted(k);
    hide Reachable;
    var s0, one, ops := SceneStart(k), map[k := 150], [Ended, Ended, AddStore(k, 10)];
    var s9 := Scene(k, ops, Delete(150, k, 150), one, one, 0, 150, None, -150);
    var s10 := Scene(k, ops, Subtract(150, 150), map[], one, 0, 150, None, -150);
    var s11 := Scene(k, ops, Check(0), map[], one, 0, 0, None, -150);
    assert one - {k} == map[];
    Play(s0, s9, GcStep, s10);
    Play(s0, s10, GcStep, s11);
    Play(s0, s11, GcStep, Scene(k, ops, Idle, map[], one, 0, 0, None, -150));
  }

  // 10 - 150, wrapped around.
  const HUGE: u64 := 0xFFFF_FFFF_FFFF_FF74

  // The second Add takes the uncounted 150 bytes off a zero size.
  lemma SceneUnderflows(k: Key)
    ensures Reachable(SceneStart(k), Scene(k, [Ended, Ended, Ended], Check(HUGE), map[k := 10], map[k := 10], 0, HUGE, None, -150))
  {
    AccountingDrifts(k);
    hide Reachable;
    var s0, ten, ops := SceneStart(k), map[k := 10], [Ended, Ended, AddStore(k, 10)];
    var s := Scene(k, ops, Idle, map[], map[k := 150], 0, 0, None, -150);
    var s1 := Scene(k, ops[2 := AddTouch(k, 10)], Idle, ten, map[k := 150], 0, 0, None, -150);
    var s2 := Scene(k, ops[2 := AddCount(HUGE)], Idle, ten, ten, 0, 0, None, -150);
    var s3 := Scene(k, ops[2 := AddSignal(HUGE)], Idle, ten, ten, 0, HUGE, None, -150);
    var s4 := Scene(k, [Ended, Ended, Ended], Idle, ten, ten, 0, HUGE, Some(HUGE), -150);
    Play(s0, s, OpStep(2), s1);
    Play(s0, s1, OpStep(2), s2);
    Play(s0, s2, OpStep(2), s3);
    Play(s0, s3, OpStep(2), s4);
    Play(s0, s4, GcStep, Scene(k, [Ended, Ended, Ended], Check(HUGE), ten, ten, 0, HUGE, None, -150));
  }

  /** gc then evicts its ten bytes and finds the list empty: the branch its comment says should
      never happen. */
  lemma ResetIsReachable(k: Key) returns (s: State)
    ensures Init(SceneStart(k)) && Reachable(SceneStart(k), s) && s.gc.Reset?
  {
    SceneUnderflows(k);
    hide Reachable;
    var s0, ten, ops := SceneStart(k), map[k := 10], [Ended, Ended, Ended];
    var s1 := Scene(k, ops, Check(HUGE), ten, ten, 0, HUGE, None, -150);
    var s2 := Scene(k, ops, Delete(HUGE, k, 10), ten, map[], 0, HUGE, None, -150);
    var s3 := Scene(k, ops, Subtract(HUGE, 10), map[], map[], 0, HUGE, None, -150);
    var s4 := Scene(k, ops, Check(HUGE - 10), map[], map[], 0, HUGE - 10, None, -150);
    s := Scene(k, ops, Reset(HUGE - 10), map[], map[], 0, HUGE - 10, None, -150);
    assert ten - {k} == map[];
    Play(s0, s1, GcStep, s2);
    Play(s0, s2, GcStep, s3);
    Play(s0, s3, GcStep, s4);
    Play(s0, s4, GcStep, s);
  }
}
