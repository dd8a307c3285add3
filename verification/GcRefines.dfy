/** The memory cache's steps, taken without interruption, are its whole operations: the step-by-step
    model refines the one with whole operations atomic. */
module GcRefines {
  import opened Words
  import opened LruList
  import opened GcSignals
  import M = MemCaches

  // The state shows the cache's content, list, sizes and channel.
  predicate Shows(s: State, m: M.Mem) {
    && s.cache == M.SizesOf(m.cache) && s.lru == m.lru && s.sizeBytes == m.sizeBytes
    && s.maxSizeBytes == m.maxSizeBytes && s.gcChan == m.gcChan
  }

  // What an operation leaves alone.
  predicate Quiet(s: State, s': State, i: nat) {
    i < |s.ops| && s'.ops == s.ops[i := Ended] && s'.gc == s.gc && s'.readers == s.readers
  }

  lemma Stored(m: M.Mem, k: Key, v: CacheObj)
    ensures M.SizesOf(m.cache[k := v]) == M.SizesOf(m.cache)[k := v.size]
  {
  }

  /** An Add whose steps are not interrupted stores, lists, counts and asks as a whole Add does. */
  lemma AddWhole(s: State, m: M.Mem, i: nat, k: Key, v: CacheObj) returns (s': State)
    requires Shows(s, m) && i < |s.ops| && s.ops[i] == AddStore(k, v.size) && s.readers == 0
    ensures Reachable(s, s') && Quiet(s, s', i) && Shows(s', M.Add(m, k, v))
  {
    Here(s);
    Stored(m, k, v);
    hide Reachable, M.SizesOf, Touch, Recorded;
    var s1 := Apply(s, OpStep(i));
    var s2 := Apply(s1, OpStep(i));
    Play(s, s, OpStep(i), s1);
    Play(s, s1, OpStep(i), s2);
    assert s2.ops == s.ops[i := s2.ops[i]];
    s' := s2;
    if s2.ops[i].AddCount? {
      var s3 := Apply(s2, OpStep(i));
      Play(s, s2, OpStep(i), s3);
      assert s3.ops == s.ops[i := s3.ops[i]];
      s' := s3;
      if s3.ops[i].AddSignal? {
        s' := Apply(s3, OpStep(i));
        Play(s, s3, OpStep(i), s');
        assert s'.ops == s.ops[i := Ended];
      }
    }
  }

  // A Get that is not interrupted records its use of the key as a whole Get does.
  lemma GetWhole(s: State, m: M.Mem, i: nat, k: Key) returns (s': State)
    requires Shows(s, m) && i < |s.ops| && s.ops[i] == GetLook(k)
    ensures Reachable(s, s') && Quiet(s, s', i) && Shows(s', M.Get(m, k).0)
  {
    Here(s);
    if k in m.cache {
      Stored(m, k, Hit(m.cache[k]));
      assert M.SizesOf(m.cache)[k := m.cache[k].size] == M.SizesOf(m.cache);
    }
    hide Reachable, Touch, Recorded;
    var s1 := Apply(s, OpStep(i));
    Play(s, s, OpStep(i), s1);
    s' := s1;
    if k in s.cache {
      var s2 := Apply(s1, OpStep(i));
      s' := Apply(s2, OpStep(i));
      Play(s, s1, OpStep(i), s2);
      Play(s, s2, OpStep(i), s');
      assert s'.ops == s.ops[i := Ended];
    }
  }

  // gc from its check on, with `local` as the size it goes by.
  lemma {:induction false} GcWhole(s0: State, s: State, m: M.Mem) returns (s': State)
    requires Reachable(s0, s) && Shows(s, m) && s.gc.Check? && s.readers == 0
    ensures Reachable(s0, s') && s'.gc.Idle? && s'.ops == s.ops && s'.readers == 0 && Shows(s', M.Gc(m, s.gc.local))
    decreases |m.lru.order|
  {
    var s1 := Apply(s, GcStep);
    Play(s0, s, GcStep, s1);
    s' := s1;
    if s.gc.local > m.maxSizeBytes {
      if m.lru.order == [] {
        s' := Apply(s1, GcStep);
        Play(s0, s1, GcStep, s');
      } else {
        var s2 := Apply(s1, GcStep);
        var s3 := Apply(s2, GcStep);
        Play(s0, s1, GcStep, s2);
        Play(s0, s2, GcStep, s3);
        Evicted(m);
        s' := GcWhole(s0, s3, M.EvictOne(m));
      }
    }
  }

  lemma Evicted(m: M.Mem)
    requires m.lru.order != []
    ensures M.SizesOf(m.cache - {Oldest(m.lru)}) == M.SizesOf(m.cache) - {Oldest(m.lru)}
  {
  }

  // A round of the collector that is not interrupted is a whole collection.
  lemma CollectWhole(s: State, m: M.Mem) returns (s': State)
    requires Shows(s, m) && s.gc.Idle? && s.gcChan.Some? && s.readers == 0
    ensures Reachable(s, s') && s'.gc.Idle? && s'.ops == s.ops && s'.readers == 0 && Shows(s', M.Collect(m))
  {
    Here(s);
    hide Reachable, M.Gc;
    var s1 := Apply(s, GcStep);
    Play(s, s, GcStep, s1);
    s' := GcWhole(s, s1, m.(gcChan := None));
  }
}
