/**
 The tiered cache under overlapping operations on one key: an Add writes the first tier and then
 the second, and a Get that misses the first tier reads the second and then promotes what it read.
 */
module TierOverlaps {
  import opened Words
  import L = LruList
  import M = MemCaches
  import D = DiskCaches
  import T = TierCaches

  // A cached object, with its hit count left out.
  type Content = CacheObj

  function Strip(o: CacheObj): Content {
    o.(hitCount := 0)
  }

  datatype Op =
    | AddFirst(v: Content)     // about to write the first tier
    | AddSecond(v: Content)    // about to write the second tier
    | GetFirst                 // about to look into the first tier
    | GetSecond                // missed the first tier, about to look into the second
    | Promote(v: Content)      // about to add what it found to the first tier
    | Ended

  // What either tier holds for the key; `added` is bookkeeping, whether an Add has ended.
  datatype State = State(ops: seq<Op>, first: Option<Content>, second: Option<Content>, added: bool)

  datatype Step = OpStep(i: nat) | EvictFirst | EvictSecond

  predicate Enabled(s: State, st: Step) {
    st.OpStep? ==> st.i < |s.ops| && !s.ops[st.i].Ended?
  }

  function Apply(s: State, st: Step): State
    requires Enabled(s, st)
  {
    match st
    case EvictFirst => s.(first := None)
    case EvictSecond => s.(second := None)
    case OpStep(i) =>
      match s.ops[i]
      case AddFirst(v) => s.(ops := s.ops[i := AddSecond(v)], first := Some(v))
      case AddSecond(v) => s.(ops := s.ops[i := Ended], second := Some(v), added := true)
      case GetFirst => s.(ops := s.ops[i := if s.first.Some? then Ended else GetSecond])
      case GetSecond => s.(ops := s.ops[i := if s.second.Some? then Promote(s.second.value) else Ended])
      case Promote(v) => s.(ops := s.ops[i := Ended], first := Some(v))
  }

  // No operation is under way.
  predicate AtRest(s: State) {
    forall i | 0 <= i < |s.ops| :: s.ops[i].AddFirst? || s.ops[i].GetFirst? || s.ops[i].Ended?
  }

  /** The values that may be added, each any number of times; whether there may be Gets; and what
      the second tier holds to begin with. */
  datatype Use = Use(values: set<Content>, gets: bool, old_: Option<Content>) {
    predicate Init(s: State) {
      && s.first.None? && s.second == old_ && !s.added
      && forall i | 0 <= i < |s.ops| :: (s.ops[i].AddFirst? && s.ops[i].v in values) || (gets && s.ops[i].GetFirst?)
    }

    /** Whenever nothing is under way, the tiers do not disagree, and once an Add has ended they
        hold nothing but what was added. */
    predicate Coherent(s: State) {
      AtRest(s) ==>
        && (s.first.Some? && s.second.Some? ==> s.first == s.second)
        && (s.added ==> Within(s.first, values) && Within(s.second, values))
    }

    ghost predicate AlwaysCoherent() {
      forall s0, steps | Init(s0) && IsRun(s0, steps) :: Coherent(After(s0, steps))
    }

    // One value is added; and if it is read while it is added, the second tier held nothing else.
    predicate Safe() {
      && (forall v, w | v in values && w in values :: v == w)
      && (gets && values != {} && old_.Some? ==> old_.value in values)
    }

    // ---------- what a safe use keeps ----------

    // With Gets there is one content throughout.
    predicate Known(v: Content) {
      v in values || (gets && old_ == Some(v))
    }

    predicate OpOk(o: Op) {
      match o
      case AddFirst(v) => v in values
      case AddSecond(v) => v in values
      case Promote(v) => gets && Known(v)
      case GetFirst => gets
      case GetSecond => gets
      case Ended => true
    }

    // While the second tier holds anything else, no Add has ended, and one that wrote the first tier is under way.
    predicate Inv(s: State) {
      && (forall i | 0 <= i < |s.ops| :: OpOk(s.ops[i]))
      && (s.first.Some? ==> Known(s.first.value))
      && (s.second.Some? ==> Known(s.second.value) || s.second == old_)
      && (s.second.Some? && !Known(s.second.value) ==>
            !s.added && (s.first.Some? ==> exists i :: 0 <= i < |s.ops| && s.ops[i].AddSecond?))
      && (s.added ==> values != {})
    }
  }

  predicate Within(o: Option<Content>, values: set<Content>) {
    o.Some? ==> o.value in values
  }

  ghost predicate IsRun(s: State, steps: seq<Step>)
    decreases |steps|
  {
    steps == [] || (Enabled(s, steps[0]) && IsRun(Apply(s, steps[0]), steps[1..]))
  }

  ghost function After(s: State, steps: seq<Step>): State
    requires IsRun(s, steps)
    decreases |steps|
  {
    if steps == [] then s else After(Apply(s, steps[0]), steps[1..])
  }

  lemma InvKept(u: Use, s: State, st: Step)
    requires u.Safe() && u.Inv(s) && Enabled(s, st)
    ensures u.Inv(Apply(s, st))
  {
    var s' := Apply(s, st);
    if st.OpStep? {
      assert u.OpOk(s.ops[st.i]);
      forall j | 0 <= j < |s'.ops| ensures u.OpOk(s'.ops[j]) {
        if j != st.i {
          assert u.OpOk(s.ops[j]);
        }
      }
      if s.ops[st.i].AddFirst? {
        assert s'.ops[st.i].AddSecond?;
      } else if j :| 0 <= j < |s.ops| && s.ops[j].AddSecond? && j != st.i {
        assert s'.ops[j].AddSecond?;
      }
    }
  }

  lemma {:induction false} InvRun(u: Use, s: State, steps: seq<Step>)
    requires u.Safe() && u.Inv(s) && IsRun(s, steps)
    ensures u.Inv(After(s, steps))
    decreases |steps|
  {
    if steps != [] {
      hide u.Inv, u.Safe;
      InvKept(u, s, steps[0]);
      InvRun(u, Apply(s, steps[0]), steps[1..]);
    }
  }

  // A known content is the same as any other.
  lemma OneContent(u: Use, v: Content, w: Content)
    requires u.Safe() && u.Known(v) && u.Known(w)
    ensures v == w && (u.values != {} ==> v in u.values)
  {
  }

  lemma InvCoherent(u: Use, s: State)
    requires u.Safe() && u.Inv(s)
    ensures u.Coherent(s)
  {
    if AtRest(s) {
      if s.first.Some? && s.second.Some? {
        OneContent(u, s.first.value, s.second.value);
      }
      if s.first.Some? {
        OneContent(u, s.first.value, s.first.value);
      }
      if s.second.Some? && s.added {
        OneContent(u, s.second.value, s.second.value);
      }
    }
  }

  // ---------- overlaps that leave an older object ----------

  lemma RunCons(s: State, steps: seq<Step>)
    ensures steps == [] ==> IsRun(s, steps) && After(s, steps) == s
    ensures steps != [] && Enabled(s, steps[0]) && IsRun(Apply(s, steps[0]), steps[1..])
        ==> IsRun(s, steps) && After(s, steps) == After(Apply(s, steps[0]), steps[1..])
  {
  }

  // Two Adds that write the tiers in different orders leave different objects in them.
  lemma CrossedAdds(u: Use, v: Content, w: Content)
    requires v in u.values && w in u.values && v != w
    ensures !u.AlwaysCoherent()
  {
    var s0 := State([AddFirst(v), AddFirst(w)], None, u.old_, false);
    var s1 := State([AddSecond(v), AddFirst(w)], Some(v), u.old_, false);
    var s2 := State([AddSecond(v), AddSecond(w)], Some(w), u.old_, false);
    var s3 := State([AddSecond(v), Ended], Some(w), Some(w), true);
    var s4 := State([Ended, Ended], Some(w), Some(v), true);
    var steps := [OpStep(0), OpStep(1), OpStep(1), OpStep(0)];
    hide IsRun, After;
    assert Apply(s0, steps[0]) == s1 && Apply(s1, steps[1]) == s2 && Apply(s2, steps[2]) == s3 && Apply(s3, steps[3]) == s4;
    RunCons(s4, steps[4..]);
    RunCons(s3, steps[3..]);
    RunCons(s2, steps[2..]);
    RunCons(s1, steps[1..]);
    RunCons(s0, steps);
    assert u.Init(s0) && !u.Coherent(s4);
  }

  // A promotion overtaken by an Add puts the older object into the first tier.
  lemma LatePromotion(u: Use, v: Content, w: Content)
    requires v in u.values && u.gets && u.old_ == Some(w) && w !in u.values
    ensures !u.AlwaysCoherent()
  {
    var s0 := State([AddFirst(v), GetFirst], None, Some(w), false);
    var s1 := State([AddFirst(v), GetSecond], None, Some(w), false);
    var s2 := State([AddFirst(v), Promote(w)], None, Some(w), false);
    var s3 := State([AddSecond(v), Promote(w)], Some(v), Some(w), false);
    var s4 := State([Ended, Promote(w)], Some(v), Some(v), true);
    var s5 := State([Ended, Ended], Some(w), Some(v), true);
    var steps := [OpStep(1), OpStep(1), OpStep(0), OpStep(0), OpStep(1)];
    hide IsRun, After;
    assert Apply(s0, steps[0]) == s1 && Apply(s1, steps[1]) == s2 && Apply(s2, steps[2]) == s3;
    assert Apply(s3, steps[3]) == s4 && Apply(s4, steps[4]) == s5;
    RunCons(s5, steps[5..]);
    RunCons(s4, steps[4..]);
    RunCons(s3, steps[3..]);
    RunCons(s2, steps[2..]);
    RunCons(s1, steps[1..]);
    RunCons(s0, steps);
    assert u.Init(s0) && !u.Coherent(s5);
  }

  /** However operations on a key overlap and whatever is evicted, the tiers agree whenever nothing
      is under way, if and only if one object is ever added, and, if the key is also read, the
      second tier held no other one to begin with. */
  lemma CoherentIff(u: Use)
    ensures u.AlwaysCoherent() <==> u.Safe()
  {
    if u.Safe() {
      forall s0, steps | u.Init(s0) && IsRun(s0, steps) ensures u.Coherent(After(s0, steps)) {
        InvRun(u, s0, steps);
        InvCoherent(u, After(s0, steps));
      }
    } else if v, w :| v in u.values && w in u.values && v != w {
      CrossedAdds(u, v, w);
    } else {
      var v :| v in u.values;
      LatePromotion(u, v, u.old_.value);
    }
  }

  // ---------- operations that do not overlap ----------

  function Stripped(o: Option<CacheObj>): Option<Content> {
    if o.Some? then Some(Strip(o.value)) else None
  }

  // The state shows what the tiers hold for the key.
  predicate Shows(e: T.Env, t: T.Tier, key: L.Key, s: State)
    requires t.second != []
  {
    s.first == Stripped(M.Peek(t.first, key)) && s.second == Stripped(D.Peek(e.codec, T.Shard(e, t, key), key))
  }

  // Operation number `i` by itself, until it has ended.
  function Alone(s: State, i: nat): State {
    var s1 := Next(s, i);
    var s2 := Next(s1, i);
    Next(s2, i)
  }

  function Next(s: State, i: nat): State {
    if Enabled(s, OpStep(i)) then Apply(s, OpStep(i)) else s
  }

  // Between its two writes an Add has changed the first tier only; a Get that misses both leaves nothing.
  lemma HalfWay(s: State, i: nat)
    requires i < |s.ops|
    ensures s.ops[i].AddFirst? ==> Next(s, i).first == Some(s.ops[i].v) && Next(s, i).second == s.second
    ensures s.ops[i].AddSecond? ==> Next(s, i).second == Some(s.ops[i].v) && Next(s, i).first == s.first
    ensures s.ops[i].GetFirst? && s.first.Some? ==> Next(s, i) == s.(ops := s.ops[i := Ended])
    ensures s.ops[i].GetFirst? && s.first.None? && s.second.None? ==> Alone(s, i) == s.(ops := s.ops[i := Ended])
  {
  }

  // An Add that is not interrupted is a whole Add.
  lemma AddWhole(e: T.Env, t: T.Tier, key: L.Key, v: CacheObj, s: State, i: nat)
    requires t.second != [] && D.CodecOk(e.codec) && e.codec.encode(v).Some?
    requires Shows(e, t, key, s) && i < |s.ops| && s.ops[i] == AddFirst(Strip(v))
    ensures Shows(e, T.Add(e, t, key, v, true), key, Alone(s, i)) && Alone(s, i).ops == s.ops[i := Ended]
  {
    T.AddExact(e, t, key, v, true, key);
    hide D.CodecOk, T.Add, T.Shard;
  }

  // A Get that is not interrupted is a whole Get, and promotes as one does.
  lemma GetWhole(e: T.Env, t: T.Tier, key: L.Key, s: State, i: nat)
    requires t.second != [] && Shows(e, t, key, s) && i < |s.ops| && s.ops[i] == GetFirst
    ensures Shows(e, T.Get(e, t, key).0, key, Alone(s, i)) && Alone(s, i).ops == s.ops[i := Ended]
  {
    T.LookupExact(e, t, key, key);
    SameOnDisk(e, t, key);
    hide T.Get, T.Shard;
  }

  lemma SameOnDisk(e: T.Env, t: T.Tier, key: L.Key)
    requires t.second != []
    ensures var t' := T.Get(e, t, key).0; D.Peek(e.codec, T.Shard(e, t', key), key) == D.Peek(e.codec, T.Shard(e, t, key), key)
    ensures !(key in t.first.cache || T.OnDisk(e, t, key)) ==> T.Get(e, t, key).0.first == t.first
  {
    hide L.Touch, T.KeyIdx;
  }
}
