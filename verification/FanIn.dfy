/**
 The fan-in protocol of Grove's `getter` composed with the per-rule throttlers.

 Any number of concurrent `Get` calls run against one getter. The first call for a
 key becomes its Author and fetches; later calls park on a one-slot channel until the
 Author publishes. Every mutex section, channel action and fetch boundary is one step.
 */
module FanIn {
  import opened Words

  // A call is named by its index, which also stands for its request ID.
  type Id = nat
  // Keys and rule names are only compared.
  type Key(==, !new)
  type Rule(==, !new)
  // A fetched object, passed by reference.
  type ObjRef = nat

  // A response in a waiter's channel; `sentAt` records when the Author sent it.
  datatype Msg = Msg(obj: ObjRef, author: Id, sentAt: nat)

  datatype Phase =
    | Start                                  // before the first critical section
    | AwaitSlot(author: bool)                // about to enter the rule's throttler
    | Fetching(author: bool)                 // inside the throttled fetch
    | Fetched(author: bool, obj: ObjRef)     // fetch returned, slot still held
    | WantPublish(obj: ObjRef)               // Author, about to take the mutex again
    | Sending(obj: ObjRef, next: nat)        // Author, holds the mutex, sends to waiters[next..]
    | Waiting                                // parked on its own channel
    | Done(obj: ObjRef, origin: Id)          // returned `obj`, fetched by request `origin`

  /** One `Get` call. `inbox` is its channel (capacity one); the fields after it are
      bookkeeping that no step reads to decide anything. */
  datatype Call = Call(
    key: Key, rule: Rule, phase: Phase, inbox: Option<Msg>,
    under: Option<Id>,   // the Author it enlisted under
    slot: nat,           // its position in that Author's waiter list
    enlistedAt: nat, sends: nat, fetches: nat,
    got: Option<Msg>)    // the response it took out of its channel

  /** `waiters` and `lock` are the getter's fields, `tokens` the filling of each rule's
      throttler channel, `author` and `now` bookkeeping. */
  datatype State = State(
    calls: seq<Call>, waiters: map<Key, seq<Id>>, lock: Option<Id>, tokens: map<Rule, nat>,
    author: map<Key, Id>, now: nat)

  // The channel capacity of each rule's throttler; a missing rule or 0 means no throttling.
  type Limits = map<Rule, nat>

  datatype Step =
    | Enter(i: Id)
    | TakeSlot(i: Id)
    | FinishFetch(i: Id, obj: ObjRef)
    | ReleaseSlot(i: Id)
    | LockToPublish(i: Id)
    | Send(i: Id)
    | Unlock(i: Id)
    | Receive(i: Id, usable: bool)

  predicate Throttled(limits: Limits, r: Rule) {
    r in limits && limits[r] >= 1
  }

  function Tokens(s: State, r: Rule): nat {
    if r in s.tokens then s.tokens[r] else 0
  }

  /** A step can be taken: the mutex is free where it is locked, a channel send finds
      room, a channel receive finds a value. */
  predicate Enabled(limits: Limits, s: State, st: Step) {
    && st.i < |s.calls|
    && var c := s.calls[st.i];
       match st
       case Enter(_) => c.phase.Start? && s.lock.None?
       case TakeSlot(_) => c.phase.AwaitSlot? && (Throttled(limits, c.rule) ==> Tokens(s, c.rule) < limits[c.rule])
       case FinishFetch(_, _) => c.phase.Fetching?
       case ReleaseSlot(_) => c.phase.Fetched? && (Throttled(limits, c.rule) ==> Tokens(s, c.rule) > 0)
       case LockToPublish(_) => c.phase.WantPublish? && s.lock.None?
       case Send(_) =>
         && c.phase.Sending? && c.key in s.waiters && c.phase.next < |s.waiters[c.key]|
         && s.waiters[c.key][c.phase.next] < |s.calls| && s.waiters[c.key][c.phase.next] != st.i
         && s.calls[s.waiters[c.key][c.phase.next]].inbox.None?
       case Unlock(_) => c.phase.Sending? && (c.key in s.waiters ==> c.phase.next == |s.waiters[c.key]|)
       case Receive(_, _) => c.phase.Waiting? && c.inbox.Some?
  }

  function Apply(limits: Limits, s: State, st: Step): State
    requires Enabled(limits, s, st)
  {
    var i := st.i;
    var c := s.calls[i];
    match st
    case Enter(_) =>
      if c.key !in s.waiters then
        s.(calls := s.calls[i := c.(phase := AwaitSlot(true))],
           waiters := s.waiters[c.key := []], author := s.author[c.key := i], now := s.now + 1)
      else
        var c' := c.(phase := Waiting, slot := |s.waiters[c.key]|, enlistedAt := s.now,
                     under := if c.key in s.author then Some(s.author[c.key]) else None);
        s.(calls := s.calls[i := c'], waiters := s.waiters[c.key := s.waiters[c.key] + [i]], now := s.now + 1)
    case TakeSlot(_) =>
      s.(calls := s.calls[i := c.(phase := Fetching(c.phase.author), fetches := c.fetches + 1)],
         tokens := if Throttled(limits, c.rule) then s.tokens[c.rule := Tokens(s, c.rule) + 1] else s.tokens,
         now := s.now + 1)
    case FinishFetch(_, obj) =>
      s.(calls := s.calls[i := c.(phase := Fetched(c.phase.author, obj))], now := s.now + 1)
    case ReleaseSlot(_) =>
      s.(calls := s.calls[i := c.(phase := if c.phase.author then WantPublish(c.phase.obj) else Done(c.phase.obj, i))],
         tokens := if Throttled(limits, c.rule) then s.tokens[c.rule := Tokens(s, c.rule) - 1] else s.tokens,
         now := s.now + 1)
    case LockToPublish(_) =>
      s.(calls := s.calls[i := c.(phase := Sending(c.phase.obj, 0))], lock := Some(i), now := s.now + 1)
    case Send(_) =>
      var w := s.waiters[c.key][c.phase.next];
      var m := Msg(c.phase.obj, i, s.now);
      s.(calls := s.calls[i := c.(phase := Sending(c.phase.obj, c.phase.next + 1))]
                         [w := s.calls[w].(inbox := Some(m), sends := s.calls[w].sends + 1)],
         now := s.now + 1)
    case Unlock(_) =>
      s.(calls := s.calls[i := c.(phase := Done(c.phase.obj, i))],
         waiters := s.waiters - {c.key}, author := s.author - {c.key}, lock := None, now := s.now + 1)
    case Receive(_, usable) =>
      var m := c.inbox.value;
      s.(calls := s.calls[i := c.(inbox := None, got := c.inbox, phase := if usable then Done(m.obj, m.author) else AwaitSlot(false))],
         now := s.now + 1)
  }

  predicate Init(s: State) {
    && s.waiters == map[] && s.lock.None? && s.tokens == map[] && s.author == map[]
    && forall i | 0 <= i < |s.calls| ::
         var c := s.calls[i];
         c.phase.Start? && c.inbox.None? && c.under.None? && c.sends == 0 && c.fetches == 0 && c.got.None?
  }

  // ---------- the invariant ----------

  // `c` has been elected Author and has not returned yet.
  predicate Authoring(c: Call) {
    match c.phase
    case AwaitSlot(a) => a
    case Fetching(a) => a
    case Fetched(a, _) => a
    case WantPublish(_) => true
    case Sending(_, _) => true
    case _ => false
  }

  // How many waiters of `c`'s list have been sent their response.
  function SentUpTo(c: Call): nat {
    if c.phase.Sending? then c.phase.next else 0
  }

  // The object an Author is publishing or has returned.
  predicate Answers(c: Call, obj: ObjRef, id: Id) {
    (c.phase.Sending? && c.phase.obj == obj) || c.phase == Done(obj, id)
  }

  // What one call's own fields say, by phase.
  predicate CallOk(c: Call, i: Id, now: nat) {
    && (c.inbox.Some? ==> c.phase.Waiting? && c.sends == 1)
    && (c.sends > 0 ==> c.under.Some?)
    && (c.under.Some? ==> c.enlistedAt < now)
    && (c.got.Some? ==> c.under.Some? && c.inbox.None? && c.sends == 1)
    && match c.phase
       case Start => c.sends == 0 && c.fetches == 0 && c.under.None? && c.got.None?
       case AwaitSlot(a) => c.fetches == 0 && (if a then c.under.None? else c.got.Some?)
       case Fetching(a) => c.fetches == 1 && (if a then c.under.None? else c.got.Some?)
       case Fetched(a, _) => c.fetches == 1 && (if a then c.under.None? else c.got.Some?)
       case WantPublish(_) => c.fetches == 1 && c.under.None?
       case Sending(_, _) => c.fetches == 1 && c.under.None?
       case Waiting => c.fetches == 0 && c.under.Some? && c.got.None? && (c.inbox.None? ==> c.sends == 0)
       case Done(_, origin) =>
         && c.fetches == (if origin == i then 1 else 0)
         && (c.under.None? ==> origin == i)
         && (c.under.Some? ==> c.got.Some? && (origin == i || (c.phase.obj == c.got.value.obj && origin == c.got.value.author)))
  }

  predicate CallsOk(s: State) {
    forall i | 0 <= i < |s.calls| :: CallOk(s.calls[i], i, s.now)
  }

  // `waiters` holds a key exactly while its one Author is unfinished.
  predicate AuthorsOk(s: State) {
    && s.author.Keys == s.waiters.Keys
    && (forall k | k in s.author ::
          s.author[k] < |s.calls| && s.calls[s.author[k]].key == k && Authoring(s.calls[s.author[k]]))
    && (forall i | 0 <= i < |s.calls| && Authoring(s.calls[i]) ::
          s.calls[i].key in s.author && s.author[s.calls[i].key] == i)
  }

  // The mutex is held exactly by the call that is sending.
  predicate LockOk(s: State) {
    && (s.lock.Some? ==> s.lock.value < |s.calls| && s.calls[s.lock.value].phase.Sending?)
    && (forall i | 0 <= i < |s.calls| && s.calls[i].phase.Sending? :: s.lock == Some(i))
  }

  // Each listed waiter is in its slot; those not yet sent to are parked with an empty channel.
  predicate ListedOk(s: State)
    requires AuthorsOk(s)
  {
    forall k | k in s.waiters ::
      && SentUpTo(s.calls[s.author[k]]) <= |s.waiters[k]|
      && forall j | 0 <= j < |s.waiters[k]| :: ListedAt(s, k, j, s.waiters[k][j])
  }

  predicate ListedAt(s: State, k: Key, j: nat, w: Id)
    requires k in s.author && s.author[k] < |s.calls|
  {
    && w < |s.calls| && s.calls[w].key == k && s.calls[w].slot == j && s.calls[w].under == Some(s.author[k])
    && (SentUpTo(s.calls[s.author[k]]) <= j ==> s.calls[w].phase.Waiting? && s.calls[w].inbox.None?)
  }

  // A parked waiter with an empty channel is listed, still to be sent to.
  predicate ParkedOk(s: State)
    requires AuthorsOk(s)
  {
    forall w | 0 <= w < |s.calls| && s.calls[w].phase.Waiting? && s.calls[w].inbox.None? :: ParkedAt(s, w)
  }

  predicate ParkedAt(s: State, w: Id)
    requires AuthorsOk(s) && w < |s.calls|
  {
    var c := s.calls[w];
    && c.key in s.waiters && c.slot < |s.waiters[c.key]| && s.waiters[c.key][c.slot] == w
    && SentUpTo(s.calls[s.author[c.key]]) <= c.slot
  }

  // Every response in a channel, or returned by a waiter, is its Author's answer for its key.
  predicate AnswersOk(s: State) {
    forall i | 0 <= i < |s.calls| :: AnswerAt(s, i)
  }

  predicate AnswerAt(s: State, i: Id)
    requires i < |s.calls|
  {
    var c := s.calls[i];
    && (c.under.Some? ==> c.under.value < |s.calls| && c.under.value != i && s.calls[c.under.value].key == c.key
                          && s.calls[c.under.value].under.None? && !s.calls[c.under.value].phase.Start?)
    && (c.inbox.Some? ==> MsgOk(s, c, c.inbox.value))
    && (c.got.Some? ==> MsgOk(s, c, c.got.value))
  }

  // `m` was sent to `c` after it enlisted, by its Author, and is that Author's answer.
  predicate MsgOk(s: State, c: Call, m: Msg) {
    && c.under == Some(m.author) && c.enlistedAt < m.sentAt < s.now
    && m.author < |s.calls| && Answers(s.calls[m.author], m.obj, m.author)
  }

  predicate Holds(c: Call, r: Rule) {
    c.rule == r && (c.phase.Fetching? || c.phase.Fetched?)
  }

  // The calls inside the fetch section of rule `r`.
  function Holders(s: State, r: Rule): set<Id> {
    set i | 0 <= i < |s.calls| && Holds(s.calls[i], r)
  }

  ghost predicate TokensOk(limits: Limits, s: State) {
    forall r | Throttled(limits, r) :: Tokens(s, r) == |Holders(s, r)| <= limits[r]
  }

  ghost predicate Inv(limits: Limits, s: State) {
    && CallsOk(s) && AuthorsOk(s) && LockOk(s) && ListedOk(s) && ParkedOk(s) && AnswersOk(s)
    && TokensOk(limits, s)
  }

  // ---------- every step keeps the invariant ----------

  lemma InitInv(limits: Limits, s: State)
    requires Init(s)
    ensures Inv(limits, s)
  {
  }

  // The call that takes the step.
  lemma CallMoves(limits: Limits, s: State, st: Step)
    requires Enabled(limits, s, st) && CallOk(s.calls[st.i], st.i, s.now) && AnswerAt(s, st.i)
    requires st.Enter? && s.calls[st.i].key in s.waiters ==> s.calls[st.i].key in s.author
    ensures CallOk(Apply(limits, s, st).calls[st.i], st.i, s.now + 1) && Apply(limits, s, st).now == s.now + 1
  {
  }

  lemma CallsKept(limits: Limits, s: State, st: Step)
    requires CallsOk(s) && AuthorsOk(s) && ListedOk(s) && AnswersOk(s) && Enabled(limits, s, st)
    ensures CallsOk(Apply(limits, s, st))
  {
    var s' := Apply(limits, s, st);
    CallCount(limits, s, st);
    assert CallOk(s.calls[st.i], st.i, s.now) && AnswerAt(s, st.i);
    CallMoves(limits, s, st);
    hide Apply, AnswerAt;
    forall i | 0 <= i < |s'.calls| && i != st.i ensures CallOk(s'.calls[i], i, s'.now) {
      assert CallOk(s.calls[i], i, s.now);
      OtherCallOk(limits, s, st, i);
    }
  }

  lemma OtherCallOk(limits: Limits, s: State, st: Step, i: Id)
    requires AuthorsOk(s) && ListedOk(s) && Enabled(limits, s, st) && i < |s.calls| && i != st.i && CallOk(s.calls[i], i, s.now)
    ensures CallOk(Apply(limits, s, st).calls[i], i, Apply(limits, s, st).now)
  {
    if st.Send? && i == s.waiters[s.calls[st.i].key][s.calls[st.i].phase.next] {
      assert ListedAt(s, s.calls[st.i].key, s.calls[st.i].phase.next, i);
      hide AuthorsOk, ListedOk;
    } else {
      hide AuthorsOk, ListedOk, Apply;
      CallCount(limits, s, st);
      OthersStay(limits, s, st, i);
    }
  }

  lemma LockKept(limits: Limits, s: State, st: Step)
    requires LockOk(s) && Enabled(limits, s, st)
    ensures LockOk(Apply(limits, s, st))
  {
  }

  predicate Parked(c: Call) {
    c.phase.Waiting? && c.inbox.None?
  }

  // Only call `i` changed, and neither its role as Author nor anything about the lists.
  ghost predicate Quiet(s: State, s': State, i: Id) {
    && i < |s.calls| == |s'.calls| && s'.waiters == s.waiters && s'.author == s.author
    && (forall j | 0 <= j < |s.calls| && j != i :: s'.calls[j] == s.calls[j])
    && var c, c' := s.calls[i], s'.calls[i];
       && c'.key == c.key && c'.under == c.under && c'.slot == c.slot
       && Authoring(c') == Authoring(c) && SentUpTo(c') == SentUpTo(c) && !Parked(c) && !Parked(c')
  }

  lemma QuietAuthors(s: State, s': State, i: Id)
    requires AuthorsOk(s) && Quiet(s, s', i)
    ensures AuthorsOk(s')
  {
    hide SentUpTo, Parked, Authoring;
  }

  lemma QuietListed(s: State, s': State, i: Id)
    requires AuthorsOk(s) && ListedOk(s) && Quiet(s, s', i) && AuthorsOk(s')
    ensures ListedOk(s')
  {
    hide Authoring;
    forall k | k in s'.waiters
      ensures SentUpTo(s'.calls[s'.author[k]]) <= |s'.waiters[k]|
      ensures forall j | 0 <= j < |s'.waiters[k]| :: ListedAt(s', k, j, s'.waiters[k][j])
    {
      forall j | 0 <= j < |s'.waiters[k]| ensures ListedAt(s', k, j, s'.waiters[k][j]) {
        assert ListedAt(s, k, j, s.waiters[k][j]);
      }
    }
  }

  lemma QuietParked(s: State, s': State, i: Id)
    requires AuthorsOk(s) && ParkedOk(s) && Quiet(s, s', i) && AuthorsOk(s')
    ensures ParkedOk(s')
  {
    hide Authoring;
    forall w | 0 <= w < |s'.calls| && Parked(s'.calls[w]) ensures ParkedAt(s', w) {
      assert ParkedAt(s, w);
    }
  }

  // Calls other than `i` and `w` did not change, and nobody's key did.
  predicate OthersSame(s: State, s': State, i: Id, w: Id) {
    && |s'.calls| == |s.calls|
    && (forall j | 0 <= j < |s.calls| && j != i && j != w :: s'.calls[j] == s.calls[j])
    && (forall j | 0 <= j < |s.calls| :: s'.calls[j].key == s.calls[j].key)
  }

  // The first call for a key becomes its Author, with nobody listed.
  ghost predicate Elected(s: State, s': State, i: Id) {
    && i < |s.calls| && OthersSame(s, s', i, i)
    && var k := s.calls[i].key;
       && k !in s.waiters && s'.waiters == s.waiters[k := []] && s'.author == s.author[k := i]
       && s.calls[i].phase.Start? && s'.calls[i].phase == AwaitSlot(true)
  }

  lemma ElectAuthors(s: State, s': State, i: Id)
    requires AuthorsOk(s) && Elected(s, s', i)
    ensures AuthorsOk(s')
  {
  }

  lemma ElectListed(s: State, s': State, i: Id)
    requires AuthorsOk(s) && ListedOk(s) && Elected(s, s', i) && AuthorsOk(s')
    ensures ListedOk(s')
  {
    hide Authoring;
    var k0 := s.calls[i].key;
    forall k | k in s'.waiters
      ensures SentUpTo(s'.calls[s'.author[k]]) <= |s'.waiters[k]|
      ensures forall j | 0 <= j < |s'.waiters[k]| :: ListedAt(s', k, j, s'.waiters[k][j])
    {
      if k != k0 {
        forall j | 0 <= j < |s'.waiters[k]| ensures ListedAt(s', k, j, s'.waiters[k][j]) {
          assert ListedAt(s, k, j, s.waiters[k][j]);
        }
      }
    }
  }

  lemma ElectParked(s: State, s': State, i: Id)
    requires AuthorsOk(s) && ParkedOk(s) && Elected(s, s', i) && AuthorsOk(s')
    ensures ParkedOk(s')
  {
    hide Authoring;
    forall w | 0 <= w < |s'.calls| && Parked(s'.calls[w]) ensures ParkedAt(s', w) {
      assert ParkedAt(s, w);
    }
  }

  // A later call for the key is appended to its Author's list.
  ghost predicate Enlisted(s: State, s': State, i: Id) {
    && i < |s.calls| && OthersSame(s, s', i, i)
    && var k := s.calls[i].key;
       && k in s.waiters && s'.waiters == s.waiters[k := s.waiters[k] + [i]] && s'.author == s.author && k in s.author
       && s.calls[i].phase.Start? && s.calls[i].under.None? && Parked(s'.calls[i])
       && s'.calls[i].slot == |s.waiters[k]| && s'.calls[i].under == Some(s.author[k])
  }

  lemma EnlistAuthors(s: State, s': State, i: Id)
    requires AuthorsOk(s) && Enlisted(s, s', i)
    ensures AuthorsOk(s')
  {
  }

  lemma EnlistListedAt(s: State, s': State, i: Id, k: Key, j: nat)
    requires AuthorsOk(s) && ListedOk(s) && Enlisted(s, s', i) && AuthorsOk(s') && k in s'.waiters && j < |s'.waiters[k]|
    ensures SentUpTo(s'.calls[s'.author[k]]) <= |s'.waiters[k]| && ListedAt(s', k, j, s'.waiters[k][j])
  {
    assert k in s.waiters && s.author[k] != i;
    if j < |s.waiters[k]| {
      assert ListedAt(s, k, j, s.waiters[k][j]);
    }
    hide AuthorsOk, ListedOk, Authoring;
  }

  lemma EnlistListed(s: State, s': State, i: Id)
    requires AuthorsOk(s) && ListedOk(s) && Enlisted(s, s', i) && AuthorsOk(s')
    ensures ListedOk(s')
  {
    EnlistSent(s, s', i);
    hide ListedAt, Authoring;
    forall k, j | k in s'.waiters && 0 <= j < |s'.waiters[k]| ensures ListedAt(s', k, j, s'.waiters[k][j]) {
      EnlistListedAt(s, s', i, k, j);
    }
  }

  lemma EnlistParked(s: State, s': State, i: Id)
    requires AuthorsOk(s) && ListedOk(s) && ParkedOk(s) && Enlisted(s, s', i) && AuthorsOk(s')
    ensures ParkedOk(s')
  {
    hide Authoring;
    assert SentUpTo(s.calls[s.author[s.calls[i].key]]) <= |s.waiters[s.calls[i].key]|;
    hide ListedOk;
    forall w | 0 <= w < |s'.calls| && Parked(s'.calls[w]) ensures ParkedAt(s', w) {
      if w != i {
        assert ParkedAt(s, w);
      }
    }
  }

  lemma EnlistSent(s: State, s': State, i: Id)
    requires AuthorsOk(s) && ListedOk(s) && Enlisted(s, s', i) && AuthorsOk(s')
    ensures forall k | k in s'.waiters :: SentUpTo(s'.calls[s'.author[k]]) <= |s'.waiters[k]|
  {
    hide ListedAt;
    forall k | k in s'.waiters ensures SentUpTo(s'.calls[s'.author[k]]) <= |s'.waiters[k]| {
      assert k in s.waiters && s.author[k] != i;
    }
  }

  // The Author moved on by one waiter `w`, whose channel is now full.
  ghost predicate SentOne(s: State, s': State, i: Id, w: Id) {
    && i < |s.calls| && w < |s.calls| && w != i && OthersSame(s, s', i, w) && s'.waiters == s.waiters && s'.author == s.author
    && var c, c' := s.calls[i], s'.calls[i];
       && c.phase.Sending? && c.key in s.waiters && c.phase.next < |s.waiters[c.key]| && s.waiters[c.key][c.phase.next] == w
       && c' == c.(phase := Sending(c.phase.obj, c.phase.next + 1))
       && s'.calls[w].phase == s.calls[w].phase && s'.calls[w].slot == s.calls[w].slot && s'.calls[w].under == s.calls[w].under
       && s'.calls[w].inbox.Some?
  }

  lemma SendAuthors(s: State, s': State, i: Id, w: Id)
    requires AuthorsOk(s) && SentOne(s, s', i, w)
    ensures AuthorsOk(s')
  {
  }

  lemma SendListed(s: State, s': State, i: Id, w: Id)
    requires AuthorsOk(s) && ListedOk(s) && SentOne(s, s', i, w) && AuthorsOk(s')
    ensures ListedOk(s')
  {
    assert ListedAt(s, s.calls[i].key, s.calls[i].phase.next, w);
    hide Authoring;
    forall k | k in s'.waiters
      ensures SentUpTo(s'.calls[s'.author[k]]) <= |s'.waiters[k]|
      ensures forall j | 0 <= j < |s'.waiters[k]| :: ListedAt(s', k, j, s'.waiters[k][j])
    {
      forall j | 0 <= j < |s'.waiters[k]| ensures ListedAt(s', k, j, s'.waiters[k][j]) {
        assert ListedAt(s, k, j, s.waiters[k][j]);
      }
    }
  }

  lemma SendParked(s: State, s': State, i: Id, w: Id)
    requires AuthorsOk(s) && ParkedOk(s) && SentOne(s, s', i, w) && AuthorsOk(s')
    ensures ParkedOk(s')
  {
    hide Authoring;
    forall x | 0 <= x < |s'.calls| && Parked(s'.calls[x]) ensures ParkedAt(s', x) {
      assert ParkedAt(s, x);
    }
  }

  // The Author has sent to everybody, so clearing the key strands nobody.
  ghost predicate Cleared(s: State, s': State, i: Id) {
    && i < |s.calls| && OthersSame(s, s', i, i)
    && var c := s.calls[i];
       && c.phase.Sending? && (c.key in s.waiters ==> c.phase.next == |s.waiters[c.key]|)
       && s'.waiters == s.waiters - {c.key} && s'.author == s.author - {c.key} && s'.calls[i].phase.Done?
  }

  lemma ClearAuthors(s: State, s': State, i: Id)
    requires AuthorsOk(s) && Cleared(s, s', i)
    ensures AuthorsOk(s')
  {
  }

  lemma ClearListed(s: State, s': State, i: Id)
    requires AuthorsOk(s) && ListedOk(s) && Cleared(s, s', i) && AuthorsOk(s')
    ensures ListedOk(s')
  {
    hide Authoring;
    forall k | k in s'.waiters
      ensures SentUpTo(s'.calls[s'.author[k]]) <= |s'.waiters[k]|
      ensures forall j | 0 <= j < |s'.waiters[k]| :: ListedAt(s', k, j, s'.waiters[k][j])
    {
      forall j | 0 <= j < |s'.waiters[k]| ensures ListedAt(s', k, j, s'.waiters[k][j]) {
        assert ListedAt(s, k, j, s.waiters[k][j]);
      }
    }
  }

  lemma ClearParked(s: State, s': State, i: Id)
    requires AuthorsOk(s) && ParkedOk(s) && Cleared(s, s', i) && AuthorsOk(s')
    ensures ParkedOk(s')
  {
    hide Authoring;
    forall w | 0 <= w < |s'.calls| && Parked(s'.calls[w]) ensures ParkedAt(s', w) {
      assert ParkedAt(s, w);
    }
  }

  lemma EnterEffect(limits: Limits, s: State, st: Step)
    requires CallsOk(s) && AuthorsOk(s) && st.Enter? && Enabled(limits, s, st)
    ensures Elected(s, Apply(limits, s, st), st.i) || Enlisted(s, Apply(limits, s, st), st.i)
  {
  }

  lemma QuietEffect(limits: Limits, s: State, st: Step)
    requires CallsOk(s) && Enabled(limits, s, st) && !st.Enter? && !st.Send? && !st.Unlock?
    ensures Quiet(s, Apply(limits, s, st), st.i)
  {
  }

  lemma PublishEffect(limits: Limits, s: State, st: Step)
    requires Enabled(limits, s, st) && (st.Send? || st.Unlock?)
    ensures st.Send? ==> SentOne(s, Apply(limits, s, st), st.i, s.waiters[s.calls[st.i].key][s.calls[st.i].phase.next])
    ensures st.Unlock? ==> Cleared(s, Apply(limits, s, st), st.i)
  {
  }

  lemma ListsKept(limits: Limits, s: State, st: Step)
    requires CallsOk(s) && AuthorsOk(s) && ListedOk(s) && ParkedOk(s) && Enabled(limits, s, st)
    ensures var s' := Apply(limits, s, st); AuthorsOk(s') && ListedOk(s') && ParkedOk(s')
  {
    hide Apply, CallsOk, AuthorsOk, ListedOk, ParkedOk, Elected, Enlisted, SentOne, Cleared, Quiet;
    var s' := Apply(limits, s, st);
    if st.Enter? {
      EnterEffect(limits, s, st);
      if Elected(s, s', st.i) {
        ElectAuthors(s, s', st.i);
        ElectListed(s, s', st.i);
        ElectParked(s, s', st.i);
      } else {
        EnlistAuthors(s, s', st.i);
        EnlistListed(s, s', st.i);
        EnlistParked(s, s', st.i);
      }
    } else if st.Send? {
      var w := s.waiters[s.calls[st.i].key][s.calls[st.i].phase.next];
      PublishEffect(limits, s, st);
      SendAuthors(s, s', st.i, w);
      SendListed(s, s', st.i, w);
      SendParked(s, s', st.i, w);
    } else if st.Unlock? {
      PublishEffect(limits, s, st);
      ClearAuthors(s, s', st.i);
      ClearListed(s, s', st.i);
      ClearParked(s, s', st.i);
    } else {
      QuietEffect(limits, s, st);
      QuietAuthors(s, s', st.i);
      QuietListed(s, s', st.i);
      QuietParked(s, s', st.i);
    }
  }

  // No step makes an Author forget or change its answer.
  ghost predicate AnswersStay(s: State, s': State) {
    && |s'.calls| == |s.calls| && s'.now >= s.now
    && forall j | 0 <= j < |s.calls| ::
         && s'.calls[j].key == s.calls[j].key
         && (s.calls[j].under.None? && !s.calls[j].phase.Start? ==> s'.calls[j].under.None? && !s'.calls[j].phase.Start?)
         && (s.calls[j].phase.Sending? ==> Answers(s'.calls[j], s.calls[j].phase.obj, j))
         && (s.calls[j].phase.Done? ==> s'.calls[j].phase == s.calls[j].phase)
  }

  lemma AnswersStayStep(limits: Limits, s: State, st: Step)
    requires Enabled(limits, s, st)
    ensures AnswersStay(s, Apply(limits, s, st))
  {
  }

  // A call that enlists notes its Author, and has no response yet.
  lemma AnswerAtEntered(limits: Limits, s: State, st: Step)
    requires st.Enter? && Enabled(limits, s, st) && CallsOk(s) && AuthorsOk(s) && AnswersStay(s, Apply(limits, s, st))
    ensures AnswerAt(Apply(limits, s, st), st.i)
  {
    var c := s.calls[st.i];
    assert CallOk(c, st.i, s.now);
    if c.key in s.waiters {
      assert CallOk(s.calls[s.author[c.key]], s.author[c.key], s.now);
    }
    hide CallsOk, AuthorsOk;
  }

  // Other steps leave a call's response where it is, or move it out of the channel.
  predicate SameAnswer(c: Call, c': Call) {
    && c'.key == c.key && c'.under == c.under && c'.enlistedAt == c.enlistedAt
    && (c'.inbox.Some? ==> c'.inbox == c.inbox)
    && (c'.got.Some? ==> c'.got == c.got || c'.got == c.inbox)
  }

  lemma SameAnswerStep(limits: Limits, s: State, st: Step)
    requires !st.Enter? && Enabled(limits, s, st)
    ensures SameAnswer(s.calls[st.i], Apply(limits, s, st).calls[st.i])
  {
  }

  lemma AnswerAtKept(s: State, s': State, i: Id)
    requires i < |s.calls| && AnswersStay(s, s') && AnswerAt(s, i) && SameAnswer(s.calls[i], s'.calls[i])
    ensures AnswerAt(s', i)
  {
  }

  // The waiter that is sent its response.
  lemma AnswerAtSent(limits: Limits, s: State, st: Step)
    requires st.Send? && Enabled(limits, s, st) && CallsOk(s) && AuthorsOk(s) && ListedOk(s) && AnswersOk(s)
    requires AnswersStay(s, Apply(limits, s, st))
    ensures AnswerAt(Apply(limits, s, st), s.waiters[s.calls[st.i].key][s.calls[st.i].phase.next])
  {
    var w := s.waiters[s.calls[st.i].key][s.calls[st.i].phase.next];
    assert ListedAt(s, s.calls[st.i].key, s.calls[st.i].phase.next, w);
    assert CallOk(s.calls[w], w, s.now) && AnswerAt(s, w);
    hide CallsOk, AuthorsOk, ListedOk, AnswersOk;
  }

  // Only the call that takes a step changes, and the waiter a response is sent to.
  lemma OthersStay(limits: Limits, s: State, st: Step, i: Id)
    requires Enabled(limits, s, st) && i < |s.calls| && i != st.i
    requires st.Send? ==> i != s.waiters[s.calls[st.i].key][s.calls[st.i].phase.next]
    ensures i < |Apply(limits, s, st).calls| && Apply(limits, s, st).calls[i] == s.calls[i]
  {
  }

  lemma AnswersKept(limits: Limits, s: State, st: Step)
    requires CallsOk(s) && AuthorsOk(s) && ListedOk(s) && AnswersOk(s) && Enabled(limits, s, st)
    ensures AnswersOk(Apply(limits, s, st))
  {
    hide Apply, AnswersStay, AnswerAt, CallsOk, ListedOk, AuthorsOk;
    var s' := Apply(limits, s, st);
    AnswersStayStep(limits, s, st);
    CallCount(limits, s, st);
    forall i | 0 <= i < |s'.calls| ensures AnswerAt(s', i) {
      assert AnswerAt(s, i);
      if st.Enter? && i == st.i {
        AnswerAtEntered(limits, s, st);
      } else if i == st.i {
        SameAnswerStep(limits, s, st);
        AnswerAtKept(s, s', i);
      } else if st.Send? && i == s.waiters[s.calls[st.i].key][s.calls[st.i].phase.next] {
        AnswerAtSent(limits, s, st);
      } else {
        OthersStay(limits, s, st, i);
        AnswerAtKept(s, s', i);
      }
    }
  }

  lemma CallCount(limits: Limits, s: State, st: Step)
    requires Enabled(limits, s, st)
    ensures |Apply(limits, s, st).calls| == |s.calls| && Apply(limits, s, st).now == s.now + 1
  {
  }

  // A throttler channel gains or loses a token exactly with call `st.i` holding a slot.
  lemma TokensEffect(limits: Limits, s: State, st: Step, r: Rule)
    requires Enabled(limits, s, st) && Throttled(limits, r)
    ensures var s' := Apply(limits, s, st);
      && |s'.calls| == |s.calls|
      && (forall j | 0 <= j < |s.calls| && j != st.i :: Holds(s'.calls[j], r) == Holds(s.calls[j], r))
      && Tokens(s', r) == Tokens(s, r) - (if Holds(s.calls[st.i], r) then 1 else 0) + (if Holds(s'.calls[st.i], r) then 1 else 0)
      && (Holds(s'.calls[st.i], r) && !Holds(s.calls[st.i], r) ==> Tokens(s, r) < limits[r])
  {
  }

  lemma HoldersChange(s: State, s': State, i: Id, r: Rule)
    requires i < |s.calls| == |s'.calls|
    requires forall j | 0 <= j < |s.calls| && j != i :: Holds(s'.calls[j], r) == Holds(s.calls[j], r)
    ensures |Holders(s', r)| == |Holders(s, r)| - (if Holds(s.calls[i], r) then 1 else 0) + (if Holds(s'.calls[i], r) then 1 else 0)
  {
    var h, h' := Holders(s, r), Holders(s', r);
    assert (i in h <==> Holds(s.calls[i], r)) && (i in h' <==> Holds(s'.calls[i], r));
    var rest := h - {i};
    assert h' - {i} == rest;
    assert h == if i in h then rest + {i} else rest;
    assert h' == if i in h' then rest + {i} else rest;
  }

  lemma TokensKept(limits: Limits, s: State, st: Step)
    requires TokensOk(limits, s) && Enabled(limits, s, st)
    ensures TokensOk(limits, Apply(limits, s, st))
  {
    var s' := Apply(limits, s, st);
    forall r | Throttled(limits, r) ensures Tokens(s', r) == |Holders(s', r)| <= limits[r] {
      TokensEffect(limits, s, st, r);
      HoldersChange(s, s', st.i, r);
      assert Tokens(s, r) == |Holders(s, r)| <= limits[r];
    }
  }

  lemma StepKeepsInv(limits: Limits, s: State, st: Step)
    requires Inv(limits, s) && Enabled(limits, s, st)
    ensures Inv(limits, Apply(limits, s, st))
  {
    CallsKept(limits, s, st);
    LockKept(limits, s, st);
    ListsKept(limits, s, st);
    AnswersKept(limits, s, st);
    TokensKept(limits, s, st);
  }

  // ---------- progress ----------

  predicate Finished(s: State) {
    forall i | 0 <= i < |s.calls| :: s.calls[i].phase.Done?
  }

  // Call `i` cannot go on before call `j` does: `j` holds the mutex or the slot it needs, or owes it a response.
  ghost predicate WaitsFor(limits: Limits, s: State, i: Id, j: Id) {
    && i < |s.calls| && j < |s.calls|
    && var c := s.calls[i];
       match c.phase
       case Start => s.lock == Some(j)
       case WantPublish(_) => s.lock == Some(j)
       case AwaitSlot(_) => Throttled(limits, c.rule) && Tokens(s, c.rule) >= limits[c.rule] && Holds(s.calls[j], c.rule)
       case Waiting => c.inbox.None? && c.under == Some(j) && Authoring(s.calls[j])
       case _ => false
  }

  /** An unfinished call can take a step, or waits for one that can, or for an Author that waits
      for one that can. */
  lemma Progress(limits: Limits, s: State, i: Id) returns (st: Step)
    requires Inv(limits, s) && i < |s.calls| && !s.calls[i].phase.Done?
    ensures Enabled(limits, s, st)
    ensures st.i == i || WaitsFor(limits, s, i, st.i) || exists a :: WaitsFor(limits, s, i, a) && WaitsFor(limits, s, a, st.i)
  {
    if Parked(s.calls[i]) {
      assert ParkedAt(s, i) && ListedAt(s, s.calls[i].key, s.calls[i].slot, i);
      var a := s.author[s.calls[i].key];
      assert WaitsFor(limits, s, i, a);
      st := RunnerStep(limits, s, a);
    } else {
      st := RunnerStep(limits, s, i);
    }
  }

  // The Author holding the mutex is never blocked: its next waiter's channel has room.
  lemma HolderStep(limits: Limits, s: State, a: Id) returns (st: Step)
    requires Inv(limits, s) && a < |s.calls| && s.calls[a].phase.Sending?
    ensures Enabled(limits, s, st) && st.i == a && (st.Send? || st.Unlock?)
  {
    var c := s.calls[a];
    assert Authoring(c);
    if c.phase.next < |s.waiters[c.key]| {
      assert ListedAt(s, c.key, c.phase.next, s.waiters[c.key][c.phase.next]);
      st := Send(a);
    } else {
      st := Unlock(a);
    }
  }

  // A call that is not parked can go on, or what it waits for can.
  lemma RunnerStep(limits: Limits, s: State, i: Id) returns (st: Step)
    requires Inv(limits, s) && i < |s.calls| && !s.calls[i].phase.Done? && !Parked(s.calls[i])
    ensures Enabled(limits, s, st) && (st.i == i || WaitsFor(limits, s, i, st.i))
  {
    var c := s.calls[i];
    match c.phase
    case Start => st := LockStep(limits, s, Enter(i));
    case WantPublish(_) => st := LockStep(limits, s, LockToPublish(i));
    case AwaitSlot(_) =>
      if Throttled(limits, c.rule) && Tokens(s, c.rule) >= limits[c.rule] {
        // the channel is full, so somebody holds a slot and can go on
        assert |Holders(s, c.rule)| > 0;
        var h :| h in Holders(s, c.rule);
        st := if s.calls[h].phase.Fetching? then FinishFetch(h, 0) else ReleaseSlot(h);
      } else {
        st := TakeSlot(i);
      }
    case Fetching(_) => st := FinishFetch(i, 0);
    case Fetched(_, _) =>
      if Throttled(limits, c.rule) {
        assert i in Holders(s, c.rule);
      }
      st := ReleaseSlot(i);
    case Sending(_, _) => st := HolderStep(limits, s, i);
    case Waiting => st := Receive(i, true);
  }

  // A step that needs the mutex can be taken, or its holder can go on.
  lemma LockStep(limits: Limits, s: State, own: Step) returns (st: Step)
    requires Inv(limits, s) && own.i < |s.calls|
    requires (own.Enter? && s.calls[own.i].phase.Start?) || (own.LockToPublish? && s.calls[own.i].phase.WantPublish?)
    ensures Enabled(limits, s, st) && (st == own || s.lock == Some(st.i))
  {
    if s.lock.Some? {
      st := HolderStep(limits, s, s.lock.value);
    } else {
      st := own;
    }
  }

  // An upper bound on the steps a call still takes.
  function Rank(c: Call): nat {
    match c.phase
    case Start => 8
    case AwaitSlot(a) => if a then 7 else 3
    case Fetching(a) => if a then 6 else 2
    case Fetched(a, _) => if a then 5 else 1
    case WantPublish(_) => 4
    case Sending(_, _) => 3
    case Waiting => if c.inbox.None? then 5 else 4
    case Done(_, _) => 0
  }

  function Work(calls: seq<Call>): nat {
    if calls == [] then 0 else Rank(calls[0]) + Work(calls[1..])
  }

  lemma {:induction false} WorkUpdate(calls: seq<Call>, i: nat, c: Call)
    requires i < |calls|
    ensures Work(calls[i := c]) == Work(calls) - Rank(calls[i]) + Rank(c)
  {
    var u := calls[i := c];
    if i == 0 {
      assert u[1..] == calls[1..];
    } else {
      assert u[1..] == calls[1..][i - 1 := c];
      WorkUpdate(calls[1..], i - 1, c);
    }
  }

  lemma {:induction false} WorkBound(calls: seq<Call>)
    ensures Work(calls) <= 8 * |calls|
  {
    if calls != [] {
      WorkBound(calls[1..]);
    }
  }

  lemma SendWorks(s: State, s': State, i: Id, w: Id)
    requires SentOne(s, s', i, w) && Parked(s.calls[w])
    requires s'.calls == s.calls[i := s'.calls[i]][w := s'.calls[w]]
    ensures Work(s'.calls) < Work(s.calls)
  {
    var mid := s.calls[i := s'.calls[i]];
    WorkUpdate(s.calls, i, s'.calls[i]);
    WorkUpdate(mid, w, s'.calls[w]);
  }

  lemma OwnStepWorks(limits: Limits, s: State, st: Step)
    requires Enabled(limits, s, st) && !st.Send?
    ensures Work(Apply(limits, s, st).calls) < Work(s.calls)
  {
    var s' := Apply(limits, s, st);
    assert s'.calls == s.calls[st.i := s'.calls[st.i]];
    WorkUpdate(s.calls, st.i, s'.calls[st.i]);
  }

  lemma StepWorks(limits: Limits, s: State, st: Step)
    requires AuthorsOk(s) && ListedOk(s) && Enabled(limits, s, st)
    ensures Work(Apply(limits, s, st).calls) < Work(s.calls)
  {
    if st.Send? {
      var c := s.calls[st.i];
      var w := s.waiters[c.key][c.phase.next];
      assert ListedAt(s, c.key, c.phase.next, w);
      SendWorks(s, Apply(limits, s, st), st.i, w);
    } else {
      OwnStepWorks(limits, s, st);
    }
  }

  // ---------- whole runs ----------

  // The states visited from `s` by taking `steps` in order, each enabled when taken.
  ghost predicate IsRun(limits: Limits, s: State, steps: seq<Step>)
    decreases |steps|
  {
    steps == [] || (Enabled(limits, s, steps[0]) && IsRun(limits, Apply(limits, s, steps[0]), steps[1..]))
  }

  ghost function After(limits: Limits, s: State, steps: seq<Step>): State
    requires IsRun(limits, s, steps)
    decreases |steps|
  {
    if steps == [] then s else After(limits, Apply(limits, s, steps[0]), steps[1..])
  }

  lemma {:induction false} RunKeepsInv(limits: Limits, s: State, steps: seq<Step>)
    requires Inv(limits, s) && IsRun(limits, s, steps)
    ensures Inv(limits, After(limits, s, steps))
    ensures Work(After(limits, s, steps).calls) + |steps| <= Work(s.calls)
    decreases |steps|
  {
    if steps != [] {
      StepKeepsInv(limits, s, steps[0]);
      StepWorks(limits, s, steps[0]);
      RunKeepsInv(limits, Apply(limits, s, steps[0]), steps[1..]);
    }
  }

  lemma ParkedIsListed(limits: Limits, s: State, w: Id)
    requires Inv(limits, s) && w < |s.calls| && Parked(s.calls[w])
    ensures s.calls[w].key in s.waiters && s.calls[w].sends == 0
    ensures s.calls[w].under.Some? && s.calls[w].under.value < |s.calls| && Authoring(s.calls[s.calls[w].under.value])
    ensures multiset(s.waiters[s.calls[w].key])[w] == 1
  {
    hide TokensOk;
    var k := s.calls[w].key;
    assert CallOk(s.calls[w], w, s.now) && ParkedAt(s, w);
    forall j | 0 <= j < |s.waiters[k]| && s.waiters[k][j] == w ensures j == s.calls[w].slot {
      assert ListedAt(s, k, j, w);
    }
    assert ListedAt(s, k, s.calls[w].slot, w);
    OccursOnce(s.waiters[k], s.calls[w].slot);
  }

  /** In every reachable state a key is in `waiters` exactly while it has an unfinished
      Author, which is then unique; a parked waiter with an empty channel is listed exactly
      once, under that Author, and has been sent nothing; and no send can block. */
  lemma FanInSafety(limits: Limits, s0: State, steps: seq<Step>)
    requires Init(s0) && IsRun(limits, s0, steps)
    ensures var s := After(limits, s0, steps);
      && (forall k :: k in s.waiters <==> exists a: Id :: a < |s.calls| && s.calls[a].key == k && Authoring(s.calls[a]))
      && (forall a: Id, b: Id | a < |s.calls| && b < |s.calls| && Authoring(s.calls[a]) && Authoring(s.calls[b]) ::
            s.calls[a].key == s.calls[b].key ==> a == b)
      && (forall w: Id | w < |s.calls| && Parked(s.calls[w]) ::
            && s.calls[w].key in s.waiters && s.calls[w].sends == 0
            && s.calls[w].under.Some? && s.calls[w].under.value < |s.calls| && Authoring(s.calls[s.calls[w].under.value])
            && multiset(s.waiters[s.calls[w].key])[w] == 1)
      && (forall a: Id | a < |s.calls| && s.calls[a].phase.Sending? ::
            Enabled(limits, s, Send(a)) || Enabled(limits, s, Unlock(a)))
  {
    InitInv(limits, s0);
    RunKeepsInv(limits, s0, steps);
    var s := After(limits, s0, steps);
    forall w: Id | w < |s.calls| && Parked(s.calls[w])
      ensures s.calls[w].key in s.waiters && s.calls[w].sends == 0
      ensures s.calls[w].under.Some? && s.calls[w].under.value < |s.calls| && Authoring(s.calls[s.calls[w].under.value])
      ensures multiset(s.waiters[s.calls[w].key])[w] == 1
    {
      ParkedIsListed(limits, s, w);
    }
    forall a: Id | a < |s.calls| && s.calls[a].phase.Sending?
      ensures Enabled(limits, s, Send(a)) || Enabled(limits, s, Unlock(a))
    {
      var st := HolderStep(limits, s, a);
    }
    forall k ensures k in s.waiters <==> exists a: Id :: a < |s.calls| && s.calls[a].key == k && Authoring(s.calls[a]) {}
  }

  lemma OccursOnce(ws: seq<Id>, j: nat)
    requires j < |ws| && forall i | 0 <= i < |ws| && ws[i] == ws[j] :: i == j
    ensures multiset(ws)[ws[j]] == 1
  {
    assert ws == ws[..j] + [ws[j]] + ws[j + 1..];
    assert ws[j] !in ws[..j] && ws[j] !in ws[j + 1..];
    assert multiset(ws) == multiset(ws[..j]) + multiset([ws[j]]) + multiset(ws[j + 1..]);
  }

  /** Every call fetches at most once. One that has returned fetched exactly when it returned
      its own object; if it was a waiter it took exactly one response, sent after it enlisted by
      the Author of the same key it enlisted under, and it returned that Author's own answer or
      fetched for itself. */
  lemma FanInResults(limits: Limits, s0: State, steps: seq<Step>, i: Id)
    requires Init(s0) && IsRun(limits, s0, steps) && i < |s0.calls|
    ensures var s := After(limits, s0, steps);
      && |s.calls| == |s0.calls| && s.calls[i].fetches <= 1
      && (s.calls[i].phase.Done? ==>
            var c := s.calls[i];
            && (c.fetches == 1 <==> c.phase.origin == i)
            && (c.under.None? ==> c.phase.origin == i && c.sends == 0)
            && (c.under.Some? ==>
                  && c.sends == 1 && c.got.Some? && c.under == Some(c.got.value.author) && c.enlistedAt < c.got.value.sentAt
                  && var a := c.got.value.author;
                     && a < |s.calls| && a != i && s.calls[a].key == c.key && s.calls[a].fetches == 1
                     && Answers(s.calls[a], c.got.value.obj, a)
                     && (c.phase.origin != i ==> c.phase == Done(c.got.value.obj, a))))
  {
    InitInv(limits, s0);
    RunKeepsInv(limits, s0, steps);
    RunKeepsCount(limits, s0, steps);
    var s := After(limits, s0, steps);
    assert CallOk(s.calls[i], i, s.now) && AnswerAt(s, i);
    var c := s.calls[i];
    if c.got.Some? {
      assert CallOk(s.calls[c.got.value.author], c.got.value.author, s.now);
    }
  }

  lemma {:induction false} RunKeepsCount(limits: Limits, s: State, steps: seq<Step>)
    requires IsRun(limits, s, steps)
    ensures |After(limits, s, steps).calls| == |s.calls|
    decreases |steps|
  {
    if steps != [] {
      RunKeepsCount(limits, Apply(limits, s, steps[0]), steps[1..]);
    }
  }

  // ---------- where returned objects come from ----------

  // The object a call has fetched and still holds, is sending, or has returned as its own.
  function OwnObject(c: Call, i: Id): Option<ObjRef> {
    match c.phase
    case Fetched(_, o) => Some(o)
    case WantPublish(o) => Some(o)
    case Sending(o, _) => Some(o)
    case Done(o, origin) => if origin == i then Some(o) else None
    case _ => None
  }

  // A response is the object its Author's fetch brought.
  predicate MsgFetched(m: Msg, past: seq<Step>) {
    FinishFetch(m.author, m.obj) in past
  }

  /** What the steps so far say of one call: its own object is what its fetch brought; a response
      is what its Author's fetch brought; it returns a response only after accepting it, and a
      waiter goes on to fetch only after rejecting one. */
  predicate CallPast(c: Call, i: Id, past: seq<Step>) {
    && (OwnObject(c, i).Some? ==> FinishFetch(i, OwnObject(c, i).value) in past)
    && (c.inbox.Some? ==> MsgFetched(c.inbox.value, past))
    && (c.got.Some? ==> MsgFetched(c.got.value, past))
    && (c.phase.Done? && c.phase.origin != i ==> Receive(i, true) in past && FinishFetch(c.phase.origin, c.phase.obj) in past)
    && (c.got.Some? && !(c.phase.Done? && c.phase.origin != i) ==> Receive(i, false) in past)
  }

  predicate Past(s: State, past: seq<Step>) {
    forall i | 0 <= i < |s.calls| :: CallPast(s.calls[i], i, past)
  }

  lemma PastGrows(c: Call, i: Id, past: seq<Step>, st: Step)
    requires CallPast(c, i, past)
    ensures CallPast(c, i, past + [st])
  {
  }

  // The call that takes the step.
  lemma PastMoved(limits: Limits, s: State, st: Step, past: seq<Step>)
    requires Enabled(limits, s, st) && CallOk(s.calls[st.i], st.i, s.now) && CallPast(s.calls[st.i], st.i, past)
    requires st.Receive? ==> s.calls[st.i].inbox.value.author != st.i
    ensures CallPast(Apply(limits, s, st).calls[st.i], st.i, past + [st])
  {
    assert (past + [st])[|past|] == st;
    PastGrows(s.calls[st.i], st.i, past, st);
  }

  // The waiter that is sent its response.
  lemma PastSent(limits: Limits, s: State, st: Step, past: seq<Step>)
    requires st.Send? && Enabled(limits, s, st) && CallPast(s.calls[st.i], st.i, past)
    requires var w := s.waiters[s.calls[st.i].key][s.calls[st.i].phase.next]; CallPast(s.calls[w], w, past)
    ensures var w := s.waiters[s.calls[st.i].key][s.calls[st.i].phase.next]; CallPast(Apply(limits, s, st).calls[w], w, past + [st])
  {
    var w := s.waiters[s.calls[st.i].key][s.calls[st.i].phase.next];
    PastGrows(s.calls[w], w, past, st);
    assert FinishFetch(st.i, s.calls[st.i].phase.obj) in past;
  }

  lemma PastKept(limits: Limits, s: State, st: Step, past: seq<Step>)
    requires Inv(limits, s) && Enabled(limits, s, st) && Past(s, past)
    ensures Past(Apply(limits, s, st), past + [st])
  {
    assert CallOk(s.calls[st.i], st.i, s.now) && AnswerAt(s, st.i);
    hide Apply, CallPast, CallOk, Inv;
    var s' := Apply(limits, s, st);
    CallCount(limits, s, st);
    forall i | 0 <= i < |s'.calls| ensures CallPast(s'.calls[i], i, past + [st]) {
      assert CallPast(s.calls[i], i, past);
      if i == st.i {
        PastMoved(limits, s, st, past);
      } else if st.Send? && i == s.waiters[s.calls[st.i].key][s.calls[st.i].phase.next] {
        PastSent(limits, s, st, past);
      } else {
        OthersStay(limits, s, st, i);
        PastGrows(s.calls[i], i, past, st);
      }
    }
  }

  lemma {:induction false} RunPast(limits: Limits, s: State, steps: seq<Step>, past: seq<Step>)
    requires Inv(limits, s) && IsRun(limits, s, steps) && Past(s, past)
    ensures Past(After(limits, s, steps), past + steps)
    decreases |steps|
  {
    if steps == [] {
      assert past + steps == past;
    } else {
      hide Inv, Past, Enabled, Apply;
      StepKeepsInv(limits, s, steps[0]);
      PastKept(limits, s, steps[0], past);
      RunPast(limits, Apply(limits, s, steps[0]), steps[1..], past + [steps[0]]);
      assert past + [steps[0]] + steps[1..] == past + steps;
    }
  }

  /** Every returned object was fetched in the run by the call it is attributed to: a call that
      returns its own object returns what its own fetch brought; one that returns another's has
      accepted it, and that one's fetch brought it; and a waiter that returns its own has rejected
      its Author's. Every response in a channel is what its Author's fetch brought. */
  lemma ReturnedIsFetched(limits: Limits, s0: State, steps: seq<Step>, i: Id)
    requires Init(s0) && IsRun(limits, s0, steps) && i < |After(limits, s0, steps).calls|
    ensures var c := After(limits, s0, steps).calls[i];
      && (forall o, a | c.phase == Done(o, a) :: FinishFetch(a, o) in steps)
      && (forall o, a | c.phase == Done(o, a) && a != i :: Receive(i, true) in steps)
      && (c.phase.Done? && c.phase.origin == i && c.under.Some? ==> Receive(i, false) in steps)
      && (c.inbox.Some? ==> FinishFetch(c.inbox.value.author, c.inbox.value.obj) in steps)
      && (c.got.Some? ==> FinishFetch(c.got.value.author, c.got.value.obj) in steps)
  {
    InitInv(limits, s0);
    RunPast(limits, s0, steps, []);
    RunKeepsInv(limits, s0, steps);
    assert [] + steps == steps;
    var s := After(limits, s0, steps);
    assert CallPast(s.calls[i], i, steps) && CallOk(s.calls[i], i, s.now);
    hide Inv, IsRun, After;
  }

  // At most `limits[r]` fetches of a rule run at once, whoever makes them.
  lemma ThrottleBound(limits: Limits, s0: State, steps: seq<Step>, r: Rule)
    requires Init(s0) && IsRun(limits, s0, steps) && r in limits && limits[r] >= 1
    ensures var s := After(limits, s0, steps);
      |set i | 0 <= i < |s.calls| && s.calls[i].rule == r && s.calls[i].phase.Fetching?| <= limits[r]
  {
    InitInv(limits, s0);
    RunKeepsInv(limits, s0, steps);
    var s := After(limits, s0, steps);
    var fetching := set i | 0 <= i < |s.calls| && s.calls[i].rule == r && s.calls[i].phase.Fetching?;
    SubsetSize(fetching, Holders(s, r));
  }

  lemma {:induction false} SubsetSize(a: set<Id>, b: set<Id>)
    requires a <= b
    ensures |a| <= |b|
  {
    assert b == a + (b - a);
  }

  /** No deadlock and no livelock: every run of `n` calls has at most `8 * n` steps, and one
      that cannot be extended has finished every call. */
  lemma AlwaysFinishes(limits: Limits, s0: State, steps: seq<Step>)
    requires Init(s0) && IsRun(limits, s0, steps)
    ensures |steps| <= 8 * |s0.calls|
    ensures (forall st :: !Enabled(limits, After(limits, s0, steps), st)) ==> Finished(After(limits, s0, steps))
  {
    InitInv(limits, s0);
    RunKeepsInv(limits, s0, steps);
    WorkBound(s0.calls);
    var s := After(limits, s0, steps);
    if !Finished(s) {
      var i :| 0 <= i < |s.calls| && !s.calls[i].phase.Done?;
      var st := Progress(limits, s, i);
    }
  }
}
