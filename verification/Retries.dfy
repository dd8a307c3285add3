/** Fetching an object with retries over the parent ring, caching what may be cached, and
    revalidating what is already cached. */
module Retries {
  import opened Words
  import opened Rings

  const BAD_GATEWAY := 502
  const NOT_MODIFIED := 304
  // The zero time.Time.
  const NO_TIME := 0

  // http.StatusText(502)
  const BAD_GATEWAY_TEXT: Bytes := [66, 97, 100, 32, 71, 97, 116, 101, 119, 97, 121]

  // What one request to a parent brings; `date` and `lastModified` are the parsed headers.
  datatype WebResponse =
    | ConnectError
    | Response(code: int, body: Bytes, date: Option<int>, lastModified: Option<int>)

  // cacheobj.New
  function NewObj(body: Bytes, code: int, lastModified: int): CacheObj {
    CacheObj(body, code, lastModified, |body|, 1)
  }

  // The Last-Modified time of a response: its header, else its Date, else the time it arrived.
  function Modified(resp: WebResponse, received: int): int
    requires resp.Response?
  {
    if resp.lastModified.Some? then resp.lastModified.value
    else if resp.date.Some? then resp.date.value
    else received
  }

  // A response answered with content of its own, not by confirming `reval`.
  predicate IsFull(resp: WebResponse, reval: Option<CacheObj>) {
    resp.Response? && (reval.None? || resp.code != NOT_MODIFIED)
  }

  /** GetAndCache: the object to return and whether it is added to the cache. `cacheFailure`
      allows retry codes to be cached, `canCache` is the verdict of the caching rules. */
  function GetAndCache(resp: WebResponse, received: int, reval: Option<CacheObj>, cacheFailure: bool,
                       retryCodes: set<int>, canCache: bool): (CacheObj, bool) {
    match resp
    case ConnectError => (NewObj(BAD_GATEWAY_TEXT, BAD_GATEWAY, NO_TIME), false)
    case Response(code, body, _, _) =>
      if code in retryCodes && !cacheFailure then (NewObj(body, code, NO_TIME), false)
      else if IsFull(resp, reval) then (NewObj(body, code, Modified(resp, received)), canCache)
      else (reval.value, true)
  }

  predicate IsFailure(o: CacheObj, retryCodes: set<int>) {
    o.code in retryCodes || o.code == BAD_GATEWAY
  }

  // ---------- retrying ----------

  // What a rule says about requesting: where from and how often.
  datatype Rule = Rule(hash: Hash, parents: seq<Parent>, retryNum: int, retryCodes: set<int>)

  /** What attempt number `i` meets: whether its request can be built; whether, as a waiter on a
      request for the same key under way, it gets that one's object and can use it; and else what
      the parent sends, when, and whether the caching rules admit it. */
  datatype World = World(reqOk: nat -> bool, joined: nat -> Option<CacheObj>, web: (nat, Node) -> WebResponse,
                         clock: nat -> int, canCache: nat -> bool)

  // The object of attempt number `i`, and whether it added one to the cache itself.
  function OneAttempt(rule: Rule, w: World, reval: Option<CacheObj>, i: nat, parent: Node, cacheFailure: bool): (CacheObj, bool) {
    if w.joined(i).Some? then (w.joined(i).value, false)
    else GetAndCache(w.web(i, parent), w.clock(i), reval, cacheFailure, rule.retryCodes, w.canCache(i))
  }

  // The outcome of attempt number `i`.
  ghost function Attempt(rule: Rule, w: World, uri: string, reval: Option<CacheObj>, i: nat): (CacheObj, bool)
    requires rule.parents != []
  {
    OneAttempt(rule, w, reval, i, Choose(rule.hash, rule.parents, uri, i), rule.retryNum < i + 1)
  }

  datatype Next = NoMoreRetries | BadRequest | Remapping(parent: Node, retryAllowed: bool)

  class RemappingProducer {
    const rule: Rule
    const uri: string
    const ring: ConsistentHash
    var failures: nat

    ghost predicate Ready()
      reads ring.nodeMap
    {
      && rule.parents != [] && ring.hash == rule.hash
      && ring.nodeMap.Ordered() && ring.nodeMap.M == RingMap(rule.hash, rule.parents)
    }

    constructor (rule: Rule, uri: string, ring: ConsistentHash)
      ensures this.rule == rule && this.uri == uri && this.ring == ring && failures == 0
    {
      this.rule, this.uri, this.ring, failures := rule, uri, ring, 0;
    }

    method GetNext(reqOk: nat -> bool) returns (next: Next)
      requires Ready()
      modifies this`failures
      ensures rule.retryNum < old(failures) ==> next.NoMoreRetries? && failures == old(failures)
      ensures rule.retryNum >= old(failures) ==>
        && failures == old(failures) + 1
        && next == if !reqOk(old(failures)) then BadRequest
                   else Remapping(Choose(rule.hash, rule.parents, uri, old(failures)), rule.retryNum < failures)
    {
      if rule.retryNum < failures {
        return NoMoreRetries;
      }
      var chosen := ring.Select(uri, failures);
      var parent := if chosen.Some? then chosen.value else rule.parents[0].node;
      failures := failures + 1;
      if !reqOk(failures - 1) {
        return BadRequest;
      }
      next := Remapping(parent, rule.retryNum < failures);
    }
  }

  datatype Answer =
    | NoRequestAllowed
    | RequestError
    | Got(obj: CacheObj, from: Option<Node>)

  // Attempt number `i` was made: it was allowed, asked this parent, and added its object or not.
  ghost predicate Made(rule: Rule, w: World, uri: string, reval: Option<CacheObj>, i: nat, parent: Node, added: bool)
    requires rule.parents != []
  {
    && i <= rule.retryNum && w.reqOk(i) && parent == Choose(rule.hash, rule.parents, uri, i)
    && added == Attempt(rule, w, uri, reval, i).1
  }

  // The attempts made from number `f` on.
  ghost predicate Trace(rule: Rule, w: World, uri: string, reval: Option<CacheObj>, f: nat, tried: seq<Node>, cached: seq<bool>)
    requires rule.parents != []
  {
    |tried| == |cached| && forall j | 0 <= j < |tried| :: Made(rule, w, uri, reval, f + j, tried[j], cached[j])
  }

  ghost predicate Failed(rule: Rule, w: World, uri: string, reval: Option<CacheObj>, i: nat)
    requires rule.parents != []
  {
    IsFailure(Attempt(rule, w, uri, reval, i).0, rule.retryCodes)
  }

  // `answer` is what a run of retries from attempt `f` must return after `k` attempts.
  ghost predicate Answers(rule: Rule, w: World, uri: string, reval: Option<CacheObj>, f: nat, k: nat, answer: Answer)
    requires rule.parents != []
  {
    match answer
    case NoRequestAllowed => k == 0 && rule.retryNum < f
    case RequestError => f + k <= rule.retryNum && !w.reqOk(f + k) && (k > 0 ==> Failed(rule, w, uri, reval, f + k - 1))
    case Got(obj, from) =>
      && k > 0 && obj == Attempt(rule, w, uri, reval, f + k - 1).0
      && if Failed(rule, w, uri, reval, f + k - 1) then f + k == rule.retryNum + 1 && from == None
         else from == Some(Choose(rule.hash, rule.parents, uri, f + k - 1))
  }

  lemma NoTrace(rule: Rule, w: World, uri: string, reval: Option<CacheObj>, f: nat)
    requires rule.parents != []
    ensures Trace(rule, w, uri, reval, f, [], [])
  {
  }

  lemma TraceSnoc(rule: Rule, w: World, uri: string, reval: Option<CacheObj>, f: nat, tried: seq<Node>, cached: seq<bool>,
                  parent: Node, added: bool)
    requires rule.parents != [] && Trace(rule, w, uri, reval, f, tried, cached)
    requires Made(rule, w, uri, reval, f + |tried|, parent, added)
    ensures Trace(rule, w, uri, reval, f, tried + [parent], cached + [added])
  {
    hide Made;
  }

  lemma Tried(rule: Rule, w: World, uri: string, reval: Option<CacheObj>, i: nat, parent: Node, o: CacheObj, added: bool)
    requires rule.parents != [] && i <= rule.retryNum && w.reqOk(i) && parent == Choose(rule.hash, rule.parents, uri, i)
    requires (o, added) == OneAttempt(rule, w, reval, i, parent, rule.retryNum < i + 1)
    ensures Made(rule, w, uri, reval, i, parent, added) && Attempt(rule, w, uri, reval, i) == (o, added)
    ensures Failed(rule, w, uri, reval, i) <==> IsFailure(o, rule.retryCodes)
  {
    hide OneAttempt, Choose, IsFailure;
  }

  /** retryingGet on a producer with `f` failures so far. It tries the parents of attempts
      f, f+1, ... in order, at most up to attempt number RetryNum; every attempt but the last
      failed; and it returns the first answer that is no failure, with its parent, or else the
      last one. */
  method RetryingGet(p: RemappingProducer, w: World, reval: Option<CacheObj>)
    returns (answer: Answer, tried: seq<Node>, cached: seq<bool>)
    requires p.Ready()
    modifies p`failures
    ensures Trace(p.rule, w, p.uri, reval, old(p.failures), tried, cached)
    ensures forall i | old(p.failures) <= i < old(p.failures) + |tried| - 1 :: Failed(p.rule, w, p.uri, reval, i)
    ensures Answers(p.rule, w, p.uri, reval, old(p.failures), |tried|, answer)
  {
    hide OneAttempt, IsFailure, Choose, Trace, Failed, Made;
    NoTrace(p.rule, w, p.uri, reval, p.failures);
    tried, cached := [], [];
    var obj: Option<CacheObj> := None;
    ghost var f := p.failures;
    while true
      invariant p.failures == f + |tried|
      invariant Trace(p.rule, w, p.uri, reval, f, tried, cached)
      invariant forall i | f <= i < f + |tried| :: Failed(p.rule, w, p.uri, reval, i)
      invariant obj == if tried == [] then None else Some(Attempt(p.rule, w, p.uri, reval, f + |tried| - 1).0)
      invariant tried != [] ==> p.failures <= p.rule.retryNum + 1
      decreases p.rule.retryNum + 1 - p.failures
    {
      var i := p.failures;
      var next := p.GetNext(w.reqOk);
      match next {
        case NoMoreRetries =>
          answer := if obj.None? then NoRequestAllowed else Got(obj.value, None);
          return;
        case BadRequest =>
          answer := RequestError;
          return;
        case Remapping(parent, retryAllowed) =>
          var (o, added) := OneAttempt(p.rule, w, reval, i, parent, retryAllowed);
          Tried(p.rule, w, p.uri, reval, i, parent, o, added);
          TraceSnoc(p.rule, w, p.uri, reval, f, tried, cached, parent, added);
          obj, tried, cached := Some(o), tried + [parent], cached + [added];
          if !IsFailure(o, p.rule.retryCodes) {
            answer := Got(o, Some(parent));
            return;
          }
      }
    }
  }

  // ---------- which responses are retried ----------

  // What the parent of attempt number `i` sends.
  ghost function Sent(rule: Rule, w: World, uri: string, i: nat): WebResponse
    requires rule.parents != []
  {
    w.web(i, Choose(rule.hash, rule.parents, uri, i))
  }

  // The parent confirms the object it is asked about.
  predicate IsConfirmed(resp: WebResponse, reval: Option<CacheObj>) {
    resp.Response? && reval.Some? && resp.code == 304
  }

  /** An attempt that asks a parent is retried if there is no connection, or the parent sends a
      retry code or a 502, whatever is being revalidated; and one that confirms an object, before
      the last attempt or with a code that is not retried, is retried exactly if that object is
      itself a failure. Everything else is an answer. */
  lemma RetriedIff(rule: Rule, w: World, uri: string, reval: Option<CacheObj>, i: nat)
    requires rule.parents != [] && w.joined(i).None?
    ensures var resp, failed := Sent(rule, w, uri, i), Failed(rule, w, uri, reval, i);
      && (resp.ConnectError? ==> failed)
      && (resp.Response? && !IsConfirmed(resp, reval) ==> (failed <==> resp.code in rule.retryCodes || resp.code == 502))
      && (IsConfirmed(resp, reval) ==>
            (failed <==> (304 in rule.retryCodes && i < rule.retryNum)
                         || reval.value.code in rule.retryCodes || reval.value.code == 502))
  {
    hide Choose;
  }

  // An attempt that joined another request is retried exactly if that one's object is a failure.
  lemma JoinedRetriedIff(rule: Rule, w: World, uri: string, reval: Option<CacheObj>, i: nat)
    requires rule.parents != [] && w.joined(i).Some?
    ensures Attempt(rule, w, uri, reval, i) == (w.joined(i).value, false)
    ensures Failed(rule, w, uri, reval, i) <==> w.joined(i).value.code in rule.retryCodes || w.joined(i).value.code == 502
  {
    hide Choose;
  }

  /** What RetryingGet returns, in terms of what the parents send. Say it made `k` attempts from
      number `f` on, the last of them by asking a parent. Without a connection, or with a full
      response of a retry code or 502, it was the last attempt allowed, and no parent is named; with
      any other full response, that response's parent is named. The object has that response's
      body and code, or says that there was no connection. */
  lemma AnswerFromWeb(rule: Rule, w: World, uri: string, reval: Option<CacheObj>, f: nat, k: nat, answer: Answer)
    requires rule.parents != [] && k > 0 && Answers(rule, w, uri, reval, f, k, answer) && answer.Got? && w.joined(f + k - 1).None?
    ensures var last := f + k - 1; var resp := Sent(rule, w, uri, last);
      && (resp.ConnectError? ==> answer.from == None && last == rule.retryNum && answer.obj.code == 502 && answer.obj.body == BAD_GATEWAY_TEXT)
      && (resp.Response? && !IsConfirmed(resp, reval) ==>
            && answer.obj.body == resp.body && answer.obj.code == resp.code
            && if resp.code in rule.retryCodes || resp.code == 502 then answer.from == None && last == rule.retryNum
               else answer.from == Some(Choose(rule.hash, rule.parents, uri, last)))
  {
    RetriedIff(rule, w, uri, reval, f + k - 1);
    hide Choose, Failed;
  }

  // The Last-Modified time is the header's, else the Date header's, else that of arrival.
  lemma ModifiedFrom(resp: WebResponse, at: int, t: int)
    requires resp.Response?
    ensures resp.lastModified == Some(t) ==> Modified(resp, at) == t
    ensures resp.lastModified.None? && resp.date == Some(t) ==> Modified(resp, at) == t
    ensures resp.lastModified.None? && resp.date.None? ==> Modified(resp, at) == at
  {
  }

  // A response with a retry code is only ever cached by the last attempt allowed, number RetryNum.
  lemma RetryCodeCachedLast(rule: Rule, w: World, uri: string, reval: Option<CacheObj>, i: nat, parent: Node)
    requires rule.parents != [] && Made(rule, w, uri, reval, i, parent, true)
    ensures w.joined(i).None? && w.web(i, parent).Response? && (w.web(i, parent).code in rule.retryCodes ==> i == rule.retryNum)
  {
  }

  // ---------- revalidation ----------

  /** What happens to one cache key, in the order in which it takes effect: an eviction, or the
      end of a fetch. A fetch may revalidate the object it found in the cache when it began,
      after the first `looked` events; requests overlap, so others may have ended since. */
  datatype Event =
    | Fetch(resp: WebResponse, received: int, looked: Option<nat>, cacheFailure: bool, canCache: bool)
    | Evict

  // The object under the key after the first `n` events.
  function Slot(codes: set<int>, events: seq<Event>, n: nat): Option<CacheObj>
    requires n <= |events|
    decreases 2 * n
  {
    if n == 0 then None
    else
      match events[n - 1]
      case Evict => None
      case Fetch(resp, at, _, cacheFailure, canCache) =>
        var (obj, cached) := GetAndCache(resp, at, Held(codes, events, n - 1), cacheFailure, codes, canCache);
        if cached then Some(obj) else Slot(codes, events, n - 1)
  }

  // The object that event number `i` revalidates.
  function Held(codes: set<int>, events: seq<Event>, i: nat): Option<CacheObj>
    requires i < |events|
    decreases 2 * i + 1
  {
    if events[i].Fetch? && events[i].looked.Some? && events[i].looked.value <= i
    then Slot(codes, events, events[i].looked.value) else None
  }

  predicate Admitted(codes: set<int>, e: Event)
    requires e.Fetch? && e.resp.Response?
  {
    e.resp.code in codes ==> e.cacheFailure
  }

  // Event number `i` is a full response that is cached.
  predicate CachesFull(codes: set<int>, events: seq<Event>, i: nat)
    requires i < |events|
  {
    var e := events[i];
    e.Fetch? && IsFull(e.resp, Held(codes, events, i)) && Admitted(codes, e) && e.canCache
  }

  // Event number `i` confirms the object it revalidates, which is cached again.
  predicate Confirms(codes: set<int>, events: seq<Event>, i: nat)
    requires i < |events|
  {
    var e := events[i];
    e.Fetch? && e.resp.Response? && !IsFull(e.resp, Held(codes, events, i)) && Admitted(codes, e)
  }

  // The event whose response the cached object comes from, if there is an object.
  function Source(codes: set<int>, events: seq<Event>, n: nat): Option<nat>
    requires n <= |events|
  {
    if n == 0 || events[n - 1].Evict? then None
    else if CachesFull(codes, events, n - 1) then Some(n - 1)
    else if Confirms(codes, events, n - 1) then Source(codes, events, events[n - 1].looked.value)
    else Source(codes, events, n - 1)
  }

  // The last full response cached among the first `n` events.
  function LatestFull(codes: set<int>, events: seq<Event>, n: nat): Option<nat>
    requires n <= |events|
  {
    if n == 0 then None
    else if CachesFull(codes, events, n - 1) then Some(n - 1)
    else LatestFull(codes, events, n - 1)
  }

  // The object has the body, code and Last-Modified time of that event's response.
  predicate ContentOf(o: CacheObj, e: Event) {
    e.Fetch? && e.resp.Response? && o.body == e.resp.body && o.code == e.resp.code && o.lastModified == Modified(e.resp, e.received)
  }

  /** However requests overlap, every cached object is, unmixed, the content of one full response
      cached for the key, and its size is the length of its body. */
  lemma {:induction false} CachedIsOneResponse(codes: set<int>, events: seq<Event>, n: nat)
    requires n <= |events|
    ensures var slot, source := Slot(codes, events, n), Source(codes, events, n);
      && (slot.Some? <==> source.Some?)
      && (source.Some? ==>
            && source.value < n && CachesFull(codes, events, source.value)
            && ContentOf(slot.value, events[source.value]) && slot.value.size == |slot.value.body|)
  {
    if n > 0 {
      CachedIsOneResponse(codes, events, n - 1);
      if Confirms(codes, events, n - 1) {
        CachedIsOneResponse(codes, events, events[n - 1].looked.value);
      }
    }
  }

  // A full response was cached while event `i` was revalidating, which then confirmed an older object.
  predicate Overtaken(codes: set<int>, events: seq<Event>, i: nat)
    requires i < |events|
  {
    Confirms(codes, events, i) && exists j :: events[i].looked.value <= j < i && CachesFull(codes, events, j)
  }

  lemma {:induction false} LatestIsLast(codes: set<int>, events: seq<Event>, n: nat)
    requires n <= |events|
    ensures var latest := LatestFull(codes, events, n);
      && (latest.Some? ==> latest.value < n && CachesFull(codes, events, latest.value))
      && forall j | 0 <= j < n && CachesFull(codes, events, j) :: latest.Some? && j <= latest.value
  {
    if n > 0 {
      LatestIsLast(codes, events, n - 1);
    }
  }

  // Nothing cached between two moments: the latest full response is the same.
  lemma LatestSame(codes: set<int>, events: seq<Event>, m: nat, n: nat)
    requires m <= n <= |events| && forall j | m <= j < n :: !CachesFull(codes, events, j)
    ensures LatestFull(codes, events, m) == LatestFull(codes, events, n)
  {
    LatestIsLast(codes, events, m);
    LatestIsLast(codes, events, n);
  }

  // The cached object, if any, is the latest full response.
  predicate UpToDate(codes: set<int>, events: seq<Event>, n: nat)
    requires n <= |events|
  {
    Source(codes, events, n).Some? ==> Source(codes, events, n) == LatestFull(codes, events, n)
  }

  lemma {:induction false} NeverOvertaken(codes: set<int>, events: seq<Event>, n: nat)
    requires n <= |events| && forall i | 0 <= i < n :: !Overtaken(codes, events, i)
    ensures UpToDate(codes, events, n)
  {
    if n > 0 {
      NeverOvertaken(codes, events, n - 1);
      if Confirms(codes, events, n - 1) {
        assert !Overtaken(codes, events, n - 1);
        NeverOvertaken(codes, events, events[n - 1].looked.value);
        LatestSame(codes, events, events[n - 1].looked.value, n);
      }
    }
  }

  lemma OvertakenIsStale(codes: set<int>, events: seq<Event>, i: nat)
    requires i < |events| && Overtaken(codes, events, i)
    ensures !UpToDate(codes, events, i + 1)
  {
    var t := events[i].looked.value;
    CachedIsOneResponse(codes, events, t);
    LatestIsLast(codes, events, i);
  }

  /** The cached object is at all times the latest full response cached for the key if and only
      if no confirmation is overtaken by a full response; in particular when requests do not
      overlap. */
  lemma CachedIsLatestIff(codes: set<int>, events: seq<Event>)
    ensures (forall n | 0 <= n <= |events| :: UpToDate(codes, events, n)) <==>
            (forall i | 0 <= i < |events| :: !Overtaken(codes, events, i))
  {
    if forall i | 0 <= i < |events| :: !Overtaken(codes, events, i) {
      forall n | 0 <= n <= |events| ensures UpToDate(codes, events, n) {
        NeverOvertaken(codes, events, n);
      }
    } else {
      var i :| 0 <= i < |events| && Overtaken(codes, events, i);
      OvertakenIsStale(codes, events, i);
    }
  }

  // Each revalidating fetch began after everything before it had ended.
  predicate Sequential(events: seq<Event>) {
    forall i | 0 <= i < |events| && events[i].Fetch? && events[i].looked.Some? :: events[i].looked.value == i
  }

  /** Through any run of full responses, confirmations and evictions that do not overlap, the
      cached object has the content of the latest full response cached. */
  lemma CachedIsLatestFull(codes: set<int>, events: seq<Event>)
    requires Sequential(events)
    ensures var slot, latest := Slot(codes, events, |events|), LatestFull(codes, events, |events|);
      slot.Some? ==> latest.Some? && latest.value < |events| && ContentOf(slot.value, events[latest.value])
                     && slot.value.size == |slot.value.body|
  {
    CachedIsOneResponse(codes, events, |events|);
    NeverOvertaken(codes, events, |events|);
  }

  // A full response, a newer one, and the confirmation of the first, asked for between the two.
  const OVERTAKING: seq<Event> := [
    Fetch(Response(200, [1], None, None), 1, None, false, true),
    Fetch(Response(200, [2], None, None), 2, None, false, true),
    Fetch(Response(NOT_MODIFIED, [], None, None), 3, Some(1), false, true)]

  // The older body is back in the cache.
  lemma OlderBodyReturns()
    ensures Overtaken({}, OVERTAKING, 2) && LatestFull({}, OVERTAKING, 3) == Some(1)
    ensures Slot({}, OVERTAKING, 2) == Some(NewObj([2], 200, 2)) && Slot({}, OVERTAKING, 3) == Some(NewObj([1], 200, 1))
  {
    var e := OVERTAKING;
    assert Slot({}, e, 0) == None && Held({}, e, 0) == None && Held({}, e, 1) == None;
    assert Slot({}, e, 1) == Some(NewObj([1], 200, 1));
    assert Slot({}, e, 2) == Some(NewObj([2], 200, 2));
    assert Held({}, e, 2) == Slot({}, e, 1);
    assert CachesFull({}, e, 1) && Confirms({}, e, 2);
    assert LatestFull({}, e, 2) == Some(1);
  }
}
