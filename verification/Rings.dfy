/** Parent selection by consistent hashing: a sorted ring of hashes kept beside a map from hash
    to parent. */
module Rings {
  import opened Words
  import T = Text

  // A parent proxy; its ring positions come from its proxy's host if it has one, else its name.
  datatype Node = Node(name: string, proxyHost: Option<string>)

  datatype Parent = Parent(node: Node, weight: real)

  const DEFAULT_REPLICAS := 1024

  // round: to the nearest integer, halves away from zero.
  function Round(f: real): int {
    if -0.5 < f < 0.5 then 0 else if f > 0.0 then (f + 0.5).Floor else -(0.5 - f).Floor
  }

  // The number of ring positions a weight gives; a negative one panics.
  function NumInserts(weight: real): int {
    Round(DEFAULT_REPLICAS as real * weight)
  }

  function Replicas(p: Parent): nat {
    if NumInserts(p.weight) < 0 then 0 else NumInserts(p.weight)
  }

  // Rounding is off by at most a half, with halves away from zero; a weight of one gives 1024 positions.
  lemma RoundNearest(f: real, k: nat)
    ensures -0.5 <= Round(f) as real - f <= 0.5 && Round(-f) == -Round(f)
    ensures Round(k as real + 0.5) == k + 1 && NumInserts(k as real) == 1024 * k
  {
  }

  // siphash with a zero key
  type Hash = string -> u64

  function Host(n: Node): string {
    if n.proxyHost.Some? then n.proxyHost.value else n.name
  }

  // The text that is hashed for replica number `i` of a node.
  function RingText(n: Node, i: nat): string {
    T.Itoa(i) + "-" + Host(n)
  }

  function RingKey(hash: Hash, n: Node, i: nat): u64 {
    hash(RingText(n, i))
  }

  /** Replicas are hashed apart: two texts are the same only for the same number and host. The host
      is the proxy's if there is one, whatever the node is called, and else the node's name. */
  lemma RingTextsApart(n: Node, i: nat, m: Node, j: nat)
    ensures RingText(n, i) == RingText(m, j) <==> i == j && Host(n) == Host(m)
    ensures forall h | n.proxyHost == Some(h) :: RingText(n, i) == RingText(Node(h, None), i)
    ensures T.Split(RingText(n, i), '-')[0] == T.Itoa(i)
  {
    assert forall h | n.proxyHost == Some(h) :: Host(n) == Host(Node(h, None));
    RingTextSplit(n, i);
    RingTextSplit(m, j);
    hide Host, T.Itoa, T.Split, T.Join;
    if RingText(n, i) == RingText(m, j) {
      T.ParsesBack(i);
      T.ParsesBack(j);
      assert RingText(n, i)[|T.Itoa(i)| + 1..] == Host(n) && RingText(m, j)[|T.Itoa(j)| + 1..] == Host(m);
    }
  }

  lemma RingTextSplit(n: Node, i: nat)
    ensures T.Split(RingText(n, i), '-')[0] == T.Itoa(i)
  {
    T.NatHasNo(i, '-');
    hide T.Itoa, Host;
    assert RingText(n, i) == T.Itoa(i) + ['-'] + Host(n);
    T.SplitFirst(T.Itoa(i), Host(n), '-');
  }

  // ---------- the sorted key list ----------

  ghost predicate Increasing(s: seq<u64>) {
    forall i, j | 0 <= i < j < |s| :: s[i] < s[j]
  }

  // `s` is the sorted list of exactly these keys.
  ghost predicate Sorts(s: seq<u64>, keys: set<u64>) {
    Increasing(s) && forall k: u64 :: k in s <==> k in keys
  }

  lemma {:induction false} LeastKey(keys: set<u64>) returns (k: u64)
    requires keys != {}
    ensures k in keys && forall x | x in keys :: k <= x
    decreases |keys|
  {
    k :| k in keys;
    if keys != {k} {
      var rest := keys - {k};
      var m := LeastKey(rest);
      assert keys == rest + {k};
      if m < k {
        k := m;
      }
    }
  }

  ghost function Least(keys: set<u64>): (k: u64)
    requires keys != {}
    ensures k in keys && forall x | x in keys :: k <= x
  {
    assert exists k :: k in keys && forall x | x in keys :: k <= x by {
      var k := LeastKey(keys);
    }
    var k :| k in keys && forall x | x in keys :: k <= x;
    k
  }

  ghost function SortedKeys(keys: set<u64>): (s: seq<u64>)
    ensures |s| == |keys|
    decreases |keys|
  {
    if keys == {} then [] else [Least(keys)] + SortedKeys(keys - {Least(keys)})
  }

  lemma {:induction false} SortedKeysSort(keys: set<u64>)
    ensures Sorts(SortedKeys(keys), keys)
    decreases |keys|
  {
    if keys != {} {
      var k := Least(keys);
      var s := SortedKeys(keys - {k});
      SortedKeysSort(keys - {k});
      hide Sorts;
      PrependSorts(k, s, keys);
    }
  }

  lemma NoKeys()
    ensures Sorts([], {})
  {
  }

  lemma PrependSorts(k: u64, s: seq<u64>, keys: set<u64>)
    requires k in keys && Sorts(s, keys - {k}) && forall x | x in keys :: k <= x
    ensures Sorts([k] + s, keys)
  {
    forall i | 0 <= i < |s| ensures k < s[i] {
      assert s[i] in s;
    }
  }

  // A set has one sorted list.
  lemma {:induction false} SortsUnique(s: seq<u64>, r: seq<u64>, keys: set<u64>)
    requires Sorts(s, keys) && Sorts(r, keys)
    ensures s == r
    decreases |s|
  {
    SortsEmpty(s, keys);
    SortsEmpty(r, keys);
    if keys != {} {
      assert s[0] in r && r[0] in s;
      assert s[0] == r[0];
      TailSorts(s, keys);
      TailSorts(r, keys);
      SortsUnique(s[1..], r[1..], keys - {s[0]});
    }
  }

  lemma SortsEmpty(s: seq<u64>, keys: set<u64>)
    requires Sorts(s, keys)
    ensures s == [] <==> keys == {}
  {
    if s != [] {
      assert s[0] in s;
    }
  }

  lemma SpliceIncreasing(s: seq<u64>, i: nat, k: u64)
    requires Increasing(s) && i <= |s|
    requires (i > 0 ==> s[i - 1] < k) && (i < |s| ==> s[i] > k)
    ensures Increasing(s[..i] + [k] + s[i..])
  {
    var r := s[..i] + [k] + s[i..];
    forall a, b | 0 <= a < b < |r| ensures r[a] < r[b] {
      assert a < i ==> s[a] <= s[i - 1];
      assert b > i ==> s[i] <= s[b - 1];
    }
  }

  // Splicing a new key in at its place.
  lemma SpliceSorts(s: seq<u64>, i: nat, k: u64, keys: set<u64>)
    requires Sorts(s, keys) && k !in keys && i <= |s|
    requires (i > 0 ==> s[i - 1] < k) && (i < |s| ==> s[i] > k)
    ensures Sorts(s[..i] + [k] + s[i..], keys + {k})
  {
    SpliceIncreasing(s, i, k);
    hide Increasing;
    assert s == s[..i] + s[i..];
  }

  lemma TailSorts(s: seq<u64>, keys: set<u64>)
    requires Sorts(s, keys) && s != []
    ensures Sorts(s[1..], keys - {s[0]})
  {
  }

  // ---------- lookup ----------

  // The index of the first key at or after `h`, or the length if there is none.
  function LowerBound(o: seq<u64>, h: u64): (i: nat)
    ensures i <= |o| && (i < |o| ==> o[i] >= h) && forall j | 0 <= j < i :: o[j] < h
  {
    if o == [] || o[0] >= h then 0 else 1 + LowerBound(o[1..], h)
  }

  // Where a lookup lands: the lower bound, wrapping around to the first entry.
  function Landing(o: seq<u64>, h: u64): nat
    requires o != []
    ensures Landing(o, h) < |o|
  {
    if LowerBound(o, h) < |o| then LowerBound(o, h) else 0
  }

  /** The key that owns `h` among a set of ring keys: the nearest at or after it, or the least of
      all when there is none. */
  ghost predicate Owns(keys: set<u64>, h: u64, k: u64) {
    && k in keys
    && ((k >= h && forall x | x in keys && x >= h :: k <= x)
        || ((forall x | x in keys :: x < h) && forall x | x in keys :: k <= x))
  }

  lemma LandingOwns(o: seq<u64>, keys: set<u64>, h: u64)
    requires Sorts(o, keys) && o != []
    ensures Owns(keys, h, o[Landing(o, h)])
  {
  }

  lemma OwnerUnique(keys: set<u64>, h: u64, a: u64, b: u64)
    requires Owns(keys, h, a) && Owns(keys, h, b)
    ensures a == b
  {
  }

  // ---------- building the ring ----------

  // The first `n` ring positions of a parent, put over a map; equal hashes overwrite.
  function PutReplicas(hash: Hash, m: map<u64, Node>, node: Node, n: nat): map<u64, Node> {
    if n == 0 then m else PutReplicas(hash, m, node, n - 1)[RingKey(hash, node, n - 1) := node]
  }

  // makeRuleHash: parents in order, the last one winning a collision.
  function RingMap(hash: Hash, parents: seq<Parent>): map<u64, Node> {
    if parents == [] then map[]
    else
      var n := |parents| - 1;
      PutReplicas(hash, RingMap(hash, parents[..n]), parents[n].node, Replicas(parents[n]))
  }

  // One of the first `n` replicas of the node is at `k`.
  predicate HasReplica(hash: Hash, node: Node, n: nat, k: u64) {
    exists i :: 0 <= i < n && RingKey(hash, node, i) == k
  }

  lemma HasReplicaNext(hash: Hash, node: Node, n: nat, k: u64)
    ensures HasReplica(hash, node, n + 1, k) <==> HasReplica(hash, node, n, k) || RingKey(hash, node, n) == k
    ensures !HasReplica(hash, node, 0, k)
  {
    hide RingKey;
    if RingKey(hash, node, n) == k {
      assert HasReplica(hash, node, n + 1, k);
    }
  }

  lemma {:induction false} ReplicasExact(hash: Hash, m: map<u64, Node>, node: Node, n: nat, k: u64)
    ensures var r := PutReplicas(hash, m, node, n);
      && (k in r <==> HasReplica(hash, node, n, k) || k in m)
      && (k in r ==> r[k] == if HasReplica(hash, node, n, k) then node else m[k])
  {
    hide RingKey, HasReplica;
    HasReplicaNext(hash, node, if n == 0 then 0 else n - 1, k);
    if n > 0 {
      ReplicasExact(hash, m, node, n - 1, k);
    }
  }

  // Parent number `p` of the list has a replica at `k`.
  predicate ReplicaAt(hash: Hash, parents: seq<Parent>, p: int, k: u64) {
    0 <= p < |parents| && HasReplica(hash, parents[p].node, Replicas(parents[p]), k)
  }

  // The last parent of the list with a replica at `k`, if there is one.
  function LastAt(hash: Hash, parents: seq<Parent>, k: u64): (p: Option<nat>)
    ensures p.None? <==> forall q :: !ReplicaAt(hash, parents, q, k)
    ensures p.Some? ==> ReplicaAt(hash, parents, p.value, k) && forall q | p.value < q :: !ReplicaAt(hash, parents, q, k)
  {
    if parents == [] then None
    else
      var n := |parents| - 1;
      assert forall q :: ReplicaAt(hash, parents[..n], q, k) <==> q != n && ReplicaAt(hash, parents, q, k) by {
        ReplicaSnoc(hash, parents, k);
      }
      assert ReplicaAt(hash, parents, n, k) <==> HasReplica(hash, parents[n].node, Replicas(parents[n]), k);
      if HasReplica(hash, parents[n].node, Replicas(parents[n]), k) then Some(n) else LastAt(hash, parents[..n], k)
  }

  /** The ring holds exactly the replicas of its parents, and where those of several coincide the
      last parent in the list owns the position. */
  lemma {:induction false} RingMapExact(hash: Hash, parents: seq<Parent>, k: u64)
    ensures var m, p := RingMap(hash, parents), LastAt(hash, parents, k);
      (k in m <==> p.Some?) && (p.Some? ==> p.value < |parents| && m[k] == parents[p.value].node)
  {
    if parents != [] {
      hide HasReplica, Replicas, PutReplicas, ReplicaAt;
      var n := |parents| - 1;
      RingMapExact(hash, parents[..n], k);
      ReplicasExact(hash, RingMap(hash, parents[..n]), parents[n].node, Replicas(parents[n]), k);
    }
  }

  lemma ReplicaSnoc(hash: Hash, parents: seq<Parent>, k: u64)
    requires parents != []
    ensures var n := |parents| - 1;
      && (forall p :: ReplicaAt(hash, parents[..n], p, k) <==> p != n && ReplicaAt(hash, parents, p, k))
      && (ReplicaAt(hash, parents, n, k) <==> HasReplica(hash, parents[n].node, Replicas(parents[n]), k))
    ensures forall p | ReplicaAt(hash, parents, p, k) :: 0 <= p < |parents|
  {
    hide HasReplica, Replicas;
    var n := |parents| - 1;
    assert forall p | 0 <= p < n :: parents[..n][p] == parents[p];
  }

  // The position `x` steps around a ring of `n` entries.
  function Around(x: nat, n: nat): (i: nat)
    requires n > 0
    ensures i < n
  {
    x % n
  }

  // The ring entry `failures` steps after the one a hash lands on.
  ghost function Entry(m: map<u64, Node>, h: u64, failures: nat): Node
    requires m != map[]
  {
    SortedKeysSort(m.Keys);
    var o := SortedKeys(m.Keys);
    var i := Around(Landing(o, h) + failures, |o|);
    assert o[i] in o;
    m[o[i]]
  }

  // The parent used after `failures` failed attempts; without a ring position, the first one.
  ghost function Choose(hash: Hash, parents: seq<Parent>, uri: string, failures: nat): Node
    requires parents != []
  {
    var m := RingMap(hash, parents);
    if uri == "" || m == map[] then parents[0].node else Entry(m, hash(uri), failures)
  }

  // Without a name to look up or a ring position, it is the first parent, whatever the others are.
  lemma FallbackIsFirst(hash: Hash, p: Parent, rest: seq<Parent>, uri: string, failures: nat)
    requires uri == "" || forall q | q in [p] + rest :: Replicas(q) == 0
    ensures Choose(hash, [p] + rest, uri, failures) == p.node
  {
    if uri != "" {
      NoReplicas(hash, [p] + rest);
    }
  }

  lemma {:induction false} NoReplicas(hash: Hash, parents: seq<Parent>)
    requires forall q | q in parents :: Replicas(q) == 0
    ensures RingMap(hash, parents) == map[]
  {
    if parents != [] {
      NoReplicas(hash, parents[..|parents| - 1]);
      assert parents[|parents| - 1] in parents;
      hide Replicas;
    }
  }

  // ---------- monotonicity ----------

  // `m2` is `m1` with some keys added or taken over, all by `p`.
  ghost predicate Extends(m1: map<u64, Node>, m2: map<u64, Node>, p: Node) {
    && (forall k | k in m1 :: k in m2 && (m2[k] == m1[k] || m2[k] == p))
    && (forall k | k in m2 && k !in m1 :: m2[k] == p)
  }

  lemma {:induction false} PutOwn(hash: Hash, m: map<u64, Node>, p: Node, n: nat)
    ensures Extends(m, PutReplicas(hash, m, p, n), p)
  {
    if n > 0 {
      PutOwn(hash, m, p, n - 1);
    }
  }

  lemma {:induction false} PutOver(hash: Hash, m1: map<u64, Node>, m2: map<u64, Node>, p: Node, node: Node, n: nat)
    requires Extends(m1, m2, p)
    ensures Extends(PutReplicas(hash, m1, node, n), PutReplicas(hash, m2, node, n), p)
  {
    if n > 0 {
      PutOver(hash, m1, m2, p, node, n - 1);
    }
  }

  lemma {:induction false} InsertExtends(hash: Hash, before: seq<Parent>, p: Parent, after: seq<Parent>)
    ensures Extends(RingMap(hash, before + after), RingMap(hash, before + [p] + after), p.node)
    decreases |after|
  {
    if after == [] {
      assert before + after == before && before + [p] + after == before + [p];
      assert (before + [p])[..|before|] == before;
      PutOwn(hash, RingMap(hash, before), p.node, Replicas(p));
    } else {
      var n := |after| - 1;
      InsertExtends(hash, before, p, after[..n]);
      assert (before + after)[..|before + after| - 1] == before + after[..n];
      assert (before + [p] + after)[..|before + [p] + after| - 1] == before + [p] + after[..n];
      PutOver(hash, RingMap(hash, before + after[..n]), RingMap(hash, before + [p] + after[..n]), p.node,
              after[n].node, Replicas(after[n]));
    }
  }

  // A key owned in the larger ring is new, or was the owner before.
  lemma OwnerStays(small: set<u64>, large: set<u64>, h: u64, a: u64, b: u64)
    requires small <= large && Owns(small, h, a) && Owns(large, h, b) && b in small
    ensures a == b
  {
  }

  // The key a lookup of `h` lands on.
  ghost function Owner(m: map<u64, Node>, h: u64): (k: u64)
    requires m != map[]
    ensures Owns(m.Keys, h, k)
  {
    SortedKeysSort(m.Keys);
    LandingOwns(SortedKeys(m.Keys), m.Keys, h);
    var o := SortedKeys(m.Keys);
    o[Landing(o, h)]
  }

  // The first choice for a request is the parent owning its hash.
  lemma ChooseOwner(hash: Hash, parents: seq<Parent>, uri: string)
    requires parents != [] && uri != "" && RingMap(hash, parents) != map[]
    ensures var m := RingMap(hash, parents); Choose(hash, parents, uri, 0) == m[Owner(m, hash(uri))]
  {
    hide RingMap;
    ModUnique(Landing(SortedKeys(RingMap(hash, parents).Keys), hash(uri)), 0,
              Landing(SortedKeys(RingMap(hash, parents).Keys), hash(uri)), |SortedKeys(RingMap(hash, parents).Keys)|);
  }

  /** Consistent hashing is monotone: inserting a parent anywhere in a rule's list leaves each
      request on its parent or moves it to the new one, whatever ring hashes collide. */
  lemma Monotone(hash: Hash, before: seq<Parent>, p: Parent, after: seq<Parent>, uri: string)
    requires before + after != []
    ensures Choose(hash, before + [p] + after, uri, 0) == Choose(hash, before + after, uri, 0)
         || Choose(hash, before + [p] + after, uri, 0) == p.node
  {
    var m1, m2 := RingMap(hash, before + after), RingMap(hash, before + [p] + after);
    InsertExtends(hash, before, p, after);
    if uri != "" && m2 != map[] {
      hide RingMap, SortedKeys, Choose;
      var h := hash(uri);
      var k := Owner(m2, h);
      ChooseOwner(hash, before + [p] + after, uri);
      if k in m1 {
        ChooseOwner(hash, before + after, uri);
        OwnerStays(m1.Keys, m2.Keys, h, Owner(m1, h), k);
      }
    }
  }

  // ---------- the ring as it is kept in memory ----------

  class OrderedMap {
    var M: map<u64, Node>
    var O: seq<u64>

    // The list is the strictly sorted keys of the map.
    ghost predicate Ordered()
      reads this
    {
      O == SortedKeys(M.Keys)
    }

    constructor ()
      ensures Ordered() && M == map[]
    {
      M, O := map[], [];
    }

    method InsertBulk(keys: array<u64>, vals: array<Node>) returns (err: bool)
      requires Ordered()
      modifies this
      ensures err == (keys.Length != vals.Length)
      ensures Ordered() && M == if err then old(M) else PutAll(old(M), keys[..], vals[..])
    {
      err := keys.Length != vals.Length;
      if err {
        return;
      }
      for i := 0 to keys.Length
        invariant M == PutAll(old(M), keys[..i], vals[..i])
      {
        assert keys[..i + 1][..i] == keys[..i] && vals[..i + 1][..i] == vals[..i];
        M := M[keys[i] := vals[i]];
      }
      assert keys[..keys.Length] == keys[..] && vals[..vals.Length] == vals[..];
      O := SortKeys(M.Keys);
    }

    // Collects the keys, in whatever order the map is visited, and sorts them.
    static method SortKeys(keys: set<u64>) returns (o: seq<u64>)
      ensures o == SortedKeys(keys)
    {
      hide Sorts, SortedKeys;
      o := [];
      ghost var done: set<u64> := {};
      var todo := keys;
      assert Sorts([], {}) by { NoKeys(); }
      while todo != {}
        invariant done * todo == {} && done + todo == keys && Sorts(o, done)
        decreases |todo|
      {
        var k: u64 :| k in todo;
        o := InsertSorted(o, k, done);
        done, todo := done + {k}, todo - {k};
      }
      assert done == keys;
      SortedKeysSort(keys);
      SortsUnique(o, SortedKeys(keys), keys);
    }

    // An insertion step of sort.Sort.
    static method InsertSorted(s: seq<u64>, k: u64, ghost keys: set<u64>) returns (r: seq<u64>)
      requires Sorts(s, keys) && k !in keys
      ensures Sorts(r, keys + {k})
    {
      var i := |s|;
      while i > 0 && s[i - 1] > k
        invariant 0 <= i <= |s| && forall j | i <= j < |s| :: s[j] > k
      {
        i := i - 1;
      }
      r := s[..i] + [k] + s[i..];
      assert i > 0 ==> s[i - 1] in s;
      SpliceSorts(s, i, k, keys);
    }

    // The scan for the first key at or after `key`; None when there is none.
    method FindLowerBound(key: u64) returns (i: Option<nat>)
      ensures i == if LowerBound(O, key) < |O| then Some(LowerBound(O, key)) else None
    {
      for j := 0 to |O|
        invariant forall x | 0 <= x < j :: O[x] < key
      {
        if O[j] >= key {
          return Some(j);
        }
      }
      return None;
    }
  }

  function PutAll(m: map<u64, Node>, keys: seq<u64>, vals: seq<Node>): map<u64, Node>
    requires |keys| == |vals|
  {
    if keys == [] then m
    else
      var n := |keys| - 1;
      PutAll(m, keys[..n], vals[..n])[keys[n] := vals[n]]
  }

  class ConsistentHash {
    const hash: Hash
    const nodeMap: OrderedMap

    constructor (hash: Hash)
      ensures this.hash == hash && nodeMap.Ordered() && nodeMap.M == map[] && fresh(nodeMap)
    {
      this.hash := hash;
      nodeMap := new OrderedMap();
    }

    // A weight that rounds to a negative number of positions panics.
    method Insert(node: Node, weight: real) returns (panics: bool)
      requires nodeMap.Ordered()
      modifies nodeMap
      ensures panics <==> NumInserts(weight) < 0
      ensures nodeMap.Ordered()
      ensures nodeMap.M == if panics then old(nodeMap.M) else PutReplicas(hash, old(nodeMap.M), node, NumInserts(weight))
    {
      panics := NumInserts(weight) < 0;
      if panics {
        return;
      }
      hide RingKey, NumInserts;
      var numInserts := NumInserts(weight);
      var keys := new u64[numInserts];
      var vals := new Node[numInserts](_ => node);
      for i := 0 to numInserts
        invariant nodeMap.Ordered() && nodeMap.M == old(nodeMap.M)
        invariant forall j | 0 <= j < i :: keys[j] == RingKey(hash, node, j)
        invariant forall j | 0 <= j < numInserts :: vals[j] == node
      {
        keys[i] := RingKey(hash, node, i);
      }
      PutAllReplicas(hash, nodeMap.M, node, keys[..], vals[..]);
      var _ := nodeMap.InsertBulk(keys, vals);
    }

    /** uriGetToConsistentHash: looks the request up, then steps on once per failure; None is
        the fallback to the rule's first parent. */
    method Select(uri: string, failures: nat) returns (node: Option<Node>)
      requires nodeMap.Ordered()
      ensures node == if uri == "" || nodeMap.M == map[] then None else Some(Entry(nodeMap.M, hash(uri), failures))
    {
      hide Around, SortedKeys, Entry, LowerBound;
      if uri == "" {
        return None;
      }
      var found := nodeMap.FindLowerBound(hash(uri));
      if found.None? && nodeMap.O == [] {
        return None;
      }
      var start := if found.Some? then found.value else 0;
      AroundSmall(start, |nodeMap.O|);
      var index := start;
      for i := 0 to failures
        invariant index == Around(start + i, |nodeMap.O|)
      {
        NextWraps(start + i, |nodeMap.O|);
        index := if index + 1 >= |nodeMap.M| then 0 else index + 1;
      }
      EntryAt(nodeMap.M, nodeMap.O, hash(uri), failures);
      node := Some(nodeMap.M[nodeMap.O[index]]);
    }
  }

  lemma EntryAt(m: map<u64, Node>, o: seq<u64>, h: u64, failures: nat)
    requires m != map[] && o == SortedKeys(m.Keys)
    ensures var i := Around(Landing(o, h) + failures, |o|); o[i] in m && m[o[i]] == Entry(m, h, failures)
  {
    hide Around, Increasing, Landing, SortedKeys;
    SortedKeysSort(m.Keys);
    assert o[Around(Landing(o, h) + failures, |o|)] in o;
  }

  lemma AroundSmall(x: nat, n: nat)
    requires x < n
    ensures Around(x, n) == x
  {
  }

  // Stepping to the next entry, or from the last back to the first, is adding one around the ring.
  lemma NextWraps(x: nat, n: nat)
    requires n > 0
    ensures Around(x + 1, n) == if Around(x, n) + 1 >= n then 0 else Around(x, n) + 1
  {
    var q := x / n;
    assert x + 1 == q * n + (x % n + 1);
    if x % n + 1 == n {
      assert x + 1 == (q + 1) * n;
      ModUnique(x + 1, q + 1, 0, n);
    } else {
      ModUnique(x + 1, q, x % n + 1, n);
    }
  }

  lemma ModUnique(x: nat, q: nat, r: nat, n: nat)
    requires n > 0 && r < n && x == q * n + r
    ensures x % n == r
  {
    var d := x / n - q;
    assert d * n == r - x % n;
    if d > 0 {
      MulGe(d, n);
    } else if d < 0 {
      MulGe(-d, n);
    }
  }

  lemma MulGe(d: int, n: nat)
    requires d >= 1
    ensures d * n >= n && (-d) * n <= 0 - n
  {
  }

  lemma {:induction false} PutAllReplicas(hash: Hash, m: map<u64, Node>, node: Node, keys: seq<u64>, vals: seq<Node>)
    requires |keys| == |vals| && forall j | 0 <= j < |keys| :: keys[j] == RingKey(hash, node, j) && vals[j] == node
    ensures PutAll(m, keys, vals) == PutReplicas(hash, m, node, |keys|)
  {
    if keys != [] {
      var n := |keys| - 1;
      PutAllReplicas(hash, m, node, keys[..n], vals[..n]);
    }
  }

  predicate Negative(p: Parent) {
    NumInserts(p.weight) < 0
  }

  // makeRuleHash; it panics on the first weight that is too far below zero.
  method MakeRuleHash(hash: Hash, parents: seq<Parent>) returns (h: ConsistentHash, panics: bool)
    ensures panics <==> exists i :: 0 <= i < |parents| && Negative(parents[i])
    ensures fresh(h) && fresh(h.nodeMap) && h.hash == hash && h.nodeMap.Ordered()
    ensures !panics ==> h.nodeMap.M == RingMap(hash, parents)
  {
    hide RingMap, PutReplicas, SortedKeys, NumInserts, Replicas;
    h := new ConsistentHash(hash);
    panics := false;
    NoParents(hash);
    for i := 0 to |parents|
      invariant !panics && h.hash == hash && h.nodeMap.Ordered() && h.nodeMap.M == RingMap(hash, parents[..i]) && fresh(h.nodeMap)
      invariant forall j | 0 <= j < i :: !Negative(parents[j])
    {
      RingMapNext(hash, parents, i);
      panics := h.Insert(parents[i].node, parents[i].weight);
      if panics {
        assert Negative(parents[i]);
        return;
      }
    }
    assert parents[..|parents|] == parents;
  }

  lemma NoParents(hash: Hash)
    ensures RingMap(hash, []) == map[]
  {
  }

  lemma RingMapNext(hash: Hash, parents: seq<Parent>, i: nat)
    requires i < |parents|
    ensures NumInserts(parents[i].weight) >= 0 ==>
      RingMap(hash, parents[..i + 1]) == PutReplicas(hash, RingMap(hash, parents[..i]), parents[i].node, NumInserts(parents[i].weight))
  {
    hide NumInserts, PutReplicas;
    assert parents[..i + 1][..i] == parents[..i];
  }
}
