/** Topology tiers: memoised origin distances, the cachegroups of a tier, and the share of the
    origin's connections each server of a tier is given. */
module Topologies {
  import opened Words

  // Parents are node indices, the primary one first.
  datatype Node = Node(cachegroup: string, parents: seq<int>)

  type Topology = seq<Node>

  // A node without parents, or with an origin among them, is at distance one.
  predicate NextToOrigin(t: Topology, origins: set<int>, i: int)
    requires 0 <= i < |t|
  {
    t[i].parents == [] || exists p :: p in t[i].parents && p in origins
  }

  // Following first parents, the origin of node `i` is reached in `d` hops.
  predicate Distance(t: Topology, origins: set<int>, i: int, d: nat)
    decreases d
  {
    0 <= i < |t| && d > 0 &&
    if NextToOrigin(t, origins, i) then d == 1 else Distance(t, origins, t[i].parents[0], d - 1)
  }

  // Every node reaches an origin: first parents are in range and form no cycle.
  ghost predicate Grounded(t: Topology, origins: set<int>) {
    forall i | 0 <= i < |t| :: Reaches(t, origins, i)
  }

  ghost predicate Reaches(t: Topology, origins: set<int>, i: int) {
    exists d :: Distance(t, origins, i, d)
  }

  lemma {:induction false} DistanceUnique(t: Topology, origins: set<int>, i: int, d: nat, e: nat)
    requires Distance(t, origins, i, d) && Distance(t, origins, i, e)
    ensures d == e
    decreases d
  {
    if !NextToOrigin(t, origins, i) {
      DistanceUnique(t, origins, t[i].parents[0], d - 1, e - 1);
    }
  }

  // ---------- memoised distances ----------

  // The memo map shared by the recursive calls.
  class Memo {
    var distances: map<nat, nat>

    constructor ()
      ensures distances == map[]
    {
      distances := map[];
    }
  }

  ghost predicate Right(t: Topology, origins: set<int>, m: map<nat, nat>) {
    forall k | k in m :: Distance(t, origins, k, m[k])
  }

  /** getOriginDistance: whatever has been memoised before, the answer is the plain recursive one,
      and so is everything memoised after. */
  method GetOriginDistance(t: Topology, i: nat, origins: set<int>, memo: Memo, ghost d: nat) returns (r: nat)
    requires Distance(t, origins, i, d) && Right(t, origins, memo.distances)
    modifies memo
    ensures r == d
    ensures Right(t, origins, memo.distances)
    ensures i in memo.distances && old(memo.distances).Keys <= memo.distances.Keys
    decreases d
  {
    if i in memo.distances {
      DistanceUnique(t, origins, i, d, memo.distances[i]);
      return memo.distances[i];
    }
    var parents := t[i].parents;
    if |parents| == 0 {
      memo.distances := memo.distances[i := 1];
      return 1;
    }
    for j := 0 to |parents|
      invariant memo.distances == old(memo.distances)
      invariant forall x | 0 <= x < j :: parents[x] !in origins
    {
      if parents[j] in origins {
        var p := parents[j];
        assert p in t[i].parents && p in origins;
        memo.distances := memo.distances[i := 1];
        return 1;
      }
    }
    var up := GetOriginDistance(t, parents[0], origins, memo, d - 1);
    r := 1 + up;
    memo.distances := memo.distances[i := r];
  }

  // ---------- tiers ----------

  // Two nodes are equally far from their origins.
  ghost predicate SameDistance(t: Topology, origins: set<int>, i: int, j: int) {
    exists d :: Distance(t, origins, i, d) && Distance(t, origins, j, d)
  }

  /** getNodesWithSameOriginDistances: each node as far as `nodeIndex`, once; none when the index
      is not a node. The result's order is that of a map range, that is, any. */
  method NodesWithSameDistance(nodeIndex: int, t: Topology, origins: set<int>) returns (same: seq<int>)
    requires Grounded(t, origins)
    ensures forall a, b | 0 <= a < b < |same| :: same[a] != same[b]
    ensures forall i :: i in same <==> SameDistance(t, origins, nodeIndex, i)
  {
    var memo := new Memo();
    var nodeDistance: int := -1;
    for i := 0 to |t|
      invariant fresh(memo) && Right(t, origins, memo.distances)
      invariant forall k | 0 <= k < i :: k in memo.distances
      invariant if 0 <= nodeIndex < i then nodeDistance > 0 && Distance(t, origins, nodeIndex, nodeDistance)
                else nodeDistance == -1
    {
      assert Reaches(t, origins, i);
      ghost var d :| Distance(t, origins, i, d);
      var r := GetOriginDistance(t, i, origins, memo, d);
      if nodeIndex == i {
        nodeDistance := r;
      }
    }
    same := AtDistance(memo.distances, nodeDistance);
    forall i ensures i in same <==> SameDistance(t, origins, nodeIndex, i) {
      SameIff(t, origins, memo.distances, nodeIndex, nodeDistance, i);
    }
  }

  // Ranges over the map, in any order.
  method AtDistance(distances: map<nat, nat>, d: int) returns (same: seq<nat>)
    ensures forall a, b | 0 <= a < b < |same| :: same[a] != same[b]
    ensures forall i: nat :: i in same <==> i in distances && distances[i] == d
  {
    same := [];
    var todo := distances.Keys;
    while todo != {}
      invariant todo <= distances.Keys
      invariant forall a, b | 0 <= a < b < |same| :: same[a] != same[b]
      invariant forall i: nat :: i in same <==> i in distances && i !in todo && distances[i] == d
      decreases |todo|
    {
      var i: nat :| i in todo;
      todo := todo - {i};
      if distances[i] == d {
        same := same + [i];
      }
    }
  }

  lemma SameIff(t: Topology, origins: set<int>, m: map<nat, nat>, n: int, nd: int, i: int)
    requires Right(t, origins, m) && forall k | 0 <= k < |t| :: k in m
    requires if 0 <= n < |t| then nd > 0 && Distance(t, origins, n, nd) else nd == -1
    ensures (i in m && m[i] == nd) <==> SameDistance(t, origins, n, i)
  {
    if SameDistance(t, origins, n, i) {
      var d :| Distance(t, origins, n, d) && Distance(t, origins, i, d);
      DistanceUnique(t, origins, n, d, nd);
      DistanceUnique(t, origins, i, d, m[i]);
    }
  }

  // A cachegroup of Traffic Ops; either field may be missing.
  datatype CacheGroup = CacheGroup(name: Option<string>, kind: Option<string>)

  const ORIGIN_TYPE := "ORG_LOC"

  // The names of the origin cachegroups.
  ghost predicate IsOriginGroup(groups: seq<CacheGroup>, name: string) {
    exists i :: 0 <= i < |groups| && groups[i] == CacheGroup(Some(name), Some(ORIGIN_TYPE))
  }

  // The nodes of origin cachegroups.
  ghost function OriginNodes(groups: seq<CacheGroup>, t: Topology): set<int> {
    set i | 0 <= i < |t| && IsOriginGroup(groups, t[i].cachegroup)
  }

  // No cachegroup is on two nodes.
  predicate UniqueGroups(t: Topology) {
    forall i, j | 0 <= i < j < |t| :: t[i].cachegroup != t[j].cachegroup
  }

  // The cachegroups of two nodes equally far from their origins.
  ghost predicate SameTier(groups: seq<CacheGroup>, t: Topology, a: string, b: string) {
    exists i, j :: 0 <= i < |t| && 0 <= j < |t| && t[i].cachegroup == a && t[j].cachegroup == b
                   && SameDistance(t, OriginNodes(groups, t), i, j)
  }

  /** getCachegroupsInSameTopologyTier */
  method CachegroupsInSameTier(cg: string, groups: seq<CacheGroup>, t: Topology) returns (tier: set<string>)
    requires UniqueGroups(t) && Grounded(t, OriginNodes(groups, t))
    ensures forall b :: b in tier <==> SameTier(groups, t, cg, b)
  {
    var originGroups: set<string> := {};
    for i := 0 to |groups|
      invariant forall n :: n in originGroups <==> IsOriginGroup(groups[..i], n)
    {
      var g := groups[i];
      OriginGroupSnoc(groups, i);
      if g.name.None? || g.kind.None? {
        continue;
      }
      if g.kind.value == ORIGIN_TYPE {
        originGroups := originGroups + {g.name.value};
      }
    }
    assert groups[..|groups|] == groups;
    var origins: set<int> := {};
    var nodeIndex := -1;
    for i := 0 to |t|
      invariant origins == set k | 0 <= k < i && IsOriginGroup(groups, t[k].cachegroup)
      invariant nodeIndex == -1 || (0 <= nodeIndex < i && t[nodeIndex].cachegroup == cg)
      invariant nodeIndex == -1 ==> forall k | 0 <= k < i :: t[k].cachegroup != cg
    {
      if t[i].cachegroup == cg {
        nodeIndex := i;
      }
      if t[i].cachegroup in originGroups {
        origins := origins + {i};
      }
    }
    assert origins == OriginNodes(groups, t);
    var same := NodesWithSameDistance(nodeIndex, t, origins);
    tier := {};
    for n := 0 to |same|
      invariant forall b :: b in tier <==> exists x :: 0 <= x < n && 0 <= same[x] < |t| && t[same[x]].cachegroup == b
    {
      assert same[n] in same;
      tier := tier + {t[same[n]].cachegroup};
    }
    forall b ensures b in tier <==> SameTier(groups, t, cg, b) {
      TierIff(groups, t, cg, nodeIndex, same, b);
    }
  }

  lemma OriginGroupSnoc(groups: seq<CacheGroup>, i: nat)
    requires i < |groups|
    ensures forall n :: IsOriginGroup(groups[..i + 1], n) <==>
      IsOriginGroup(groups[..i], n) || groups[i] == CacheGroup(Some(n), Some(ORIGIN_TYPE))
  {
  }

  lemma TierIff(groups: seq<CacheGroup>, t: Topology, cg: string, nodeIndex: int, same: seq<int>, b: string)
    requires UniqueGroups(t)
    requires nodeIndex == -1 || (0 <= nodeIndex < |t| && t[nodeIndex].cachegroup == cg)
    requires nodeIndex == -1 ==> forall k | 0 <= k < |t| :: t[k].cachegroup != cg
    requires forall i :: i in same <==> SameDistance(t, OriginNodes(groups, t), nodeIndex, i)
    ensures (exists x :: 0 <= x < |same| && 0 <= same[x] < |t| && t[same[x]].cachegroup == b) <==> SameTier(groups, t, cg, b)
  {
    var origins := OriginNodes(groups, t);
    if x :| 0 <= x < |same| && 0 <= same[x] < |t| && t[same[x]].cachegroup == b {
      assert same[x] in same;
      assert SameDistance(t, origins, nodeIndex, same[x]);
    }
    if SameTier(groups, t, cg, b) {
      var i, j :| 0 <= i < |t| && 0 <= j < |t| && t[i].cachegroup == cg && t[j].cachegroup == b && SameDistance(t, origins, i, j);
      assert i == nodeIndex;
      assert j in same;
    }
  }

  /** Tiers partition the topology's cachegroups: being in the same tier is reflexive on them,
      symmetric and transitive. */
  lemma TiersAreEquivalence(groups: seq<CacheGroup>, t: Topology)
    requires UniqueGroups(t) && Grounded(t, OriginNodes(groups, t))
    ensures forall i | 0 <= i < |t| :: SameTier(groups, t, t[i].cachegroup, t[i].cachegroup)
    ensures forall a, b :: SameTier(groups, t, a, b) ==> SameTier(groups, t, b, a)
    ensures forall a, b, c :: SameTier(groups, t, a, b) && SameTier(groups, t, b, c) ==> SameTier(groups, t, a, c)
  {
    var origins := OriginNodes(groups, t);
    forall i | 0 <= i < |t| ensures SameTier(groups, t, t[i].cachegroup, t[i].cachegroup) {
      assert Reaches(t, origins, i);
      var d :| Distance(t, origins, i, d);
      assert SameDistance(t, origins, i, i);
    }
    forall a, b | SameTier(groups, t, a, b) ensures SameTier(groups, t, b, a) {
      var i, j :| 0 <= i < |t| && 0 <= j < |t| && t[i].cachegroup == a && t[j].cachegroup == b && SameDistance(t, origins, i, j);
      assert SameDistance(t, origins, j, i);
    }
    forall a, b, c | SameTier(groups, t, a, b) && SameTier(groups, t, b, c) ensures SameTier(groups, t, a, c) {
      TierTransitive(groups, t, a, b, c);
    }
  }

  lemma TierTransitive(groups: seq<CacheGroup>, t: Topology, a: string, b: string, c: string)
    requires UniqueGroups(t) && SameTier(groups, t, a, b) && SameTier(groups, t, b, c)
    ensures SameTier(groups, t, a, c)
  {
    var origins := OriginNodes(groups, t);
    var i, j :| 0 <= i < |t| && 0 <= j < |t| && t[i].cachegroup == a && t[j].cachegroup == b && SameDistance(t, origins, i, j);
    var k, l :| 0 <= k < |t| && 0 <= l < |t| && t[k].cachegroup == b && t[l].cachegroup == c && SameDistance(t, origins, k, l);
    assert j == k;
    var d :| Distance(t, origins, i, d) && Distance(t, origins, j, d);
    var e :| Distance(t, origins, k, e) && Distance(t, origins, l, e);
    DistanceUnique(t, origins, j, d, e);
    assert SameDistance(t, origins, i, l);
  }

  // ---------- servers of a tier ----------

  datatype Server = Server(id: int, cachegroup: string, status: string)

  // What a delivery service asks of its servers.
  datatype Service = Service(required: set<string>, regional: bool)

  predicate HasCapabilities(capabilities: map<int, set<string>>, id: int, required: set<string>) {
    required <= if id in capabilities then capabilities[id] else {}
  }

  // The server is among the tier peers of a server in cachegroup `cg`.
  ghost predicate IsPeer(ds: Service, cg: string, groups: seq<CacheGroup>, t: Topology, capabilities: map<int, set<string>>, sv: Server) {
    && sv.cachegroup != "" && sv.id != 0 && SameTier(groups, t, cg, sv.cachegroup)
    && HasCapabilities(capabilities, sv.id, ds.required) && (ds.regional ==> sv.cachegroup == cg)
  }

  ghost function Peers(ds: Service, cg: string, groups: seq<CacheGroup>, t: Topology, capabilities: map<int, set<string>>, servers: seq<Server>): seq<Server> {
    if servers == [] then []
    else
      var n := |servers| - 1;
      Peers(ds, cg, groups, t, capabilities, servers[..n])
      + if IsPeer(ds, cg, groups, t, capabilities, servers[n]) then [servers[n]] else []
  }

  /** getTopologyTierServers, without its warnings */
  method TierServers(ds: Service, cg: string, t: Topology, groups: seq<CacheGroup>, servers: seq<Server>, capabilities: map<int, set<string>>)
    returns (topoServers: seq<Server>)
    requires UniqueGroups(t) && Grounded(t, OriginNodes(groups, t))
    ensures topoServers == Peers(ds, cg, groups, t, capabilities, servers)
  {
    topoServers := [];
    var tier := CachegroupsInSameTier(cg, groups, t);
    for i := 0 to |servers|
      invariant topoServers == Peers(ds, cg, groups, t, capabilities, servers[..i])
    {
      hide SameTier;
      var sv := servers[i];
      assert servers[..i + 1][..i] == servers[..i];
      if sv.cachegroup == "" || sv.id == 0 || sv.cachegroup !in tier {
        continue;
      }
      if !HasCapabilities(capabilities, sv.id, ds.required) {
        continue;
      }
      if ds.regional && sv.cachegroup != cg {
        continue;
      }
      topoServers := topoServers + [sv];
    }
    assert servers[..|servers|] == servers;
  }

  /** Exactly the servers of the tier remain, each as often as it occurred: those with a cachegroup
      as far from its origin as `cg`, an id, every capability that is required, and for a regional
      service the same cachegroup. */
  lemma PeersExact(ds: Service, cg: string, groups: seq<CacheGroup>, t: Topology,
                   capabilities: map<int, set<string>>, servers: seq<Server>, sv: Server)
    ensures multiset(Peers(ds, cg, groups, t, capabilities, servers))[sv] ==
      if && sv.cachegroup != "" && sv.id != 0 && SameTier(groups, t, cg, sv.cachegroup)
         && (forall c | c in ds.required :: sv.id in capabilities && c in capabilities[sv.id])
         && (ds.regional ==> sv.cachegroup == cg)
      then multiset(servers)[sv] else 0
  {
    PeersCounted(ds, cg, groups, t, capabilities, servers, sv);
    hide SameTier, Peers;
  }

  lemma {:induction false} PeersCounted(ds: Service, cg: string, groups: seq<CacheGroup>, t: Topology,
                                        capabilities: map<int, set<string>>, servers: seq<Server>, sv: Server)
    ensures multiset(Peers(ds, cg, groups, t, capabilities, servers))[sv] ==
      if IsPeer(ds, cg, groups, t, capabilities, sv) then multiset(servers)[sv] else 0
  {
    hide IsPeer;
    if servers != [] {
      var front, last := servers[..|servers| - 1], servers[|servers| - 1];
      PeersCounted(ds, cg, groups, t, capabilities, front, sv);
      assert servers == front + [last];
      assert Peers(ds, cg, groups, t, capabilities, servers) == Peers(ds, cg, groups, t, capabilities, front)
        + if IsPeer(ds, cg, groups, t, capabilities, last) then [last] else [];
      hide Peers;
    }
  }

  // The peers that are online, which is what the origin's connections are shared among.
  function OnlineCount(servers: seq<Server>): nat {
    if servers == [] then 0
    else OnlineCount(servers[..|servers| - 1])
         + if Online(servers[|servers| - 1]) then 1 else 0
  }

  // It is the number of servers that are reported or online.
  lemma {:induction false} OnlineCounted(servers: seq<Server>)
    ensures OnlineCount(servers) == |set i | 0 <= i < |servers| && servers[i].status in {"REPORTED", "ONLINE"}|
  {
    var all := set i | 0 <= i < |servers| && servers[i].status in {"REPORTED", "ONLINE"};
    if servers == [] {
      assert all == {};
    } else {
      var n, before := |servers| - 1, servers[..|servers| - 1];
      OnlineCounted(before);
      var front := set i | 0 <= i < |before| && before[i].status in {"REPORTED", "ONLINE"};
      assert n !in front && forall i | 0 <= i < n :: before[i] == servers[i];
      if Online(servers[n]) {
        assert all == front + {n};
      } else {
        assert all == front;
      }
    }
  }

  // math.Round of the positive quotient m / n: to the nearest integer, halves up.
  function RoundQuotient(m: int, n: int): int
    requires n >= 1
  {
    (2 * m + n) / (2 * n)
  }

  // Whether a server counts among those the connections are shared by.
  predicate Online(sv: Server) {
    sv.status in {"REPORTED", "ONLINE"}
  }

  // The limit of the last-tier file of a server with `n` online peers, if there is one.
  function ConnectionLimit(maxConnections: Option<int>, n: int): Option<int> {
    if maxConnections.None? || maxConnections.value < 1 || n < 1 then None
    else
      var rounded := RoundQuotient(maxConnections.value, n);
      Some(if rounded < 1 then 1 else rounded)
  }

  // The limits of `n` servers add up to the maximum, as nearly as equal positive limits can.
  predicate Shares(maxConnections: int, n: int, limit: int) {
    if 2 * maxConnections < n then n * limit == n
    else maxConnections - n * limit <= n / 2 && n * limit - maxConnections <= n / 2
  }

  // All servers of a tier, unless the service is regional, see the same peers.
  lemma {:induction false} SamePeers(ds: Service, a: string, b: string, groups: seq<CacheGroup>, t: Topology,
                                     capabilities: map<int, set<string>>, servers: seq<Server>)
    requires UniqueGroups(t) && Grounded(t, OriginNodes(groups, t)) && !ds.regional && SameTier(groups, t, a, b)
    ensures Peers(ds, a, groups, t, capabilities, servers) == Peers(ds, b, groups, t, capabilities, servers)
  {
    if servers != [] {
      SamePeers(ds, a, b, groups, t, capabilities, servers[..|servers| - 1]);
      TiersAreEquivalence(groups, t);
      hide SameTier;
    }
  }

  lemma LimitRounds(maxConnections: int, n: int)
    requires maxConnections >= 1 && n >= 1
    ensures Shares(maxConnections, n, ConnectionLimit(Some(maxConnections), n).value)
  {
    var rounded := RoundQuotient(maxConnections, n);
    RoundedNearest(maxConnections, n);
    if 2 * maxConnections < n {
      if rounded >= 1 {
        MulMono(n, 1, rounded);
      }
    } else if rounded < 1 {
      MulMono(n, rounded + 1, 1);
    }
  }

  // A quotient halfway between two integers is rounded up.
  lemma HalfRoundsUp(m: int, n: int, k: int)
    requires n >= 1 && 2 * m == n * (2 * k + 1)
    ensures RoundQuotient(m, n) == k + 1
  {
    var r := RoundQuotient(m, n);
    RoundedNearest(m, n);
    assert 2 * m + n == 2 * (n * (k + 1));
    assert n * (r + 1) == n * r + n && n * (k + 2) == n * (k + 1) + n;
    if r < k + 1 {
      MulMono(n, r + 1, k + 1);
    } else if r > k + 1 {
      MulMono(n, k + 2, r);
    }
  }

  // math.Round of a positive number: halves up.
  function RoundReal(f: real): int {
    (f + 0.5).Floor
  }

  // 2^53
  const PRECISION := 9007199254740992.0

  /** `f` is what a 64-bit floating-point division of `m` by `n` may give: within half a unit of the
      last of 53 bits, and exact for a multiple of a half. */
  predicate IsFloatQuotient(m: int, n: int, f: real)
    requires n >= 1
  {
    && m as real - m as real / PRECISION <= f * n as real <= m as real + m as real / PRECISION
    && ((2 * m) % n == 0 ==> f * n as real == m as real)
  }

  /** Below 2^52 the error of the division does not matter: rounding it gives what rounding the
      exact quotient gives. */
  lemma FloatRounds(m: int, n: int, f: real)
    requires 1 <= m < 4503599627370496 && n >= 1 && IsFloatQuotient(m, n, f)
    ensures RoundReal(f) == RoundQuotient(m, n)
  {
    var r := RoundQuotient(m, n);
    RoundedNearest(m, n);
    var x := f * n as real;
    assert m as real / PRECISION < 0.5;
    assert x < (n * r) as real + n as real / 2.0 by {
      assert 2 * m + 1 <= 2 * (n * r) + n;
    }
    assert x >= (n * r) as real - n as real / 2.0 by {
      if 2 * m == 2 * (n * r) - n {
        HalfExact(m, n, r);
      } else {
        assert 2 * m >= 2 * (n * r) - n + 1;
      }
    }
    QuotientBounds(f, n, r);
  }

  lemma HalfExact(m: int, n: int, r: int)
    requires n >= 1 && 2 * m == 2 * (n * r) - n
    ensures (2 * m) % n == 0
  {
    assert 2 * m == n * (2 * r - 1);
    MultipleMod(n, 2 * r - 1);
  }

  lemma MultipleMod(n: int, k: int)
    requires n >= 1
    ensures (n * k) % n == 0
  {
    var q, r := (n * k) / n, (n * k) % n;
    assert n * k == n * q + r;
    assert r == n * (k - q);
    if k - q >= 1 {
      MulMono(n, 1, k - q);
    } else if k - q <= -1 {
      MulMono(n, k - q, -1);
    }
  }

  lemma QuotientBounds(f: real, n: int, r: int)
    requires n >= 1
    requires (n * r) as real - n as real / 2.0 <= f * n as real < (n * r) as real + n as real / 2.0
    ensures RoundReal(f) == r
  {
    var d, k := f - r as real, n as real;
    assert (n * r) as real == k * r as real;
    assert f * k == k * r as real + d * k;
    assert -0.5 <= d by {
      if d < -0.5 {
        RealMul(d, -0.5, k);
      }
    }
    assert d < 0.5 by {
      if d >= 0.5 {
        RealMul(0.5, d, k);
      }
    }
  }

  lemma RealMul(a: real, b: real, k: real)
    requires k > 0.0 && a <= b
    ensures a * k <= b * k && (a < b ==> a * k < b * k)
  {
  }

  lemma RoundedNearest(m: int, n: int)
    requires n >= 1
    ensures var r := RoundQuotient(m, n); 2 * (n * r) <= 2 * m + n < 2 * (n * r) + 2 * n
  {
    var r, k := RoundQuotient(m, n), 2 * n;
    assert 2 * m + n == k * r + (2 * m + n) % k;
    assert k * r == 2 * (n * r);
  }

  lemma MulMono(n: int, a: int, b: int)
    requires n >= 0 && a <= b
    ensures n * a <= n * b
  {
  }

  // ---------- placement in the topology ----------

  // Where a cachegroup stands; `Malformed` is the error of a first parent that cannot be looked up.
  datatype Placement =
    | NotInTopology
    | Malformed
    | Placed(isFirst: bool, isInner: bool, isLastCache: bool, isLast: bool)

  // The first node of a cachegroup.
  predicate IsNodeOf(t: Topology, cg: string, i: int) {
    0 <= i < |t| && t[i].cachegroup == cg && forall j | 0 <= j < i :: t[j].cachegroup != cg
  }

  predicate HasChild(t: Topology, i: int) {
    exists j :: 0 <= j < |t| && i in t[j].parents
  }

  // The type of the first parent's cachegroup, if it can be told; `kinds` maps a name to its type.
  function FirstParentKind(t: Topology, kinds: map<string, Option<string>>, i: int): Option<string>
    requires 0 <= i < |t| && t[i].parents != [] && t[i].parents[0] >= 0
  {
    var p := t[i].parents[0];
    if p >= |t| || t[p].cachegroup !in kinds then None else kinds[t[p].cachegroup]
  }

  // Parents are not negative, which would be out of the slice's range.
  predicate ParentsNatural(t: Topology) {
    forall i | 0 <= i < |t| && t[i].parents != [] :: t[i].parents[0] >= 0
  }

  // The node has no parents, or an origin as its first one.
  predicate OnLastCache(t: Topology, kinds: map<string, Option<string>>, i: int)
    requires 0 <= i < |t| && ParentsNatural(t)
  {
    t[i].parents == [] || FirstParentKind(t, kinds, i) == Some(ORIGIN_TYPE)
  }

  /** getTopologyPlacement: it looks at the first node of the cachegroup, and only at that node's
      first parent. */
  method GetTopologyPlacement(cg: string, t: Topology, kinds: map<string, Option<string>>, mso: bool) returns (p: Placement)
    requires ParentsNatural(t)
    ensures p.NotInTopology? <==> cg == "" || forall i | 0 <= i < |t| :: t[i].cachegroup != cg
    ensures forall i | cg != "" && IsNodeOf(t, cg, i) ::
      var top := t[i].parents == [];
      && (p.Malformed? <==> !top && FirstParentKind(t, kinds, i).None?)
      && (p.Placed? ==>
            && (p.isFirst <==> !HasChild(t, i)) && (p.isLastCache <==> OnLastCache(t, kinds, i))
            && (p.isInner <==> !p.isFirst && !p.isLastCache) && (p.isLast <==> top || (p.isLastCache && !mso)))
  {
    var index := 0;
    while index < |t| && t[index].cachegroup != cg
      invariant 0 <= index <= |t| && forall j | 0 <= j < index :: t[j].cachegroup != cg
    {
      index := index + 1;
    }
    if index == |t| || cg == "" {
      return NotInTopology;
    }
    var hasChildren := false;
    for j := 0 to |t|
      invariant hasChildren <==> exists x :: 0 <= x < j && index in t[x].parents
    {
      hasChildren := hasChildren || index in t[j].parents;
    }
    var parents, origin := t[index].parents, false;
    if parents != [] {
      var kind := FirstParentKind(t, kinds, index);
      if kind.None? {
        return Malformed;
      }
      origin := kind.value == ORIGIN_TYPE;
    }
    p := Placed(!hasChildren, hasChildren && parents != [] && !origin, parents == [] || origin, parents == [] || (origin && !mso));
  }

  // The map of types agrees with the list of cachegroups on which are origins.
  ghost predicate KindsOf(kinds: map<string, Option<string>>, groups: seq<CacheGroup>) {
    forall name :: name in kinds && kinds[name] == Some(ORIGIN_TYPE) <==> IsOriginGroup(groups, name)
  }

  // If any parent is an origin, the first one is.
  ghost predicate OriginFirst(t: Topology, origins: set<int>, i: int)
    requires 0 <= i < |t|
  {
    (exists p :: p in t[i].parents && p in origins) ==> t[i].parents[0] in origins
  }

  /** The last cache tier, which placement tells by the first parent, is distance one, which is
      told by any parent, if and only if no node has an origin among its later parents only. */
  lemma LastTierIsDistanceOneIff(t: Topology, kinds: map<string, Option<string>>, groups: seq<CacheGroup>, i: int)
    requires 0 <= i < |t| && ParentsNatural(t) && KindsOf(kinds, groups)
    ensures var origins := OriginNodes(groups, t);
      (OnLastCache(t, kinds, i) <==> Distance(t, origins, i, 1)) <==> OriginFirst(t, origins, i)
  {
    var origins := OriginNodes(groups, t);
    hide IsOriginGroup;
    if t[i].parents != [] {
      var p := t[i].parents[0];
      assert FirstParentKind(t, kinds, i) == Some(ORIGIN_TYPE) <==> p in origins;
      assert p in t[i].parents;
    }
  }

  // An edge with a mid as its first parent and an origin as its second.
  const MIXED: Topology := [Node("edge", [1, 2]), Node("mid", []), Node("org", [])]
  const MIXED_GROUPS := [CacheGroup(Some("mid"), Some("MID_LOC")), CacheGroup(Some("org"), Some(ORIGIN_TYPE))]
  const MIXED_KINDS: map<string, Option<string>> := map["mid" := Some("MID_LOC"), "org" := Some(ORIGIN_TYPE)]

  // A node whose second parent is an origin is at distance one, and not on the last cache tier.
  lemma LaterOriginDisagrees()
    ensures 2 in OriginNodes(MIXED_GROUPS, MIXED) && 1 !in OriginNodes(MIXED_GROUPS, MIXED)
    ensures forall i | 0 <= i < 3 :: Distance(MIXED, OriginNodes(MIXED_GROUPS, MIXED), i, 1)
    ensures FirstParentKind(MIXED, MIXED_KINDS, 0) == Some("MID_LOC")
  {
    assert MIXED_GROUPS[1] == CacheGroup(Some(MIXED[2].cachegroup), Some(ORIGIN_TYPE));
    assert IsOriginGroup(MIXED_GROUPS, MIXED[2].cachegroup);
    assert MIXED[0].parents[1] == 2;
  }

  // ---------- what the servers of a tier are given ----------

  // A delivery service on a topology, with all that decides about its connection limits.
  datatype Plan = Plan(ds: Service, t: Topology, groups: seq<CacheGroup>, kinds: map<string, Option<string>>,
                       capabilities: map<int, set<string>>, servers: seq<Server>, maxConnections: Option<int>) {
    ghost predicate Ok() {
      UniqueGroups(t) && Grounded(t, OriginNodes(groups, t)) && ParentsNatural(t) && KindsOf(kinds, groups)
    }

    // The cachegroup's placement is the last cache tier, so its servers get the last-tier file.
    predicate LastCache(cg: string)
      requires ParentsNatural(t)
    {
      exists i :: 0 <= i < |t| && t[i].cachegroup == cg && OnLastCache(t, kinds, i)
    }

    ghost function PeersOf(cg: string): seq<Server> {
      Peers(ds, cg, groups, t, capabilities, servers)
    }

    // The limit in a server's configuration: from the last-tier file, which it has or has not.
    ghost function LimitOf(cg: string): Option<int>
      requires ParentsNatural(t)
    {
      if LastCache(cg) then ConnectionLimit(maxConnections, OnlineCount(PeersOf(cg))) else None
    }

    // No node of the cachegroup has an origin among its later parents only.
    ghost predicate OriginsFirst(cg: string) {
      forall i | 0 <= i < |t| && t[i].cachegroup == cg :: OriginFirst(t, OriginNodes(groups, t), i)
    }

    // The limits of online servers, added up.
    ghost function HandedOut(svs: seq<Server>): int
      requires ParentsNatural(t)
    {
      if svs == [] then 0
      else
        var n := |svs| - 1;
        var limit := LimitOf(svs[n].cachegroup);
        HandedOut(svs[..n]) + if Online(svs[n]) && limit.Some? then limit.value else 0
    }
  }

  // Of a tier that reaches the last cache tier, a node is on it exactly if its origins come first.
  lemma TierOnLastCache(p: Plan, i: int, j: int)
    requires p.Ok() && 0 <= i < |p.t| && 0 <= j < |p.t| && OnLastCache(p.t, p.kinds, i)
    requires SameDistance(p.t, OriginNodes(p.groups, p.t), i, j)
    ensures OnLastCache(p.t, p.kinds, j) <==> OriginFirst(p.t, OriginNodes(p.groups, p.t), j)
  {
    var origins := OriginNodes(p.groups, p.t);
    OnLastCacheNear(p, i);
    var d :| Distance(p.t, origins, i, d) && Distance(p.t, origins, j, d);
    DistanceUnique(p.t, origins, i, d, 1);
    hide OriginNodes, Grounded, KindsOf, OriginFirst;
    LastTierIsDistanceOneIff(p.t, p.kinds, p.groups, j);
  }

  lemma OnLastCacheNear(p: Plan, i: int)
    requires p.Ok() && 0 <= i < |p.t| && OnLastCache(p.t, p.kinds, i)
    ensures Distance(p.t, OriginNodes(p.groups, p.t), i, 1)
  {
    hide IsOriginGroup;
    if p.t[i].parents != [] {
      assert p.t[i].parents[0] in p.t[i].parents;
    }
  }

  // A peer of a server on the last cache tier is on it too exactly if its origins come first.
  lemma PeerOnLastCache(p: Plan, a: string, b: string)
    requires p.Ok() && p.LastCache(a) && SameTier(p.groups, p.t, a, b)
    ensures p.LastCache(b) <==> p.OriginsFirst(b)
  {
    var origins := OriginNodes(p.groups, p.t);
    var i, j :| 0 <= i < |p.t| && 0 <= j < |p.t| && p.t[i].cachegroup == a && p.t[j].cachegroup == b && SameDistance(p.t, origins, i, j);
    assert OnLastCache(p.t, p.kinds, i) by {
      var k :| 0 <= k < |p.t| && p.t[k].cachegroup == a && OnLastCache(p.t, p.kinds, k);
      assert k == i;
    }
    TierOnLastCache(p, i, j);
    assert forall k | 0 <= k < |p.t| && p.t[k].cachegroup == b :: k == j;
    hide OriginNodes, Grounded, KindsOf, OriginFirst, OnLastCache, SameDistance, UniqueGroups;
  }

  // Every peer counts the same peers.
  lemma PeersCountPeers(p: Plan, a: string, sv: Server)
    requires p.Ok() && IsPeer(p.ds, a, p.groups, p.t, p.capabilities, sv)
    ensures p.PeersOf(sv.cachegroup) == p.PeersOf(a)
  {
    if !p.ds.regional {
      SamePeers(p.ds, a, sv.cachegroup, p.groups, p.t, p.capabilities, p.servers);
    }
  }

  lemma {:induction false} PeersArePeers(ds: Service, cg: string, groups: seq<CacheGroup>, t: Topology,
                                         capabilities: map<int, set<string>>, servers: seq<Server>)
    ensures forall sv | sv in Peers(ds, cg, groups, t, capabilities, servers) :: IsPeer(ds, cg, groups, t, capabilities, sv)
  {
    if servers != [] {
      PeersArePeers(ds, cg, groups, t, capabilities, servers[..|servers| - 1]);
      hide IsPeer;
    }
  }

  lemma PeerLimit(p: Plan, a: string, sv: Server)
    requires p.Ok() && p.LastCache(a) && IsPeer(p.ds, a, p.groups, p.t, p.capabilities, sv)
    ensures p.LimitOf(sv.cachegroup) ==
      if p.OriginsFirst(sv.cachegroup) then ConnectionLimit(p.maxConnections, OnlineCount(p.PeersOf(a))) else None
  {
    PeersCountPeers(p, a, sv);
    PeerOnLastCache(p, a, sv.cachegroup);
  }

  // Servers that get a common limit or none get at most that much, and all of it if none gets none.
  lemma {:induction false} HandedOutIff(p: Plan, svs: seq<Server>, limit: int)
    requires ParentsNatural(p.t) && limit >= 1
    requires forall sv | sv in svs :: p.LimitOf(sv.cachegroup) == if p.OriginsFirst(sv.cachegroup) then Some(limit) else None
    ensures p.HandedOut(svs) <= OnlineCount(svs) * limit
    ensures p.HandedOut(svs) == OnlineCount(svs) * limit <==>
      forall sv | sv in svs && Online(sv) :: p.OriginsFirst(sv.cachegroup)
  {
    if svs != [] {
      var front, last := svs[..|svs| - 1], svs[|svs| - 1];
      assert svs == front + [last];
      HandedOutIff(p, front, limit);
      OnlineTimes(front, last, limit);
      hide p.OriginsFirst, p.LimitOf, Online;
      assert forall sv :: sv in svs <==> sv in front || sv == last;
    }
  }

  lemma OnlineTimes(front: seq<Server>, last: Server, limit: int)
    ensures OnlineCount(front + [last]) * limit == OnlineCount(front) * limit + if Online(last) then limit else 0
  {
    assert (front + [last])[..|front|] == front;
  }

  /** Around a cachegroup on the last cache tier, with `n` online peers: every peer counts the same
      `n`; a peer gets the common limit if its origins come first and none otherwise; `n` limits
      add up to the maximum within half a connection per server, or to one per server when the
      maximum is less than half of them; and the limits of the online peers do add up to `n`
      limits if and only if the origins of every one of them come first. */
  lemma TierSharesConnections(p: Plan, a: string)
    requires p.Ok() && p.LastCache(a)
    ensures var peers := p.PeersOf(a); var n := OnlineCount(peers);
      && (forall sv | sv in peers :: OnlineCount(p.PeersOf(sv.cachegroup)) == n)
      && (p.LimitOf(a).Some? <==> p.maxConnections.Some? && p.maxConnections.value >= 1 && n >= 1)
      && (p.LimitOf(a).Some? ==>
            var limit := p.LimitOf(a).value;
            && limit >= 1 && Shares(p.maxConnections.value, n, limit)
            && (forall sv | sv in peers :: p.LimitOf(sv.cachegroup) == if p.OriginsFirst(sv.cachegroup) then Some(limit) else None)
            && p.HandedOut(peers) <= n * limit
            && (p.HandedOut(peers) == n * limit <==> forall sv | sv in peers && Online(sv) :: p.OriginsFirst(sv.cachegroup)))
  {
    var peers := p.PeersOf(a);
    var n := OnlineCount(peers);
    PeersArePeers(p.ds, a, p.groups, p.t, p.capabilities, p.servers);
    assert ParentsNatural(p.t);
    hide p.Ok, p.OriginsFirst, IsPeer, Peers, Shares;
    forall sv | sv in peers ensures OnlineCount(p.PeersOf(sv.cachegroup)) == n {
      PeersCountPeers(p, a, sv);
    }
    if p.LimitOf(a).Some? {
      var limit := p.LimitOf(a).value;
      LimitRounds(p.maxConnections.value, n);
      forall sv | sv in peers ensures p.LimitOf(sv.cachegroup) == if p.OriginsFirst(sv.cachegroup) then Some(limit) else None {
        PeerLimit(p, a, sv);
      }
      HandedOutIff(p, peers, limit);
    }
  }

  // One server of each of the two caches, and ten connections.
  const MIXED_PLAN := Plan(Service({}, false), MIXED, MIXED_GROUPS, MIXED_KINDS, map[],
                           [Server(1, "edge", "ONLINE"), Server(2, "mid", "ONLINE")], Some(10))

  lemma MixedPlanOk()
    ensures MIXED_PLAN.Ok() && MIXED_PLAN.LastCache("mid") && !MIXED_PLAN.LastCache("edge")
    ensures SameTier(MIXED_GROUPS, MIXED, "mid", "edge") && SameTier(MIXED_GROUPS, MIXED, "mid", "mid")
  {
    var origins := OriginNodes(MIXED_GROUPS, MIXED);
    LaterOriginDisagrees();
    hide Distance;
    assert Distance(MIXED, origins, 0, 1) && Distance(MIXED, origins, 1, 1);
    forall i | 0 <= i < |MIXED| ensures Reaches(MIXED, origins, i) {
      assert Distance(MIXED, origins, i, 1);
    }
    assert SameDistance(MIXED, origins, 1, 0) && SameDistance(MIXED, origins, 1, 1);
    assert MIXED[0].cachegroup == "edge" && MIXED[1].cachegroup == "mid";
    MixedKinds();
    hide IsOriginGroup;
    assert OnLastCache(MIXED, MIXED_KINDS, 1);
  }

  lemma MixedKinds()
    ensures KindsOf(MIXED_KINDS, MIXED_GROUPS)
  {
    forall name ensures name in MIXED_KINDS && MIXED_KINDS[name] == Some(ORIGIN_TYPE) <==> IsOriginGroup(MIXED_GROUPS, name) {
      assert MIXED_GROUPS[1] == CacheGroup(Some("org"), Some(ORIGIN_TYPE));
    }
  }

  /** The two servers are one tier and count each other, but only the mid gets a limit: five of
      the ten connections are handed out. */
  lemma LaterOriginGetsNone()
    ensures MIXED_PLAN.PeersOf("mid") == MIXED_PLAN.servers
    ensures ParentsNatural(MIXED) && MIXED_PLAN.LimitOf("mid") == Some(5) && MIXED_PLAN.LimitOf("edge") == None
    ensures MIXED_PLAN.HandedOut(MIXED_PLAN.servers) == 5
  {
    MixedPlanOk();
    var p := MIXED_PLAN;
    MixedPeers();
    assert OnlineCount(p.servers) == 2 by {
      assert p.servers[..1] == [p.servers[0]] && p.servers[..1][..0] == [];
      assert OnlineCount([p.servers[0]]) == 1;
    }
    hide p.Ok, p.LastCache, p.PeersOf;
    assert p.servers[..1] == [p.servers[0]] && p.servers[..1][..0] == [];
    assert p.HandedOut([]) == 0;
    assert p.HandedOut([p.servers[0]]) == 0;
  }

  lemma MixedPeers()
    requires SameTier(MIXED_GROUPS, MIXED, "mid", "edge") && SameTier(MIXED_GROUPS, MIXED, "mid", "mid")
    ensures MIXED_PLAN.PeersOf("mid") == MIXED_PLAN.servers
  {
    hide SameTier;
    var p := MIXED_PLAN;
    var sv := p.servers;
    assert sv[..1] == [sv[0]] && [sv[0]][..0] == [];
    assert IsPeer(p.ds, "mid", p.groups, p.t, p.capabilities, sv[0]) && IsPeer(p.ds, "mid", p.groups, p.t, p.capabilities, sv[1]);
    assert Peers(p.ds, "mid", p.groups, p.t, p.capabilities, [sv[0]]) == [sv[0]];
    assert Peers(p.ds, "mid", p.groups, p.t, p.capabilities, sv) == [sv[0]] + [sv[1]];
  }
}
