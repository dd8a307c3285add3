/** Layered profiles: a server has an ordered list of profiles, and a parameter of an earlier
    profile overrides one with the same name and config file of a later profile. */
module Layering {
  import opened Params

  datatype ParamKey = ParamKey(name: string, configFile: string)

  function KeyOf(p: Param): ParamKey {
    ParamKey(p.name, p.configFile)
  }

  // A parameter and the profiles it is on.
  datatype Assigned = Assigned(param: Param, profiles: set<string>)

  // The parameters on a profile, in the order given.
  function On(params: seq<Assigned>, profile: string): seq<Param> {
    if params == [] then []
    else
      var last := params[|params| - 1];
      On(params[..|params| - 1], profile) + if profile in last.profiles then [last.param] else []
  }

  // `at` are the places of the parameters assigned to the profile, and `on` those parameters.
  predicate IsPlaces(params: seq<Assigned>, profile: string, on: seq<Param>, at: seq<nat>) {
    && |at| == |on| && (forall i, j | 0 <= i < j < |at| :: at[i] < at[j])
    && (forall i | 0 <= i < |at| :: at[i] < |params| && profile in params[at[i]].profiles && on[i] == params[at[i]].param)
    && (forall n: nat | n < |params| && profile in params[n].profiles :: n in at)
  }

  // On gives the parameters assigned to a profile, all of them, in the order in which they are given.
  lemma {:induction false} OnExact(params: seq<Assigned>, profile: string) returns (at: seq<nat>)
    ensures IsPlaces(params, profile, On(params, profile), at)
  {
    at := [];
    if params != [] {
      var n := |params| - 1;
      at := OnExact(params[..n], profile);
      assert params == params[..n] + [params[n]];
      hide IsPlaces;
      PlacesSnoc(params[..n], params[n], profile, On(params[..n], profile), at);
      at := at + if profile in params[n].profiles then [n] else [];
    }
  }

  lemma PlacesSnoc(params: seq<Assigned>, a: Assigned, profile: string, on: seq<Param>, at: seq<nat>)
    requires IsPlaces(params, profile, on, at)
    ensures var own := profile in a.profiles;
      IsPlaces(params + [a], profile, on + (if own then [a.param] else []), at + (if own then [|params|] else []))
  {
    var all, own := params + [a], profile in a.profiles;
    var on', at' := on + (if own then [a.param] else []), at + (if own then [|params|] else []);
    forall i | 0 <= i < |at'|
      ensures at'[i] < |all| && profile in all[at'[i]].profiles && on'[i] == all[at'[i]].param
    {
      if i < |at| {
        assert at'[i] == at[i] && all[at[i]] == params[at[i]];
      }
    }
    forall n: nat | n < |all| && profile in all[n].profiles ensures n in at' {
      if n < |params| {
        assert all[n] == params[n] && n in at;
      } else {
        assert at'[|at|] == n;
      }
    }
  }

  predicate Has(ps: seq<Param>, key: ParamKey) {
    exists i :: 0 <= i < |ps| && KeyOf(ps[i]) == key
  }

  // `p` is the last of `ps` with its key.
  predicate LastOfKey(ps: seq<Param>, p: Param) {
    exists i :: 0 <= i < |ps| && ps[i] == p && forall j | i < j < |ps| :: KeyOf(ps[j]) != KeyOf(p)
  }

  /** `p` is in force for its key: the earliest listed profile with a parameter of that key has
      it, as the last of its parameters with that key. */
  ghost predicate InForce(profiles: seq<string>, params: seq<Assigned>, p: Param) {
    exists i :: 0 <= i < |profiles| && DecidedBy(profiles, params, p, i)
  }

  ghost predicate DecidedBy(profiles: seq<string>, params: seq<Assigned>, p: Param, i: nat)
    requires i < |profiles|
  {
    LastOfKey(On(params, profiles[i]), p) && forall j | 0 <= j < i :: !Has(On(params, profiles[j]), KeyOf(p))
  }

  // A listed profile has a parameter of this key.
  predicate OnSome(profiles: seq<string>, params: seq<Assigned>, key: ParamKey) {
    exists i :: 0 <= i < |profiles| && Has(On(params, profiles[i]), key)
  }

  // ---------- the layered map ----------

  // Writing a profile's parameters over a map, in order.
  function Overlay(m: map<ParamKey, Param>, ps: seq<Param>): map<ParamKey, Param> {
    if ps == [] then m
    else
      var n := |ps| - 1;
      Overlay(m, ps[..n])[KeyOf(ps[n]) := ps[n]]
  }

  function Layered(profiles: seq<string>, params: seq<Assigned>): map<ParamKey, Param> {
    if profiles == [] then map[] else Overlay(Layered(profiles[1..], params), On(params, profiles[0]))
  }

  // An overlay is the map overridden by what the list alone would give.
  lemma {:induction false} OverlayMerges(m: map<ParamKey, Param>, ps: seq<Param>)
    ensures Overlay(m, ps) == m + Overlay(map[], ps)
  {
    if ps != [] {
      OverlayMerges(m, ps[..|ps| - 1]);
    }
  }

  /** Layering a list of profiles in front of another is layering the others and overriding them
      with the first. */
  lemma {:induction false} LayersConcat(ps: seq<string>, qs: seq<string>, params: seq<Assigned>)
    ensures Layered(ps + qs, params) == Layered(qs, params) + Layered(ps, params)
  {
    if ps == [] {
      assert ps + qs == qs;
    } else {
      assert (ps + qs)[1..] == ps[1..] + qs;
      LayersConcat(ps[1..], qs, params);
      var first := On(params, ps[0]);
      hide On, Overlay, Layered;
      LayeredCons(ps, params);
      LayeredCons(ps + qs, params);
      OverlayMerges(Layered((ps + qs)[1..], params), first);
      OverlayMerges(Layered(ps[1..], params), first);
      MergeAssociates(Layered(qs, params), Layered(ps[1..], params), Overlay(map[], first));
    }
  }

  lemma MergeAssociates(a: map<ParamKey, Param>, b: map<ParamKey, Param>, c: map<ParamKey, Param>)
    ensures a + b + c == a + (b + c)
  {
  }

  lemma LayeredCons(ps: seq<string>, params: seq<Assigned>)
    requires ps != []
    ensures Layered(ps, params) == Overlay(Layered(ps[1..], params), On(params, ps[0]))
  {
  }

  lemma {:induction false} OverlayExact(m: map<ParamKey, Param>, ps: seq<Param>, key: ParamKey)
    ensures key in Overlay(m, ps) <==> Has(ps, key) || key in m
    ensures !Has(ps, key) && key in m ==> Overlay(m, ps)[key] == m[key]
    ensures Has(ps, key) ==> KeyOf(Overlay(m, ps)[key]) == key && LastOfKey(ps, Overlay(m, ps)[key])
  {
    if ps != [] {
      var front, last := ps[..|ps| - 1], ps[|ps| - 1];
      assert ps == front + [last];
      OverlayExact(m, front, key);
      HasSnoc(front, last, key);
      assert LastOfKey(ps, last);
      if key in Overlay(m, front) && KeyOf(last) != key && Has(front, key) {
        LastSnoc(front, last, Overlay(m, front)[key]);
      }
      hide Has, LastOfKey;
    }
  }

  lemma HasSnoc(ps: seq<Param>, last: Param, key: ParamKey)
    ensures Has(ps + [last], key) <==> Has(ps, key) || KeyOf(last) == key
  {
    var all := ps + [last];
    assert all[|ps|] == last;
    if Has(ps, key) {
      var i :| 0 <= i < |ps| && KeyOf(ps[i]) == key;
      assert all[i] == ps[i];
    }
    if Has(all, key) {
      var i :| 0 <= i < |all| && KeyOf(all[i]) == key;
      assert i < |ps| ==> ps[i] == all[i];
    }
  }

  lemma LastSnoc(ps: seq<Param>, last: Param, p: Param)
    requires LastOfKey(ps, p) && KeyOf(last) != KeyOf(p)
    ensures LastOfKey(ps + [last], p)
  {
    var all := ps + [last];
    var k :| 0 <= k < |ps| && ps[k] == p && forall j | k < j < |ps| :: KeyOf(ps[j]) != KeyOf(p);
    assert all[k] == p;
    assert forall j | k < j < |all| :: all[j] == if j < |ps| then ps[j] else last;
  }

  // The layered map holds a key exactly when a listed profile has it, with the parameter in force.
  lemma {:induction false} LayeredExact(profiles: seq<string>, params: seq<Assigned>, key: ParamKey)
    ensures key in Layered(profiles, params) <==> OnSome(profiles, params, key)
    ensures key in Layered(profiles, params) ==>
      KeyOf(Layered(profiles, params)[key]) == key && InForce(profiles, params, Layered(profiles, params)[key])
  {
    if profiles != [] {
      hide Layered, Overlay, On, Has, LastOfKey;
      LayeredCons(profiles, params);
      var rest, first := profiles[1..], On(params, profiles[0]);
      LayeredExact(rest, params, key);
      OverlayExact(Layered(rest, params), first, key);
      if Has(first, key) {
        assert DecidedBy(profiles, params, Layered(profiles, params)[key], 0);
      } else if key in Layered(rest, params) {
        var p := Layered(rest, params)[key];
        var i :| 0 <= i < |rest| && DecidedBy(rest, params, p, i);
        assert profiles[i + 1] == rest[i];
        forall j | 0 <= j < i + 1 ensures !Has(On(params, profiles[j]), KeyOf(p)) {
          if j > 0 {
            assert profiles[j] == rest[j - 1];
          }
        }
        assert DecidedBy(profiles, params, p, i + 1);
      }
      if OnSome(profiles, params, key) {
        var i :| 0 <= i < |profiles| && Has(On(params, profiles[i]), key);
        if i > 0 {
          assert rest[i - 1] == profiles[i];
        }
      }
    }
  }

  // At most one parameter is in force for a key.
  lemma InForceUnique(profiles: seq<string>, params: seq<Assigned>, p: Param, q: Param)
    requires InForce(profiles, params, p) && InForce(profiles, params, q) && KeyOf(p) == KeyOf(q)
    ensures p == q
  {
  }

  lemma LayeredHolds(profiles: seq<string>, params: seq<Assigned>, p: Param)
    ensures InForce(profiles, params, p) <==> KeyOf(p) in Layered(profiles, params) && Layered(profiles, params)[KeyOf(p)] == p
  {
    LayeredExact(profiles, params, KeyOf(p));
    if InForce(profiles, params, p) {
      var i :| 0 <= i < |profiles| && DecidedBy(profiles, params, p, i);
      assert Has(On(params, profiles[i]), KeyOf(p));
      InForceUnique(profiles, params, p, Layered(profiles, params)[KeyOf(p)]);
    }
  }

  // ---------- layerProfilesFromMap ----------

  lemma OnSnoc(params: seq<Assigned>, a: Assigned, profile: string)
    ensures On(params + [a], profile) == On(params, profile) + if profile in a.profiles then [a.param] else []
  {
  }

  // The parameters of each profile; a profile without any is not a key.
  method GroupByProfile(params: seq<Assigned>) returns (all: map<string, seq<Param>>)
    ensures forall profile :: On(params, profile) == Listed(all, profile)
  {
    hide On;
    all := map[];
    assert forall profile :: On([], profile) == [] by { NoneOn(); }
    for i := 0 to |params|
      invariant forall profile :: On(params[..i], profile) == Listed(all, profile)
    {
      var a, left := params[i], params[i].profiles;
      assert params[..i + 1] == params[..i] + [a];
      while left != {}
        invariant left <= a.profiles
        invariant forall profile :: Listed(all, profile) == On(params[..i], profile) + Again(a, left, profile)
      {
        var profile :| profile in left;
        all := all[profile := Listed(all, profile) + [a.param]];
        left := left - {profile};
      }
      forall profile ensures On(params[..i + 1], profile) == Listed(all, profile) {
        OnSnoc(params[..i], a, profile);
      }
    }
    assert params[..|params|] == params;
  }

  // What is appended to a profile's list while `left` of the parameter's profiles remain.
  function Again(a: Assigned, left: set<string>, profile: string): seq<Param> {
    if profile in a.profiles && profile !in left then [a.param] else []
  }

  // A map lookup that gives the empty list for a missing profile.
  function Listed(all: map<string, seq<Param>>, profile: string): seq<Param> {
    if profile in all then all[profile] else []
  }

  lemma NoneOn()
    ensures forall profile :: On([], profile) == []
  {
  }

  /** Exactly the parameters in force, one for each name and config file on a listed profile. */
  method LayerProfiles(profiles: seq<string>, params: seq<Assigned>) returns (r: seq<Param>)
    ensures forall p :: p in r <==> InForce(profiles, params, p)
    ensures forall i, j | 0 <= i < j < |r| :: KeyOf(r[i]) != KeyOf(r[j])
    ensures forall key :: Has(r, key) <==> OnSome(profiles, params, key)
  {
    hide On, Overlay, Layered, InForce;
    var all := GroupByProfile(params);
    var layered: map<ParamKey, Param> := map[];
    assert Layered([], params) == map[] by { NoLayers(params); }
    var i := |profiles|;
    assert profiles[i..] == [];
    while i > 0
      invariant 0 <= i <= |profiles|
      invariant layered == Layered(profiles[i..], params)
    {
      i := i - 1;
      layered := OverlayAll(layered, Listed(all, profiles[i]));
      LayeredCons(profiles[i..], params);
      assert profiles[i..][1..] == profiles[i + 1..];
    }
    assert profiles[0..] == profiles;
    forall key ensures key in layered ==> KeyOf(layered[key]) == key {
      LayeredExact(profiles, params, key);
    }
    r := Flatten(layered);
    forall p ensures p in r <==> InForce(profiles, params, p) {
      LayeredHolds(profiles, params, p);
    }
    forall key ensures Has(r, key) <==> OnSome(profiles, params, key) {
      LayeredExact(profiles, params, key);
      if key in layered {
        assert layered[key] in r;
      }
    }
  }

  lemma NoLayers(params: seq<Assigned>)
    ensures Layered([], params) == map[]
  {
  }

  // The inner loop over one profile's parameters.
  method OverlayAll(m: map<ParamKey, Param>, ps: seq<Param>) returns (r: map<ParamKey, Param>)
    ensures r == Overlay(m, ps)
  {
    r := m;
    for i := 0 to |ps|
      invariant r == Overlay(m, ps[..i])
    {
      assert ps[..i + 1][..i] == ps[..i];
      r := r[KeyOf(ps[i]) := ps[i]];
    }
    assert ps[..|ps|] == ps;
  }

  // `r` holds the entries of `m` except those still in `left`, each once.
  ghost predicate Flattened(m: map<ParamKey, Param>, left: map<ParamKey, Param>, r: seq<Param>) {
    && (forall p :: p in r <==> KeyOf(p) in m && m[KeyOf(p)] == p && KeyOf(p) !in left)
    && (forall i, j | 0 <= i < j < |r| :: KeyOf(r[i]) != KeyOf(r[j]))
  }

  lemma FlattenNext(m: map<ParamKey, Param>, left: map<ParamKey, Param>, r: seq<Param>, key: ParamKey)
    requires Flattened(m, left, r) && key in left && key in m && KeyOf(m[key]) == key
    ensures Flattened(m, left - {key}, r + [m[key]])
  {
    var all := r + [m[key]];
    forall p ensures p in all <==> KeyOf(p) in m && m[KeyOf(p)] == p && KeyOf(p) !in left - {key} {
      assert p in all <==> p in r || p == m[key];
    }
    forall i, j | 0 <= i < j < |all| ensures KeyOf(all[i]) != KeyOf(all[j]) {
      assert i < |r| && all[i] == r[i] && r[i] in r;
    }
  }

  // The values of the layered map, in whatever order it is visited.
  method Flatten(m: map<ParamKey, Param>) returns (r: seq<Param>)
    requires forall key | key in m :: KeyOf(m[key]) == key
    ensures forall p :: p in r <==> KeyOf(p) in m && m[KeyOf(p)] == p
    ensures forall i, j | 0 <= i < j < |r| :: KeyOf(r[i]) != KeyOf(r[j])
  {
    r := [];
    var left := m;
    while left != map[]
      invariant (forall key | key in left :: key in m && left[key] == m[key]) && Flattened(m, left, r)
      decreases |left|
    {
      hide Flattened, KeyOf;
      var key :| key in left;
      FlattenNext(m, left, r, key);
      r := r + [left[key]];
      left := left - {key};
    }
  }
}
