/** Parameters of a profile: filtering, keeping one value per name, and the generic config text.
    Strings compare as Go strings do; comparing UTF-8 bytes and comparing code points agree. */
module Params {
  import opened Text

  datatype Param = Param(name: string, configFile: string, value: string)

  // ---------- the order of strings ----------

  predicate Less(a: string, b: string) {
    b != [] && (a == [] || a[0] < b[0] || (a[0] == b[0] && Less(a[1..], b[1..])))
  }

  predicate AtMost(a: string, b: string) {
    !Less(b, a)
  }

  lemma {:induction false} LessTotal(a: string, b: string)
    ensures Less(a, b) || a == b || Less(b, a)
    ensures Less(a, b) ==> !Less(b, a)
  {
    if a != [] && b != [] {
      LessTotal(a[1..], b[1..]);
      assert a == [a[0]] + a[1..] && b == [b[0]] + b[1..];
    }
  }

  lemma {:induction false} LessTransitive(a: string, b: string, c: string)
    requires Less(a, b) && Less(b, c)
    ensures Less(a, c)
  {
    if a != [] && a[0] == b[0] == c[0] {
      LessTransitive(a[1..], b[1..], c[1..]);
    }
  }

  /** The order is lexicographic: a string is less than another if it is a proper prefix of it, or
      has the lesser character where they first differ. */
  lemma {:induction false} LessIsLexicographic(a: string, b: string)
    ensures Less(a, b) <==> a < b || exists i :: 0 <= i < |a| && i < |b| && a[..i] == b[..i] && a[i] < b[i]
  {
    if a != [] && b != [] && a[0] == b[0] {
      var c, d := a[1..], b[1..];
      LessIsLexicographic(c, d);
      assert a == [a[0]] + c && b == [b[0]] + d;
      if i :| 0 <= i < |c| && i < |d| && c[..i] == d[..i] && c[i] < d[i] {
        assert a[..i + 1] == [a[0]] + c[..i] && b[..i + 1] == [b[0]] + d[..i];
        assert a[i + 1] < b[i + 1];
      }
      if i :| 0 <= i < |a| && i < |b| && a[..i] == b[..i] && a[i] < b[i] {
        assert c[..i - 1] == a[..i][1..] && d[..i - 1] == b[..i][1..];
        assert c[i - 1] < d[i - 1];
      }
    } else if a != [] && b != [] {
      assert a[..0] == b[..0];
      if i :| 0 <= i < |a| && i < |b| && a[..i] == b[..i] && a[i] < b[i] {
        assert i > 0 ==> a[..i][0] == b[..i][0];
      }
    }
  }

  lemma AtMostTransitive(a: string, b: string, c: string)
    requires AtMost(a, b) && AtMost(b, c)
    ensures AtMost(a, c)
  {
    LessTotal(a, b);
    LessTotal(b, c);
    LessTotal(a, c);
    if Less(a, b) && Less(b, c) {
      LessTransitive(a, b, c);
    }
  }

  lemma {:induction false} LessIrreflexive(a: string)
    ensures !Less(a, a)
  {
    LessTotal(a, a);
  }

  // ---------- filterParams ----------

  // An empty criterion does not filter.
  datatype Criteria = Criteria(configFile: string, name: string, value: string, omitName: string)

  predicate Matches(c: Criteria, p: Param) {
    && (c.configFile == "" || p.configFile == c.configFile)
    && (c.name == "" || p.name == c.name)
    && (c.value == "" || p.value == c.value)
    && (c.omitName == "" || p.name != c.omitName)
  }

  /** Each criterion asks for its own field, except that an empty one asks for nothing, and the last
      one asks for any other name; a parameter matches if it meets all four. */
  lemma MatchesAll(c: Criteria, p: Param)
    ensures Matches(c, p) <==>
      && Matches(Criteria(c.configFile, "", "", ""), p) && Matches(Criteria("", c.name, "", ""), p)
      && Matches(Criteria("", "", c.value, ""), p) && Matches(Criteria("", "", "", c.omitName), p)
    ensures Matches(Criteria("", "", "", ""), p)
    ensures c.configFile != "" ==> (Matches(Criteria(c.configFile, "", "", ""), p) <==> p.configFile == c.configFile)
    ensures c.name != "" ==> (Matches(Criteria("", c.name, "", ""), p) <==> p.name == c.name)
    ensures c.value != "" ==> (Matches(Criteria("", "", c.value, ""), p) <==> p.value == c.value)
    ensures c.omitName != "" ==> (Matches(Criteria("", "", "", c.omitName), p) <==> p.name != c.omitName)
  {
  }

  // Exactly the matching parameters remain, each as often as it occurred.
  ghost predicate IsFiltered(c: Criteria, params: seq<Param>, r: seq<Param>) {
    forall p :: multiset(r)[p] == if Matches(c, p) then multiset(params)[p] else 0
  }

  method FilterParams(params: seq<Param>, c: Criteria) returns (r: seq<Param>)
    ensures IsFiltered(c, params, r)
  {
    hide Matches;
    r := [];
    for i := 0 to |params|
      invariant IsFiltered(c, params[..i], r)
    {
      assert params[..i + 1] == params[..i] + [params[i]];
      if Matches(c, params[i]) {
        r := r + [params[i]];
      }
    }
    assert params[..|params|] == params;
  }

  // ---------- paramsToMap ----------

  // A warning that a name had several values, naming the one left out.
  datatype Warning = Warning(name: string, ignored: string)

  predicate Defines(params: seq<Param>, name: string, value: string) {
    exists i :: 0 <= i < |params| && params[i].name == name && params[i].value == value
  }

  /** The map holds the names that occur, each with the least of its values. */
  ghost predicate KeepsLeast(params: seq<Param>, mp: map<string, string>) {
    && (forall i | 0 <= i < |params| :: params[i].name in mp && AtMost(mp[params[i].name], params[i].value))
    && (forall name | name in mp :: Defines(params, name, mp[name]))
  }

  // The (name, value) pairs of parameters, and of warnings.
  function Pairs(params: seq<Param>): multiset<(string, string)> {
    if params == [] then multiset{}
    else Pairs(params[..|params| - 1]) + multiset{(params[|params| - 1].name, params[|params| - 1].value)}
  }

  function IgnoredPairs(ws: seq<Warning>): multiset<(string, string)> {
    if ws == [] then multiset{} else IgnoredPairs(ws[..|ws| - 1]) + multiset{(ws[|ws| - 1].name, ws[|ws| - 1].ignored)}
  }

  // Every parameter's value is kept or named in exactly one warning.
  ghost predicate Accounts(params: seq<Param>, mp: map<string, string>, ws: seq<Warning>) {
    forall pair: (string, string) :: Pairs(params)[pair] == Kept(mp, pair) + IgnoredPairs(ws)[pair]
  }

  function Kept(mp: map<string, string>, pair: (string, string)): nat {
    if pair.0 in mp && mp[pair.0] == pair.1 then 1 else 0
  }

  method ParamsToMap(params: seq<Param>) returns (mp: map<string, string>, warnings: seq<Warning>)
    ensures KeepsLeast(params, mp)
    ensures Accounts(params, mp, warnings)
    ensures |warnings| + |mp| == |params|
  {
    mp, warnings := map[], [];
    hide Less, KeepsLeast, Accounts;
    assert KeepsLeast([], map[]) && Accounts([], map[], []) by { Nothing(); }
    for i := 0 to |params|
      invariant KeepsLeast(params[..i], mp)
      invariant Accounts(params[..i], mp, warnings)
      invariant |warnings| + |mp| == i
    {
      var p := params[i];
      ghost var mp0, warnings0 := mp, warnings;
      assert params[..i + 1] == params[..i] + [p];
      if p.name in mp && Less(mp[p.name], p.value) {
        warnings := warnings + [Warning(p.name, p.value)];
      } else {
        if p.name in mp {
          warnings := warnings + [Warning(p.name, mp[p.name])];
        }
        mp := mp[p.name := p.value];
      }
      KeepsLeastStep(params[..i], p, mp0, mp);
      PairsStep(params[..i], p, mp0, warnings0, mp, warnings);
    }
    assert params[..|params|] == params;
  }

  lemma Nothing()
    ensures KeepsLeast([], map[]) && Accounts([], map[], [])
  {
  }

  // What handling one more parameter does to the map.
  predicate Handles(p: Param, mp: map<string, string>, mp': map<string, string>) {
    if p.name in mp && Less(mp[p.name], p.value) then mp' == mp else mp' == mp[p.name := p.value]
  }

  lemma KeepsLeastStep(params: seq<Param>, p: Param, mp: map<string, string>, mp': map<string, string>)
    requires KeepsLeast(params, mp) && Handles(p, mp, mp')
    ensures KeepsLeast(params + [p], mp')
  {
    var all := params + [p];
    hide Less;
    LessIrreflexive(p.value);
    if p.name in mp {
      LessTotal(mp[p.name], p.value);
    }
    forall i | 0 <= i < |all| ensures all[i].name in mp' && AtMost(mp'[all[i].name], all[i].value) {
      if i < |params| {
        assert all[i] == params[i];
        if all[i].name == p.name && mp' != mp {
          AtMostTransitive(p.value, mp[p.name], all[i].value);
        }
      }
    }
    forall name | name in mp' ensures Defines(all, name, mp'[name]) {
      if name == p.name && mp' == mp[p.name := p.value] {
        assert all[|params|].name == name && all[|params|].value == mp'[name];
      } else {
        var i :| 0 <= i < |params| && params[i].name == name && params[i].value == mp[name];
        assert all[i] == params[i];
      }
    }
  }

  lemma PairsStep(params: seq<Param>, p: Param, mp: map<string, string>, ws: seq<Warning>, mp': map<string, string>, ws': seq<Warning>)
    requires Accounts(params, mp, ws) && Handles(p, mp, mp')
    requires ws' == if p.name !in mp then ws else if mp' == mp && Less(mp[p.name], p.value) then ws + [Warning(p.name, p.value)]
                    else ws + [Warning(p.name, mp[p.name])]
    ensures Accounts(params + [p], mp', ws')
  {
    hide Less, Pairs, IgnoredPairs;
    PairsSnoc(params, p);
    if p.name in mp {
      IgnoredSnoc(ws, ws'[|ws|]);
    }
    forall pair: (string, string) ensures Pairs(params + [p])[pair] == Kept(mp', pair) + IgnoredPairs(ws')[pair] {
      assert Pairs(params)[pair] == Kept(mp, pair) + IgnoredPairs(ws)[pair];
    }
  }

  lemma PairsSnoc(params: seq<Param>, p: Param)
    ensures Pairs(params + [p]) == Pairs(params) + multiset{(p.name, p.value)}
  {
  }

  lemma IgnoredSnoc(ws: seq<Warning>, w: Warning)
    ensures IgnoredPairs(ws + [w]) == IgnoredPairs(ws) + multiset{(w.name, w.ignored)}
  {
  }

  // The order of the parameters does not matter to the map.
  lemma KeepsLeastUnique(ps: seq<Param>, qs: seq<Param>, m: map<string, string>, m': map<string, string>)
    requires multiset(ps) == multiset(qs) && KeepsLeast(ps, m) && KeepsLeast(qs, m')
    ensures m == m'
  {
    forall name | name in m ensures name in m' && AtMost(m'[name], m[name]) { LeastBelow(ps, qs, m, m', name); }
    forall name | name in m' ensures name in m && AtMost(m[name], m'[name]) { LeastBelow(qs, ps, m', m, name); }
    forall name | name in m ensures m[name] == m'[name] { LessTotal(m[name], m'[name]); }
  }

  lemma LeastBelow(ps: seq<Param>, qs: seq<Param>, m: map<string, string>, m': map<string, string>, name: string)
    requires multiset(ps) == multiset(qs) && KeepsLeast(ps, m) && KeepsLeast(qs, m') && name in m
    ensures name in m' && AtMost(m'[name], m[name])
  {
    var i :| 0 <= i < |ps| && ps[i].name == name && ps[i].value == m[name];
    assert ps[i] in multiset(qs);
    var j :| 0 <= j < |qs| && qs[j] == ps[i];
  }

  // ---------- what paramsToMap is documented to do ----------

  // No earlier parameter has this one's name.
  predicate IsFirst(params: seq<Param>, i: nat)
    requires i < |params|
  {
    forall j | 0 <= j < i :: params[j].name != params[i].name
  }

  // The documented choice: the first value of every name is kept.
  predicate KeepsFirst(params: seq<Param>, mp: map<string, string>) {
    forall i | 0 <= i < |params| && IsFirst(params, i) :: params[i].name in mp && mp[params[i].name] == params[i].value
  }

  // No value of a name is less than its first one.
  predicate FirstIsLeastOfName(params: seq<Param>) {
    forall i, j | 0 <= i <= j < |params| && IsFirst(params, i) && params[j].name == params[i].name ::
      AtMost(params[i].value, params[j].value)
  }

  /** The first value of every name is kept, as documented, if and only if no later value of that
      name is less. */
  lemma KeepsFirstIff(params: seq<Param>, mp: map<string, string>)
    requires KeepsLeast(params, mp)
    ensures KeepsFirst(params, mp) <==> FirstIsLeastOfName(params)
  {
    hide Less;
    if FirstIsLeastOfName(params) {
      forall i | 0 <= i < |params| && IsFirst(params, i) ensures mp[params[i].name] == params[i].value {
        var name := params[i].name;
        var j :| 0 <= j < |params| && params[j].name == name && params[j].value == mp[name];
        assert i <= j;
        LessTotal(mp[name], params[i].value);
      }
    }
  }

  // Some parameters have this name and different values.
  predicate Differs(params: seq<Param>, name: string) {
    exists i, j :: 0 <= i < j < |params| && params[i].name == params[j].name == name && params[i].value != params[j].value
  }

  // Two parameters have this name and the same value.
  predicate Repeats(params: seq<Param>, name: string, value: string) {
    exists i, j :: 0 <= i < j < |params| && params[i].name == params[j].name == name && params[i].value == params[j].value == value
  }

  predicate Warns(ws: seq<Warning>, name: string, value: string) {
    exists i :: 0 <= i < |ws| && ws[i].name == name && ws[i].ignored == value
  }

  predicate Is(p: Param, name: string, value: string) {
    p.name == name && p.value == value
  }

  lemma DefinesSnoc(params: seq<Param>, p: Param, name: string, value: string)
    ensures Defines(params + [p], name, value) <==> Defines(params, name, value) || Is(p, name, value)
  {
    var all := params + [p];
    assert all[|params|] == p;
    if Defines(params, name, value) {
      var i :| 0 <= i < |params| && params[i].name == name && params[i].value == value;
      assert all[i] == params[i];
    }
    if Defines(all, name, value) {
      var i :| 0 <= i < |all| && all[i].name == name && all[i].value == value;
      assert i < |params| ==> params[i] == all[i];
    }
  }

  lemma RepeatsSnoc(params: seq<Param>, p: Param, name: string, value: string)
    ensures Repeats(params + [p], name, value) <==>
      Repeats(params, name, value) || (Defines(params, name, value) && Is(p, name, value))
  {
    var all := params + [p];
    assert all[|params|] == p;
    if Repeats(params, name, value) {
      var i, j :| 0 <= i < j < |params| && params[i].name == params[j].name == name && params[i].value == params[j].value == value;
      assert all[i] == params[i] && all[j] == params[j];
    } else if Defines(params, name, value) && Is(p, name, value) {
      var i :| 0 <= i < |params| && params[i].name == name && params[i].value == value;
      assert all[i] == params[i];
    }
    if Repeats(all, name, value) {
      var i, j :| 0 <= i < j < |all| && all[i].name == all[j].name == name && all[i].value == all[j].value == value;
      assert all[i] == params[i] && (j < |params| ==> all[j] == params[j]);
    }
  }

  lemma {:induction false} PairCount(params: seq<Param>, name: string, value: string)
    ensures Pairs(params)[(name, value)] >= 1 <==> Defines(params, name, value)
    ensures Pairs(params)[(name, value)] >= 2 <==> Repeats(params, name, value)
  {
    if params != [] {
      hide Defines, Repeats, Pairs;
      var before, p := params[..|params| - 1], params[|params| - 1];
      assert params == before + [p];
      PairCount(before, name, value);
      PairsSnoc(before, p);
      DefinesSnoc(before, p, name, value);
      RepeatsSnoc(before, p, name, value);
    }
  }

  lemma {:induction false} WarnCount(ws: seq<Warning>, name: string, value: string)
    ensures IgnoredPairs(ws)[(name, value)] >= 1 <==> Warns(ws, name, value)
  {
    if ws != [] {
      var n := |ws| - 1;
      var before, w := ws[..n], ws[n];
      WarnCount(before, name, value);
      assert ws == before + [w];
      IgnoredSnoc(before, w);
      hide IgnoredPairs;
      if Warns(before, name, value) {
        var i :| 0 <= i < n && before[i].name == name && before[i].ignored == value;
        assert ws[i] == before[i];
      }
      if Warns(ws, name, value) && !(w.name == name && w.ignored == value) {
        var i :| 0 <= i < |ws| && ws[i].name == name && ws[i].ignored == value;
        assert before[i] == ws[i];
      }
    }
  }

  // A value is warned about exactly when it occurs and is not the one kept, or occurs repeatedly.
  lemma WarnsIff(params: seq<Param>, mp: map<string, string>, ws: seq<Warning>, name: string, value: string)
    requires Accounts(params, mp, ws)
    ensures Warns(ws, name, value) <==>
      (Defines(params, name, value) && !(name in mp && mp[name] == value)) || Repeats(params, name, value)
  {
    PairCount(params, name, value);
    WarnCount(ws, name, value);
    hide Pairs, IgnoredPairs, Defines, Repeats, Warns;
    assert Pairs(params)[(name, value)] == Kept(mp, (name, value)) + IgnoredPairs(ws)[(name, value)];
  }

  // The documented warnings: only about names with different values.
  predicate WarnsOnlyDiffering(params: seq<Param>, ws: seq<Warning>) {
    forall i | 0 <= i < |ws| :: Differs(params, ws[i].name)
  }

  // No name is repeated with one value throughout.
  predicate NoPlainRepeats(params: seq<Param>) {
    forall i, j | 0 <= i < j < |params| && params[i].name == params[j].name :: Differs(params, params[i].name)
  }

  /** Every name with different values is warned about, as documented; and only those are if and
      only if no name is repeated with a single value. */
  lemma WarningsAsDocumentedIff(params: seq<Param>, mp: map<string, string>, ws: seq<Warning>)
    requires KeepsLeast(params, mp) && Accounts(params, mp, ws)
    ensures forall name | Differs(params, name) :: exists value :: Warns(ws, name, value)
    ensures WarnsOnlyDiffering(params, ws) <==> NoPlainRepeats(params)
  {
    forall name | Differs(params, name) ensures exists value :: Warns(ws, name, value) {
      var i, j :| 0 <= i < j < |params| && params[i].name == params[j].name == name && params[i].value != params[j].value;
      var value := if mp[name] == params[i].value then params[j].value else params[i].value;
      assert Defines(params, name, value);
      WarnsIff(params, mp, ws, name, value);
    }
    if WarnsOnlyDiffering(params, ws) {
      forall i, j | 0 <= i < j < |params| && params[i].name == params[j].name ensures Differs(params, params[i].name) {
        RepeatWarned(params, mp, ws, i, j);
      }
    }
    if NoPlainRepeats(params) {
      forall i | 0 <= i < |ws| ensures Differs(params, ws[i].name) {
        WarnedRepeats(params, mp, ws, i);
      }
    }
  }

  lemma RepeatWarned(params: seq<Param>, mp: map<string, string>, ws: seq<Warning>, i: nat, j: nat)
    requires Accounts(params, mp, ws) && WarnsOnlyDiffering(params, ws) && i < j < |params| && params[i].name == params[j].name
    ensures Differs(params, params[i].name)
  {
    var name, value := params[i].name, params[i].value;
    if params[j].value == value {
      assert Repeats(params, name, value);
      WarnsIff(params, mp, ws, name, value);
      var k :| 0 <= k < |ws| && ws[k].name == name && ws[k].ignored == value;
      assert Differs(params, ws[k].name);
    }
  }

  // A name that is warned about occurs twice.
  lemma WarnedRepeats(params: seq<Param>, mp: map<string, string>, ws: seq<Warning>, k: nat)
    requires KeepsLeast(params, mp) && Accounts(params, mp, ws) && k < |ws| && NoPlainRepeats(params)
    ensures Differs(params, ws[k].name)
  {
    var name, value := ws[k].name, ws[k].ignored;
    assert Warns(ws, name, value);
    WarnsIff(params, mp, ws, name, value);
    hide Less, AtMost, Accounts, Warns, Differs;
    if Repeats(params, name, value) {
      var i, j :| 0 <= i < j < |params| && params[i].name == params[j].name == name && params[i].value == params[j].value == value;
      assert Differs(params, params[i].name);
    } else {
      hide NoPlainRepeats, Repeats;
      var i :| 0 <= i < |params| && params[i].name == name && params[i].value == value;
      assert name in mp && Defines(params, name, mp[name]);
      var j :| 0 <= j < |params| && params[j].name == name && params[j].value == mp[name];
      DiffersAt(params, i, j);
    }
  }

  lemma DiffersAt(params: seq<Param>, i: nat, j: nat)
    requires i < |params| && j < |params| && params[i].name == params[j].name && params[i].value != params[j].value
    ensures Differs(params, params[i].name)
  {
    var a, b := if i < j then i else j, if i < j then j else i;
    assert params[a].name == params[b].name && params[a].value != params[b].value;
  }

  // A name given as 2, then 1: the second value is kept.
  lemma SecondKept(mp: map<string, string>)
    requires KeepsLeast([Param("a", "f", "2"), Param("a", "f", "1")], mp)
    ensures "a" in mp && mp["a"] == "1" && !KeepsFirst([Param("a", "f", "2"), Param("a", "f", "1")], mp)
  {
    var params := [Param("a", "f", "2"), Param("a", "f", "1")];
    assert Less("1", "2");
    assert params[1].name in mp && IsFirst(params, 0) && params[0].value == "2";
    assert Defines(params, "a", mp["a"]);
  }

  // A name given as 1 twice: there is a warning.
  lemma RepetitionWarned(mp: map<string, string>, ws: seq<Warning>)
    requires var params := [Param("a", "f", "1"), Param("a", "f", "1")]; KeepsLeast(params, mp) && Accounts(params, mp, ws)
    ensures !WarnsOnlyDiffering([Param("a", "f", "1"), Param("a", "f", "1")], ws)
  {
    var params := [Param("a", "f", "1"), Param("a", "f", "1")];
    WarningsAsDocumentedIff(params, mp, ws);
    hide KeepsLeast, Accounts, WarnsOnlyDiffering;
    assert params[0].name == params[1].name && !Differs(params, params[0].name);
  }

  // ---------- genericProfileConfig ----------

  // The position of the last "__", or -1.
  function LastUnderscores(s: string): (k: int)
    ensures -1 <= k <= |s| - 2 || k == -1
    ensures k >= 0 ==> s[k] == '_' && s[k + 1] == '_'
    ensures forall j | 0 <= j < |s| - 1 && s[j] == '_' && s[j + 1] == '_' :: j <= k
  {
    if |s| < 2 then -1
    else if s[|s| - 2] == '_' && s[|s| - 1] == '_' then |s| - 2
    else LastUnderscores(s[..|s| - 1])
  }

  // trimParamUnderscoreNumSuffix; `isNumber` is what the float parser accepts.
  function Trim(name: string, isNumber: string -> bool): string {
    var k := LastUnderscores(name);
    if k == -1 || !isNumber(name[k + 2..]) then name else name[..k]
  }

  /** A name split at its last "__" loses that and what follows exactly when the number parser
      accepts what follows. */
  lemma TrimExact(stem: string, suffix: string, isNumber: string -> bool)
    requires EndsSplit(suffix)
    ensures Trim(stem + "__" + suffix, isNumber) == if isNumber(suffix) then stem else stem + "__" + suffix
  {
    var name := stem + "__" + suffix;
    var k := LastUnderscores(name);
    assert name[|stem|] == '_' && name[|stem| + 1] == '_';
    assert name[|stem| + 2..] == suffix && name[..|stem|] == stem;
    assert forall j | 0 <= j < |suffix| :: name[|stem| + 2 + j] == suffix[j];
    assert k == |stem|;
  }

  // Every name has no "__", and is left alone, or can be split at its last one.
  lemma TrimCases(name: string, isNumber: string -> bool)
    ensures var k := LastUnderscores(name);
      if k == -1 then Trim(name, isNumber) == name == TrimDigits(name)
      else name == name[..k] + "__" + name[k + 2..] && EndsSplit(name[k + 2..])
  {
    var k := LastUnderscores(name);
    if k == -1 {
      NoneTrimmed(name);
    } else {
      SplitAtLast(name);
    }
  }

  lemma NoneTrimmed(name: string)
    requires LastUnderscores(name) == -1
    ensures TrimDigits(name) == name
  {
    var stem := WithoutDigits(name);
    var n := |stem|;
    assert n >= 2 ==> stem[n - 2] == name[n - 2] && stem[n - 1] == name[n - 1];
    hide LastUnderscores;
  }

  lemma SplitAtLast(name: string)
    requires LastUnderscores(name) >= 0
    ensures var k := LastUnderscores(name); name == name[..k] + "__" + name[k + 2..] && EndsSplit(name[k + 2..])
  {
    var k := LastUnderscores(name);
    hide LastUnderscores;
    var suffix := name[k + 2..];
    assert name[k..k + 2] == "__";
    assert name == name[..k] + name[k..k + 2] + suffix;
    forall j | 0 <= j < |suffix| - 1 ensures !(suffix[j] == '_' && suffix[j + 1] == '_') {
      assert suffix[j] == name[k + 2 + j] && suffix[j + 1] == name[k + 3 + j];
    }
    if suffix != [] {
      assert suffix[0] == name[k + 2] && name[k + 1] == '_';
    }
  }

  // The documented trimming: a trailing "__[0-9]+" is removed.
  function TrimDigits(name: string): string {
    var stem := WithoutDigits(name);
    if |stem| < |name| && |stem| >= 2 && stem[|stem| - 2] == '_' && stem[|stem| - 1] == '_' then stem[..|stem| - 2] else name
  }

  // The name without its trailing digits.
  function WithoutDigits(name: string): (stem: string)
    ensures stem <= name && (stem == [] || !IsDigit(stem[|stem| - 1]))
    ensures forall i | |stem| <= i < |name| :: IsDigit(name[i])
  {
    if name == [] || !IsDigit(name[|name| - 1]) then name else WithoutDigits(name[..|name| - 1])
  }

  predicate AllDigits(s: string) {
    s != [] && forall i | 0 <= i < |s| :: IsDigit(s[i])
  }

  // "__" does not occur in what follows, nor where it begins.
  predicate EndsSplit(suffix: string) {
    (suffix != [] ==> suffix[0] != '_') && forall j | 0 <= j < |suffix| - 1 :: !(suffix[j] == '_' && suffix[j + 1] == '_')
  }

  lemma TrimDigitsExact(stem: string, suffix: string)
    requires EndsSplit(suffix)
    ensures TrimDigits(stem + "__" + suffix) == if AllDigits(suffix) then stem else stem + "__" + suffix
  {
    var name, n := stem + "__" + suffix, |stem| + 2;
    var rest := WithoutDigits(name);
    assert name[n - 2] == '_' && name[n - 1] == '_' && name[..n - 2] == stem;
    assert forall i | n <= i < |name| :: name[i] == suffix[i - n];
    assert |rest| >= n;
    if AllDigits(suffix) {
      assert |rest| == n;
    } else if suffix != [] {
      var i :| 0 <= i < |suffix| && !IsDigit(suffix[i]);
      assert !IsDigit(name[n + i]);
      assert |rest| > n;
      var last := |rest| - 1 - n;
      assert rest[|rest| - 1] == suffix[last] && (last > 0 ==> rest[|rest| - 2] == suffix[last - 1]);
    }
  }

  /** A name split at its last "__" is trimmed as documented if and only if the number parser
      accepts what follows exactly when it is digits. */
  lemma TrimAsDocumentedIff(stem: string, suffix: string, isNumber: string -> bool)
    requires EndsSplit(suffix)
    ensures Trim(stem + "__" + suffix, isNumber) == TrimDigits(stem + "__" + suffix) <==> (isNumber(suffix) <==> AllDigits(suffix))
  {
    TrimExact(stem, suffix, isNumber);
    TrimDigitsExact(stem, suffix);
    hide Trim, TrimDigits, AllDigits, EndsSplit;
    assert |stem + "__" + suffix| > |stem|;
  }

  // A parser of floating-point numbers accepts more than digits.
  lemma TrimsMoreThanDigits(isNumber: string -> bool)
    requires isNumber("1e5")
    ensures Trim("a__1e5", isNumber) == "a" && TrimDigits("a__1e5") == "a__1e5"
  {
    assert "a" + "__" + "1e5" == "a__1e5" && !IsDigit("1e5"[1]);
    TrimExact("a", "1e5", isNumber);
    TrimDigitsExact("a", "1e5");
  }

  function Line(name: string, value: string, separator: string, isNumber: string -> bool): string {
    Trim(name, isNumber) + separator + value + "\n"
  }

  function LineMap(m: map<string, string>, separator: string, isNumber: string -> bool): map<string, string> {
    map name | name in m :: Line(name, m[name], separator, isNumber)
  }

  // The values of a map, in no order.
  ghost function Values(m: map<string, string>): multiset<string> {
    if m == map[] then multiset{}
    else
      var k :| k in m;
      One(m[k]) + Values(m - {k})
  }

  function One(s: string): multiset<string> {
    multiset{s}
  }

  lemma {:induction false} ValuesTake(m: map<string, string>, k: string)
    requires k in m
    ensures Values(m) == One(m[k]) + Values(m - {k})
    decreases |m|
  {
    hide One;
    var x :| x in m && Values(m) == One(m[x]) + Values(m - {x});
    if x != k {
      ValuesTake(m - {x}, k);
      ValuesTake(m - {k}, x);
      assert m - {x} - {k} == m - {k} - {x};
      hide Values;
      Exchange(One(m[x]), One(m[k]), Values(m - {x} - {k}));
    }
  }

  lemma Exchange(a: multiset<string>, b: multiset<string>, c: multiset<string>)
    ensures a + (b + c) == b + (a + c)
  {
  }

  predicate Sorted(lines: seq<string>) {
    forall i, j | 0 <= i < j < |lines| :: AtMost(lines[i], lines[j])
  }

  // sort.Strings
  function SortStrings(lines: seq<string>): (r: seq<string>)
    ensures Sorted(r) && multiset(r) == multiset(lines)
  {
    if lines == [] then []
    else
      assert lines == [lines[0]] + lines[1..];
      InsertSorted(lines[0], SortStrings(lines[1..]))
  }

  function InsertSorted(x: string, lines: seq<string>): (r: seq<string>)
    requires Sorted(lines)
    ensures Sorted(r) && multiset(r) == multiset(lines) + multiset{x}
  {
    if lines == [] then [x]
    else if AtMost(x, lines[0]) then
      assert forall j | 0 <= j < |lines| :: AtMost(x, lines[j]) by { Below(x, lines); }
      [x] + lines
    else
      assert lines == [lines[0]] + lines[1..];
      var r := InsertSorted(x, lines[1..]);
      assert AtMost(lines[0], x) by { LessTotal(x, lines[0]); }
      assert forall j | 0 <= j < |r| :: AtMost(lines[0], r[j]) by { BelowAll(lines[0], lines[1..], x, r); }
      [lines[0]] + r
  }

  lemma Below(x: string, lines: seq<string>)
    requires Sorted(lines) && lines != [] && AtMost(x, lines[0])
    ensures forall j | 0 <= j < |lines| :: AtMost(x, lines[j])
  {
    forall j | 0 <= j < |lines| ensures AtMost(x, lines[j]) {
      if j > 0 {
        AtMostTransitive(x, lines[0], lines[j]);
      }
    }
  }

  lemma BelowAll(x: string, lines: seq<string>, y: string, r: seq<string>)
    requires multiset(r) == multiset(lines) + multiset{y} && AtMost(x, y) && forall j | 0 <= j < |lines| :: AtMost(x, lines[j])
    ensures forall j | 0 <= j < |r| :: AtMost(x, r[j])
  {
    forall j | 0 <= j < |r| ensures AtMost(x, r[j]) {
      assert r[j] in multiset(r);
    }
  }

  // A sorted list is determined by what is in it.
  lemma {:induction false} SortedUnique(a: seq<string>, b: seq<string>)
    requires Sorted(a) && Sorted(b) && multiset(a) == multiset(b)
    ensures a == b
  {
    if a == [] {
      assert |multiset(b)| == 0;
    } else {
      assert b != [] by { assert |multiset(b)| == |a|; }
      FirstIsLeast(a, b);
      FirstIsLeast(b, a);
      LessTotal(a[0], b[0]);
      hide AtMost;
      TailsAgree(a, b);
      SortedUnique(a[1..], b[1..]);
      assert a == [a[0]] + a[1..] && b == [b[0]] + b[1..];
    }
  }

  lemma TailsAgree(a: seq<string>, b: seq<string>)
    requires a != [] && b != [] && a[0] == b[0] && multiset(a) == multiset(b)
    ensures multiset(a[1..]) == multiset(b[1..])
  {
    assert a == [a[0]] + a[1..] && b == [b[0]] + b[1..];
    assert multiset(a[1..]) == multiset(a) - multiset{a[0]};
    assert multiset(b[1..]) == multiset(b) - multiset{b[0]};
  }

  lemma FirstIsLeast(a: seq<string>, b: seq<string>)
    requires Sorted(a) && a != [] && b != [] && multiset(a) == multiset(b)
    ensures AtMost(a[0], b[0])
  {
    assert b[0] in multiset(a);
    var i :| 0 <= i < |a| && a[i] == b[0];
    LessIrreflexive(a[0]);
  }

  function Concat(lines: seq<string>): string {
    if lines == [] then "" else lines[0] + Concat(lines[1..])
  }

  // The text has one line for each entry of the map, and its lines are sorted.
  ghost predicate Renders(m: map<string, string>, separator: string, isNumber: string -> bool, text: string) {
    exists lines :: Sorted(lines) && multiset(lines) == Values(LineMap(m, separator, isNumber)) && text == Concat(lines)
  }

  lemma TakeLine(m: map<string, string>, k: string, separator: string, isNumber: string -> bool, taken: multiset<string>)
    requires k in m
    ensures taken + multiset{Line(k, m[k], separator, isNumber)} + Values(LineMap(m - {k}, separator, isNumber))
         == taken + Values(LineMap(m, separator, isNumber))
  {
    hide Line, Values;
    var all := LineMap(m, separator, isNumber);
    assert k in all && all[k] == Line(k, m[k], separator, isNumber);
    assert all - {k} == LineMap(m - {k}, separator, isNumber);
    ValuesTake(all, k);
    hide LineMap;
    Regroup(taken, One(all[k]), Values(all - {k}));
  }

  lemma Regroup(a: multiset<string>, b: multiset<string>, c: multiset<string>)
    ensures a + b + c == a + (b + c)
  {
  }

  lemma NoValues(separator: string, isNumber: string -> bool)
    ensures Values(LineMap(map[], separator, isNumber)) == multiset{}
  {
  }

  method GenericProfileConfig(paramData: map<string, string>, separator: string, isNumber: string -> bool) returns (text: string)
    ensures Renders(paramData, separator, isNumber, text)
  {
    hide Line, LineMap, Values;
    var lines, left := [], paramData;
    while left != map[]
      invariant multiset(lines) + Values(LineMap(left, separator, isNumber)) == Values(LineMap(paramData, separator, isNumber))
      decreases |left|
    {
      var name :| name in left;
      TakeLine(left, name, separator, isNumber, multiset(lines));
      lines := lines + [Line(name, left[name], separator, isNumber)];
      left := left - {name};
    }
    assert multiset(lines) == Values(LineMap(paramData, separator, isNumber)) by { NoValues(separator, isNumber); }
    lines := SortStrings(lines);
    text := Concat(lines);
  }

  // A line is the name, without its number if it has one, the separator and the value.
  lemma LineReads(stem: string, suffix: string, value: string, separator: string, isNumber: string -> bool)
    requires EndsSplit(suffix) && isNumber(suffix)
    ensures Line(stem + "__" + suffix, value, separator, isNumber) == stem + separator + value + "\n"
    ensures LastUnderscores(stem) == -1 ==> Line(stem, value, separator, isNumber) == stem + separator + value + "\n"
  {
    TrimExact(stem, suffix, isNumber);
    TrimCases(stem, isNumber);
    hide Trim, TrimDigits, EndsSplit, LastUnderscores;
  }

  // Lines as a reader sees them, each without the newline that ends it.
  predicate EndEach(lines: seq<string>, entries: seq<string>) {
    |lines| == |entries| && forall i | 0 <= i < |lines| :: lines[i] == entries[i] + "\n" && '\n' !in entries[i]
  }

  lemma {:induction false} ConcatSplits(lines: seq<string>, entries: seq<string>)
    requires EndEach(lines, entries)
    ensures Split(Concat(lines), '\n') == entries + [""]
  {
    if lines == [] {
      assert entries == [];
    } else {
      ConcatSplits(lines[1..], entries[1..]);
      hide Split;
      assert Concat(lines) == entries[0] + ['\n'] + Concat(lines[1..]);
      SplitFirst(entries[0], Concat(lines[1..]), '\n');
      assert entries == [entries[0]] + entries[1..];
    }
  }

  /** Read line by line, the text of a map has its lines in order: whatever they are, as long as no
      name, value or separator contains a newline. */
  lemma TextSplits(m: map<string, string>, separator: string, isNumber: string -> bool, text: string)
    returns (lines: seq<string>, entries: seq<string>)
    requires Renders(m, separator, isNumber, text) && '\n' !in separator
    requires forall name | name in m :: '\n' !in name && '\n' !in m[name]
    ensures Sorted(lines) && multiset(lines) == Values(LineMap(m, separator, isNumber)) && EndEach(lines, entries)
    ensures Split(text, '\n') == entries + [""]
  {
    lines :| Sorted(lines) && multiset(lines) == Values(LineMap(m, separator, isNumber)) && text == Concat(lines);
    hide Values, LineMap, Sorted, Concat, Split;
    forall i | 0 <= i < |lines| ensures Ended(lines[i]) {
      assert lines[i] in multiset(lines);
      LineEnded(m, separator, isNumber, lines[i]);
    }
    entries := seq(|lines|, i requires 0 <= i < |lines| => if lines[i] == [] then [] else lines[i][..|lines[i]| - 1]);
    ConcatSplits(lines, entries);
  }

  // A text with one newline, at its end.
  predicate Ended(line: string) {
    var n := |line| - 1;
    n >= 0 && line == line[..n] + "\n" && '\n' !in line[..n]
  }

  lemma LineEnded(m: map<string, string>, separator: string, isNumber: string -> bool, line: string)
    requires line in Values(LineMap(m, separator, isNumber)) && '\n' !in separator
    requires forall name | name in m :: '\n' !in name && '\n' !in m[name]
    ensures Ended(line)
  {
    hide Values, Line;
    var name := ValueOf(LineMap(m, separator, isNumber), line);
    LineEnds(name, m[name], separator, isNumber);
  }

  lemma LineEnds(name: string, value: string, separator: string, isNumber: string -> bool)
    requires '\n' !in name && '\n' !in value && '\n' !in separator
    ensures Ended(Line(name, value, separator, isNumber))
  {
    var entry := Trim(name, isNumber) + separator + value;
    assert '\n' !in entry;
    assert Line(name, value, separator, isNumber) == entry + "\n";
    assert (entry + "\n")[..|entry|] == entry;
  }

  // A value of a map belongs to a key.
  lemma {:induction false} ValueOf(m: map<string, string>, v: string) returns (k: string)
    requires v in Values(m)
    ensures k in m && m[k] == v
    decreases |m|
  {
    k :| k in m && Values(m) == One(m[k]) + Values(m - {k});
    if m[k] != v {
      assert Values(m)[v] == One(m[k])[v] + Values(m - {k})[v];
      k := ValueOf(m - {k}, v);
    }
  }

  // Without a parameter that matches, the text is the header comment and an empty line.
  lemma EmptyText(hdr: string, params: seq<Param>, c: Criteria, separator: string, isNumber: string -> bool, text: string)
    requires IsTextOf(hdr, params, c, separator, isNumber, text) && forall i | 0 <= i < |params| :: !Matches(c, params[i])
    ensures text == hdr + "\n"
  {
    hide Matches, Less;
    var body :| HasText(params, c, separator, isNumber, body) && text == hdr + OrNewline(body);
    var filtered, paramData :|
      IsFiltered(c, params, filtered) && KeepsLeast(filtered, paramData) && Renders(paramData, separator, isNumber, body);
    forall p ensures multiset(filtered)[p] == 0 {
      assert Matches(c, p) ==> p !in params;
    }
    assert multiset(filtered) == multiset{} && |filtered| == |multiset(filtered)|;
    assert paramData == map[];
    var lines :| Sorted(lines) && multiset(lines) == Values(LineMap(paramData, separator, isNumber)) && body == Concat(lines);
    NoValues(separator, isNumber);
    assert |lines| == |multiset(lines)|;
  }

  /** plugin.config: filtering, mapping and rendering, after the header comment; without any
      parameter the text is an empty line. */
  method ProfileText(hdr: string, params: seq<Param>, c: Criteria, separator: string, isNumber: string -> bool) returns (text: string)
    ensures IsTextOf(hdr, params, c, separator, isNumber, text)
  {
    var filtered := FilterParams(params, c);
    var paramData, _ := ParamsToMap(filtered);
    text := GenericProfileConfig(paramData, separator, isNumber);
    assert HasText(params, c, separator, isNumber, text);
    text := hdr + OrNewline(text);
  }

  function OrNewline(text: string): string {
    if text == "" then "\n" else text
  }

  ghost predicate HasText(params: seq<Param>, c: Criteria, separator: string, isNumber: string -> bool, text: string) {
    exists filtered, paramData ::
      IsFiltered(c, params, filtered) && KeepsLeast(filtered, paramData) && Renders(paramData, separator, isNumber, text)
  }

  ghost predicate IsTextOf(hdr: string, params: seq<Param>, c: Criteria, separator: string, isNumber: string -> bool, text: string) {
    exists body :: HasText(params, c, separator, isNumber, body) && text == hdr + OrNewline(body)
  }

  /** The generated text does not depend on the order of the parameters, nor on the order in
      which the map is visited: any two texts of permuted parameters are the same string. */
  lemma TextOrderFree(hdr: string, ps: seq<Param>, qs: seq<Param>, c: Criteria, separator: string, isNumber: string -> bool,
                      t: string, t': string)
    requires multiset(ps) == multiset(qs)
    requires IsTextOf(hdr, ps, c, separator, isNumber, t) && IsTextOf(hdr, qs, c, separator, isNumber, t')
    ensures t == t'
  {
    hide HasText;
    var b :| HasText(ps, c, separator, isNumber, b) && t == hdr + OrNewline(b);
    var b' :| HasText(qs, c, separator, isNumber, b') && t' == hdr + OrNewline(b');
    BodyOrderFree(ps, qs, c, separator, isNumber, b, b');
  }

  lemma BodyOrderFree(ps: seq<Param>, qs: seq<Param>, c: Criteria, separator: string, isNumber: string -> bool, t: string, t': string)
    requires multiset(ps) == multiset(qs)
    requires HasText(ps, c, separator, isNumber, t) && HasText(qs, c, separator, isNumber, t')
    ensures t == t'
  {
    hide Matches, KeepsLeast, Renders;
    var fp, mp :| IsFiltered(c, ps, fp) && KeepsLeast(fp, mp) && Renders(mp, separator, isNumber, t);
    var fq, mq :| IsFiltered(c, qs, fq) && KeepsLeast(fq, mq) && Renders(mq, separator, isNumber, t');
    assert multiset(fp) == multiset(fq);
    KeepsLeastUnique(fp, fq, mp, mq);
    RendersUnique(mp, separator, isNumber, t, t');
  }

  lemma RendersUnique(m: map<string, string>, separator: string, isNumber: string -> bool, t: string, t': string)
    requires Renders(m, separator, isNumber, t) && Renders(m, separator, isNumber, t')
    ensures t == t'
  {
    var a :| Sorted(a) && multiset(a) == Values(LineMap(m, separator, isNumber)) && t == Concat(a);
    var b :| Sorted(b) && multiset(b) == Values(LineMap(m, separator, isNumber)) && t' == Concat(b);
    SortedUnique(a, b);
  }
}
