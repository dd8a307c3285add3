/** The LRU list of Grove's caches: a linked list of keys beside an index of elements. */
module LruList {
  import opened Words

  // Cache keys are compared and hashed, never inspected.
  type Key(==, !new)

  /** `order` is the list, most recently used first; `sizes` the index from a key to its
      element's size. */
  datatype Lru = Lru(order: seq<Key>, sizes: map<Key, u64>)

  // The list and its index agree.
  ghost predicate Valid(l: Lru) {
    && Distinct(l.order)
    && forall k :: k in l.order <==> k in l.sizes
  }

  ghost predicate Distinct(s: seq<Key>) {
    forall i, j | 0 <= i < j < |s| :: s[i] != s[j]
  }

  function Without(s: seq<Key>, k: Key): (r: seq<Key>)
    ensures |r| <= |s|
  {
    if s == [] then []
    else if s[0] == k then s[1..]
    else [s[0]] + Without(s[1..], k)
  }

  // The size recorded for a key, 0 if it is not listed.
  function Recorded(l: Lru, k: Key): u64 {
    if k in l.sizes then l.sizes[k] else 0
  }

  function Touch(l: Lru, k: Key, size: u64): Lru {
    Lru([k] + (if k in l.sizes then Without(l.order, k) else l.order), l.sizes[k := size])
  }

  // The list without its oldest element.
  function DropOldest(l: Lru): Lru
    requires l.order != []
  {
    var n := |l.order| - 1;
    Lru(l.order[..n], l.sizes - {l.order[n]})
  }

  function Oldest(l: Lru): Key
    requires l.order != []
  {
    l.order[|l.order| - 1]
  }

  // ---------- facts about the list ----------

  lemma {:induction false} WithoutMembers(s: seq<Key>, k: Key)
    requires Distinct(s)
    ensures Distinct(Without(s, k))
    ensures forall x :: x in Without(s, k) <==> x in s && x != k
  {
    if s != [] {
      WithoutMembers(s[1..], k);
      assert s == [s[0]] + s[1..];
      if s[0] != k {
        var r := Without(s[1..], k);
        forall j | 0 <= j < |r| ensures r[j] != s[0] {
          assert r[j] in s[1..];
        }
      }
    }
  }

  // Without keeps the order of what remains.
  lemma {:induction false} WithoutOrder(s: seq<Key>, k: Key, rank: Key -> int)
    requires Distinct(s)
    requires forall i, j | 0 <= i < j < |s| :: rank(s[i]) > rank(s[j])
    ensures forall i, j | 0 <= i < j < |Without(s, k)| :: rank(Without(s, k)[i]) > rank(Without(s, k)[j])
  {
    if s != [] && s[0] != k {
      WithoutOrder(s[1..], k, rank);
      WithoutMembers(s[1..], k);
      var r := Without(s[1..], k);
      forall j | 0 <= j < |r| ensures rank(s[0]) > rank(r[j]) {
        assert r[j] in s[1..];
      }
    }
  }

  // Earlier in the list means a higher rank.
  ghost predicate Ranked(s: seq<Key>, rank: Key -> int) {
    forall i, j | 0 <= i < j < |s| :: rank(s[i]) > rank(s[j])
  }

  // Moving a key to the front keeps the list ranked, if the key now ranks above all others.
  lemma TouchRanked(l: Lru, k: Key, size: u64, rank: Key -> int, rank': Key -> int)
    requires Valid(l) && Ranked(l.order, rank)
    requires forall x | x in l.order && x != k :: rank'(x) == rank(x) < rank'(k)
    ensures Ranked(Touch(l, k, size).order, rank')
  {
    var rest := if k in l.sizes then Without(l.order, k) else l.order;
    WithoutMembers(l.order, k);
    WithoutOrder(l.order, k, rank);
    forall i | 0 <= i < |rest| ensures rank'(rest[i]) == rank(rest[i]) < rank'(k) {
      assert rest[i] in rest;
    }
    hide Without, Valid;
    var all := [k] + rest;
    forall i, j | 0 <= i < j < |all| ensures rank'(all[i]) > rank'(all[j]) {
      assert all[j] == rest[j - 1] && (i > 0 ==> all[i] == rest[i - 1]);
    }
  }

  lemma TouchValid(l: Lru, k: Key, size: u64)
    requires Valid(l)
    ensures Valid(Touch(l, k, size))
  {
    WithoutMembers(l.order, k);
    var rest := if k in l.sizes then Without(l.order, k) else l.order;
    assert k !in rest;
  }

  lemma Listed(l: Lru, k: Key)
    requires Valid(l)
    ensures k in l.order <==> k in l.sizes
  {
  }

  lemma DropValid(l: Lru)
    requires Valid(l) && l.order != []
    ensures Valid(DropOldest(l))
  {
  }

  // ---------- the weight of a list ----------

  function At(w: map<Key, nat>, k: Key): nat {
    if k in w then w[k] else 0
  }

  // The sum of `w` over the listed keys.
  function Weight(s: seq<Key>, w: map<Key, nat>): nat {
    if s == [] then 0 else At(w, s[0]) + Weight(s[1..], w)
  }

  lemma {:induction false} WeightSame(s: seq<Key>, w: map<Key, nat>, v: map<Key, nat>)
    requires forall k | k in s :: At(w, k) == At(v, k)
    ensures Weight(s, w) == Weight(s, v)
  {
    if s != [] {
      WeightSame(s[1..], w, v);
    }
  }

  lemma {:induction false} WeightLe(s: seq<Key>, w: map<Key, nat>, v: map<Key, nat>)
    requires forall k | k in s :: At(w, k) <= At(v, k)
    ensures Weight(s, w) <= Weight(s, v)
  {
    if s != [] {
      WeightLe(s[1..], w, v);
    }
  }

  lemma {:induction false} WeightWithout(s: seq<Key>, k: Key, w: map<Key, nat>)
    requires k in s
    ensures Weight(s, w) == At(w, k) + Weight(Without(s, k), w)
  {
    if s[0] != k {
      WeightWithout(s[1..], k, w);
      assert Without(s, k)[1..] == Without(s[1..], k);
    }
  }

  lemma {:induction false} WeightSnoc(s: seq<Key>, k: Key, w: map<Key, nat>)
    ensures Weight(s + [k], w) == Weight(s, w) + At(w, k)
  {
    if s == [] {
      assert s + [k] == [k];
    } else {
      assert (s + [k])[1..] == s[1..] + [k];
      WeightSnoc(s[1..], k, w);
    }
  }

  lemma {:induction false} WeightMember(s: seq<Key>, k: Key, w: map<Key, nat>)
    requires k in s
    ensures At(w, k) <= Weight(s, w)
  {
    if s[0] != k {
      WeightMember(s[1..], k, w);
    }
  }

  lemma {:induction false} PrefixWeight(s: seq<Key>, j: nat, w: map<Key, nat>)
    requires j <= |s|
    ensures Weight(s[..j], w) <= Weight(s, w)
  {
    if j > 0 {
      assert s[..j][1..] == s[1..][..j - 1];
      PrefixWeight(s[1..], j - 1, w);
    }
  }

  // Moving a key to the front of the list and reweighing only it.
  lemma TouchWeight(l: Lru, k: Key, size: u64, w: map<Key, nat>, x: nat)
    requires Valid(l)
    ensures Weight(Touch(l, k, size).order, w[k := x]) == Weight(l.order, w) - (if k in l.sizes then At(w, k) else 0) + x
  {
    var rest := if k in l.sizes then Without(l.order, k) else l.order;
    WithoutMembers(l.order, k);
    if k in l.sizes {
      WeightWithout(l.order, k, w);
    }
    assert k !in rest;
    WeightSame(rest, w, w[k := x]);
    assert Touch(l, k, size).order[1..] == rest;
  }

  // Dropping the oldest key and its weight.
  lemma DropWeight(l: Lru, w: map<Key, nat>)
    requires Valid(l) && l.order != []
    ensures Weight(DropOldest(l).order, w - {Oldest(l)}) == Weight(l.order, w) - At(w, Oldest(l))
  {
    var n := |l.order| - 1;
    assert l.order == l.order[..n] + [l.order[n]];
    WeightSnoc(l.order[..n], l.order[n], w);
    WeightSame(l.order[..n], w, w - {Oldest(l)});
  }

  // The sum of a map's values, in whatever order they are taken.
  ghost function Sum(w: map<Key, nat>): nat {
    if w == map[] then 0
    else
      var k :| k in w;
      w[k] + Sum(w - {k})
  }

  // The sum does not depend on the order entries are taken in.
  lemma {:induction false} SumTakes(w: map<Key, nat>, k: Key)
    requires k in w
    ensures Sum(w) == w[k] + Sum(w - {k})
    decreases |w|
  {
    var x :| x in w && Sum(w) == w[x] + Sum(w - {x});
    if x != k {
      SumTakes(w - {x}, k);
      SumTakes(w - {k}, x);
      assert w - {x} - {k} == w - {k} - {x};
    }
  }

  // A list of all keys, each once, weighs what the map sums to.
  lemma {:induction false} WeightIsSum(s: seq<Key>, w: map<Key, nat>)
    requires Distinct(s) && forall k :: k in s <==> k in w
    ensures Weight(s, w) == Sum(w)
  {
    if s == [] {
      assert w == map[];
    } else {
      var k, rest := s[0], s[1..];
      assert s == [k] + rest && k !in rest;
      SumTakes(w, k);
      WeightSame(rest, w, w - {k});
      WeightIsSum(rest, w - {k});
    }
  }

  // The sum of the recorded sizes.
  function Total(l: Lru): nat {
    Weight(l.order, l.sizes)
  }

  lemma RecordedLe(l: Lru, k: Key)
    requires Valid(l)
    ensures Recorded(l, k) <= Total(l)
  {
    if k in l.sizes {
      WeightMember(l.order, k, l.sizes);
    }
  }

  lemma TouchTotal(l: Lru, k: Key, size: u64)
    requires Valid(l)
    ensures Total(Touch(l, k, size)) == Total(l) - Recorded(l, k) + size
  {
    TouchWeight(l, k, size, l.sizes, size);
  }

  lemma DropTotal(l: Lru)
    requires Valid(l) && l.order != []
    ensures Oldest(l) in l.sizes && Total(DropOldest(l)) == Total(l) - l.sizes[Oldest(l)]
  {
    assert Oldest(l) in l.order;
    DropWeight(l, l.sizes);
  }

  // ---------- the list as it is kept in memory ----------

  class LRU {
    var l: seq<Key>
    var lElems: map<Key, u64>

    ghost function View(): Lru
      reads this
    {
      Lru(l, lElems)
    }

    constructor ()
      ensures View() == Lru([], map[]) && Valid(View())
    {
      l, lElems := [], map[];
    }

    method Add(key: Key, size: u64) returns (oldSize: u64)
      requires Valid(View())
      modifies this
      ensures Valid(View()) && View() == Touch(old(View()), key, size)
      ensures oldSize == Recorded(old(View()), key)
    {
      TouchValid(View(), key, size);
      if key in lElems {
        oldSize := lElems[key];
        l := [key] + Without(l, key);
      } else {
        oldSize := 0;
        l := [key] + l;
      }
      lElems := lElems[key := size];
    }

    method RemoveOldest() returns (found: Option<(Key, u64)>)
      requires Valid(View())
      modifies this
      ensures Valid(View())
      ensures if old(l) == [] then found.None? && View() == old(View())
              else View() == DropOldest(old(View()))
                   && found == Some((Oldest(old(View())), Recorded(old(View()), Oldest(old(View())))))
    {
      if l == [] {
        return None;
      }
      DropValid(View());
      var key := l[|l| - 1];
      found := Some((key, lElems[key]));
      l, lElems := l[..|l| - 1], lElems - {key};
    }

    // Oldest key first.
    method Keys() returns (arr: seq<Key>)
      ensures |arr| == |l| && forall i | 0 <= i < |l| :: arr[i] == l[|l| - 1 - i]
    {
      arr := [];
      var e := |l|;
      while e > 0
        invariant 0 <= e <= |l| && |arr| == |l| - e
        invariant forall i | 0 <= i < |arr| :: arr[i] == l[|l| - 1 - i]
      {
        e := e - 1;
        arr := arr + [l[e]];
      }
    }
  }
}
