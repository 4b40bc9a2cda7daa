/**
 * Python's `dict`: a finite map that remembers the order in which keys were
 * first inserted. Re-assigning an existing key keeps its place; deleting a key
 * removes it from the order. The game's players, walls and items live in
 * such dictionaries, and their serialised order is this order.
 */
module Dicts {
  import opened Base

  datatype RawDict<K, V> = RawDict(order: seq<K>, entries: map<K, V>)

  ghost predicate Distinct<K>(s: seq<K>) {
    forall i, j :: 0 <= i < j < |s| ==> s[i] != s[j]
  }

  /**
   * `order` lists the keys in `keys`, each once. Stated by recursion rather
   * than by quantifiers so that the verifier unfolds it only on demand;
   * ListsMeaning gives the quantified form.
   */
  predicate Lists<K>(order: seq<K>, keys: set<K>)
    decreases |order|
  {
    if order == [] then keys == {}
    else order[|order| - 1] in keys && Lists(order[..|order| - 1], keys - {order[|order| - 1]})
  }

  lemma {:induction false} ListsMeaning<K>(order: seq<K>, keys: set<K>)
    ensures Lists(order, keys) <==> Distinct(order) && (set k | k in order) == keys
    decreases |order|
  {
    if order != [] {
      var n := |order| - 1;
      var init, k := order[..n], order[n];
      ListsMeaning(init, keys - {k});
      assert (set x | x in order) == (set x | x in init) + {k} by {
        assert forall x :: x in order <==> x in init || x == k;
      }
      if Distinct(order) {
        assert Distinct(init) by {
          assert forall a, b :: 0 <= a < b < n ==> init[a] == order[a] && init[b] == order[b];
        }
        assert k !in (set x | x in init) by {
          forall a | 0 <= a < n ensures init[a] != k { assert init[a] == order[a]; }
        }
      }
      if Lists(order, keys) {
        assert Distinct(order) by {
          forall a, b | 0 <= a < b < |order| ensures order[a] != order[b] {
            assert order[a] == init[a];
            if b < n { assert order[b] == init[b]; } else { assert init[a] in (set x | x in init); }
          }
        }
      }
    }
  }

  type Dict<K, V> = d: RawDict<K, V> | Lists(d.order, d.entries.Keys)
    witness RawDict([], map[])

  /** Every dictionary's order lists its keys, each once. */
  lemma Wf<K, V>(d: Dict<K, V>)
    ensures Distinct(d.order) && (set k | k in d.order) == d.entries.Keys
  {
    ListsMeaning(d.order, d.entries.Keys);
  }

  /** An order that lists the keys of `entries`, each once, makes a dictionary. */
  lemma Make<K, V>(order: seq<K>, entries: map<K, V>)
    requires Distinct(order) && (set k | k in order) == entries.Keys
    ensures Lists(order, entries.Keys)
  {
    ListsMeaning(order, entries.Keys);
  }

  function Empty<K, V>(): (d: Dict<K, V>)
    ensures |d.order| == 0 && d.entries == map[]
  {
    RawDict([], map[])
  }

  function Get<K, V>(d: Dict<K, V>, k: K): (r: Option<V>)
    ensures r.Some? <==> k in d.entries
    ensures r.Some? ==> r.value == d.entries[k]
  {
    if k in d.entries then Some(d.entries[k]) else None
  }

  lemma InOrder<K, V>(d: Dict<K, V>, k: K)
    ensures k in d.entries <==> k in d.order
  {
    Wf(d);
    assert k in d.order ==> k in (set x | x in d.order);
  }

  /** `d[k] = v`. */
  function Set<K, V>(d: Dict<K, V>, k: K, v: V): (r: Dict<K, V>)
    ensures r.entries == d.entries[k := v]
    ensures k in d.entries ==> r.order == d.order
    ensures k !in d.entries ==> r.order == d.order + [k]
  {
    InOrder(d, k);
    if k in d.entries then
      assert d.entries[k := v].Keys == d.entries.Keys;
      RawDict(d.order, d.entries[k := v])
    else
      var r := RawDict(d.order + [k], d.entries[k := v]);
      assert Lists(r.order, r.entries.Keys) by {
        assert r.order[..|r.order| - 1] == d.order;
        assert r.entries.Keys - {k} == d.entries.Keys;
      }
      r
  }

  function Remove<K(==)>(s: seq<K>, k: K): (r: seq<K>)
    ensures forall i :: 0 <= i < |r| ==> r[i] in s && r[i] != k
    ensures forall i :: 0 <= i < |s| && s[i] != k ==> s[i] in r
    ensures k !in s ==> r == s
    ensures |r| <= |s|
  {
    if s == [] then []
    else if s[0] == k then Remove(s[1..], k)
    else [s[0]] + Remove(s[1..], k)
  }

  /** Removing a key from a list without repeats leaves a list without repeats. */
  lemma {:induction false} RemoveDistinct<K>(s: seq<K>, k: K)
    requires Distinct(s)
    ensures Distinct(Remove(s, k))
  {
    if s != [] {
      var t := s[1..];
      assert Distinct(t) by {
        forall i, j | 0 <= i < j < |t| ensures t[i] != t[j] {
          assert t[i] == s[i + 1] && t[j] == s[j + 1];
        }
      }
      RemoveDistinct(t, k);
      if s[0] != k {
        var r := Remove(t, k);
        var q := [s[0]] + r;
        forall i, j | 0 <= i < j < |q| ensures q[i] != q[j] {
          if i == 0 {
            assert q[j] == r[j - 1] && r[j - 1] in t;
            var m :| 0 <= m < |t| && t[m] == r[j - 1];
            assert t[m] == s[m + 1];
          } else {
            assert q[i] == r[i - 1] && q[j] == r[j - 1];
          }
        }
      }
    }
  }

  /** `del d[k]`; Python raises `KeyError` for a missing key. */
  function Del<K, V>(d: Dict<K, V>, k: K): (r: Result<Dict<K, V>>)
    ensures r.Ok? <==> k in d.entries
    ensures r.Ok? ==> r.value.entries == d.entries - {k} && r.value.order == Remove(d.order, k)
  {
    if k !in d.entries then Err("KeyError")
    else
      var order := Remove(d.order, k);
      Wf(d);
      RemoveDistinct(d.order, k);
      assert (set x | x in order) == d.entries.Keys - {k} by { InOrderAll(d); }
      Make(order, d.entries - {k});
      var nd: Dict<K, V> := RawDict(order, d.entries - {k});
      Ok(nd)
  }

  lemma InOrderAll<K, V>(d: Dict<K, V>)
    ensures forall k :: k in d.entries <==> k in d.order
  {
    forall k ensures k in d.entries <==> k in d.order { InOrder(d, k); }
  }

  // A loop that replaces every value in order (`for v in d.values(): v.x = ...`).

  /** The first `i` keys in order have their values mapped by `f`, the rest are untouched. */
  ghost predicate MappedSoFar<K, V>(before: Dict<K, V>, d: Dict<K, V>, f: V -> V, i: nat) {
    d.order == before.order && d.entries.Keys == before.entries.Keys && i <= |before.order| &&
    (forall j :: 0 <= j < |before.order| ==> before.order[j] in before.entries && before.order[j] in d.entries) &&
    (forall j :: 0 <= j < i ==> d.entries[before.order[j]] == f(before.entries[before.order[j]])) &&
    (forall j :: i <= j < |before.order| ==> d.entries[before.order[j]] == before.entries[before.order[j]])
  }

  lemma MappedStart<K, V>(before: Dict<K, V>, f: V -> V)
    ensures MappedSoFar(before, before, f, 0)
  {
    InOrderAll(before);
  }

  lemma MappedStep<K, V>(before: Dict<K, V>, d: Dict<K, V>, f: V -> V, i: nat)
    requires i < |before.order| && MappedSoFar(before, d, f, i)
    ensures before.order[i] in d.entries
    ensures MappedSoFar(before, Set(d, before.order[i], f(d.entries[before.order[i]])), f, i + 1)
  {
    Wf(before);
  }

  /** Once every key is done, every value is mapped. */
  lemma MappedDone<K, V>(before: Dict<K, V>, d: Dict<K, V>, f: V -> V)
    requires MappedSoFar(before, d, f, |before.order|)
    ensures d.order == before.order && d.entries.Keys == before.entries.Keys
    ensures forall k :: k in d.entries ==> d.entries[k] == f(before.entries[k])
  {
    InOrderAll(before);
    forall k | k in d.entries ensures d.entries[k] == f(before.entries[k]) {
      var j :| 0 <= j < |before.order| && before.order[j] == k;
    }
  }

  /** `list(d.values())`: the values in insertion order. */
  function Values<K, V>(d: Dict<K, V>): (vs: seq<V>)
    ensures |vs| == |d.order|
    ensures forall i :: 0 <= i < |d.order| ==> d.order[i] in d.entries && vs[i] == d.entries[d.order[i]]
  {
    Wf(d);
    seq(|d.order|, i requires 0 <= i < |d.order| => d.entries[d.order[i]])
  }

  function Size<K, V>(d: Dict<K, V>): (n: nat)
    ensures n == |d.entries|
  {
    Wf(d);
    DistinctCard(d.order);
    |d.order|
  }

  lemma {:induction false} DistinctCard<K>(s: seq<K>)
    requires Distinct(s)
    ensures |(set x | x in s)| == |s|
  {
    if s != [] {
      DistinctCard(s[1..]);
      assert (set x | x in s) == (set x | x in s[1..]) + {s[0]};
      assert s[0] !in (set x | x in s[1..]);
    }
  }

  /** Setting a key and reading it back gives the value; other keys are untouched. */
  lemma {:induction false} SetGet<K, V>(d: Dict<K, V>, k: K, v: V, k': K)
    ensures Get(Set(d, k, v), k) == Some(v)
    ensures k' != k ==> Get(Set(d, k, v), k') == Get(d, k')
    ensures Size(Set(d, k, v)) == Size(d) + (if k in d.entries then 0 else 1)
  {
    var r := Set(d, k, v);
    assert Size(r) == |r.entries|;
    if k !in d.entries {
      assert r.entries.Keys == d.entries.Keys + {k};
    } else {
      assert r.entries.Keys == d.entries.Keys;
    }
  }
}
