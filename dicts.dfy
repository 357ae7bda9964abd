/**
 * Python dictionaries as the sweep uses them: parameter records loaded from and
 * dumped to JSON, mapping parameter names to integers, plus a string `time`.
 * A dictionary keeps its keys in insertion order, each key at most once.
 */
module Dicts {
  import opened Wrappers

  type Key = string

  /** The JSON scalars a record holds: parameter values are integers, the timing is a string. */
  datatype Value = Int(i: int) | Str(s: string)

  /** The Python exceptions the modelled code can raise. */
  datatype Exception =
    | KeyError(key: Key)   // `del d[k]` on a missing key
    | IndexError           // `[-1]` on an empty list
    | LaunchError          // anything the external training process raises

  predicate DistinctKeys(items: seq<(Key, Value)>) {
    forall i, j :: 0 <= i < j < |items| ==> items[i].0 != items[j].0
  }

  /** A dictionary: its items in insertion order. */
  type Dict = items: seq<(Key, Value)> | DistinctKeys(items)

  /** `list(d.keys())` */
  function KeyList<V>(items: seq<(Key, V)>): (ks: seq<Key>)
    ensures |ks| == |items| && forall i :: 0 <= i < |items| ==> ks[i] == items[i].0
  {
    seq(|items|, i requires 0 <= i < |items| => items[i].0)
  }

  predicate HasKey(d: Dict, k: Key) {
    exists i :: 0 <= i < |d| && d[i].0 == k
  }

  /** The mapping a dictionary denotes, forgetting insertion order. */
  function ToMap(d: Dict): (m: map<Key, Value>)
    ensures forall k :: k in m <==> HasKey(d, k)
    ensures forall i :: 0 <= i < |d| ==> d[i].0 in m && m[d[i].0] == d[i].1
  {
    map k | k in KeyList(d) :: d[IndexOf(d, k)].1
  }

  /** `d.get(k)` */
  function Get(d: Dict, k: Key): (r: Option<Value>)
    ensures r.Some? <==> HasKey(d, k)
    ensures r.Some? ==> (k, r.value) in d
  {
    if k in ToMap(d) then Some(ToMap(d)[k]) else None
  }

  /** Position of key `k` in `d`. */
  function IndexOf(d: Dict, k: Key): (i: nat)
    requires HasKey(d, k)
    ensures i < |d| && d[i].0 == k
  {
    if d[0].0 == k then 0 else 1 + IndexOf(d[1..], k)
  }

  /** `d[k] = v`: an existing key keeps its position, a new key goes last. */
  function SetItem(d: Dict, k: Key, v: Value): (r: Dict)
    ensures HasKey(d, k) ==> KeyList(r) == KeyList(d)
    ensures !HasKey(d, k) ==> r == d + [(k, v)]
  {
    if HasKey(d, k) then
      var r := seq(|d|, i requires 0 <= i < |d| => if d[i].0 == k then (k, v) else d[i]);
      assert KeyList(r) == KeyList(d);
      r
    else
      d + [(k, v)]
  }

  /** After `d[k] = v` the items are `(k, v)` and the items of `d` under other keys. */
  lemma SetItemItems(d: Dict, k: Key, v: Value)
    ensures forall p :: p in SetItem(d, k, v) <==> p == (k, v) || (p in d && p.0 != k)
  {
    var r := SetItem(d, k, v);
    if HasKey(d, k) {
      assert (k, v) in r by {
        var i := IndexOf(d, k);
        assert r[i] == (k, v);
      }
      forall p | p in d && p.0 != k ensures p in r {
        var i :| 0 <= i < |d| && d[i] == p;
        assert r[i] == p;
      }
    }
  }

  /** `d` with the item for `k` taken out, the others in their order. */
  function Without(d: Dict, k: Key): (r: Dict)
    ensures forall p :: p in r <==> p in d && p.0 != k
    ensures HasKey(d, k) ==> r == d[..IndexOf(d, k)] + d[IndexOf(d, k) + 1..]
    ensures !HasKey(d, k) ==> r == d
  {
    if HasKey(d, k) then
      var i := IndexOf(d, k);
      DropAt(d, i);
      d[..i] + d[i + 1..]
    else d
  }

  /** Dropping the item at position `i` keeps the keys distinct and loses exactly that key. */
  lemma DropAt(d: Dict, i: nat)
    requires i < |d|
    ensures DistinctKeys(d[..i] + d[i + 1..])
    ensures forall p :: p in d[..i] + d[i + 1..] <==> p in d && p.0 != d[i].0
  {
    var r := d[..i] + d[i + 1..];
    assert |r| == |d| - 1;
    assert forall a :: 0 <= a < |r| ==> r[a] == d[if a < i then a else a + 1];
    forall p | p in d && p.0 != d[i].0 ensures p in r {
      var a :| 0 <= a < |d| && d[a] == p;
      if a < i {
        assert r[a] == p;
      } else {
        assert r[a - 1] == p;
      }
    }
  }

  /** The mapping of a dictionary is fixed by its items. */
  lemma ToMapByItems(d: Dict, m: map<Key, Value>)
    requires forall p :: p in d <==> p.0 in m && m[p.0] == p.1
    ensures ToMap(d) == m
  {
    var t := ToMap(d);
    forall j | j in t ensures j in m && t[j] == m[j] {
      var i := IndexOf(d, j);
      assert d[i] in d;
    }
    forall j | j in m ensures j in t {
      assert (j, m[j]) in d;
    }
  }

  /** `d[k] = v` maps `k` to `v` and leaves every other key as it was. */
  lemma SetItemToMap(d: Dict, k: Key, v: Value)
    ensures ToMap(SetItem(d, k, v)) == ToMap(d)[k := v]
  {
    var m := ToMap(d)[k := v];
    SetItemItems(d, k, v);
    forall p ensures p in SetItem(d, k, v) <==> p.0 in m && m[p.0] == p.1 {
      if p in d && p.0 != k {
        var i :| 0 <= i < |d| && d[i] == p;
      }
      if p.0 in m && m[p.0] == p.1 && p.0 != k {
        var i := IndexOf(d, p.0);
      }
    }
    ToMapByItems(SetItem(d, k, v), m);
  }

  /** `del d[k]` removes `k` from the mapping and keeps every other key. */
  lemma WithoutToMap(d: Dict, k: Key)
    ensures ToMap(Without(d, k)) == ToMap(d) - {k}
  {
    var m := ToMap(d) - {k};
    forall p ensures p in Without(d, k) <==> p.0 in m && m[p.0] == p.1 {
      if p in d && p.0 != k {
        var i :| 0 <= i < |d| && d[i] == p;
      }
      if p.0 in m && m[p.0] == p.1 {
        var i := IndexOf(d, p.0);
      }
    }
    ToMapByItems(Without(d, k), m);
  }

  /** `del d[k]`, which raises `KeyError` when `k` is absent. */
  function Delete(d: Dict, k: Key): (r: Result<Dict, Exception>)
    ensures r.Failure? <==> !HasKey(d, k)
    ensures r.Failure? ==> r.error == KeyError(k)
    ensures r.Success? ==> r.value == Without(d, k) && |r.value| == |d| - 1
  {
    if HasKey(d, k) then Success(Without(d, k)) else Failure(KeyError(k))
  }

  /** `frozenset(d.items())`: the identity of a record, independent of insertion order. */
  function Identity(d: Dict): (items: set<(Key, Value)>)
    ensures |items| == |d|
  {
    var items := set p | p in d;
    ItemsCount(d, items);
    items
  }

  /** A dictionary has as many distinct items as entries: its keys are distinct. */
  lemma {:induction false} ItemsCount(d: Dict, items: set<(Key, Value)>)
    requires forall p :: p in items <==> p in d
    ensures |items| == |d|
  {
    if d != [] {
      var n := |d| - 1;
      var init: Dict := d[..n];
      assert d[n] !in init by {
        forall i | 0 <= i < n ensures init[i] != d[n] {
          assert d[i].0 != d[n].0;
        }
      }
      assert forall p :: p in items - {d[n]} <==> p in init by {
        assert d == init + [d[n]];
      }
      ItemsCount(init, items - {d[n]});
    }
  }

  /** Two dictionaries have the same identity exactly when they denote the same mapping. */
  lemma IdentityIffSameMap(a: Dict, b: Dict)
    ensures Identity(a) == Identity(b) <==> ToMap(a) == ToMap(b)
  {
    ToMapItems(a);
    ToMapItems(b);
    if Identity(a) == Identity(b) {
      assert forall p :: p in b <==> p in a by {
        forall p ensures p in b <==> p in a {
          assert p in b <==> p in Identity(b);
          assert p in a <==> p in Identity(a);
        }
      }
      ToMapByItems(b, ToMap(a));
    }
    if ToMap(a) == ToMap(b) {
      assert forall p :: p in Identity(a) <==> p in Identity(b);
    }
  }

  /** Insertion order does not matter: the same items in another order give the same identity. */
  lemma IdentityIgnoresOrder(a: Dict, b: Dict)
    requires multiset(a) == multiset(b)
    ensures Identity(a) == Identity(b)
  {
    forall p ensures p in a <==> p in b {
      assert p in a <==> p in multiset(a);
      assert p in b <==> p in multiset(b);
    }
  }

  /** An item is in a dictionary exactly when the dictionary maps its key to its value. */
  lemma ToMapItems(d: Dict)
    ensures forall p :: p in d <==> p.0 in ToMap(d) && ToMap(d)[p.0] == p.1
  {
    forall p: (Key, Value) | p.0 in ToMap(d) && ToMap(d)[p.0] == p.1 ensures p in d {
      var i := IndexOf(d, p.0);
      assert d[i] in d;
    }
  }

  /** Setting a new key and deleting it again restores the dictionary. */
  lemma DeleteUndoesSetItem(d: Dict, k: Key, v: Value)
    requires !HasKey(d, k)
    ensures Delete(SetItem(d, k, v), k) == Success(d)
  {
    var r := SetItem(d, k, v);
    assert r == d + [(k, v)];
    assert r[|d|].0 == k;
    var i := IndexOf(r, k);
    assert r[..i] == d && r[i + 1..] == [];
    assert Without(r, k) == d;
  }
}
