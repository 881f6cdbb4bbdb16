/**
 * Python dicts: a mapping from keys to values together with the order in which
 * the keys were first inserted, which is the order iteration visits them in.
 * Assigning to a key that is present replaces its value and keeps its place;
 * assigning to a new key appends it to the order.
 */
module Dicts {
  import opened Wrappers

  predicate Distinct<K(==)>(s: seq<K>)
  {
    forall i, j :: 0 <= i < j < |s| ==> s[i] != s[j]
  }

  datatype OrderedMap<K(==), V> = OrderedMap(keys: seq<K>, items: map<K, V>)
  {
    /** Every key is listed once in the order, and the order lists exactly the keys. */
    ghost predicate Valid()
    {
      Distinct(keys) && items.Keys == set k | k in keys
    }
  }

  type Dict<K(==), V> = d: OrderedMap<K, V> | d.Valid() witness OrderedMap([], map[])

  /** `dict()` */
  function Empty<K(==), V>(): Dict<K, V>
  {
    OrderedMap([], map[])
  }

  /** `len(d)` */
  function Size<K(==), V>(d: Dict<K, V>): nat
  {
    |d.keys|
  }

  /** `d[k]`, or None where Python raises KeyError. */
  function Get<K(==), V>(d: Dict<K, V>, k: K): Option<V>
  {
    if k in d.items then Some(d.items[k]) else None
  }

  /** The value under the i-th key in iteration order. */
  function ValueAt<K(==), V>(d: Dict<K, V>, i: int): V
    requires 0 <= i < |d.keys|
  {
    assert d.keys[i] in d.keys;
    d.items[d.keys[i]]
  }

  /** `d[k] = v` */
  function Put<K(==), V>(d: Dict<K, V>, k: K, v: V): Dict<K, V>
  {
    OrderedMap(if k in d.items then d.keys else d.keys + [k], d.items[k := v])
  }

  /** The key at position i was not among the keys before it. */
  lemma KeyNotBefore<K, V>(d: Dict<K, V>, i: int)
    requires 0 <= i < |d.keys|
    ensures d.keys[i] !in d.keys[..i]
  {
  }

  /** Two dicts with the same iteration order and the same lookups are the same dict. */
  lemma Extensional<K, V>(a: Dict<K, V>, b: Dict<K, V>)
    requires a.keys == b.keys
    requires forall k :: Get(a, k) == Get(b, k)
    ensures a == b
  {
    assert a.items == b.items by {
      forall k | k in a.items ensures k in b.items && a.items[k] == b.items[k] {
        assert Get(a, k) == Get(b, k);
      }
      forall k | k in b.items ensures k in a.items {
        assert Get(a, k) == Get(b, k);
      }
    }
  }

  /** Assigning a key that is not yet present appends it to the iteration order. */
  lemma PutNew<K, V>(d: Dict<K, V>, k: K, v: V)
    requires k !in d.keys
    ensures Put(d, k, v).keys == d.keys + [k]
    ensures forall k' :: Get(Put(d, k, v), k') == if k' == k then Some(v) else Get(d, k')
  {
  }

  /** After `d[k] = v`, looking up k gives v and every other key is unaffected. */
  lemma PutGet<K, V>(d: Dict<K, V>, k: K, v: V)
    ensures forall k' :: Get(Put(d, k, v), k') == if k' == k then Some(v) else Get(d, k')
  {
  }

  /** Assigning `d[keys[0]] = values[0]`, `d[keys[1]] = values[1]`, … in turn. */
  function AssignAll<K(==), V>(d: Dict<K, V>, keys: seq<K>, values: seq<V>): Dict<K, V>
    requires |keys| == |values|
    decreases |keys|
  {
    if keys == [] then d else AssignAll(Put(d, keys[0], values[0]), keys[1..], values[1..])
  }

  /** The dict lists keys ks in that order, with value vs[i] under ks[i]. */
  ghost predicate Lists<K, V>(d: Dict<K, V>, ks: seq<K>, vs: seq<V>)
  {
    && d.keys == ks && |ks| == |vs|
    && (forall i :: 0 <= i < |ks| ==> Get(d, ks[i]) == Some(vs[i]))
  }

  /** Assigning a new key extends what the dict lists by that key and value. */
  lemma PutNewLists<K, V>(d: Dict<K, V>, ks: seq<K>, vs: seq<V>, k: K, v: V)
    requires Lists(d, ks, vs) && k !in ks
    ensures Lists(Put(d, k, v), ks + [k], vs + [v])
  {
    PutNew(d, k, v);
    forall i | 0 <= i < |ks| + 1
      ensures Get(Put(d, k, v), (ks + [k])[i]) == Some((vs + [v])[i])
    {
      if i < |ks| {
        assert (ks + [k])[i] == ks[i] && (vs + [v])[i] == vs[i];
      }
    }
  }

  /** What a dict that lists ks and vs holds under the i-th key. */
  lemma ListedAt<K, V>(d: Dict<K, V>, ks: seq<K>, vs: seq<V>, i: int)
    requires Lists(d, ks, vs) && 0 <= i < |ks|
    ensures Get(d, ks[i]) == Some(vs[i])
  {
  }

  /**
   * A dict whose i-th key holds values[i], for every i, is what assigning those
   * values to its keys in turn into `dict()` produces.
   */
  lemma AssignedInTurn<K, V>(d: Dict<K, V>, values: seq<V>)
    requires |values| == |d.keys|
    requires forall i :: 0 <= i < |d.keys| ==> Get(d, d.keys[i]) == Some(values[i])
    ensures AssignAll(Empty(), d.keys, values) == d
  {
    AssignAllFields(Empty(), [], [], d.keys, values);
    var a := AssignAll(Empty(), d.keys, values);
    assert [] + d.keys == d.keys && [] + values == values;
    forall k ensures Get(a, k) == Get(d, k) {
      if k in d.keys {
        var i :| 0 <= i < |d.keys| && d.keys[i] == k;
        ListedAt(a, d.keys, values, i);
      }
    }
    Extensional(a, d);
  }

  /** Prepending one element and then the rest gives the whole sequence after xs. */
  lemma AppendFirst<T>(xs: seq<T>, ys: seq<T>)
    requires ys != []
    ensures xs + [ys[0]] + ys[1..] == xs + ys
  {
    assert [ys[0]] + ys[1..] == ys;
  }

  /**
   * The keys still to assign after the first are distinct and new to the dict
   * that the first assignment produced.
   */
  lemma RestStillNew<K>(ks: seq<K>, keys: seq<K>)
    requires Distinct(keys) && keys != []
    requires forall k :: k in keys ==> k !in ks
    ensures Distinct(keys[1..])
    ensures forall k :: k in keys[1..] ==> k !in ks + [keys[0]]
  {
    forall k | k in keys[1..]
      ensures k !in ks + [keys[0]]
    {
      assert k in keys;
    }
  }

  /**
   * Assigning new distinct keys in turn into a dict appends them in that order,
   * each with its own value.
   */
  lemma {:induction false} AssignAllFields<K, V>(d: Dict<K, V>, ks: seq<K>, vs: seq<V>, keys: seq<K>, values: seq<V>)
    requires Lists(d, ks, vs) && |keys| == |values| && Distinct(keys)
    requires forall k :: k in keys ==> k !in ks
    ensures Lists(AssignAll(d, keys, values), ks + keys, vs + values)
    decreases |keys|
  {
    if keys == [] {
      assert ks + keys == ks && vs + values == vs;
    } else {
      assert keys[0] in keys;
      PutNewLists(d, ks, vs, keys[0], values[0]);
      RestStillNew(ks, keys);
      AssignAllFields(Put(d, keys[0], values[0]), ks + [keys[0]], vs + [values[0]], keys[1..], values[1..]);
      AppendFirst(ks, keys);
      AppendFirst(vs, values);
    }
  }
}
