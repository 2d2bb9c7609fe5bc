/**
 * JavaScript's `Map`, which remembers the order in which keys were first inserted:
 * `set` on a new key appends it, `set` on a present key replaces the value in place.
 * `new Map(entries)` is `FromEntries`.
 */
module JsMap {
  import opened Wrappers

  datatype OrderedMap<K, V> = OrderedMap(keys: seq<K>, entries: map<K, V>) {

    /** Keys are listed once each, and exactly the keys that have an entry. */
    ghost predicate Valid() {
      && (forall i, j :: 0 <= i < j < |keys| ==> keys[i] != keys[j])
      && entries.Keys == (set k | k in keys)
    }

    /** `map.set(k, v)` */
    function Set(k: K, v: V): (m: OrderedMap<K, V>)
      ensures m.entries == entries[k := v]
      ensures k in entries ==> m.keys == keys
      ensures k !in entries ==> m.keys == keys + [k]
      ensures Valid() ==> m.Valid()
    {
      if k in entries then OrderedMap(keys, entries[k := v])
      else OrderedMap(keys + [k], entries[k := v])
    }

    /** `map.get(k)`, `undefined` when absent. */
    function Get(k: K): (r: Option<V>)
      ensures r.Some? <==> k in entries
      ensures r.Some? ==> r.value == entries[k]
    {
      if k in entries then Some(entries[k]) else None
    }

    /** `Array.from(map.values())`: the values in key-insertion order. */
    function Values(): (r: seq<V>)
      requires Valid()
      ensures |r| == |keys|
      ensures forall i :: 0 <= i < |keys| ==> r[i] == entries[keys[i]]
    {
      seq(|keys|, i requires 0 <= i < |keys| => entries[keys[i]])
    }
  }

  function Empty<K, V>(): (m: OrderedMap<K, V>)
    ensures m.Valid() && m.keys == [] && m.entries == map[]
  {
    OrderedMap([], map[])
  }

  /** The keys of a list of entries, in order, repetitions included. */
  function KeysOf<K, V>(es: seq<(K, V)>): (ks: seq<K>)
    ensures |ks| == |es|
    ensures forall i :: 0 <= i < |es| ==> ks[i] == es[i].0
  {
    seq(|es|, i requires 0 <= i < |es| => es[i].0)
  }

  /** `new Map(entries)`: the entries `set` one after the other. */
  function FromEntries<K, V>(es: seq<(K, V)>): (m: OrderedMap<K, V>)
    ensures m.Valid()
  {
    if es == [] then Empty()
    else FromEntries(es[..|es| - 1]).Set(es[|es| - 1].0, es[|es| - 1].1)
  }

  /** Position of the first occurrence of `k` in `ks`. */
  ghost function FirstIndex<K>(ks: seq<K>, k: K): (i: nat)
    requires k in ks
    ensures i < |ks| && ks[i] == k
    ensures forall j :: 0 <= j < i ==> ks[j] != k
  {
    if ks[0] == k then 0 else 1 + FirstIndex(ks[1..], k)
  }

  lemma {:induction false} FirstIndexAppend<K>(ks: seq<K>, x: K, k: K)
    requires k in ks
    ensures k in ks + [x] && FirstIndex(ks + [x], k) == FirstIndex(ks, k)
  {
    var i := FirstIndex(ks, k);
    var j := FirstIndex(ks + [x], k);
    assert (ks + [x])[i] == k;
  }

  /** An entry is kept for exactly the keys that occur in the list. */
  lemma {:induction false} FromEntriesKeys<K, V>(es: seq<(K, V)>)
    ensures forall k :: k in FromEntries(es).entries <==> k in KeysOf(es)
  {
    if es != [] {
      var init := es[..|es| - 1];
      FromEntriesKeys(init);
      assert KeysOf(es) == KeysOf(init) + [es[|es| - 1].0];
    }
  }

  /**
   * The value stored under a key is the value of the LAST entry with that key:
   * a later duplicate overwrites an earlier one.
   */
  lemma {:induction false} FromEntriesLastWins<K, V>(es: seq<(K, V)>, k: K)
    requires k in FromEntries(es).entries
    ensures exists i :: 0 <= i < |es| && es[i] == (k, FromEntries(es).entries[k])
                        && forall j :: i < j < |es| ==> es[j].0 != k
  {
    var init := es[..|es| - 1];
    var last := es[|es| - 1];
    if last.0 == k {
      assert es[|es| - 1] == (k, FromEntries(es).entries[k]);
    } else {
      FromEntriesLastWins(init, k);
      var i :| 0 <= i < |init| && init[i] == (k, FromEntries(init).entries[k])
               && forall j :: i < j < |init| ==> init[j].0 != k;
      assert es[i] == init[i];
      assert forall j :: i < j < |es| ==> es[j].0 != k by {
        forall j | i < j < |es| ensures es[j].0 != k {
          if j < |init| { assert es[j] == init[j]; }
        }
      }
    }
  }

  /** Every key of `keys` occurs in `ks`, and `keys` lists them by first occurrence in `ks`. */
  ghost predicate FirstOccurrenceOrder<K>(keys: seq<K>, ks: seq<K>) {
    && (forall p :: 0 <= p < |keys| ==> keys[p] in ks)
    && (forall p, q :: 0 <= p < q < |keys| ==> FirstIndex(ks, keys[p]) < FirstIndex(ks, keys[q]))
  }

  lemma OrderStep<K, V>(m0: OrderedMap<K, V>, ks0: seq<K>, k: K, v: V)
    requires m0.Valid() && FirstOccurrenceOrder(m0.keys, ks0)
    requires forall x :: x in m0.entries <==> x in ks0
    ensures FirstOccurrenceOrder(m0.Set(k, v).keys, ks0 + [k])
  {
    var m, ks := m0.Set(k, v), ks0 + [k];
    forall p | 0 <= p < |m0.keys| ensures FirstIndex(ks, m0.keys[p]) == FirstIndex(ks0, m0.keys[p]) {
      FirstIndexAppend(ks0, k, m0.keys[p]);
    }
    if k !in m0.entries {
      assert ks[|ks0|] == k;
      assert FirstIndex(ks, k) == |ks0|;
    }
  }

  /** Keys are listed in the order of their first occurrence in the entries. */
  lemma {:induction false} FromEntriesOrder<K, V>(es: seq<(K, V)>)
    ensures FirstOccurrenceOrder(FromEntries(es).keys, KeysOf(es))
  {
    if es != [] {
      var init := es[..|es| - 1];
      var last := es[|es| - 1];
      FromEntriesOrder(init);
      FromEntriesKeys(init);
      OrderStep(FromEntries(init), KeysOf(init), last.0, last.1);
      assert KeysOf(es) == KeysOf(init) + [last.0];
    }
  }
}
