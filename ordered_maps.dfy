/**
 * A JavaScript `Map` with string keys: a finite map that also remembers the order in which its
 * keys were first inserted, which is the order `values()` iterates in.
 */
module OrderedMaps {

  datatype OrderedMap<V> = OrderedMap(order: seq<string>, entries: map<string, V>) {

    /** The keys in `order` are distinct and are exactly the keys of `entries`. */
    ghost predicate Valid() {
      && (forall i, j :: 0 <= i < j < |order| ==> order[i] != order[j])
      && (forall k :: k in entries <==> k in order)
    }

    /** `Map.prototype.has`: a key is present exactly when it is in the iteration order. */
    predicate Has(k: string): (b: bool)
      ensures Valid() ==> (b <==> k in order)
    {
      k in entries
    }

    /** `Map.prototype.get`, for a key that is present: one of the values `values()` lists. */
    function Get(k: string): (v: V)
      requires Has(k)
      ensures Valid() ==> v in Values()
    {
      entries[k]
    }

    /**
     * `Map.prototype.set`: the key now maps to `v`, every other key keeps its
     * value, and a new key goes to the end of the iteration order while an
     * existing one keeps its place.
     */
    function Set(k: string, v: V): (m: OrderedMap<V>)
      requires Valid()
      ensures m.Valid()
      ensures m.Has(k) && m.Get(k) == v
      ensures forall j :: j != k ==> (j in m.entries <==> j in entries)
      ensures forall j :: j != k && j in entries ==> m.entries[j] == entries[j]
      ensures m.order == if Has(k) then order else order + [k]
    {
      OrderedMap(if k in entries then order else order + [k], entries[k := v])
    }

    /** `[...m.values()]`: the values, in insertion order of their keys. */
    function Values(): (vs: seq<V>)
      requires Valid()
      ensures |vs| == |order|
      ensures forall i :: 0 <= i < |order| ==> vs[i] == entries[order[i]]
    {
      ValuesAt(order)
    }

    function ValuesAt(keys: seq<string>): (vs: seq<V>)
      requires forall k :: k in keys ==> k in entries
      ensures |vs| == |keys|
      ensures forall i :: 0 <= i < |keys| ==> vs[i] == entries[keys[i]]
    {
      if keys == [] then [] else [entries[keys[0]]] + ValuesAt(keys[1..])
    }
  }

  /** `new Map()` */
  function Empty<V>(): (m: OrderedMap<V>)
    ensures m.Valid()
    ensures forall k :: !m.Has(k)
    ensures m.order == []
  {
    OrderedMap([], map[])
  }

  /** Every value stored under some key is listed by `Values`, and only those are. */
  lemma ValuesExactly<V>(m: OrderedMap<V>)
    requires m.Valid()
    ensures forall k :: m.Has(k) ==> m.Get(k) in m.Values()
    ensures forall v :: v in m.Values() ==> exists k :: m.Has(k) && m.Get(k) == v
  {
    var vs := m.Values();
    forall k | m.Has(k)
      ensures m.Get(k) in vs
    {
      var i :| 0 <= i < |m.order| && m.order[i] == k;
      assert vs[i] == m.Get(k);
    }
    forall v | v in vs
      ensures exists k :: m.Has(k) && m.Get(k) == v
    {
      var i :| 0 <= i < |vs| && vs[i] == v;
      assert m.Has(m.order[i]);
    }
  }
}
