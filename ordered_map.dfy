/** A JavaScript `Map` with string keys, as the registry keeps its records:
    the entries, and the order in which their keys were first inserted
    (the order `values()` and `entries()` enumerate them in). */
module OrderedMap {
  import opened Common

  datatype OrderedMap<V> = OrderedMap(items: map<string, V>, keys: seq<string>)
  {
    /** Each key listed once, and exactly the keys that have entries. */
    ghost predicate Valid()
    {
      && (forall i, j :: 0 <= i < j < |keys| ==> keys[i] != keys[j])
      && (forall k :: k in keys <==> k in items)
    }

    /** `map.get(k)` */
    function Get(k: string): (r: Option<V>)
      ensures r.Some? <==> k in items
      ensures r.Some? ==> r.value == items[k]
    {
      if k in items then Some(items[k]) else None
    }

    /** `map.set(k, v)`: a new key goes last; an existing key keeps its place. */
    function Set(k: string, v: V): (r: OrderedMap<V>)
      ensures Valid() ==> r.Valid()
      ensures r.items == items[k := v]
      ensures r.keys == if k in items then keys else keys + [k]
    {
      OrderedMap(items[k := v], if k in items then keys else keys + [k])
    }

    /** `Array.from(map.values())` */
    function Values(): (r: seq<V>)
      requires Valid()
      ensures |r| == |keys|
      ensures forall i :: 0 <= i < |keys| ==> r[i] == items[keys[i]]
    {
      seq(|keys|, i requires 0 <= i < |keys| => items[keys[i]])
    }

    /** `Array.from(map.entries())` */
    function Entries(): (r: seq<(string, V)>)
      requires Valid()
      ensures |r| == |keys|
      ensures forall i :: 0 <= i < |keys| ==> r[i] == (keys[i], items[keys[i]])
    {
      seq(|keys|, i requires 0 <= i < |keys| => (keys[i], items[keys[i]]))
    }

    /** The map holding only the first `n` keys in insertion order. */
    ghost function Prefix(n: nat): OrderedMap<V>
      requires Valid() && n <= |keys|
    {
      OrderedMap(map k | k in keys[..n] :: items[k], keys[..n])
    }
  }

  function Empty<V>(): (r: OrderedMap<V>)
    ensures r.Valid() && r.items == map[] && r.keys == []
  {
    OrderedMap(map[], [])
  }

  /** `new Map(entries)`: the entries are set in order, so a repeated key
      keeps its first position and its last value. */
  function FromEntries<V>(es: seq<(string, V)>): (r: OrderedMap<V>)
    ensures r.Valid()
    decreases |es|
  {
    if es == [] then Empty()
    else FromEntries(es[..|es| - 1]).Set(es[|es| - 1].0, es[|es| - 1].1)
  }

  /** `values()` enumerates exactly the stored values. */
  lemma ValuesAreItems<V>(m: OrderedMap<V>)
    requires m.Valid()
    ensures forall v :: v in m.Values() <==> v in m.items.Values
  {
    forall v | v in m.items.Values ensures v in m.Values() {
      var k :| k in m.items && m.items[k] == v;
      var i :| 0 <= i < |m.keys| && m.keys[i] == k;
      assert m.Values()[i] == v;
    }
  }

  /** `entries()` enumerates exactly the stored pairs, and `values()` is
      their second components in the same order. */
  lemma EntriesAreItems<V>(m: OrderedMap<V>)
    requires m.Valid()
    ensures forall p: (string, V) :: p in m.Entries() <==> p.0 in m.items && m.items[p.0] == p.1
    ensures forall i :: 0 <= i < |m.keys| ==> m.Values()[i] == m.Entries()[i].1
  {
    forall p: (string, V) | p.0 in m.items && m.items[p.0] == p.1 ensures p in m.Entries() {
      var i :| 0 <= i < |m.keys| && m.keys[i] == p.0;
      assert m.Entries()[i] == p;
    }
  }

  /** `get` after `set`: the key just set reads back its new value, every
      other key reads as before, and the key count grows only for a new key. */
  lemma GetAfterSet<V>(m: OrderedMap<V>, k: string, v: V)
    requires m.Valid()
    ensures m.Set(k, v).Get(k) == Some(v)
    ensures forall j :: j != k ==> m.Set(k, v).Get(j) == m.Get(j)
    ensures |m.Set(k, v).keys| == if m.Get(k).Some? then |m.keys| else |m.keys| + 1
  {
  }

  /** Every entry of a Map built from a list of pairs is one of those pairs. */
  lemma {:induction false} FromEntriesFrom<V>(es: seq<(string, V)>)
    ensures forall k :: k in FromEntries(es).items ==> (k, FromEntries(es).items[k]) in es
    decreases |es|
  {
    if es != [] {
      var init := es[..|es| - 1];
      FromEntriesFrom(init);
      assert forall p :: p in init ==> p in es;
      assert es[|es| - 1] in es;
    }
  }

  lemma PrefixGrow<V>(m: OrderedMap<V>, n: nat)
    requires m.Valid() && 0 < n <= |m.keys|
    ensures m.Prefix(n - 1).Set(m.keys[n - 1], m.items[m.keys[n - 1]]) == m.Prefix(n)
  {
    var k := m.keys[n - 1];
    assert k !in m.keys[..n - 1];
    assert m.keys[..n] == m.keys[..n - 1] + [k];
    assert m.Prefix(n - 1).Set(k, m.items[k]).items == m.Prefix(n).items;
  }

  lemma FromEntriesLast<V>(m: OrderedMap<V>, n: nat)
    requires m.Valid() && 0 < n <= |m.keys|
    ensures FromEntries(m.Entries()[..n])
         == FromEntries(m.Entries()[..n - 1]).Set(m.keys[n - 1], m.items[m.keys[n - 1]])
  {
    var es := m.Entries()[..n];
    assert es[..n - 1] == m.Entries()[..n - 1];
  }

  lemma {:induction false} FromEntriesPrefix<V>(m: OrderedMap<V>, n: nat)
    requires m.Valid() && n <= |m.keys|
    ensures FromEntries(m.Entries()[..n]) == m.Prefix(n)
  {
    if n > 0 {
      FromEntriesPrefix(m, n - 1);
      FromEntriesLast(m, n);
      PrefixGrow(m, n);
    } else {
      assert m.Prefix(0).items == map[];
    }
  }

  /** Rebuilding a Map from its own entries gives back the same Map, in the same order. */
  lemma FromEntriesRoundTrip<V>(m: OrderedMap<V>)
    requires m.Valid()
    ensures FromEntries(m.Entries()) == m
  {
    FromEntriesPrefix(m, |m.keys|);
    assert m.Entries()[..|m.keys|] == m.Entries();
    assert m.keys[..|m.keys|] == m.keys;
    assert m.Prefix(|m.keys|).items == m.items;
  }
}
