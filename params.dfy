/**
 * The caller's parameter map (`Map<Object, Object>`, a `java.util.HashMap` in every
 * caller). Keys are strings; values are strings or Java ints, rendered by their
 * `toString()`. The map is kept as the sequence of its entries in iteration order.
 * HashMap gives no iteration order, so `Put` promises the new key/value view and
 * distinct keys, and nothing about where the entry lands.
 */
module Params {
  import opened Text

  datatype Value = Str(s: string) | Int(i: int)
  {
    /** `Object.toString()` of the value: the string itself, or Java's decimal rendering. */
    function ToString(): string
    {
      match this
      case Str(s) => s
      case Int(i) => IntToString(i)
    }
  }

  predicate DistinctKeys<V>(es: seq<(string, V)>)
  {
    forall i, j :: 0 <= i < j < |es| ==> es[i].0 != es[j].0
  }

  /** The key/value view of a sequence of entries. */
  function ToMap<V>(es: seq<(string, V)>): map<string, V>
  {
    if es == [] then map[] else ToMap(es[1..])[es[0].0 := es[0].1]
  }

  /** Index of the entry with the given key, or -1 when there is none. */
  function FindKey<V>(es: seq<(string, V)>, key: string): (i: int)
    ensures -1 <= i < |es|
    ensures i == -1 <==> forall j :: 0 <= j < |es| ==> es[j].0 != key
    ensures i >= 0 ==> es[i].0 == key
  {
    if es == [] then -1
    else if es[0].0 == key then 0
    else var j := FindKey(es[1..], key); if j == -1 then -1 else j + 1
  }

  lemma {:induction false} ToMapKeys<V>(es: seq<(string, V)>, key: string)
    ensures key in ToMap(es) <==> exists i :: 0 <= i < |es| && es[i].0 == key
  {
    if es != [] {
      ToMapKeys(es[1..], key);
      if exists i :: 0 <= i < |es[1..]| && es[1..][i].0 == key {
        var i :| 0 <= i < |es[1..]| && es[1..][i].0 == key;
        assert es[i + 1].0 == key;
      }
      if exists i :: 0 <= i < |es| && es[i].0 == key && i > 0 {
        var i :| 0 <= i < |es| && es[i].0 == key && i > 0;
        assert es[1..][i - 1].0 == key;
      }
    }
  }

  /** With distinct keys, every entry is what the map view says. */
  lemma {:induction false} ToMapAt<V>(es: seq<(string, V)>, i: nat)
    requires DistinctKeys(es) && i < |es|
    ensures es[i].0 in ToMap(es) && ToMap(es)[es[i].0] == es[i].1
  {
    if i > 0 {
      assert es[1..][i - 1] == es[i];
      ToMapAt(es[1..], i - 1);
    }
  }

  /** With distinct keys the map view has exactly one key per entry. */
  lemma {:induction false} ToMapSize<V>(es: seq<(string, V)>)
    requires DistinctKeys(es)
    ensures |ToMap(es)| == |es|
  {
    if es != [] {
      ToMapSize(es[1..]);
      ToMapKeys(es[1..], es[0].0);
      assert es[0].0 !in ToMap(es[1..]);
    }
  }

  lemma {:induction false} ToMapAppend<V>(es: seq<(string, V)>, key: string, value: V)
    requires forall j :: 0 <= j < |es| ==> es[j].0 != key
    ensures ToMap(es + [(key, value)]) == ToMap(es)[key := value]
  {
    if es != [] {
      assert (es + [(key, value)])[1..] == es[1..] + [(key, value)];
      ToMapAppend(es[1..], key, value);
    }
  }

  lemma {:induction false} ToMapReplace<V>(es: seq<(string, V)>, i: nat, value: V)
    requires DistinctKeys(es) && i < |es|
    ensures ToMap(es[i := (es[i].0, value)]) == ToMap(es)[es[i].0 := value]
  {
    var key := es[i].0;
    if i == 0 {
      assert es[i := (key, value)][1..] == es[1..];
    } else {
      assert es[i := (key, value)][1..] == es[1..][i - 1 := (key, value)];
      ToMapReplace(es[1..], i - 1, value);
    }
  }

  /** The caller's map, mutated in place by `put`. */
  class ParamMap {
    var entries: seq<(string, Value)>

    ghost predicate Valid()
      reads this
    {
      DistinctKeys(entries)
    }

    function AsMap(): map<string, Value>
      reads this
    {
      ToMap(entries)
    }

    /** `new HashMap<>()`. */
    constructor ()
      ensures Valid() && entries == []
    {
      entries := [];
    }

    /** `Map.put(key, value)`: adds the entry or overwrites the value of an existing key. */
    method Put(key: string, value: Value)
      requires Valid()
      modifies this
      ensures Valid()
      ensures AsMap() == old(AsMap())[key := value]
    {
      var i := FindKey(entries, key);
      if i == -1 {
        ToMapAppend(entries, key, value);
        entries := entries + [(key, value)];
      } else {
        ToMapReplace(entries, i, value);
        entries := entries[i := (key, value)];
      }
    }
  }
}
