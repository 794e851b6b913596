/**
 * A JavaScript `Map` (or a plain object used as one) with string keys: its entries in insertion
 * order. Setting a present key replaces its value in place; a new key goes last.
 */
module Dict {
  import opened Types

  type Entries<V> = seq<(string, V)>

  predicate DistinctKeys<V>(es: Entries<V>)
  {
    forall i, j :: 0 <= i < j < |es| ==> es[i].0 != es[j].0
  }

  predicate HasKey<V>(es: Entries<V>, key: string)
  {
    exists i :: 0 <= i < |es| && es[i].0 == key
  }

  /** Where `key` stands (its last entry), or -1. */
  function KeyIndex<V>(es: Entries<V>, key: string): (k: int)
    ensures -1 <= k < |es|
    ensures k >= 0 ==> es[k].0 == key
    ensures k < 0 <==> !HasKey(es, key)
  {
    if es == [] then -1
    else if es[|es| - 1].0 == key then |es| - 1
    else
      var k := KeyIndex(es[..|es| - 1], key);
      assert forall i :: 0 <= i < |es| - 1 ==> es[..|es| - 1][i] == es[i];
      k
  }

  /** `Array.from(map.values())`. */
  function Values<V>(es: Entries<V>): (r: seq<V>)
    ensures |r| == |es| && forall i :: 0 <= i < |es| ==> r[i] == es[i].1
  {
    seq(|es|, i requires 0 <= i < |es| => es[i].1)
  }

  /** `map.get(key)`. */
  function Get<V>(es: Entries<V>, key: string): (r: Option<V>)
    ensures r.None? <==> !HasKey(es, key)
    ensures r.Some? ==> (key, r.value) in es
  {
    var k := KeyIndex(es, key);
    if k >= 0 then Some(es[k].1) else None
  }

  /** `map.set(key, value)`. */
  function Set<V>(es: Entries<V>, key: string, value: V): (r: Entries<V>)
    ensures HasKey(es, key) ==> |r| == |es|
    ensures !HasKey(es, key) ==> r == es + [(key, value)]
    ensures forall i :: 0 <= i < |es| ==> r[i].0 == es[i].0
    ensures forall i :: 0 <= i < |es| && es[i].0 != key ==> r[i] == es[i]
    ensures HasKey(r, key)
  {
    var k := KeyIndex(es, key);
    if k >= 0 then es[k := (key, value)]
    else
      var r := es + [(key, value)];
      assert r[|es|].0 == key;
      r
  }

  /** `map.delete(key)`. */
  function Delete<V(!new)>(es: Entries<V>, key: string): (r: Entries<V>)
    ensures forall e :: e in r <==> e in es && e.0 != key
  {
    if es == [] then []
    else
      var rest := Delete(es[1..], key);
      assert forall e :: e in es <==> e == es[0] || e in es[1..];
      if es[0].0 == key then rest else [es[0]] + rest
  }

  /** With distinct keys, the entry at `k` is what its key gets. */
  lemma GetAt<V>(es: Entries<V>, k: nat)
    requires DistinctKeys(es) && k < |es|
    ensures Get(es, es[k].0) == Some(es[k].1)
  {
  }

  /**
   * With distinct keys, `map.values()` lists what `map.get` gives for each key, in insertion
   * order, and a value is listed exactly when some key gets it.
   */
  lemma ValuesAreGets<V>(es: Entries<V>)
    requires DistinctKeys(es)
    ensures forall k :: 0 <= k < |es| ==> Get(es, es[k].0) == Some(Values(es)[k])
    ensures forall v :: v in Values(es) <==> exists key :: Get(es, key) == Some(v)
  {
    forall k | 0 <= k < |es|
      ensures Get(es, es[k].0) == Some(Values(es)[k])
    {
      GetAt(es, k);
    }
    forall v
      ensures v in Values(es) <==> exists key :: Get(es, key) == Some(v)
    {
      if v in Values(es) {
        var k :| 0 <= k < |es| && Values(es)[k] == v;
        GetAt(es, k);
      }
      if exists key :: Get(es, key) == Some(v) {
        var key :| Get(es, key) == Some(v);
        var k :| 0 <= k < |es| && es[k] == (key, v);
        assert Values(es)[k] == v;
      }
    }
  }

  /** After `set`, the key holds the new value, every other key what it held before, and keys stay distinct. */
  lemma SetGet<V>(es: Entries<V>, key: string, value: V, other: string)
    requires DistinctKeys(es)
    ensures DistinctKeys(Set(es, key, value))
    ensures Get(Set(es, key, value), key) == Some(value)
    ensures other != key ==> Get(Set(es, key, value), other) == Get(es, other)
  {
    var r := Set(es, key, value);
    var k := KeyIndex(es, key);
    var at := if k >= 0 then k else |es|;
    assert r[at] == (key, value);
    GetAt(r, at);
    if other != key && HasKey(es, other) {
      var j := KeyIndex(es, other);
      assert r[j] == es[j];
      GetAt(r, j);
    } else if other != key {
      assert !HasKey(r, other) by {
        forall i | 0 <= i < |r| ensures r[i].0 != other
        {
          if i < |es| {
            assert r[i].0 == es[i].0;
          }
        }
      }
    }
  }

  /** After `delete`, the key is gone, every other key holds what it held before, and keys stay distinct. */
  lemma DeleteGet<V(!new)>(es: Entries<V>, key: string, other: string)
    requires DistinctKeys(es)
    ensures DistinctKeys(Delete(es, key))
    ensures Get(Delete(es, key), key).None?
    ensures other != key ==> Get(Delete(es, key), other) == Get(es, other)
  {
    DeleteDistinct(es, key);
    var r := Delete(es, key);
    assert !HasKey(r, key) by {
      forall i | 0 <= i < |r| ensures r[i].0 != key
      {
        assert r[i] in r;
      }
    }
    if other != key {
      DeleteOther(es, key, other);
    }
  }

  lemma {:induction false} DeleteDistinct<V(!new)>(es: Entries<V>, key: string)
    requires DistinctKeys(es)
    ensures DistinctKeys(Delete(es, key))
  {
    if es != [] {
      DeleteDistinct(es[1..], key);
      var r := Delete(es, key);
      var rest := Delete(es[1..], key);
      if es[0].0 != key {
        assert r == [es[0]] + rest;
        forall j | 0 < j < |r|
          ensures r[0].0 != r[j].0
        {
          assert r[j] == rest[j - 1];
          assert r[j] in es[1..];
        }
      }
    }
  }

  lemma DeleteOther<V(!new)>(es: Entries<V>, key: string, other: string)
    requires DistinctKeys(es) && DistinctKeys(Delete(es, key)) && other != key
    ensures Get(Delete(es, key), other) == Get(es, other)
  {
    var r := Delete(es, key);
    if HasKey(es, other) {
      var j := KeyIndex(es, other);
      assert es[j] in r;
      var i :| 0 <= i < |r| && r[i] == es[j];
      GetAt(r, i);
      GetAt(es, j);
    } else {
      assert !HasKey(r, other) by {
        forall i | 0 <= i < |r| ensures r[i].0 != other
        {
          assert r[i] in es;
        }
      }
    }
  }
}
