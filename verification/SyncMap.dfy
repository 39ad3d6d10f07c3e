/** The concurrent map of pkg/atomic/maps.go.  Each method is one linearizable step. */
module SyncMap {
  import opened Prelude

  /** The value in force after `LoadOrStore`, and whether it was there before. */
  function Loaded<K, V>(m: map<K, V>, key: K, value: V): (r: (V, bool)) {
    if key in m then (m[key], true) else (value, false)
  }

  function Stored<K, V>(m: map<K, V>, key: K, value: V): map<K, V> {
    if key in m then m else m[key := value]
  }

  // ----- many callers of LoadOrStore -----

  datatype Call<K, V> = Call(key: K, value: V)

  /** The map after the calls, one linearized behind the other. */
  function AfterCalls<K, V>(m: map<K, V>, calls: seq<Call<K, V>>): map<K, V> {
    if calls == [] then m
    else
      var last := |calls| - 1;
      Stored(AfterCalls(m, calls[..last]), calls[last].key, calls[last].value)
  }

  /** The first call for the key, or the number of calls when there is none. */
  function FirstFor<K(==), V>(calls: seq<Call<K, V>>, key: K): (n: nat)
    ensures n <= |calls|
    ensures forall j :: 0 <= j < n ==> calls[j].key != key
    ensures n < |calls| ==> calls[n].key == key
  {
    if calls == [] then 0
    else
      var last := |calls| - 1;
      var n := FirstFor(calls[..last], key);
      if n < last || calls[last].key == key then n else |calls|
  }

  lemma {:induction false} CallsDecide<K, V>(m: map<K, V>, calls: seq<Call<K, V>>, key: K)
    ensures var n, all := FirstFor(calls, key), AfterCalls(m, calls);
            && (key in all <==> key in m || n < |calls|)
            && (key in all ==> all[key] == if key in m then m[key] else calls[n].value)
  {
    if calls != [] {
      CallsDecide(m, calls[..|calls| - 1], key);
    }
  }

  /** Whatever the order of any number of callers: everyone is told the value that was there before
      all of them, or else the value of the first caller with the same key; and only that first
      caller, if any, is told that it stored. */
  lemma FirstCallerWins<K, V>(m: map<K, V>, calls: seq<Call<K, V>>, i: nat)
    requires i < |calls|
    ensures var key, n := calls[i].key, FirstFor(calls, calls[i].key);
            n <= i &&
            Loaded(AfterCalls(m, calls[..i]), key, calls[i].value)
            == if key in m then (m[key], true) else (calls[n].value, i != n)
  {
    CallsDecide(m, calls[..i], calls[i].key);
  }

  class SyncMap<K(==), V(==)> {
    var m: map<K, V>

    constructor ()
      ensures m == map[]
    {
      m := map[];
    }

    method Load(key: K) returns (r: Option<V>)
      ensures r == if key in m then Some(m[key]) else None
    {
      if key !in m {
        return None;
      }
      return Some(m[key]);
    }

    method Store(key: K, value: V)
      modifies this
      ensures m == old(m)[key := value]
    {
      m := m[key := value];
    }

    method Delete(key: K)
      modifies this
      ensures m == old(m) - {key}
    {
      m := m - {key};
    }

    method LoadAndDelete(key: K) returns (r: Option<V>)
      modifies this
      ensures r == if key in old(m) then Some(old(m)[key]) else None
      ensures m == old(m) - {key}
    {
      r := Load(key);
      m := m - {key};
    }

    /** Of any number of callers with the same key, only the one that finds nothing stores. */
    method LoadOrStore(key: K, value: V) returns (v: V, loaded: bool)
      modifies this
      ensures (v, loaded) == Loaded(old(m), key, value)
      ensures m == Stored(old(m), key, value)
      ensures key in m && m[key] == v
    {
      if key in m {
        return m[key], true;
      }
      m := m[key := value];
      return value, false;
    }

    method Swap(key: K, value: V) returns (previous: Option<V>)
      modifies this
      ensures previous == if key in old(m) then Some(old(m)[key]) else None
      ensures m == old(m)[key := value]
    {
      previous := Load(key);
      m := m[key := value];
    }

    /** `Size`: `Range` walks the keys in any order, the callback counts. */
    method Size() returns (size: nat)
      ensures size == |m|
    {
      size := 0;
      var left := m.Keys;
      while left != {}
        invariant left <= m.Keys && size + |left| == |m.Keys|
        decreases |left|
      {
        var k :| k in left;
        left := left - {k};
        size := size + 1;
      }
      assert |m.Keys| == |m|;
    }

    /** `Keys`: every key once, in any order. */
    method Keys() returns (keys: seq<K>)
      ensures multiset(keys) == multiset(m.Keys)
    {
      keys := [];
      var left := m.Keys;
      while left != {}
        invariant left <= m.Keys
        invariant multiset(keys) + multiset(left) == multiset(m.Keys)
        decreases |left|
      {
        var k :| k in left;
        left := left - {k};
        keys := keys + [k];
      }
    }
  }
}
