/** The typeahead's module-level result cache: a JavaScript `Map` from
    lower-cased query to result list, bounded to `MaxCacheSize` entries and
    evicting the oldest-inserted key first (`setCache`). A `Map` iterates in
    insertion order and `set` on a present key keeps that key's position, so
    the model keeps the entries as a sequence of pairs in insertion order. */
module ResultCache {
  import opened Wrappers
  import opened JsonPath

  const MaxCacheSize: nat := 20

  type Entry = (string, seq<Json>)

  function Keys(entries: seq<Entry>): (ks: seq<string>)
    ensures |ks| == |entries|
    ensures forall i :: 0 <= i < |entries| ==> ks[i] == entries[i].0
  {
    seq(|entries|, i requires 0 <= i < |entries| => entries[i].0)
  }

  /** No key occurs twice, as in a `Map`. */
  predicate DistinctKeys(entries: seq<Entry>) {
    forall i, j :: 0 <= i < j < |entries| ==> entries[i].0 != entries[j].0
  }

  /** `map.get(key)`, `None` standing for `undefined` (a miss). */
  function Lookup(entries: seq<Entry>, key: string): Option<seq<Json>>
    decreases |entries|
  {
    if entries == [] then None
    else if entries[0].0 == key then Some(entries[0].1)
    else Lookup(entries[1..], key)
  }

  /** `map.set(key, value)`: replace the value in place when the key is
      present, append a new entry otherwise. */
  function Put(entries: seq<Entry>, key: string, value: seq<Json>): seq<Entry>
    decreases |entries|
  {
    if entries == [] then [(key, value)]
    else if entries[0].0 == key then [(key, value)] + entries[1..]
    else [entries[0]] + Put(entries[1..], key, value)
  }

  /** The delete at lines 13-16: when the cache is full, drop its first key. */
  function EvictOldest(entries: seq<Entry>): seq<Entry> {
    if |entries| >= MaxCacheSize && entries != [] then entries[1..] else entries
  }

  /** The whole of `setCache(key, value)`. */
  function SetCache(entries: seq<Entry>, key: string, value: seq<Json>): seq<Entry> {
    Put(EvictOldest(entries), key, value)
  }

  lemma {:induction false} LookupMissing(entries: seq<Entry>, key: string)
    requires key !in Keys(entries)
    ensures Lookup(entries, key) == None
    decreases |entries|
  {
    if entries != [] {
      assert Keys(entries[1..]) == Keys(entries)[1..];
      LookupMissing(entries[1..], key);
    }
  }

  /** A present key reads back the value of an entry stored under it; with
      distinct keys, that is the value of its one entry. */
  lemma {:induction false} LookupPresent(entries: seq<Entry>, key: string)
    requires key in Keys(entries)
    ensures exists i :: 0 <= i < |entries| && entries[i].0 == key && Lookup(entries, key) == Some(entries[i].1)
    ensures DistinctKeys(entries) ==>
      forall i :: 0 <= i < |entries| && entries[i].0 == key ==> Lookup(entries, key) == Some(entries[i].1)
    decreases |entries|
  {
    if entries[0].0 != key {
      assert Keys(entries[1..]) == Keys(entries)[1..];
      LookupPresent(entries[1..], key);
      var j :| 0 <= j < |entries[1..]| && entries[1..][j].0 == key && Lookup(entries[1..], key) == Some(entries[1..][j].1);
      assert entries[j + 1].0 == key;
    } else {
      assert entries[0].0 == key && Lookup(entries, key) == Some(entries[0].1);
    }
  }

  /** `Put` makes `key` map to `value`, leaves every other key's value alone,
      keeps every existing key where it was and appends `key` only when it is
      new. */
  lemma {:induction false} PutProperties(entries: seq<Entry>, key: string, value: seq<Json>)
    ensures Lookup(Put(entries, key, value), key) == Some(value)
    ensures forall k :: k != key ==> Lookup(Put(entries, key, value), k) == Lookup(entries, k)
    ensures Keys(Put(entries, key, value)) ==
              if key in Keys(entries) then Keys(entries) else Keys(entries) + [key]
    decreases |entries|
  {
    var r := Put(entries, key, value);
    if entries == [] {
    } else if entries[0].0 == key {
      assert Keys(r) == Keys(entries);
    } else {
      PutProperties(entries[1..], key, value);
      assert Keys(entries) == [entries[0].0] + Keys(entries[1..]);
      assert Keys(r) == [entries[0].0] + Keys(Put(entries[1..], key, value));
    }
  }

  lemma DistinctKeysTail(entries: seq<Entry>)
    requires DistinctKeys(entries) && entries != []
    ensures DistinctKeys(entries[1..]) && entries[0].0 !in Keys(entries[1..])
  {
  }

  lemma KeysDistinct(entries: seq<Entry>)
    requires forall i, j :: 0 <= i < j < |Keys(entries)| ==> Keys(entries)[i] != Keys(entries)[j]
    ensures DistinctKeys(entries)
  {
    var ks := Keys(entries);
    forall i, j | 0 <= i < j < |entries| ensures entries[i].0 != entries[j].0 {
      assert ks[i] == entries[i].0 && ks[j] == entries[j].0;
    }
  }

  /** After `setCache(key, value)`: the cache holds at most `MaxCacheSize`
      entries, `key` maps to `value`, and every other key keeps its value
      unless it was the oldest key of a full cache, which is gone. */
  lemma SetCacheProperties(entries: seq<Entry>, key: string, value: seq<Json>)
    requires DistinctKeys(entries) && |entries| <= MaxCacheSize
    ensures DistinctKeys(SetCache(entries, key, value))
    ensures |SetCache(entries, key, value)| <= MaxCacheSize
    ensures Lookup(SetCache(entries, key, value), key) == Some(value)
    ensures forall k :: k != key && (|entries| < MaxCacheSize || k != entries[0].0) ==>
              Lookup(SetCache(entries, key, value), k) == Lookup(entries, k)
    ensures |entries| == MaxCacheSize && key != entries[0].0 ==>
              Lookup(SetCache(entries, key, value), entries[0].0) == None
  {
    var base := EvictOldest(entries);
    var r := SetCache(entries, key, value);
    if |entries| >= MaxCacheSize {
      DistinctKeysTail(entries);
    }
    PutProperties(base, key, value);
    assert DistinctKeys(base);
    var ks := Keys(r);
    assert forall i, j :: 0 <= i < j < |ks| ==> ks[i] != ks[j];
    KeysDistinct(r);
    if |entries| == MaxCacheSize && key != entries[0].0 {
      LookupMissing(r, entries[0].0);
    }
  }

  /** The keys, in insertion order, after `setCache`: a full cache loses its
      first key; `key` is appended unless it is still present, in which case
      it keeps its position. */
  lemma SetCacheKeyOrder(entries: seq<Entry>, key: string, value: seq<Json>)
    ensures Keys(SetCache(entries, key, value)) ==
              var base := Keys(EvictOldest(entries));
              if key in base then base else base + [key]
  {
    PutProperties(EvictOldest(entries), key, value);
  }

  /** The last `MaxCacheSize` keys of `ks`. */
  function Window(ks: seq<string>): seq<string> {
    if |ks| <= MaxCacheSize then ks else ks[|ks| - MaxCacheSize..]
  }

  predicate AllDistinct(ks: seq<string>) {
    forall i, j :: 0 <= i < j < |ks| ==> ks[i] != ks[j]
  }

  /** A run of `setCache` calls, oldest first. */
  function SetAll(entries: seq<Entry>, writes: seq<Entry>): seq<Entry>
    decreases |writes|
  {
    if writes == [] then entries
    else
      var last := writes[|writes| - 1];
      SetCache(SetAll(entries, writes[..|writes| - 1]), last.0, last.1)
  }

  lemma SuffixOfConcat(p: seq<string>, q: seq<string>, m: nat)
    requires m <= |q|
    ensures (p + q)[|p + q| - m..] == q[|q| - m..]
  {
    var l := p + q;
    assert forall i :: |p| <= i < |l| ==> l[i] == q[i - |p|];
  }

  /** Windowing early or late gives the same keys. */
  lemma WindowAbsorb(a: seq<string>, b: seq<string>)
    ensures Window(Window(a) + b) == Window(a + b)
  {
    if |a| > MaxCacheSize {
      var p := a[..|a| - MaxCacheSize];
      var q := Window(a) + b;
      assert a + b == p + q;
      SuffixOfConcat(p, q, MaxCacheSize);
    }
  }

  /** One `setCache` of a key that is not present: the keys become the last
      `MaxCacheSize` of the old keys followed by the new one. */
  lemma SetCacheFreshKey(entries: seq<Entry>, key: string, value: seq<Json>)
    requires DistinctKeys(entries) && |entries| <= MaxCacheSize
    requires key !in Keys(entries)
    ensures Keys(SetCache(entries, key, value)) == Window(Keys(entries) + [key])
  {
    SetCacheKeyOrder(entries, key, value);
    var base := EvictOldest(entries);
    if |entries| >= MaxCacheSize {
      assert Keys(base) == Keys(entries)[1..];
      assert (Keys(entries) + [key])[1..] == Keys(entries)[1..] + [key];
    }
    assert key !in Keys(base);
  }

  lemma DistinctSnoc(a: seq<string>, x: string)
    requires AllDistinct(a + [x])
    ensures AllDistinct(a) && x !in a
  {
    var l := a + [x];
    assert forall i :: 0 <= i < |a| ==> l[i] == a[i];
    assert l[|a|] == x;
    assert forall i :: 0 <= i < |a| ==> l[i] != l[|a|];
  }

  lemma WindowMembers(ks: seq<string>, x: string)
    requires x in Window(ks)
    ensures x in ks
  {
  }

  lemma KeysSnoc(writes: seq<Entry>)
    requires writes != []
    ensures Keys(writes) == Keys(writes[..|writes| - 1]) + [writes[|writes| - 1].0]
  {
  }

  /** FIFO eviction: after any run of writes of distinct keys that are new to
      the cache, the cache holds exactly the `MaxCacheSize` most recently
      inserted keys, in insertion order. */
  lemma {:induction false} FifoWindow(entries: seq<Entry>, writes: seq<Entry>)
    requires DistinctKeys(entries) && |entries| <= MaxCacheSize
    requires AllDistinct(Keys(entries) + Keys(writes))
    ensures DistinctKeys(SetAll(entries, writes)) && |SetAll(entries, writes)| <= MaxCacheSize
    ensures Keys(SetAll(entries, writes)) == Window(Keys(entries) + Keys(writes))
    decreases |writes|
  {
    if writes == [] {
      assert Keys(entries) + Keys(writes) == Keys(entries);
    } else {
      var n := |writes| - 1;
      var init := writes[..n];
      var last := writes[n];
      var before := Keys(entries) + Keys(init);
      KeysSnoc(writes);
      assert Keys(entries) + Keys(writes) == before + [last.0];
      DistinctSnoc(before, last.0);
      FifoWindow(entries, init);
      var mid := SetAll(entries, init);
      if last.0 in Keys(mid) {
        WindowMembers(before, last.0);
      }
      SetCacheFreshKey(mid, last.0, last.1);
      SetCacheProperties(mid, last.0, last.1);
      WindowAbsorb(before, [last.0]);
    }
  }

  /** Inserting `MaxCacheSize + 1` distinct keys into an empty cache evicts
      exactly the first one, and reading it afterwards is a miss. */
  lemma OverflowEvictsFirst(writes: seq<Entry>)
    requires |writes| == MaxCacheSize + 1
    requires AllDistinct(Keys(writes))
    ensures Keys(SetAll([], writes)) == Keys(writes)[1..]
    ensures Lookup(SetAll([], writes), writes[0].0) == None
  {
    assert Keys([]) + Keys(writes) == Keys(writes);
    FifoWindow([], writes);
    assert writes[0].0 !in Keys(writes)[1..];
    LookupMissing(SetAll([], writes), writes[0].0);
  }

  /** The cache object. */
  class Cache {
    var entries: seq<Entry>

    ghost predicate Valid()
      reads this
    {
      DistinctKeys(entries) && |entries| <= MaxCacheSize
    }

    constructor ()
      ensures Valid() && entries == []
    {
      entries := [];
    }

    /** `cache.has(key)`. */
    function Has(key: string): (b: bool)
      reads this
      ensures b <==> key in Keys(entries)
    {
      LookupProperties(entries, key);
      Lookup(entries, key).Some?
    }

    /** `cache.get(key)`: a value exactly when `cache.has(key)`. */
    function Get(key: string): (r: Option<seq<Json>>)
      reads this
      ensures r.Some? <==> Has(key)
    {
      LookupProperties(entries, key);
      Lookup(entries, key)
    }

    /** `setCache(key, value)`: delete the oldest key when full, then set. */
    method Set(key: string, value: seq<Json>)
      requires Valid()
      modifies this
      ensures Valid()
      ensures entries == SetCache(old(entries), key, value)
      ensures Get(key) == Some(value)
      ensures forall k :: k != key && (|old(entries)| < MaxCacheSize || k != old(entries)[0].0) ==>
                Get(k) == Lookup(old(entries), k)
    {
      SetCacheProperties(entries, key, value);
      if |entries| >= MaxCacheSize {
        entries := entries[1..];
      }
      entries := Put(entries, key, value);
    }
  }

  lemma LookupProperties(entries: seq<Entry>, key: string)
    ensures Lookup(entries, key).Some? <==> key in Keys(entries)
  {
    if key in Keys(entries) {
      LookupPresent(entries, key);
    } else {
      LookupMissing(entries, key);
    }
  }
}
