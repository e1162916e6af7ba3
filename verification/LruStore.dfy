/**
 The bounded object cache (tunnel/pubcache/store.go). The recency list is a sequence,
 most recent first; times are nanoseconds.
 */
module LruStore {
  import opened Basics
  import opened Manifest
  import opened AddressNames

  type Key = string

  datatype Entry = Entry(key: Key, body: Bytes, storedAt: int)

  // ---------------------------------------------------------------------- the list

  function Weight(list: seq<Entry>): nat {
    if |list| == 0 then 0 else Weight(list[..|list| - 1]) + |list[|list| - 1].body|
  }

  function Without(list: seq<Entry>, key: Key): seq<Entry> {
    if |list| == 0 then []
    else
      var n := |list| - 1;
      if list[n].key == key then Without(list[..n], key) else Without(list[..n], key) + [list[n]]
  }

  ghost predicate Distinct(list: seq<Entry>) {
    forall i, j :: 0 <= i < j < |list| ==> list[i].key != list[j].key
  }

  /** The map and the list hold the same entries, one a key. */
  ghost predicate Indexed(list: seq<Entry>, items: map<Key, Entry>) {
    && Distinct(list)
    && (forall e :: e in list ==> e.key in items && items[e.key] == e)
    && (forall k :: k in items ==> items[k].key == k && items[k] in list)
  }

  /** The bytes were verified for the address the key is made of. */
  ghost predicate Licensed(h: Hash, key: Key, body: Bytes) {
    exists kind, a :: key == CacheKey(kind, a) && Verify(h, kind, a, body).Ok?
  }

  ghost predicate AllLicensed(h: Hash, list: seq<Entry>) {
    forall e :: e in list ==> Licensed(h, e.key, e.body)
  }

  lemma WeightSnoc(list: seq<Entry>, e: Entry)
    ensures Weight(list + [e]) == Weight(list) + |e.body|
  {
    assert (list + [e])[..|list|] == list;
  }

  lemma {:induction false} WeightCons(e: Entry, list: seq<Entry>)
    ensures Weight([e] + list) == |e.body| + Weight(list)
  {
    if |list| == 0 {
      assert [e] + list == [] + [e];
      WeightSnoc([], e);
    } else {
      var n := |list| - 1;
      WeightCons(e, list[..n]);
      assert [e] + list == ([e] + list[..n]) + [list[n]];
      WeightSnoc([e] + list[..n], list[n]);
    }
  }

  lemma {:induction false} WithoutMembers(list: seq<Entry>, key: Key)
    ensures forall e :: e in Without(list, key) <==> e in list && e.key != key
    ensures |Without(list, key)| <= |list|
  {
    if |list| > 0 {
      var n := |list| - 1;
      WithoutMembers(list[..n], key);
      assert list == list[..n] + [list[n]];
    }
  }

  lemma DistinctSnoc(list: seq<Entry>, e: Entry)
    requires Distinct(list) && forall x :: x in list ==> x.key != e.key
    ensures Distinct(list + [e])
  {
    var longer := list + [e];
    forall i, j | 0 <= i < j < |longer|
      ensures longer[i].key != longer[j].key
    {
      assert longer[i] == list[i] && list[i] in list;
    }
  }

  lemma {:induction false} WithoutDistinct(list: seq<Entry>, key: Key)
    requires Distinct(list)
    ensures Distinct(Without(list, key))
  {
    if |list| > 0 {
      var n := |list| - 1;
      WithoutDistinct(list[..n], key);
      WithoutMembers(list[..n], key);
      if list[n].key != key {
        forall x | x in Without(list[..n], key)
          ensures x.key != list[n].key
        {
          assert x in list[..n];
        }
        DistinctSnoc(Without(list[..n], key), list[n]);
      }
    }
  }

  lemma {:induction false} WithoutAbsent(list: seq<Entry>, key: Key)
    requires forall e :: e in list ==> e.key != key
    ensures Without(list, key) == list
  {
    if |list| > 0 {
      var n := |list| - 1;
      WithoutAbsent(list[..n], key);
      assert list == list[..n] + [list[n]];
    }
  }

  lemma {:induction false} WithoutWeight(list: seq<Entry>, e: Entry)
    requires Distinct(list) && e in list
    ensures Weight(Without(list, e.key)) == Weight(list) - |e.body|
  {
    var n := |list| - 1;
    assert list == list[..n] + [list[n]];
    assert forall x :: x in list <==> x in list[..n] || x == list[n];
    if list[n] == e {
      WithoutAbsent(list[..n], e.key);
    } else {
      assert list[n].key != e.key;
      WithoutWeight(list[..n], e);
      WeightSnoc(Without(list[..n], e.key), list[n]);
    }
  }

  lemma IndexedRemove(list: seq<Entry>, items: map<Key, Entry>, key: Key)
    requires Indexed(list, items) && key in items
    ensures Indexed(Without(list, key), items - {key})
    ensures Weight(Without(list, key)) == Weight(list) - |items[key].body|
  {
    hide Without, Weight, Distinct;
    WithoutMembers(list, key);
    WithoutDistinct(list, key);
    WithoutWeight(list, items[key]);
    var rest := items - {key};
    forall k | k in rest
      ensures rest[k].key == k && rest[k] in Without(list, key)
    {
      assert items[k].key == k && items[k] in list;
    }
  }

  lemma DistinctCons(e: Entry, list: seq<Entry>)
    requires Distinct(list) && forall x :: x in list ==> x.key != e.key
    ensures Distinct([e] + list)
  {
    var front := [e] + list;
    forall i, j | 0 <= i < j < |front|
      ensures front[i].key != front[j].key
    {
      assert front[j] == list[j - 1] && list[j - 1] in list;
      if i > 0 {
        assert front[i] == list[i - 1];
      }
    }
  }

  /** Moving to the front, or adding there. */
  lemma IndexedFront(list: seq<Entry>, items: map<Key, Entry>, e: Entry)
    requires Indexed(list, items)
    ensures Indexed([e] + Without(list, e.key), items[e.key := e])
    ensures Weight([e] + Without(list, e.key))
            == Weight(list) + |e.body| - (if e.key in items then |items[e.key].body| else 0)
    ensures e.key !in items ==> Without(list, e.key) == list
  {
    hide Weight, Without, Distinct;
    var rest := Without(list, e.key);
    WithoutMembers(list, e.key);
    WithoutDistinct(list, e.key);
    WeightCons(e, rest);
    DistinctCons(e, rest);
    if e.key in items {
      assert items[e.key].key == e.key && items[e.key] in list;
      WithoutWeight(list, items[e.key]);
    } else {
      forall x | x in list
        ensures x.key != e.key
      {
        assert x.key in items;
      }
      WithoutAbsent(list, e.key);
    }
    IndexedCons(list, items, e, rest);
  }

  lemma IndexedCons(list: seq<Entry>, items: map<Key, Entry>, e: Entry, rest: seq<Entry>)
    requires Indexed(list, items) && Distinct([e] + rest)
    requires forall x :: x in rest <==> x in list && x.key != e.key
    ensures Indexed([e] + rest, items[e.key := e])
  {
    hide Distinct;
    var front, after := [e] + rest, items[e.key := e];
    forall x | x in front
      ensures x.key in after && after[x.key] == x
    {
      assert x == e || x in rest;
    }
    forall k | k in after
      ensures after[k].key == k && after[k] in front
    {
      if k != e.key {
        assert items[k].key == k && items[k] in list;
        assert items[k] in rest;
      }
    }
  }

  lemma LastIsAlone(list: seq<Entry>, items: map<Key, Entry>)
    requires Indexed(list, items) && |list| > 0
    ensures var last := list[|list| - 1]; last.key in items && items[last.key] == last
    ensures Without(list, list[|list| - 1].key) == list[..|list| - 1]
  {
    var n := |list| - 1;
    WithoutAbsent(list[..n], list[n].key);
  }

  /** list[..n] is the longest part, counted from the front, that the cap allows. */
  ghost predicate LongestFit(list: seq<Entry>, n: nat, cap: int) {
    && n <= |list|
    && (cap <= 0 ==> n == |list|)
    && (cap > 0 ==> Weight(list[..n]) <= cap && (n < |list| ==> Weight(list[..n + 1]) > cap))
  }

  lemma {:induction false} WeightGrows(list: seq<Entry>, m: nat, n: nat)
    requires m <= n <= |list|
    ensures Weight(list[..m]) <= Weight(list[..n])
    decreases n
  {
    if m < n {
      WeightGrows(list, m, n - 1);
      assert list[..n] == list[..n - 1] + [list[n - 1]];
      WeightSnoc(list[..n - 1], list[n - 1]);
    }
  }

  /** What eviction leaves is determined: no other cut is a longest fit. */
  lemma LongestFitUnique(list: seq<Entry>, m: nat, n: nat, cap: int)
    requires LongestFit(list, m, cap) && LongestFit(list, n, cap)
    ensures m == n
  {
    hide Weight;
    if m < n {
      WeightGrows(list, m + 1, n);
    } else if n < m {
      WeightGrows(list, n + 1, m);
    }
  }

  // --------------------------------------------------------------------- the store

  class Store {
    const maxBytes: int
    const maxObjBytes: int
    const ttl: int
    ghost const hash: Hash
    var list: seq<Entry>
    var items: map<Key, Entry>
    var bytes: int

    ghost predicate Valid()
      reads this
    {
      && Indexed(list, items)
      && bytes == Weight(list)
      && (maxBytes > 0 ==> bytes <= maxBytes)
      && AllLicensed(hash, list)
    }

    constructor (maxBytes: int, maxObjBytes: int, ttl: int, ghost hash: Hash)
      ensures Valid() && list == [] && items == map[]
      ensures this.maxBytes == maxBytes && this.maxObjBytes == maxObjBytes && this.ttl == ttl && this.hash == hash
    {
      this.maxBytes, this.maxObjBytes, this.ttl, this.hash := maxBytes, maxObjBytes, ttl, hash;
      list, items, bytes := [], map[], 0;
    }

    predicate Expired(e: Entry, now: int) {
      ttl > 0 && now - e.storedAt >= ttl
    }

    method RemoveLocked(key: Key)
      requires Indexed(list, items) && bytes == Weight(list) && key in items
      modifies this
      ensures list == Without(old(list), key) && items == old(items) - {key}
      ensures Indexed(list, items) && bytes == Weight(list)
    {
      IndexedRemove(list, items, key);
      bytes := bytes - |items[key].body|;
      list, items := Without(list, key), items - {key};
    }

    /** Drops entries from the back until the cap holds: exactly the shortest sufficient suffix. */
    method EvictLocked()
      requires Indexed(list, items) && bytes == Weight(list)
      modifies this
      ensures Indexed(list, items) && bytes == Weight(list)
      ensures LongestFit(old(list), |list|, maxBytes) && list == old(list)[..|list|]
    {
      hide Indexed, Weight;
      ghost var was := list;
      while maxBytes > 0 && bytes > maxBytes
        invariant |list| <= |was| && list == was[..|list|] && Indexed(list, items) && bytes == Weight(list)
        invariant maxBytes <= 0 ==> |list| == |was|
        invariant |list| < |was| ==> Weight(was[..|list| + 1]) > maxBytes
        decreases |list|
      {
        if |list| == 0 {
          assert false by {
            EmptyWeighsNothing();
          }
          return;
        }
        LastIsAlone(list, items);
        assert was[..|list|] == list;
        RemoveLocked(list[|list| - 1].key);
      }
    }

    /** A hit is unexpired, verified for its key, and becomes the most recent; an expired entry goes. */
    method Get(key: Key, now: int) returns (found: Option<Entry>)
      requires Valid()
      modifies this
      ensures Valid()
      ensures found == if key in old(items) && !Expired(old(items)[key], now) then Some(old(items)[key]) else None
      ensures found.Some? <==> key in old(items) && (ttl <= 0 || now - old(items)[key].storedAt < ttl)
      ensures found.Some? ==> found.value == old(items)[key] && Licensed(hash, key, found.value.body)
      ensures found.Some? ==> list == [found.value] + Without(old(list), key) && items == old(items)
      ensures found.None? ==> list == Without(old(list), key) && items == old(items) - {key}
    {
      hide Weight, Without, Licensed;
      WithoutMembers(list, key);
      if key !in items {
        WithoutAbsent(list, key);
        assert items - {key} == items;
        return None;
      }
      var e := items[key];
      if Expired(e, now) {
        RemoveLocked(key);
        WeightNonNegative(old(list), old(items), key);
        return None;
      }
      IndexedFront(list, items, e);
      assert items[key := e] == items;
      list := [e] + Without(list, key);
      return Some(e);
    }

    /**
     Bytes over a cap are not stored. A key already held keeps its body and is refreshed;
     otherwise the new entry is in front, and only what the cap forces out is gone.
     */
    method Put(key: Key, body: Bytes, now: int)
      requires Valid() && Licensed(hash, key, body)
      modifies this
      ensures Valid()
      ensures var tooBig := (maxObjBytes > 0 && |body| > maxObjBytes) || (maxBytes > 0 && |body| > maxBytes);
              var kept := if key in old(items) then old(items)[key].body else body;
              var full := [Entry(key, kept, now)] + Without(old(list), key);
              && (tooBig ==> list == old(list) && items == old(items))
              && (!tooBig ==> |list| >= 1 && LongestFit(full, |list|, maxBytes) && list == full[..|list|])
              && (!tooBig && key in old(items) ==> list == full)
              && (!tooBig && key !in old(items) ==> full[1..] == old(list))
    {
      hide Weight, Without, Licensed, Indexed;
      if maxObjBytes > 0 && |body| > maxObjBytes {
        return;
      }
      if maxBytes > 0 && |body| > maxBytes {
        return;
      }
      WithoutLicensed(hash, list, key);
      ItemIsListed(list, items, key);
      if key in items {
        var e := items[key].(storedAt := now);
        IndexedFront(list, items, e);
        list, items := [e] + Without(list, key), items[key := e];
        assert list[..|list|] == list;
        return;
      }
      var e := Entry(key, body, now);
      IndexedFront(list, items, e);
      list, items := [e] + Without(list, key), items[key := e];
      bytes := bytes + |body|;
      ghost var full := list;
      FrontAlone(full);
      EvictLocked();
    }
  }

  lemma EmptyWeighsNothing()
    ensures Weight([]) == 0
  {
  }

  lemma FrontAlone(list: seq<Entry>)
    requires |list| > 0
    ensures Weight(list[..1]) == |list[0].body| && Weight(list[..0]) == 0
  {
    assert list[..1] == [] + [list[0]];
    WeightSnoc([], list[0]);
  }

  lemma WeightNonNegative(list: seq<Entry>, items: map<Key, Entry>, key: Key)
    requires Indexed(list, items) && key in items
    ensures Weight(Without(list, key)) <= Weight(list)
  {
    IndexedRemove(list, items, key);
  }

  lemma ItemIsListed(list: seq<Entry>, items: map<Key, Entry>, key: Key)
    requires Indexed(list, items)
    ensures key in items ==> items[key].key == key && items[key] in list
  {
  }

  /** A key that has no entry, taken out once more, leaves the list as it is. */
  lemma AbsentWithout(list: seq<Entry>, items: map<Key, Entry>, key: Key)
    requires Indexed(list, items)
    ensures Without(Without(list, key), key) == Without(list, key)
  {
    WithoutMembers(list, key);
    WithoutAbsent(Without(list, key), key);
  }

  lemma FrontIsIndexed(list: seq<Entry>, items: map<Key, Entry>)
    requires Indexed(list, items)
    ensures |list| > 0 ==> list[0].key in items && items[list[0].key] == list[0]
  {
  }

  lemma WithoutLicensed(h: Hash, list: seq<Entry>, key: Key)
    requires AllLicensed(h, list)
    ensures AllLicensed(h, Without(list, key))
  {
    WithoutMembers(list, key);
  }
}
