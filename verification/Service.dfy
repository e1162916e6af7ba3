/**
 The one read path to the public objects (tunnel/pubcache/service.go): pinned copies
 first, then the cache, then an upstream, whose bytes pass the gate or are discarded.
 */
module Service {
  import opened Basics
  import opened Manifest
  import opened AddressNames
  import opened LruStore
  import PinModel
  import PinOthers
  import PinStore

  lemma LicensedMeans(h: Hash, kind: Kind, a: Address, body: Bytes)
    ensures Licensed(h, CacheKey(kind, a), body) <==> Verify(h, kind, a, body).Ok?
  {
    hide Verify, CacheKey;
    if Licensed(h, CacheKey(kind, a), body) {
      var kind', a' :| CacheKey(kind, a) == CacheKey(kind', a') && Verify(h, kind', a', body).Ok?;
      CacheKeyInjective(kind, a, kind', a');
    }
  }

  /** The pin store checks objects by the addressing rules. */
  ghost predicate PinsReady(h: Hash, pins: PinStore.PinStore)
    reads pins
  {
    pins.rules.gate == PinModel.AddressGate(h) && pins.Balanced()
  }

  ghost predicate StoreReady(h: Hash, store: Store)
    reads store
  {
    store.Valid() && store.hash == h
  }

  lemma GateIsVerify(h: Hash, kind: Kind, a: Address, body: Bytes)
    ensures PinModel.AddressGate(h).accepts(PinModel.Key(kind, a), body) <==> Verify(h, kind, a, body).Ok?
  {
    hide Verify;
  }

  /** The object was hashed before, and the file read now does not verify: it is not hashed again. */
  ghost predicate StaleMark(h: Hash, s: PinModel.Store, t: PinModel.Store, kind: Kind, a: Address) {
    var k := PinModel.Key(kind, a);
    k in s.objects && k in s.verified && k in t.disk.files && Verify(h, kind, a, t.disk.files[k]).Err?
  }

  /** The bytes of a pinned object, looked up in s and read in t, if they may be served. */
  ghost function PinnedCopy(h: Hash, s: PinModel.Store, t: PinModel.Store, kind: Kind, a: Address): Option<Bytes> {
    var k := PinModel.Key(kind, a);
    if k in s.objects && k in t.disk.files && (k in s.verified || Verify(h, kind, a, t.disk.files[k]).Ok?)
    then Some(t.disk.files[k])
    else None
  }

  lemma PinnedIsServed(h: Hash, s: PinModel.Store, t: PinModel.Store, kind: Kind, a: Address)
    ensures PinModel.Served(PinModel.AddressGate(h), s, t, PinModel.Key(kind, a)) == PinnedCopy(h, s, t, kind, a)
  {
    hide Verify, PinModel.AddressGate;
    var k := PinModel.Key(kind, a);
    if k in t.disk.files {
      GateIsVerify(h, kind, a, t.disk.files[k]);
    }
  }

  /**
   A pinned copy is preferred to a cached one, and a cached one to the upstream's. Whatever
   rots on disk, whatever upstreams send and whatever others do meanwhile, bytes served for
   an address verify for it, unless the file of a pinned object rotted after its first verified
   read: then, and only then, what is served does not verify. No lookup leaves a wrong mark
   where there was none.
   */
  method Lookup(h: Hash, pins: PinStore.PinStore, store: Store, kind: Kind, a: Address,
                upstream: Option<Bytes>, indexOk: bool, met: PinModel.Store, later: PinModel.Store, now: int)
    returns (body: Option<Bytes>)
    requires PinsReady(h, pins) && StoreReady(h, store)
    requires PinOthers.Meanwhile(pins.rules, pins.State(), met) && PinOthers.Meanwhile(pins.rules, met, later)
    modifies pins, store
    ensures PinsReady(h, pins) && StoreReady(h, store)
    ensures var s := old(pins.State());
            && (body.Some? ==> (Verify(h, kind, a, body.value).Ok? <==> !StaleMark(h, s, met, kind, a)))
            && (StaleMark(h, s, met, kind, a) ==> body.Some?)
    ensures var s, key := old(pins.State()), CacheKey(kind, a);
            var pinned := PinnedCopy(h, s, met, kind, a);
            body == if pinned.Some? then pinned
                    else if key in old(store.items) && !store.Expired(old(store.items)[key], now) then
                      Some(old(store.items)[key].body)
                    else Sent(h, kind, a, upstream)
    ensures PinModel.MarksRight(pins.rules.gate, old(pins.State())) ==>
              PinModel.MarksRight(pins.rules.gate, pins.State()) && (body.Some? ==> Verify(h, kind, a, body.value).Ok?)
    ensures PinnedCopy(h, old(pins.State()), met, kind, a).Some? ==>
              store.list == old(store.list) && store.items == old(store.items)
    ensures PinnedCopy(h, old(pins.State()), met, kind, a).None? ==>
              CacheAfter(store, old(store.list), old(store.items), CacheKey(kind, a), Sent(h, kind, a, upstream), now)
  {
    hide Verify, CacheKey, PinModel.Quarantined, PinModel.Accounted, PinModel.AddressGate, CacheAfter, Sent, StoreReady;
    hide PinModel.MarksRight, PinModel.Served, PinOthers.Marked, PinOthers.Fits, PinOthers.Meanwhile, PinStore.Sound;
    ghost var s := pins.State();
    PinnedIsServed(h, s, met, kind, a);
    var pinned := pins.Get(kind, a, indexOk, met, later);
    if pinned.Some? {
      GateIsVerify(h, kind, a, pinned.value);
      return pinned;
    }
    body := FromCache(h, store, kind, a, upstream, now);
  }

  /** What the upstream sends, if it verifies. */
  function Sent(h: Hash, kind: Kind, a: Address, upstream: Option<Bytes>): (sent: Option<Bytes>)
    ensures sent.Some? <==> upstream.Some? && Verify(h, kind, a, upstream.value).Ok?
    ensures sent.Some? ==> sent == upstream
  {
    if upstream.Some? && Verify(h, kind, a, upstream.value).Ok? then upstream else None
  }

  /**
   What a lookup makes of the cache. A hit becomes the most recent. Otherwise the key's entry,
   if it had expired, is gone, and bytes that were sent and fit the caps are in front under it,
   as of now, with only what the cap on the total forces out missing behind them.
   */
  ghost predicate CacheAfter(store: Store, list: seq<Entry>, items: map<string, Entry>, key: string, sent: Option<Bytes>, now: int)
    reads store
  {
    var rest := Without(list, key);
    if key in items && (store.ttl <= 0 || now - items[key].storedAt < store.ttl) then
      store.list == [items[key]] + rest && store.items == items
    else if sent.None? || (store.maxObjBytes > 0 && |sent.value| > store.maxObjBytes)
            || (store.maxBytes > 0 && |sent.value| > store.maxBytes) then
      store.list == rest && store.items == items - {key}
    else
      var e := Entry(key, sent.value, now);
      && 1 <= |store.list| <= |rest| + 1 && store.list[0] == e && key in store.items && store.items[key] == e
      && store.list == ([e] + rest)[..|store.list|] && LongestFit([e] + rest, |store.list|, store.maxBytes)
  }

  /** The cache, and then the upstream, whose bytes are kept if they verify and fit. */
  method FromCache(h: Hash, store: Store, kind: Kind, a: Address, upstream: Option<Bytes>, now: int)
    returns (body: Option<Bytes>)
    requires StoreReady(h, store)
    modifies store
    ensures StoreReady(h, store)
    ensures body.Some? ==> Verify(h, kind, a, body.value).Ok?
    ensures var key := CacheKey(kind, a);
            body == if key in old(store.items) && !store.Expired(old(store.items)[key], now) then
                      Some(old(store.items)[key].body)
                    else Sent(h, kind, a, upstream)
    ensures CacheKey(kind, a) !in old(store.items) && upstream.Some? && Verify(h, kind, a, upstream.value).Ok? ==>
              body == upstream
    ensures CacheAfter(store, old(store.list), old(store.items), CacheKey(kind, a), Sent(h, kind, a, upstream), now)
  {
    hide Verify, Licensed, CacheKey, Indexed, Weight, Without;
    var key := CacheKey(kind, a);
    AbsentWithout(store.list, store.items, key);
    var found := store.Get(key, now);
    if found.Some? {
      LicensedMeans(h, kind, a, found.value.body);
      return Some(found.value.body);
    }
    if upstream.None? {
      return None;
    }
    if Verify(h, kind, a, upstream.value).Err? {
      return None;
    }
    LicensedMeans(h, kind, a, upstream.value);
    store.Put(key, upstream.value, now);
    FrontIsIndexed(store.list, store.items);
    return upstream;
  }
}
