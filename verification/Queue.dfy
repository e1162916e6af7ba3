/**
 The keyed blob queue behind signalling and mailboxes (tunnel/rendezvous/queue.go): blobs
 are deposited for a recipient key, picked up any number of times, and deleted when
 acknowledged or, at some later sweep, when expired. Times are nanoseconds.
 */
module Queue {
  import opened Basics
  import opened Totals

  type Key = string

  datatype Blob = Blob(id: string, from: Key, to: Key, payload: Bytes, depositedAt: int, expiresAt: int)

  datatype Caps = Caps(
    maxBlobBytes: int,
    maxPerKeyBlobs: int,
    maxPerKeyBytes: int,
    defaultTtl: int,
    maxTtl: int,
    maxKeys: int,
    sweepEvery: int)

  datatype Outcome = Stored | TooLarge | QuotaFull | NoRoom

  // ------------------------------------------------------------------- requested TTLs

  predicate Int64(x: int) {
    -INT64_HALF <= x < INT64_HALF
  }

  /** A product as a signed 64-bit word holds it. */
  function Wrap(x: int): (w: int)
    ensures -0x8000_0000_0000_0000 <= w < 0x8000_0000_0000_0000
    ensures (x - w) % 0x1_0000_0000_0000_0000 == 0
    ensures Int64(x) ==> w == x
  {
    (x + INT64_HALF) % (2 * INT64_HALF) - INT64_HALF
  }

  /** The TTL granted for a requested number of seconds. */
  function ClampTtl(c: Caps, seconds: int): int {
    if seconds <= 0 then c.defaultTtl
    else
      var d := Wrap(seconds * SECOND);
      if d > c.maxTtl then c.maxTtl else d
  }

  function LesserOf(x: int, y: int): int {
    if x <= y then x else y
  }

  /**
   What a sender expects, the request capped at the ceiling, is granted exactly when the
   nanosecond count fits a 64-bit word, or wraps to a value that is over the ceiling too.
   */
  lemma ClampMeetsRequest(c: Caps, seconds: int)
    requires seconds > 0 && Int64(seconds) && 0 <= c.maxTtl && Int64(c.maxTtl)
    ensures ClampTtl(c, seconds) == LesserOf(seconds * SECOND, c.maxTtl)
            <==> seconds * SECOND < INT64_HALF || Wrap(seconds * SECOND) >= c.maxTtl
    ensures ClampTtl(c, seconds) <= c.maxTtl
  {
  }

  /** Nothing requested is granted the default; a small request, itself; a larger one, the ceiling. */
  lemma ClampMeans(c: Caps, seconds: int)
    ensures seconds <= 0 ==> ClampTtl(c, seconds) == c.defaultTtl
    ensures 0 < seconds < 9_223_372_037 ==>
              ClampTtl(c, seconds) == if seconds * 1_000_000_000 <= c.maxTtl then seconds * 1_000_000_000 else c.maxTtl
  {
  }

  /** A request of some 292 years is granted a negative TTL. */
  lemma HugeRequestExpiresAtOnce(c: Caps)
    requires 0 <= c.maxTtl
    ensures ClampTtl(c, 9_223_372_037) < 0
  {
  }

  // ---------------------------------------------------------------------- blob lists

  /** What a blob can be kept for: not having expired, or not being among the named ids. */
  datatype Test = Unexpired(now: int) | Unnamed(ids: set<string>)

  predicate Passes(t: Test, b: Blob) {
    match t
    case Unexpired(now) => now < b.expiresAt
    case Unnamed(ids) => b.id !in ids
  }

  function AddIf(bs: seq<Blob>, b: Blob, wanted: bool): seq<Blob> {
    if wanted then bs + [b] else bs
  }

  function Keep(bs: seq<Blob>, t: Test): seq<Blob> {
    if |bs| == 0 then []
    else
      var n := |bs| - 1;
      AddIf(Keep(bs[..n], t), bs[n], Passes(t, bs[n]))
  }

  function Size(bs: seq<Blob>): nat {
    if |bs| == 0 then 0 else Size(bs[..|bs| - 1]) + |bs[|bs| - 1].payload|
  }

  lemma KeepSnoc(bs: seq<Blob>, b: Blob, t: Test)
    ensures Keep(bs + [b], t) == AddIf(Keep(bs, t), b, Passes(t, b))
    ensures Size(bs + [b]) == Size(bs) + |b.payload|
  {
    assert (bs + [b])[..|bs|] == bs;
  }

  lemma KeepNone(t: Test)
    ensures Keep([], t) == [] && Size([]) == 0
  {
  }

  lemma {:induction false} KeepBounds(bs: seq<Blob>, t: Test)
    ensures |Keep(bs, t)| <= |bs| && Size(Keep(bs, t)) <= Size(bs)
    ensures forall b :: b in Keep(bs, t) <==> b in bs && Passes(t, b)
  {
    if |bs| > 0 {
      var n := |bs| - 1;
      KeepBounds(bs[..n], t);
      assert bs == bs[..n] + [bs[n]];
      if Passes(t, bs[n]) {
        KeepSnoc(Keep(bs[..n], t), bs[n], t);
      }
    }
  }

  lemma {:induction false} KeepCommutes(bs: seq<Blob>, s: Test, t: Test)
    ensures Keep(Keep(bs, s), t) == Keep(Keep(bs, t), s)
  {
    if |bs| > 0 {
      var n := |bs| - 1;
      KeepCommutes(bs[..n], s, t);
      KeepSnoc(Keep(bs[..n], s), bs[n], t);
      KeepSnoc(Keep(bs[..n], t), bs[n], s);
    }
  }

  /** Looking later, it does not matter what was thrown out for having expired before. */
  lemma {:induction false} KeepNarrows(bs: seq<Blob>, now: int, later: int)
    requires now <= later
    ensures Keep(Keep(bs, Unexpired(now)), Unexpired(later)) == Keep(bs, Unexpired(later))
  {
    if |bs| > 0 {
      var n := |bs| - 1;
      KeepNarrows(bs[..n], now, later);
      KeepSnoc(Keep(bs[..n], Unexpired(now)), bs[n], Unexpired(later));
    }
  }

  // ------------------------------------------------------------------------- history

  /** What happened, oldest first: accepted deposits and acknowledgements. */
  datatype Event = Deposited(blob: Blob) | Acked(key: Key, ids: seq<string>)

  ghost function Names(ids: seq<string>): set<string> {
    set id | id in ids
  }

  /** Event i deposited a blob for the key, and no later acknowledgement names it. */
  ghost predicate Standing(log: seq<Event>, key: Key, i: nat)
    requires i < |log|
  {
    && log[i].Deposited?
    && log[i].blob.to == key
    && (forall m :: i < m < |log| && log[m].Acked? && log[m].key == key ==> log[i].blob.id !in log[m].ids)
  }

  /** The standing blobs among the first n events, in deposit order. */
  ghost function StandingBlobs(log: seq<Event>, key: Key, n: nat): seq<Blob>
    requires n <= |log|
  {
    if n == 0 then []
    else if Standing(log, key, n - 1) then StandingBlobs(log, key, n - 1) + [log[n - 1].blob]
    else StandingBlobs(log, key, n - 1)
  }

  /** What a pickup owes the key's holder: its standing blobs that have not expired. */
  ghost function Due(log: seq<Event>, key: Key, now: int): seq<Blob> {
    Keep(StandingBlobs(log, key, |log|), Unexpired(now))
  }

  lemma {:induction false} StandingAfterDeposit(log: seq<Event>, b: Blob, key: Key, n: nat)
    requires n <= |log|
    ensures StandingBlobs(log + [Deposited(b)], key, n) == StandingBlobs(log, key, n)
  {
    if n > 0 {
      StandingAfterDeposit(log, b, key, n - 1);
      var after := log + [Deposited(b)];
      assert forall m :: 0 <= m < |log| ==> after[m] == log[m];
      assert Standing(after, key, n - 1) <==> Standing(log, key, n - 1);
    }
  }

  lemma {:induction false} StandingAfterAck(log: seq<Event>, acked: Key, ids: seq<string>, key: Key, n: nat)
    requires n <= |log|
    ensures StandingBlobs(log + [Acked(acked, ids)], key, n)
            == if acked == key then Keep(StandingBlobs(log, key, n), Unnamed(Names(ids))) else StandingBlobs(log, key, n)
  {
    if n > 0 {
      StandingAfterAck(log, acked, ids, key, n - 1);
      var after := log + [Acked(acked, ids)];
      assert forall m :: 0 <= m < |log| ==> after[m] == log[m];
      assert after[|log|] == Acked(acked, ids);
      assert Standing(after, key, n - 1) <==>
             Standing(log, key, n - 1) && (acked == key ==> log[n - 1].blob.id !in Names(ids));
      if Standing(log, key, n - 1) {
        KeepSnoc(StandingBlobs(log, key, n - 1), log[n - 1].blob, Unnamed(Names(ids)));
      }
    }
  }

  lemma DueAfterDeposit(log: seq<Event>, b: Blob, key: Key, now: int)
    ensures Due(log + [Deposited(b)], key, now)
            == AddIf(Due(log, key, now), b, b.to == key && now < b.expiresAt)
  {
    var after := log + [Deposited(b)];
    StandingAfterDeposit(log, b, key, |log|);
    assert after[|log|] == Deposited(b);
    assert Standing(after, key, |log|) <==> b.to == key;
    KeepSnoc(StandingBlobs(log, key, |log|), b, Unexpired(now));
  }

  lemma DueAfterAck(log: seq<Event>, acked: Key, ids: seq<string>, key: Key, now: int)
    ensures Due(log + [Acked(acked, ids)], key, now)
            == if acked == key then Keep(Due(log, key, now), Unnamed(Names(ids))) else Due(log, key, now)
  {
    StandingAfterAck(log, acked, ids, key, |log|);
    assert !Standing(log + [Acked(acked, ids)], key, |log|);
    KeepCommutes(StandingBlobs(log, key, |log|), Unexpired(now), Unnamed(Names(ids)));
  }

  lemma {:induction false} StandingMembers(log: seq<Event>, key: Key, n: nat, b: Blob)
    requires n <= |log|
    ensures b in StandingBlobs(log, key, n) <==> exists i :: 0 <= i < n && Standing(log, key, i) && log[i].blob == b
  {
    if n > 0 {
      StandingMembers(log, key, n - 1, b);
    }
  }

  /** Spelled out: what is due is what was deposited, not since named, and not expired. */
  lemma DueMembers(log: seq<Event>, key: Key, now: int, b: Blob)
    ensures b in Due(log, key, now) <==>
            now < b.expiresAt && exists i :: 0 <= i < |log| && Standing(log, key, i) && log[i].blob == b
  {
    KeepBounds(StandingBlobs(log, key, |log|), Unexpired(now));
    StandingMembers(log, key, |log|, b);
  }

  // --------------------------------------------------------------------------- state

  function Pending(byKey: map<Key, seq<Blob>>, key: Key): seq<Blob> {
    if key in byKey then byKey[key] else []
  }

  /** Expired blobs removed, and keys left with none. */
  function Reaped(byKey: map<Key, seq<Blob>>, now: int): map<Key, seq<Blob>> {
    map k | k in byKey && Keep(byKey[k], Unexpired(now)) != [] :: Keep(byKey[k], Unexpired(now))
  }

  /** A sweep under way: the keys still to do are untouched. */
  ghost function ReapedBut(was: map<Key, seq<Blob>>, todo: set<Key>, now: int): map<Key, seq<Blob>> {
    map k | k in was && (k in todo || Keep(was[k], Unexpired(now)) != []) ::
      if k in todo then was[k] else Keep(was[k], Unexpired(now))
  }

  lemma ReapStep(was: map<Key, seq<Blob>>, todo: set<Key>, now: int, key: Key)
    requires todo <= was.Keys && key in todo
    ensures key in ReapedBut(was, todo, now) && ReapedBut(was, todo, now)[key] == was[key]
    ensures ReapedBut(was, todo - {key}, now) == WithList(ReapedBut(was, todo, now), key, Keep(was[key], Unexpired(now)))
  {
    hide Keep;
  }

  lemma ReapEnds(was: map<Key, seq<Blob>>, now: int)
    ensures ReapedBut(was, was.Keys, now) == was
    ensures ReapedBut(was, {}, now) == Reaped(was, now)
  {
    hide Keep;
  }

  /** A key's list replaced; an empty list is no entry. */
  function WithList(byKey: map<Key, seq<Blob>>, key: Key, bs: seq<Blob>): map<Key, seq<Blob>> {
    if bs == [] then byKey - {key} else byKey[key := bs]
  }

  /** The byte counts are the payload totals, lists are never empty, and the three caps hold. */
  ghost predicate Sound(c: Caps, byKey: map<Key, seq<Blob>>, bytes: map<Key, int>) {
    && Counted(byKey, bytes)
    && |byKey| <= c.maxKeys
    && (forall k :: k in byKey ==> ListSound(c, k, byKey[k]))
  }

  ghost predicate Counted(byKey: map<Key, seq<Blob>>, bytes: map<Key, int>) {
    bytes.Keys == byKey.Keys && forall k :: k in byKey ==> bytes[k] == Size(byKey[k])
  }

  ghost predicate ListSound(c: Caps, k: Key, bs: seq<Blob>) {
    && bs != []
    && |bs| <= c.maxPerKeyBlobs
    && Size(bs) <= c.maxPerKeyBytes
    && (forall b :: b in bs ==> b.to == k && |b.payload| <= c.maxBlobBytes)
  }

  /** Looked at from the clock on, every key's list shows what is due to it. */
  ghost predicate Faithful(byKey: map<Key, seq<Blob>>, log: seq<Event>, clock: int) {
    forall k :: Keep(Pending(byKey, k), Unexpired(clock)) == Due(log, k, clock)
  }

  lemma FaithfulLater(byKey: map<Key, seq<Blob>>, log: seq<Event>, clock: int, now: int)
    requires Faithful(byKey, log, clock) && clock <= now
    ensures Faithful(byKey, log, now)
  {
    forall k
      ensures Keep(Pending(byKey, k), Unexpired(now)) == Due(log, k, now)
    {
      KeepNarrows(Pending(byKey, k), clock, now);
      KeepNarrows(StandingBlobs(log, k, |log|), clock, now);
      assert Keep(Pending(byKey, k), Unexpired(clock)) == Due(log, k, clock);
    }
  }

  lemma ReapFaithful(byKey: map<Key, seq<Blob>>, log: seq<Event>, now: int)
    requires Faithful(byKey, log, now)
    ensures Faithful(Reaped(byKey, now), log, now)
  {
    forall k
      ensures Keep(Pending(Reaped(byKey, now), k), Unexpired(now)) == Due(log, k, now)
    {
      KeepNarrows(Pending(byKey, k), now, now);
      assert Keep(Pending(byKey, k), Unexpired(now)) == Due(log, k, now);
    }
  }

  lemma KeepListSound(c: Caps, k: Key, bs: seq<Blob>, t: Test)
    requires ListSound(c, k, bs) && Keep(bs, t) != []
    ensures ListSound(c, k, Keep(bs, t))
  {
    KeepBounds(bs, t);
  }

  lemma ReapSound(c: Caps, byKey: map<Key, seq<Blob>>, bytes: map<Key, int>, bytes': map<Key, int>, now: int)
    requires Sound(c, byKey, bytes)
    requires Counted(Reaped(byKey, now), bytes')
    ensures Sound(c, Reaped(byKey, now), bytes')
  {
    hide Keep, Size, ListSound, Counted;
    SubmapSize(Reaped(byKey, now), byKey);
    forall k | k in Reaped(byKey, now)
      ensures ListSound(c, k, Reaped(byKey, now)[k])
    {
      KeepListSound(c, k, byKey[k], Unexpired(now));
    }
  }

  lemma DepositFaithful(byKey: map<Key, seq<Blob>>, log: seq<Event>, b: Blob, now: int)
    requires Faithful(byKey, log, now)
    ensures Faithful(byKey[b.to := Pending(byKey, b.to) + [b]], log + [Deposited(b)], now)
  {
    hide Keep, Due;
    var after := byKey[b.to := Pending(byKey, b.to) + [b]];
    forall k
      ensures Keep(Pending(after, k), Unexpired(now)) == Due(log + [Deposited(b)], k, now)
    {
      DueAfterDeposit(log, b, k, now);
      KeepSnoc(Pending(byKey, k), b, Unexpired(now));
      assert Keep(Pending(byKey, k), Unexpired(now)) == Due(log, k, now);
    }
  }

  lemma AckFaithful(byKey: map<Key, seq<Blob>>, log: seq<Event>, key: Key, ids: seq<string>, now: int)
    requires Faithful(byKey, log, now)
    ensures Faithful(WithList(byKey, key, Keep(Pending(byKey, key), Unnamed(Names(ids)))), log + [Acked(key, ids)], now)
  {
    hide Keep, Due;
    var after := WithList(byKey, key, Keep(Pending(byKey, key), Unnamed(Names(ids))));
    forall k
      ensures Keep(Pending(after, k), Unexpired(now)) == Due(log + [Acked(key, ids)], k, now)
    {
      DueAfterAck(log, key, ids, k, now);
      KeepCommutes(Pending(byKey, k), Unexpired(now), Unnamed(Names(ids)));
      assert Keep(Pending(byKey, k), Unexpired(now)) == Due(log, k, now);
      assert Pending(after, k) == if k == key then Keep(Pending(byKey, key), Unnamed(Names(ids))) else Pending(byKey, k);
    }
  }

  lemma ListSoundSnoc(c: Caps, bs: seq<Blob>, b: Blob)
    requires bs == [] || ListSound(c, b.to, bs)
    requires |b.payload| <= c.maxBlobBytes
    requires |bs| < c.maxPerKeyBlobs && Size(bs) + |b.payload| <= c.maxPerKeyBytes
    ensures ListSound(c, b.to, bs + [b])
  {
    KeepSnoc(bs, b, Unexpired(0));
    hide Size;
    forall x | x in bs + [b]
      ensures x.to == b.to && |x.payload| <= c.maxBlobBytes
    {
      assert x in bs || x == b;
    }
  }

  lemma SoundCounted(c: Caps, byKey: map<Key, seq<Blob>>, bytes: map<Key, int>)
    requires Sound(c, byKey, bytes)
    ensures Counted(byKey, bytes)
  {
  }

  lemma CountedUpdate(byKey: map<Key, seq<Blob>>, bytes: map<Key, int>, k: Key, list: seq<Blob>)
    requires Counted(byKey, bytes)
    ensures Counted(byKey - {k}, bytes - {k}) && Counted(byKey[k := list], bytes[k := Size(list)])
  {
    hide Size;
  }

  lemma SoundParts(c: Caps, byKey: map<Key, seq<Blob>>, bytes: map<Key, int>, k: Key)
    requires Sound(c, byKey, bytes)
    ensures bytes.Keys == byKey.Keys
    ensures k in byKey ==> ListSound(c, k, byKey[k]) && byKey[k] != [] && bytes[k] == Size(byKey[k])
    ensures (if k in bytes then bytes[k] else 0) == Size(Pending(byKey, k))
  {
  }

  lemma DepositSound(c: Caps, byKey: map<Key, seq<Blob>>, bytes: map<Key, int>, b: Blob, list: seq<Blob>, size: int)
    requires Sound(c, byKey, bytes)
    requires |b.payload| <= c.maxBlobBytes
    requires b.to !in byKey ==> |byKey| < c.maxKeys
    requires |Pending(byKey, b.to)| < c.maxPerKeyBlobs && size == Size(Pending(byKey, b.to)) + |b.payload| <= c.maxPerKeyBytes
    requires list == Pending(byKey, b.to) + [b]
    ensures Sound(c, byKey[b.to := list], bytes[b.to := size])
    ensures |byKey[b.to := list]| <= c.maxKeys && |list| <= c.maxPerKeyBlobs
  {
    hide Size, ListSound, Keep;
    ListSoundSnoc(c, Pending(byKey, b.to), b);
    KeepSnoc(Pending(byKey, b.to), b, Unexpired(0));
    assert byKey[b.to := list].Keys == byKey.Keys + {b.to};
  }

  lemma AckSound(c: Caps, byKey: map<Key, seq<Blob>>, bytes: map<Key, int>, key: Key, t: Test)
    requires Sound(c, byKey, bytes) && key in byKey
    ensures var kept := Keep(byKey[key], t);
            if kept == [] then Sound(c, byKey - {key}, bytes - {key})
            else Sound(c, byKey[key := kept], bytes[key := Size(kept)])
  {
    hide Keep, Size, ListSound;
    var kept := Keep(byKey[key], t);
    if kept == [] {
      SubmapSize(byKey - {key}, byKey);
    } else {
      KeepListSound(c, key, byKey[key], t);
      assert byKey[key := kept].Keys == byKey.Keys;
    }
  }

  // --------------------------------------------------------------------------- queue

  predicate SweepDue(swept: Option<int>, sweepEvery: int, now: int) {
    swept.None? || now - swept.value >= sweepEvery
  }

  function AfterSweep(byKey: map<Key, seq<Blob>>, swept: Option<int>, sweepEvery: int, now: int): map<Key, seq<Blob>> {
    if SweepDue(swept, sweepEvery, now) then Reaped(byKey, now) else byKey
  }

  /**
   When none was yet or the last lies the interval back, a sweep leaves exactly the keys with
   a blob that has not expired, and of each exactly those; otherwise everything.
   */
  lemma SweepMeans(byKey: map<Key, seq<Blob>>, swept: Option<int>, sweepEvery: int, now: int)
    ensures var t := AfterSweep(byKey, swept, sweepEvery, now);
            if swept.None? || now - swept.value >= sweepEvery then
              && (forall k :: k in t <==> k in byKey && exists b :: b in byKey[k] && now < b.expiresAt)
              && (forall k, b :: k in t ==> (b in t[k] <==> b in byKey[k] && now < b.expiresAt))
            else t == byKey
  {
    hide Keep;
    var t := Reaped(byKey, now);
    forall k | k in byKey
      ensures forall b :: b in Keep(byKey[k], Unexpired(now)) <==> b in byKey[k] && now < b.expiresAt
      ensures k in t <==> exists b :: b in byKey[k] && now < b.expiresAt
    {
      KeepBounds(byKey[k], Unexpired(now));
      var kept := Keep(byKey[k], Unexpired(now));
      if kept != [] {
        assert kept[0] in kept;
      }
    }
  }

  class BlobQueue {
    const caps: Caps
    var byKey: map<Key, seq<Blob>>
    var bytes: map<Key, int>
    var swept: Option<int>
    // The accepted deposits and acknowledgements so far, and the latest time seen.
    ghost var log: seq<Event>
    ghost var clock: int

    ghost predicate Valid()
      reads this
    {
      Sound(caps, byKey, bytes) && Faithful(byKey, log, clock)
    }

    constructor (requested: Caps, ghost start: int)
      ensures Valid() && log == [] && byKey == map[] && clock == start
      ensures caps == requested.(maxKeys := if requested.maxKeys <= 0 then 100_000 else requested.maxKeys,
                                 sweepEvery := if requested.sweepEvery <= 0 then 60_000_000_000 else requested.sweepEvery)
    {
      var c := requested;
      if c.maxKeys <= 0 {
        c := c.(maxKeys := 100_000);
      }
      if c.sweepEvery <= 0 {
        c := c.(sweepEvery := MINUTE);
      }
      caps := c;
      byKey, bytes, swept, log, clock := map[], map[], None, [], start;
    }

    /** One key's list with the expired blobs dropped, and the payload total of the rest. */
    static method Reap(pending: seq<Blob>, now: int) returns (kept: seq<Blob>, live: nat)
      ensures kept == Keep(pending, Unexpired(now)) && live == Size(kept)
    {
      hide Keep, Size;
      KeepNone(Unexpired(now));
      kept, live := [], 0;
      for i := 0 to |pending|
        invariant kept == Keep(pending[..i], Unexpired(now)) && live == Size(kept)
      {
        assert pending[..i + 1] == pending[..i] + [pending[i]];
        KeepSnoc(pending[..i], pending[i], Unexpired(now));
        KeepSnoc(kept, pending[i], Unexpired(now));
        if now < pending[i].expiresAt {
          kept := kept + [pending[i]];
          live := live + |pending[i].payload|;
        }
      }
      assert pending[..|pending|] == pending;
    }

    /** Removes every expired blob, or does nothing when the last sweep is recent. */
    method SweepLocked(now: int)
      requires Valid() && clock <= now
      modifies this
      ensures Valid() && clock == now && log == old(log)
      ensures swept == if SweepDue(old(swept), caps.sweepEvery, now) then Some(now) else old(swept)
      ensures byKey == AfterSweep(old(byKey), old(swept), caps.sweepEvery, now)
      ensures old(swept).None? || now - old(swept).value >= caps.sweepEvery ==> swept == Some(now)
      ensures old(swept).Some? && now - old(swept).value < caps.sweepEvery ==> swept == old(swept) && byKey == old(byKey)
    {
      hide Keep, Size, Sound, Faithful, Counted, Reaped, ReapedBut;
      FaithfulLater(byKey, log, clock, now);
      clock := now;
      if swept.Some? && now - swept.value < caps.sweepEvery {
        return;
      }
      swept := Some(now);
      ghost var was := byKey;
      SoundCounted(caps, byKey, bytes);
      ReapEnds(was, now);
      var todo := byKey.Keys;
      while todo != {}
        invariant todo <= was.Keys && byKey == ReapedBut(was, todo, now) && Counted(byKey, bytes)
        invariant log == old(log) && clock == now && swept == Some(now)
        decreases |todo|
      {
        var key :| key in todo;
        ReapStep(was, todo, now, key);
        var kept, live := Reap(byKey[key], now);
        CountedUpdate(byKey, bytes, key, kept);
        if |kept| == 0 {
          byKey, bytes := byKey - {key}, bytes - {key};
        } else {
          byKey, bytes := byKey[key := kept], bytes[key := live];
        }
        todo := todo - {key};
      }
      ReapSound(caps, was, old(bytes), bytes, now);
      ReapFaithful(was, log, now);
    }

    /** Stores a blob under a fresh id, unless a cap refuses it. */
    method Deposit(from: Key, to: Key, payload: Bytes, ttl: int, now: int, freshId: string) returns (id: string, res: Outcome)
      requires Valid() && clock <= now
      modifies this
      ensures Valid() && clock == now
      ensures res == Stored ==> id == freshId && log == old(log) + [Deposited(Blob(freshId, from, to, payload, now, now + ttl))]
      ensures res != Stored ==> id == "" && log == old(log)
      ensures res == TooLarge <==> |payload| > caps.maxBlobBytes
      ensures res == TooLarge ==> byKey == old(byKey) && swept == old(swept)
      ensures var before := AfterSweep(old(byKey), old(swept), caps.sweepEvery, now);
              var held := Pending(before, to);
              && (res == NoRoom <==> |payload| <= caps.maxBlobBytes && to !in before && |before| >= caps.maxKeys)
              && (res == QuotaFull <==>
                  && |payload| <= caps.maxBlobBytes
                  && (to in before || |before| < caps.maxKeys)
                  && (|held| >= caps.maxPerKeyBlobs || Size(held) + |payload| > caps.maxPerKeyBytes))
              && (res == NoRoom || res == QuotaFull ==> byKey == before)
              && (res == Stored ==> byKey == before[to := held + [Blob(freshId, from, to, payload, now, now + ttl)]])
      ensures res == Stored ==> |byKey| <= caps.maxKeys && |byKey[to]| <= caps.maxPerKeyBlobs && |payload| <= caps.maxBlobBytes
    {
      hide Keep, Size, ListSound, Faithful, Sound;
      if |payload| > caps.maxBlobBytes {
        FaithfulLater(byKey, log, clock, now);
        clock := now;
        return "", TooLarge;
      }
      SweepLocked(now);
      var pending := if to in byKey then byKey[to] else [];
      SoundParts(caps, byKey, bytes, to);
      if to !in byKey {
        if |byKey| >= caps.maxKeys {
          return "", NoRoom;
        }
      }
      if |pending| >= caps.maxPerKeyBlobs {
        return "", QuotaFull;
      }
      var held := if to in bytes then bytes[to] else 0;
      if held + |payload| > caps.maxPerKeyBytes {
        return "", QuotaFull;
      }
      id := freshId;
      var b := Blob(id, from, to, payload, now, now + ttl);
      DepositSound(caps, byKey, bytes, b, pending + [b], held + |payload|);
      DepositFaithful(byKey, log, b, now);
      byKey := byKey[to := pending + [b]];
      bytes := bytes[to := held + |payload|];
      log := log + [Deposited(b)];
      res := Stored;
    }

    /** Hands over, in deposit order, exactly the blobs that are due, and deletes none of them. */
    method Pickup(key: Key, now: int) returns (out: seq<Blob>)
      requires Valid() && clock <= now
      modifies this
      ensures Valid() && clock == now && log == old(log)
      ensures out == Due(log, key, now)
    {
      hide Keep, Sound, Due;
      SweepLocked(now);
      var pending := if key in byKey then byKey[key] else [];
      out := [];
      KeepNone(Unexpired(now));
      for i := 0 to |pending|
        modifies {}
        invariant out == Keep(pending[..i], Unexpired(now))
      {
        assert pending[..i + 1] == pending[..i] + [pending[i]];
        KeepSnoc(pending[..i], pending[i], Unexpired(now));
        if !(now < pending[i].expiresAt) {
          continue;
        }
        out := out + [pending[i]];
      }
      assert pending[..|pending|] == pending == Pending(byKey, key);
      assert Keep(Pending(byKey, key), Unexpired(now)) == Due(log, key, now);
    }

    /**
     Deletes the named blobs of one key and reports how many were held. The byte count
     falls by exactly their payloads, so it is never clamped.
     */
    method Ack(key: Key, ids: seq<string>) returns (removed: nat)
      requires Valid()
      modifies this
      ensures Valid() && clock == old(clock) && swept == old(swept)
      ensures log == old(log) + [Acked(key, ids)]
      ensures byKey == WithList(old(byKey), key, Keep(Pending(old(byKey), key), Unnamed(Names(ids))))
      ensures removed == |Pending(old(byKey), key)| - |Pending(byKey, key)|
    {
      hide Keep, Size, ListSound, Faithful, Sound;
      ghost var t := Unnamed(Names(ids));
      AckFaithful(byKey, log, key, ids, clock);
      SoundParts(caps, byKey, bytes, key);
      KeepNone(t);
      log := log + [Acked(key, ids)];
      var pending := if key in byKey then byKey[key] else [];
      KeepBounds(pending, t);
      if |ids| == 0 {
        KeepAll(pending, t);
        assert WithList(byKey, key, pending) == byKey;
        return 0;
      }
      if |pending| == 0 {
        assert WithList(byKey, key, pending) == byKey;
        return 0;
      }
      AckSound(caps, byKey, bytes, key, t);
      var kept, freed := [], 0;
      removed := 0;
      for i := 0 to |pending|
        modifies {}
        invariant kept == Keep(pending[..i], t) && removed == i - |kept| && freed == Size(pending[..i]) - Size(kept)
      {
        assert pending[..i + 1] == pending[..i] + [pending[i]];
        KeepSnoc(pending[..i], pending[i], t);
        KeepSnoc(kept, pending[i], t);
        if pending[i].id in ids {
          removed := removed + 1;
          freed := freed + |pending[i].payload|;
          continue;
        }
        kept := kept + [pending[i]];
      }
      assert pending[..|pending|] == pending;
      if |kept| == 0 {
        byKey, bytes := byKey - {key}, bytes - {key};
      } else {
        var left := bytes[key] - freed;
        assert left == Size(kept);
        if left < 0 {
          left := 0;
        }
        byKey, bytes := byKey[key := kept], bytes[key := left];
      }
    }
  }

  lemma {:induction false} KeepAll(bs: seq<Blob>, t: Test)
    requires forall b :: b in bs ==> Passes(t, b)
    ensures Keep(bs, t) == bs
  {
    if |bs| > 0 {
      var n := |bs| - 1;
      KeepAll(bs[..n], t);
      assert bs == bs[..n] + [bs[n]];
    }
  }
}
