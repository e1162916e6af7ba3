/**
 The per-key token-bucket limiter with idle eviction (tunnel/rendezvous/ratelimit.go).
 Settings and clock readings are whole nanoseconds; token counts are reals.
 */
module RateLimiter {
  import opened Basics
  import opened Totals

  type Key = string

  datatype Bucket = Bucket(tokens: real, last: int, lastUsed: int)

  datatype Config = Config(rate: real, burst: real, idleTtl: int, maxKeys: int)

  datatype Limiter = Limiter(buckets: map<Key, Bucket>, swept: Option<int>)

  /** The limiter's effective settings; without a positive rate and burst there is no limiter. */
  function Configured(ratePerSec: real, burst: real, idleTtl: int, maxKeys: int): (c: Option<Config>)
    ensures c.Some? <==> ratePerSec > 0.0 && burst > 0.0
    ensures c.Some? ==> Sane(c.value)
    ensures c.Some? ==>
              && c.value.rate == ratePerSec && c.value.burst == burst
              && c.value.idleTtl == (if idleTtl > 0 then idleTtl else 600_000_000_000)
              && c.value.maxKeys == (if maxKeys > 0 then maxKeys else 100_000)
  {
    if ratePerSec <= 0.0 || burst <= 0.0 then None
    else
      Some(Config(ratePerSec, burst, if idleTtl <= 0 then 10 * MINUTE else idleTtl, if maxKeys <= 0 then 100_000 else maxKeys))
  }

  predicate Sane(c: Config) {
    c.rate > 0.0 && c.burst > 0.0 && c.idleTtl > 0 && c.maxKeys > 0
  }

  /** Tokens earned in a span of nanoseconds. */
  function Earned(c: Config, span: int): real {
    (span as real) / (SECOND as real) * c.rate
  }

  function Min(x: real, y: real): real {
    if x <= y then x else y
  }

  /** A bucket brought up to date. */
  function Refilled(c: Config, b: Bucket, now: int): Bucket {
    if now - b.last > 0 then b.(tokens := Min(b.tokens + Earned(c, now - b.last), c.burst), last := now) else b
  }

  /** A call on a tracked key. */
  function Spend(c: Config, b: Bucket, now: int): (bool, Bucket) {
    var r := Refilled(c, b, now).(lastUsed := now);
    if r.tokens >= 1.0 then (true, r.(tokens := r.tokens - 1.0)) else (false, r)
  }

  /** A key's first call. */
  function Fresh(c: Config, now: int): Bucket {
    Bucket(c.burst - 1.0, now, now)
  }

  /** How long after a sweep the next is due. */
  function SweepInterval(c: Config): int {
    if c.idleTtl / 4 <= 0 then MINUTE else c.idleTtl / 4
  }

  predicate SweepDue(c: Config, l: Limiter, now: int) {
    l.swept.None? || now - l.swept.value >= SweepInterval(c)
  }

  /** Buckets idle for longer than the TTL go, at most every quarter TTL. */
  function Swept(c: Config, l: Limiter, now: int): Limiter {
    if SweepDue(c, l, now) then
      Limiter(map k | k in l.buckets && !(now - l.buckets[k].lastUsed > c.idleTtl) :: l.buckets[k], Some(now))
    else l
  }

  datatype Answer = Allowed | Denied | Full

  /** One call for a non-empty key; Full is a refusal for want of room. */
  function Allow(c: Config, l: Limiter, key: Key, now: int): (Answer, Limiter) {
    var s := Swept(c, l, now);
    if key in s.buckets then
      var (ok, b) := Spend(c, s.buckets[key], now);
      (if ok then Allowed else Denied, s.(buckets := s.buckets[key := b]))
    else if |s.buckets| >= c.maxKeys then (Full, s)
    else (Allowed, s.(buckets := s.buckets[key := Fresh(c, now)]))
  }

  /**
   A sweep in numbers: when a quarter of the TTL, or a minute if that is nothing, has passed
   since the last, the buckets idle beyond the TTL go and no others.
   */
  lemma SweptMeans(c: Config, l: Limiter, now: int)
    ensures var t := Swept(c, l, now);
            var every := if c.idleTtl >= 4 then c.idleTtl / 4 else 60_000_000_000;
            var due := l.swept.None? || now - l.swept.value >= every;
            && t.swept == (if due then Some(now) else l.swept)
            && (forall k :: k in t.buckets <==> k in l.buckets && !(due && now - l.buckets[k].lastUsed > c.idleTtl))
            && (forall k :: k in t.buckets ==> t.buckets[k] == l.buckets[k])
  {
  }

  /**
   A call on a tracked key in numbers: it earns rate a second since the last call, up to the
   burst, and pays a token if it then has one.
   */
  lemma SpendMeans(c: Config, b: Bucket, now: int)
    ensures var (ok, t) := Spend(c, b, now);
            var earned := b.tokens + (now - b.last) as real / 1_000_000_000.0 * c.rate;
            var tokens := if now <= b.last then b.tokens else if earned <= c.burst then earned else c.burst;
            && ok == (tokens >= 1.0) && t.tokens == (if ok then tokens - 1.0 else tokens)
            && t.last == (if now <= b.last then b.last else now) && t.lastUsed == now
  {
  }

  /**
   A call, once sweeping is done: a tracked key is asked to pay; another one, if there is
   room, starts with the burst less a token; no other key is touched.
   */
  lemma AllowMeans(c: Config, l: Limiter, key: Key, now: int)
    ensures var (answer, t) := Allow(c, l, key, now);
            var s := Swept(c, l, now);
            && t.swept == s.swept
            && (forall k :: k != key ==> (k in t.buckets <==> k in s.buckets))
            && (forall k :: k != key && k in t.buckets ==> t.buckets[k] == s.buckets[k])
            && if key in s.buckets then
                 && answer == (if Spend(c, s.buckets[key], now).0 then Allowed else Denied)
                 && key in t.buckets && t.buckets[key] == Spend(c, s.buckets[key], now).1
               else if |s.buckets| >= c.maxKeys then answer == Full && key !in t.buckets
               else answer == Allowed && key in t.buckets && t.buckets[key] == Bucket(c.burst - 1.0, now, now)
  {
    hide Spend, Swept;
  }

  /** The limiter object. */
  class KeyLimiter {
    const config: Config
    var buckets: map<Key, Bucket>
    var swept: Option<int>

    constructor (config: Config)
      ensures this.config == config && State() == Limiter(map[], None)
    {
      this.config, buckets, swept := config, map[], None;
    }

    ghost function State(): Limiter
      reads this
    {
      Limiter(buckets, swept)
    }

    method SweepLocked(now: int)
      modifies this
      ensures State() == Swept(config, old(State()), now)
    {
      var interval := config.idleTtl / 4;
      if interval <= 0 {
        interval := MINUTE;
      }
      if swept.Some? && now - swept.value < interval {
        return;
      }
      swept := Some(now);
      buckets := map k | k in buckets && !(now - buckets[k].lastUsed > config.idleTtl) :: buckets[k];
    }

    method AllowKey(key: Key, now: int) returns (ok: bool)
      modifies this
      ensures key == "" ==> ok && State() == old(State())
      ensures key != "" ==>
                ok == Allow(config, old(State()), key, now).0.Allowed? && State() == Allow(config, old(State()), key, now).1
    {
      if key == "" {
        return true;
      }
      SweepLocked(now);
      if key !in buckets {
        if |buckets| >= config.maxKeys {
          return false;
        }
        buckets := buckets[key := Bucket(config.burst - 1.0, now, now)];
        return true;
      }
      var b := buckets[key];
      if now - b.last > 0 {
        b := b.(tokens := b.tokens + Earned(config, now - b.last));
        if b.tokens > config.burst {
          b := b.(tokens := config.burst);
        }
        b := b.(last := now);
      }
      b := b.(lastUsed := now);
      if b.tokens >= 1.0 {
        buckets := buckets[key := b.(tokens := b.tokens - 1.0)];
        return true;
      }
      buckets := buckets[key := b];
      return false;
    }
  }

  // ----------------------------------------------------------------------- invariants

  /** The least a bucket can hold: a first call is allowed even when the burst is less than a token. */
  function Least(c: Config): real {
    Min(0.0, c.burst - 1.0)
  }

  /** What holds of every bucket at a time no call has been after. */
  predicate SoundBucket(c: Config, b: Bucket, now: int) {
    Least(c) <= b.tokens <= c.burst && b.last == b.lastUsed && b.last <= now
  }

  ghost predicate Sound(c: Config, l: Limiter, now: int) {
    && (forall k :: k in l.buckets ==> SoundBucket(c, l.buckets[k], now))
    && (l.swept.Some? ==> l.swept.value <= now)
  }

  /** Settings under which a bucket is full again before it can be evicted. */
  predicate Patient(c: Config) {
    Sane(c) && c.burst >= 1.0 && Earned(c, c.idleTtl + 1) >= c.burst
  }

  lemma EarnedAdds(c: Config, x: int, y: int)
    ensures Earned(c, x + y) == Earned(c, x) + Earned(c, y)
  {
    var a, b := x as real, y as real;
    assert (a + b) / (SECOND as real) == a / (SECOND as real) + b / (SECOND as real);
  }

  lemma EarnedSplit(c: Config, u: int, v: int, w: int)
    ensures Earned(c, w - u) == Earned(c, v - u) + Earned(c, w - v)
  {
    EarnedAdds(c, v - u, w - v);
  }

  lemma EarnedNonNegative(c: Config, x: int)
    requires Sane(c) && x >= 0
    ensures Earned(c, x) >= 0.0
  {
  }

  lemma SpendSound(c: Config, b: Bucket, now: int)
    requires Sane(c) && SoundBucket(c, b, now)
    ensures SoundBucket(c, Spend(c, b, now).1, now)
  {
    hide Earned;
    EarnedNonNegative(c, now - b.last);
  }

  lemma AllowSound(c: Config, l: Limiter, key: Key, was: int, now: int)
    requires Sane(c) && Sound(c, l, was) && was <= now
    ensures Sound(c, Allow(c, l, key, now).1, now)
  {
    hide Earned, Spend;
    var s := Swept(c, l, now);
    if key in s.buckets {
      SpendSound(c, s.buckets[key], now);
    }
  }

  // ----------------------------------------------------------- eviction is unobservable

  /** After a whole idle TTL, spending from the old bucket and from a fresh one are the same. */
  lemma IdleIsFresh(c: Config, b: Bucket, now: int)
    requires Patient(c) && SoundBucket(c, b, now) && now - b.lastUsed > c.idleTtl
    ensures Spend(c, b, now) == (true, Fresh(c, now))
  {
    var span := now - b.last;
    EarnedAdds(c, c.idleTtl + 1, span - c.idleTtl - 1);
    EarnedNonNegative(c, span - c.idleTtl - 1);
    hide Earned;
  }

  /** The same limiter, with every bucket ever made kept: the ideal it is compared with. */
  function Unevicted(c: Config, all: map<Key, Bucket>, key: Key, now: int): (bool, map<Key, Bucket>) {
    if key in all then
      var (ok, b) := Spend(c, all[key], now);
      (ok, all[key := b])
    else (true, all[key := Fresh(c, now)])
  }

  /** The limiter holds the ideal's buckets, except some idle for longer than the TTL. */
  ghost predicate Tracks(c: Config, l: Limiter, all: map<Key, Bucket>, now: int) {
    && (forall k :: k in l.buckets ==> k in all && all[k] == l.buckets[k])
    && (forall k :: k in all ==> SoundBucket(c, all[k], now) && (k in l.buckets || now - all[k].lastUsed > c.idleTtl))
    && (l.swept.Some? ==> l.swept.value <= now)
  }

  /**
   Idle eviction is unobservable: except for refusals for want of room, every answer is
   the one a limiter that never forgets would give, and the two stay in step.
   */
  lemma EvictionUnobservable(c: Config, l: Limiter, all: map<Key, Bucket>, key: Key, was: int, now: int)
    requires Patient(c) && Tracks(c, l, all, was) && was <= now
    ensures var (answer, l') := Allow(c, l, key, now);
            if answer.Full? then Tracks(c, l', all, now)
            else (answer.Allowed? <==> Unevicted(c, all, key, now).0) && Tracks(c, l', Unevicted(c, all, key, now).1, now)
  {
    hide Earned, Spend;
    var s := Swept(c, l, now);
    assert Tracks(c, s, all, now);
    if key in all {
      SpendSound(c, all[key], now);
      SpendMarks(c, all[key], now);
      if key !in s.buckets {
        IdleIsFresh(c, all[key], now);
      }
    }
  }

  lemma SpendMarks(c: Config, b: Bucket, now: int)
    ensures Spend(c, b, now).1.lastUsed == now
  {
  }

  datatype Call = Call(key: Key, now: int)

  /** Calls in clock order, none before was. */
  predicate InOrder(calls: seq<Call>, was: int) {
    |calls| == 0 || (was <= calls[0].now && InOrder(calls[1..], calls[0].now))
  }

  function Answers(c: Config, l: Limiter, calls: seq<Call>): seq<Answer>
    decreases |calls|
  {
    if |calls| == 0 then []
    else
      var (answer, l') := Allow(c, l, calls[0].key, calls[0].now);
      [answer] + Answers(c, l', calls[1..])
  }

  /** The ideal's answers over the calls that found room. */
  function IdealAnswers(c: Config, all: map<Key, Bucket>, calls: seq<Call>, answers: seq<Answer>): seq<Answer>
    requires |answers| == |calls|
    decreases |calls|
  {
    if |calls| == 0 then []
    else if answers[0].Full? then [Full] + IdealAnswers(c, all, calls[1..], answers[1..])
    else
      var (ok, all') := Unevicted(c, all, calls[0].key, calls[0].now);
      [if ok then Allowed else Denied] + IdealAnswers(c, all', calls[1..], answers[1..])
  }

  lemma {:induction false} AnswersCount(c: Config, l: Limiter, calls: seq<Call>)
    ensures |Answers(c, l, calls)| == |calls|
    decreases |calls|
  {
    if |calls| > 0 {
      AnswersCount(c, Allow(c, l, calls[0].key, calls[0].now).1, calls[1..]);
    }
  }

  lemma {:induction false} EvictionNeverShows(c: Config, l: Limiter, all: map<Key, Bucket>, calls: seq<Call>, was: int)
    requires Patient(c) && Tracks(c, l, all, was) && InOrder(calls, was)
    ensures |Answers(c, l, calls)| == |calls|
    ensures IdealAnswers(c, all, calls, Answers(c, l, calls)) == Answers(c, l, calls)
    decreases |calls|
  {
    hide Allow, Unevicted, Tracks, Patient;
    AnswersCount(c, l, calls);
    if |calls| > 0 {
      var call := calls[0];
      EvictionUnobservable(c, l, all, call.key, was, call.now);
      var (answer, l') := Allow(c, l, call.key, call.now);
      AnswersCount(c, l', calls[1..]);
      assert Answers(c, l, calls)[1..] == Answers(c, l', calls[1..]);
      EvictionNeverShows(c, l', if answer.Full? then all else Unevicted(c, all, call.key, call.now).1, calls[1..], call.now);
    }
  }

  // ------------------------------------------------- how much a bucket is good for

  /** The whole tokens in a bucket, and what is left when they are spent. */
  function Whole(tokens: real): nat {
    if tokens >= 0.0 then tokens.Floor else 0
  }

  function Rest(tokens: real): real {
    tokens - Whole(tokens) as real
  }

  lemma WholeParts(x: real, y: real)
    requires 0.0 <= x <= y
    ensures 0.0 <= Rest(x) < 1.0 && x == Whole(x) as real + Rest(x)
    ensures Whole(x) <= Whole(y)
    ensures x < 1.0 <==> Whole(x) == 0
  {
  }

  lemma WholeShift(x: real, k: nat)
    requires x >= 0.0
    ensures Whole(x + k as real) == Whole(x) + k && Rest(x + k as real) == Rest(x)
  {
    assert (x + k as real).Floor == x.Floor + k;
  }

  /** Refilled over some time, all at once. */
  function Filled(c: Config, tokens: real, span: int): real {
    Min(tokens + Earned(c, span), c.burst)
  }

  /** The most calls a bucket allows within n nanoseconds: at each it is spent as far as it goes. */
  function Spendable(c: Config, tokens: real, n: nat): nat
    decreases n
  {
    Whole(tokens) + if n == 0 then 0 else Spendable(c, Filled(c, Rest(tokens), 1), n - 1)
  }

  lemma EarnedZero(c: Config)
    ensures Earned(c, 0) == 0.0
  {
  }

  /** A token more is a call more. */
  lemma SpendableShift(c: Config, x: real, k: nat, n: nat)
    requires x >= 0.0
    ensures Spendable(c, x + k as real, n) == Spendable(c, x, n) + k
  {
    hide Whole, Rest, Filled;
    WholeShift(x, k);
  }

  lemma OneTokenMore(c: Config, x: real, n: nat)
    requires x >= 1.0
    ensures Spendable(c, x, n) == Spendable(c, x - 1.0, n) + 1
  {
    hide Spendable;
    SpendableShift(c, x - 1.0, 1, n);
    assert x - 1.0 + 1 as real == x;
  }

  lemma FilledGrows(c: Config, x: real, y: real)
    requires Sane(c) && c.burst >= 1.0 && 0.0 <= x
    ensures 0.0 <= Filled(c, x, 1) <= c.burst
    ensures x <= y ==> Filled(c, x, 1) <= Filled(c, y, 1)
    ensures x <= y + 1.0 ==> Filled(c, x, 1) <= Filled(c, y, 1) + 1.0
  {
    EarnedNonNegative(c, 1);
    hide Earned;
  }

  /** More tokens are good for no fewer calls. */
  lemma {:induction false} SpendableGrows(c: Config, x: real, y: real, n: nat)
    requires Sane(c) && c.burst >= 1.0 && 0.0 <= x <= y
    ensures Spendable(c, x, n) <= Spendable(c, y, n)
    decreases n
  {
    hide Whole, Rest, Filled, Spendable, Earned;
    WholeParts(x, y);
    WholeParts(y, y);
    SpendableUnfold(c, x, n);
    SpendableUnfold(c, y, n);
    if n > 0 {
      FilledGrows(c, Rest(x), Rest(y));
      FilledGrows(c, Rest(y), Rest(y));
      var a, b := Filled(c, Rest(x), 1), Filled(c, Rest(y), 1);
      if Whole(x) == Whole(y) {
        SpendableGrows(c, a, b, n - 1);
      } else {
        SpendableGrows(c, a, b + 1.0, n - 1);
        SpendableShift(c, b, 1, n - 1);
        assert b + 1 as real == b + 1.0;
      }
    }
  }

  lemma SpendableUnfold(c: Config, x: real, n: nat)
    ensures Spendable(c, x, n) == Whole(x) + if n == 0 then 0 else Spendable(c, Filled(c, Rest(x), 1), n - 1)
  {
  }

  /** It is good for no more calls than it holds and earns. */
  lemma {:induction false} SpendableBound(c: Config, x: real, n: nat)
    requires Sane(c) && x >= 0.0 && c.burst >= 1.0
    ensures Spendable(c, x, n) as real <= x + Earned(c, n)
    decreases n
  {
    EarnedZero(c);
    WholeParts(x, x);
    SpendableUnfold(c, x, n);
    hide Whole, Rest, Spendable;
    if n > 0 {
      FilledGrows(c, Rest(x), Rest(x));
      EarnedAdds(c, n - 1, 1);
      hide Earned;
      SpendableBound(c, Filled(c, Rest(x), 1), n - 1);
    }
  }

  /** Waiting a nanosecond, full or not, gains nothing over spending. */
  lemma TickLoses(c: Config, x: real, n: nat)
    requires Sane(c) && c.burst >= 1.0 && 0.0 <= x <= c.burst
    ensures Spendable(c, Filled(c, x, 1), n) <= Spendable(c, x, n + 1)
    ensures x + Earned(c, 1) <= c.burst ==> Spendable(c, Filled(c, x, 1), n) == Spendable(c, x, n + 1)
  {
    hide Spendable, Whole, Rest;
    WholeParts(x, x);
    FilledGrows(c, x, x);
    FilledGrows(c, Rest(x), x);
    var k, rest := Whole(x), Filled(c, Rest(x), 1);
    SpendableUnfold(c, x, n + 1);
    SpendableShift(c, rest, k, n);
    assert Filled(c, x, 1) <= rest + k as real;
    SpendableGrows(c, Filled(c, x, 1), rest + k as real, n);
    if x + Earned(c, 1) <= c.burst {
      assert Filled(c, x, 1) == rest + k as real;
    }
  }

  lemma FilledStep(c: Config, x: real, m: nat)
    requires Sane(c) && x <= c.burst
    ensures Filled(c, x, m + 1) == Filled(c, Filled(c, x, m), 1) && Filled(c, x, 0) == x
  {
    EarnedZero(c);
    EarnedAdds(c, m, 1);
    EarnedNonNegative(c, 1);
    hide Earned;
  }

  /** Nor does waiting longer. */
  lemma {:induction false} WaitLoses(c: Config, x: real, m: nat, n: nat)
    requires Sane(c) && c.burst >= 1.0 && 0.0 <= x <= c.burst
    ensures Spendable(c, Filled(c, x, m), n) <= Spendable(c, x, m + n)
    decreases m
  {
    hide Spendable;
    if m == 0 {
      FilledStep(c, x, 0);
    } else {
      FilledStep(c, x, m - 1);
      EarnedNonNegative(c, m - 1);
      hide Earned;
      var y := Filled(c, x, m - 1);
      TickLoses(c, y, n);
      WaitLoses(c, x, m - 1, n + 1);
    }
  }

  // ------------------------------------------------------ when an eviction does show

  /** Calls on one key, none so far from the last that the key could be evicted between them. */
  predicate Follows(c: Config, key: Key, calls: seq<Call>, was: int) {
    |calls| == 0
    || (calls[0].key == key && was <= calls[0].now <= was + c.idleTtl && Follows(c, key, calls[1..], calls[0].now))
  }

  /** A sequence of calls, the first at the given moment, that the limiter and the ideal answer differently. */
  ghost predicate Tells(c: Config, l: Limiter, all: map<Key, Bucket>, key: Key, now: int, calls: seq<Call>) {
    && Follows(c, key, calls, now)
    && (|calls| > 0 ==> calls[0].now == now)
    && Differs(c, l, all, calls)
  }

  ghost predicate Differs(c: Config, l: Limiter, all: map<Key, Bucket>, calls: seq<Call>) {
    && |Answers(c, l, calls)| == |calls|
    && Answers(c, l, calls) != IdealAnswers(c, all, calls, Answers(c, l, calls))
  }

  /** Limiter and ideal both track the key, as of its last call. */
  ghost predicate Both(l: Limiter, all: map<Key, Bucket>, key: Key, a: Bucket, b: Bucket) {
    key in l.buckets && key in all && l.buckets[key] == a && all[key] == b
  }

  /** A call soon enough after the last is answered from the bucket, whatever is swept. */
  lemma SoonIsTracked(c: Config, l: Limiter, key: Key, now: int)
    requires key in l.buckets && now - l.buckets[key].lastUsed <= c.idleTtl
    ensures var (ok, b) := Spend(c, l.buckets[key], now);
            var (answer, l') := Allow(c, l, key, now);
            answer == (if ok then Allowed else Denied) && key in l'.buckets && l'.buckets[key] == b
  {
    hide Spend;
  }

  /** A call that sweeps the key's own bucket out is allowed, from a fresh one. */
  lemma SweptIsFresh(c: Config, l: Limiter, key: Key, now: int)
    requires key in l.buckets && now - l.buckets[key].lastUsed > c.idleTtl
    requires SweepDue(c, l, now) && |l.buckets| <= c.maxKeys
    ensures var (answer, l') := Allow(c, l, key, now);
            answer == Allowed && key in l'.buckets && l'.buckets[key] == Fresh(c, now)
  {
    hide Earned;
    SubmapSize(Swept(c, l, now).buckets, l.buckets);
  }

  /** One call's difference, or an agreement and a difference later, is a difference. */
  lemma DiffersStep(c: Config, l: Limiter, all: map<Key, Bucket>, call: Call, rest: seq<Call>)
    requires var answer := Allow(c, l, call.key, call.now).0;
             var ok := Unevicted(c, all, call.key, call.now).0;
             && !answer.Full?
             && (answer.Allowed? == ok ==>
                 Differs(c, Allow(c, l, call.key, call.now).1, Unevicted(c, all, call.key, call.now).1, rest))
    ensures Differs(c, l, all, [call] + rest)
  {
    hide Allow, Unevicted;
    var calls := [call] + rest;
    assert calls[0] == call && calls[1..] == rest;
    AnswersCount(c, l, calls);
    var l' := Allow(c, l, call.key, call.now).1;
    AnswersCount(c, l', rest);
    var answers := Answers(c, l, calls);
    assert answers[1..] == Answers(c, l', rest);
    var ideal := IdealAnswers(c, all, calls, answers);
    var (ok, all') := Unevicted(c, all, call.key, call.now);
    assert ideal == [if ok then Allowed else Denied] + IdealAnswers(c, all', rest, answers[1..]);
    assert ideal[0] == (if ok then Allowed else Denied) && ideal[1..] == IdealAnswers(c, all', rest, answers[1..]);
  }

  /** Spending from a bucket last used at was. */
  lemma SpendSteps(c: Config, tokens: real, was: int, now: int)
    requires Sane(c) && 0.0 <= tokens <= c.burst && was <= now
    ensures var filled := Min(tokens + Earned(c, now - was), c.burst);
            Spend(c, Bucket(tokens, was, was), now)
            == (filled >= 1.0, Bucket(if filled >= 1.0 then filled - 1.0 else filled, now, now))
  {
    EarnedZero(c);
    hide Earned;
  }

  /** A call on the key, soon after the last, as limiter and ideal see it. */
  lemma OneCall(c: Config, l: Limiter, all: map<Key, Bucket>, call: Call, was: int, x: real, y: real)
    requires Sane(c) && c.burst >= 1.0 && 0.0 <= x <= c.burst && 0.0 <= y <= c.burst
    requires Both(l, all, call.key, Bucket(x, was, was), Bucket(y, was, was))
    requires was <= call.now <= was + c.idleTtl
    ensures var (answer, l') := Allow(c, l, call.key, call.now);
            var (ok, all') := Unevicted(c, all, call.key, call.now);
            var u, v := Filled(c, x, call.now - was), Filled(c, y, call.now - was);
            && 0.0 <= u <= c.burst && 0.0 <= v <= c.burst
            && !answer.Full? && answer.Allowed? == (u >= 1.0) && ok == (v >= 1.0)
            && Both(l', all', call.key,
                    Bucket(if u >= 1.0 then u - 1.0 else u, call.now, call.now),
                    Bucket(if v >= 1.0 then v - 1.0 else v, call.now, call.now))
  {
    hide Allow, Spend;
    EarnedNonNegative(c, call.now - was);
    hide Earned;
    SoonIsTracked(c, l, call.key, call.now);
    SpendSteps(c, x, was, call.now);
    SpendSteps(c, y, was, call.now);
  }

  /**
   Two buckets good for different numbers of calls are told apart: spend both for as long as
   they answer alike, at every nanosecond, until one has a token and the other has not.
   */
  lemma {:induction false} TellApart(c: Config, l: Limiter, all: map<Key, Bucket>, key: Key, was: int,
                                     x: real, y: real, n: nat)
    returns (calls: seq<Call>)
    requires Sane(c) && c.burst >= 1.0 && 0.0 <= x <= c.burst && 0.0 <= y <= c.burst
    requires Both(l, all, key, Bucket(x, was, was), Bucket(y, was, was))
    requires Spendable(c, x, n) != Spendable(c, y, n)
    ensures Follows(c, key, calls, was) && Differs(c, l, all, calls)
    decreases n, Whole(x)
  {
    hide Allow, Earned, Spend, Differs, Spendable;
    FilledStep(c, x, 0);
    FilledStep(c, y, 0);
    var now := if x < 1.0 && y < 1.0 then was + 1 else was;
    if x < 1.0 && y < 1.0 {
      SmallSpendable(c, x, n);
      SmallSpendable(c, y, n);
    }
    var call := Call(key, now);
    OneCall(c, l, all, call, was, x, y);
    var u, v := Filled(c, x, now - was), Filled(c, y, now - was);
    var rest: seq<Call> := [];
    var left := if now == was then n else n - 1;
    if (u >= 1.0) == (v >= 1.0) {
      var u', v' := if u >= 1.0 then u - 1.0 else u, if v >= 1.0 then v - 1.0 else v;
      if u >= 1.0 {
        OneTokenMore(c, u, left);
        OneTokenMore(c, v, left);
      }
      rest := TellApart(c, Allow(c, l, key, now).1, Unevicted(c, all, key, now).1, key, now, u', v', left);
    }
    DiffersStep(c, l, all, call, rest);
    calls := [call] + rest;
    assert calls[1..] == rest;
  }

  /** Less than a token is good for nothing until it has been added to. */
  lemma SmallSpendable(c: Config, x: real, n: nat)
    requires Sane(c) && 0.0 <= x < 1.0
    ensures Spendable(c, x, n) == if n == 0 then 0 else Spendable(c, Filled(c, x, 1), n - 1)
  {
    hide Earned;
    assert Whole(x) == 0 && Rest(x) == x;
  }

  /** Two buckets are good for the same calls, however long one waits. */
  ghost predicate Alike(c: Config, x: real, y: real) {
    forall n: nat :: Spendable(c, x, n) == Spendable(c, y, n)
  }

  /** They stay so while time passes. */
  lemma {:induction false} AlikeLater(c: Config, x: real, y: real, m: nat)
    requires Sane(c) && c.burst >= 1.0 && 0.0 <= x <= y <= c.burst && Alike(c, x, y)
    ensures 0.0 <= Filled(c, x, m) <= Filled(c, y, m) && Alike(c, Filled(c, x, m), Filled(c, y, m))
    decreases m
  {
    hide Spendable;
    EarnedNonNegative(c, m);
    if m == 0 {
      FilledStep(c, x, 0);
      FilledStep(c, y, 0);
    } else {
      AlikeLater(c, x, y, m - 1);
      FilledStep(c, x, m - 1);
      FilledStep(c, y, m - 1);
      EarnedNonNegative(c, 1);
      hide Earned;
      AlikeTick(c, Filled(c, x, m - 1), Filled(c, y, m - 1));
    }
  }

  lemma AlikeTick(c: Config, x: real, y: real)
    requires Sane(c) && c.burst >= 1.0 && 0.0 <= x <= y <= c.burst && Alike(c, x, y)
    ensures Alike(c, Filled(c, x, 1), Filled(c, y, 1))
  {
    FilledGrows(c, x, y);
    hide Spendable, Earned;
    forall n: nat
      ensures Spendable(c, Filled(c, x, 1), n) == Spendable(c, Filled(c, y, 1), n)
    {
      TickLoses(c, x, n);
      TickLoses(c, y, n);
      SpendableGrows(c, Filled(c, x, 1), Filled(c, y, 1), n);
      assert Spendable(c, x, n + 1) == Spendable(c, y, n + 1);
    }
  }

  /** And when a call is made: both answer it the same. */
  lemma AlikeAnswer(c: Config, x: real, y: real)
    requires Sane(c) && c.burst >= 1.0 && 0.0 <= x <= y && Alike(c, x, y)
    ensures x >= 1.0 <==> y >= 1.0
    ensures x >= 1.0 ==> Alike(c, x - 1.0, y - 1.0)
  {
    hide Spendable, Whole, Rest, Earned;
    WholeParts(x, y);
    WholeParts(y, y);
    SpendableUnfold(c, x, 0);
    SpendableUnfold(c, y, 0);
    assert Spendable(c, x, 0) == Spendable(c, y, 0);
    if x >= 1.0 {
      var a, b := x - 1.0, y - 1.0;
      forall n: nat
        ensures Spendable(c, a, n) == Spendable(c, b, n)
      {
        OneTokenMore(c, x, n);
        OneTokenMore(c, y, n);
        assert Spendable(c, x, n) == Spendable(c, y, n);
      }
    }
  }

  /** So no calls tell them apart. */
  lemma {:induction false} InStep(c: Config, l: Limiter, all: map<Key, Bucket>, key: Key, calls: seq<Call>, was: int,
                                  x: real, y: real)
    requires Sane(c) && c.burst >= 1.0 && 0.0 <= y <= x <= c.burst && Alike(c, y, x)
    requires Both(l, all, key, Bucket(x, was, was), Bucket(y, was, was)) && Follows(c, key, calls, was)
    ensures !Differs(c, l, all, calls)
    decreases |calls|
  {
    hide Allow, Spend, Alike, Filled;
    AnswersCount(c, l, calls);
    if |calls| > 0 {
      var now := calls[0].now;
      OneCall(c, l, all, calls[0], was, x, y);
      AlikeLater(c, y, x, now - was);
      AlikeAnswer(c, Filled(c, y, now - was), Filled(c, x, now - was));
      var u, v := Filled(c, x, now - was), Filled(c, y, now - was);
      var l', all' := Allow(c, l, key, now).1, Unevicted(c, all, key, now).1;
      InStep(c, l', all', key, calls[1..], now, if u >= 1.0 then u - 1.0 else u, if v >= 1.0 then v - 1.0 else v);
      AnswersCount(c, l', calls[1..]);
      assert Answers(c, l, calls)[1..] == Answers(c, l', calls[1..]);
    }
  }

  /**
   For any settings: sweeping an idle key out shows, in some sequence of calls on it too
   close together for another eviction, exactly when a full bucket is good for other calls
   than its own, refilled, would have been, or even a full one holds less than a token.
   */
  lemma EvictionShowsExactly(c: Config, l: Limiter, key: Key, now: int)
    requires Sane(c) && Sound(c, l, now) && |l.buckets| <= c.maxKeys
    requires key in l.buckets && now - l.buckets[key].lastUsed > c.idleTtl && SweepDue(c, l, now)
    ensures (exists calls :: Tells(c, l, l.buckets, key, now, calls))
            <==> c.burst < 1.0 || !Alike(c, Refilled(c, l.buckets[key], now).tokens, c.burst)
  {
    hide Allow, Differs, Earned, Alike;
    var filled := Refilled(c, l.buckets[key], now).tokens;
    RefilledSpend(c, l.buckets[key], now);
    if c.burst < 1.0 || !Alike(c, filled, c.burst) {
      var calls := EvictionTold(c, l, key, now);
    } else {
      forall calls
        ensures !Tells(c, l, l.buckets, key, now, calls)
      {
        AlikeTellsNothing(c, l, key, now, calls);
      }
    }
  }

  lemma EvictionTold(c: Config, l: Limiter, key: Key, now: int) returns (calls: seq<Call>)
    requires Sane(c) && Sound(c, l, now) && |l.buckets| <= c.maxKeys
    requires key in l.buckets && now - l.buckets[key].lastUsed > c.idleTtl && SweepDue(c, l, now)
    requires c.burst < 1.0 || !Alike(c, Refilled(c, l.buckets[key], now).tokens, c.burst)
    ensures Tells(c, l, l.buckets, key, now, calls)
  {
    hide Allow, Differs, Earned, Spendable;
    var call, b := Call(key, now), l.buckets[key];
    SweptIsFresh(c, l, key, now);
    RefilledSpend(c, b, now);
    var l', all' := Allow(c, l, key, now).1, Unevicted(c, l.buckets, key, now).1;
    var filled := Refilled(c, b, now).tokens;
    var rest: seq<Call> := [];
    if filled >= 1.0 {
      var n: nat :| Spendable(c, filled, n) != Spendable(c, c.burst, n);
      OneTokenMore(c, filled, n);
      OneTokenMore(c, c.burst, n);
      rest := TellApart(c, l', all', key, now, c.burst - 1.0, filled - 1.0, n);
    }
    DiffersStep(c, l, l.buckets, call, rest);
    calls := [call] + rest;
    assert calls[0] == call && calls[1..] == rest;
    assert Follows(c, key, rest, now);
    assert Follows(c, key, calls, now);
  }

  lemma RefilledSpend(c: Config, b: Bucket, now: int)
    requires Sane(c) && SoundBucket(c, b, now) && b.last < now
    ensures var filled := Refilled(c, b, now).tokens;
            && Least(c) <= filled <= c.burst
            && Spend(c, b, now) == (filled >= 1.0, Bucket(if filled >= 1.0 then filled - 1.0 else filled, now, now))
  {
    EarnedNonNegative(c, now - b.last);
    hide Earned;
  }

  lemma AlikeTellsNothing(c: Config, l: Limiter, key: Key, now: int, calls: seq<Call>)
    requires Sane(c) && c.burst >= 1.0 && Sound(c, l, now) && |l.buckets| <= c.maxKeys
    requires key in l.buckets && now - l.buckets[key].lastUsed > c.idleTtl && SweepDue(c, l, now)
    requires Alike(c, Refilled(c, l.buckets[key], now).tokens, c.burst)
    ensures !Tells(c, l, l.buckets, key, now, calls)
  {
    hide Allow, Spend, Refilled, Alike;
    AnswersCount(c, l, calls);
    if |calls| > 0 && Follows(c, key, calls, now) && calls[0].now == now {
      SweptIsFresh(c, l, key, now);
      RefilledSpend(c, l.buckets[key], now);
      var filled := Refilled(c, l.buckets[key], now).tokens;
      AlikeAnswer(c, filled, c.burst);
      var l', all' := Allow(c, l, key, now).1, Unevicted(c, l.buckets, key, now).1;
      InStep(c, l', all', key, calls[1..], now, c.burst - 1.0, filled - 1.0);
      AnswersCount(c, l', calls[1..]);
      assert Answers(c, l, calls)[1..] == Answers(c, l', calls[1..]);
    }
  }

  /** When the burst is a whole number, that is exactly when the bucket was not full again. */
  lemma WholeBurstAlike(c: Config, x: real)
    requires Sane(c) && c.burst >= 1.0 && c.burst == c.burst.Floor as real && 0.0 <= x <= c.burst
    ensures Alike(c, x, c.burst) <==> x == c.burst
  {
    hide Earned;
    if x < c.burst {
      assert Spendable(c, x, 0) == x.Floor < c.burst.Floor == Spendable(c, c.burst, 0);
    }
  }

  // -------------------------------------------------------------------- the rate bound

  /** How often a key is allowed in a run of calls. */
  function AllowedCount(c: Config, l: Limiter, calls: seq<Call>, key: Key): nat
    decreases |calls|
  {
    if |calls| == 0 then 0
    else
      var (answer, l') := Allow(c, l, calls[0].key, calls[0].now);
      (if calls[0].key == key && answer.Allowed? then 1 else 0) + AllowedCount(c, l', calls[1..], key)
  }

  /** The claim of RateBound, for one run of calls. */
  ghost predicate WithinRate(c: Config, l: Limiter, calls: seq<Call>, key: Key, start: int, span: int) {
    Sound(c, l, start) && span >= 0 && InOrder(calls, start) && (forall call :: call in calls ==> call.now <= start + span)
    ==> AllowedCount(c, l, calls, key) as real <= c.burst + Earned(c, span)
  }

  /** A run of calls on one key from was to end, how often it is allowed, and what it leads to. */
  ghost predicate Leads(c: Config, l: Limiter, key: Key, was: int, calls: seq<Call>, end: int, count: nat, l': Limiter) {
    && InOrder(calls, was) && was <= end && (forall call :: call in calls ==> call.now <= end)
    && AllowedCount(c, l, calls, key) == count
    && Sound(c, l', end) && |l'.buckets| <= c.maxKeys
    && forall more :: AllowedCount(c, l, calls + more, key) == AllowedCount(c, l, calls, key) + AllowedCount(c, l', more, key)
  }

  lemma LeadsNowhere(c: Config, l: Limiter, key: Key, was: int)
    requires Sound(c, l, was) && |l.buckets| <= c.maxKeys
    ensures Leads(c, l, key, was, [], was, 0, l)
  {
    var none: seq<Call> := [];
    assert AllowedCount(c, l, none, key) == 0;
    forall more
      ensures AllowedCount(c, l, none + more, key) == AllowedCount(c, l, none, key) + AllowedCount(c, l, more, key)
    {
      assert none + more == more;
    }
  }

  /** A call, and then a run. */
  lemma LeadsOn(c: Config, l: Limiter, call: Call, was: int, rest: seq<Call>, end: int, count: nat, l': Limiter)
    requires was <= call.now && Leads(c, Allow(c, l, call.key, call.now).1, call.key, call.now, rest, end, count, l')
    ensures Leads(c, l, call.key, was, [call] + rest, end,
                  count + if Allow(c, l, call.key, call.now).0.Allowed? then 1 else 0, l')
  {
    hide Allow, Sound;
    var key, calls := call.key, [call] + rest;
    var next := Allow(c, l, key, call.now).1;
    assert calls[0] == call && calls[1..] == rest;
    forall more
      ensures AllowedCount(c, l, calls + more, key) == AllowedCount(c, l, calls, key) + AllowedCount(c, l', more, key)
    {
      assert (calls + more)[0] == call && (calls + more)[1..] == rest + more;
      assert AllowedCount(c, next, rest + more, key) == AllowedCount(c, next, rest, key) + AllowedCount(c, l', more, key);
    }
  }

  /** One run after another. */
  lemma LeadsBoth(c: Config, l: Limiter, key: Key, was: int, xs: seq<Call>, mid: int, m: nat, l': Limiter,
                  ys: seq<Call>, end: int, n: nat, l'': Limiter)
    requires Leads(c, l, key, was, xs, mid, m, l') && Leads(c, l', key, mid, ys, end, n, l'')
    ensures Leads(c, l, key, was, xs + ys, end, m + n, l'')
  {
    hide AllowedCount, Sound;
    assert AllowedCount(c, l, xs + ys, key) == AllowedCount(c, l, xs, key) + AllowedCount(c, l', ys, key);
    OrderBoth(xs, ys, was, mid);
    forall more
      ensures AllowedCount(c, l, xs + ys + more, key) == AllowedCount(c, l, xs + ys, key) + AllowedCount(c, l'', more, key)
    {
      assert xs + ys + more == xs + (ys + more);
      assert AllowedCount(c, l, xs + (ys + more), key) == AllowedCount(c, l, xs, key) + AllowedCount(c, l', ys + more, key);
      assert AllowedCount(c, l', ys + more, key) == AllowedCount(c, l', ys, key) + AllowedCount(c, l'', more, key);
    }
  }

  lemma {:induction false} OrderBoth(xs: seq<Call>, ys: seq<Call>, was: int, mid: int)
    requires InOrder(xs, was) && InOrder(ys, mid) && was <= mid && forall call :: call in xs ==> call.now <= mid
    ensures InOrder(xs + ys, was)
    decreases |xs|
  {
    if |xs| == 0 {
      assert xs + ys == ys;
    } else {
      assert xs[0] in xs && (xs + ys)[0] == xs[0] && (xs + ys)[1..] == xs[1..] + ys;
      assert forall call :: call in xs[1..] ==> call in xs;
      OrderBoth(xs[1..], ys, xs[0].now, mid);
    }
  }

  /**
   Settings under which no bucket is good for more calls than are earned by the time it can
   have been evicted and replaced.
   */
  ghost predicate Paces(c: Config) {
    c.burst >= 1.0 && forall n: nat :: Spendable(c, c.burst, n) as real <= Earned(c, n + c.idleTtl + 1)
  }

  /** Patient settings are such, and for whole bursts only they are. */
  lemma PatientPaces(c: Config)
    requires Sane(c)
    ensures Patient(c) ==> Paces(c)
    ensures c.burst == c.burst.Floor as real ==> (Paces(c) <==> Patient(c))
  {
    hide Earned;
    if Patient(c) {
      forall n: nat
        ensures Spendable(c, c.burst, n) as real <= Earned(c, n + c.idleTtl + 1)
      {
        hide Spendable;
        SpendableBound(c, c.burst, n);
        EarnedAdds(c, n, c.idleTtl + 1);
      }
    }
    if Paces(c) {
      assert Spendable(c, c.burst, 0) as real <= Earned(c, 0 + c.idleTtl + 1);
    }
  }

  /** A bucket last used just now is good for no more than is earned before it can be replaced, and g. */
  ghost predicate Owes(c: Config, tokens: real, g: real) {
    forall n: nat :: Spendable(c, tokens, n) as real <= Earned(c, n + c.idleTtl + 1) + g
  }

  /** What a call leaves of what a tracked key may still be allowed. */
  lemma CallPays(c: Config, x: real, m: nat, g: real)
    requires Sane(c) && c.burst >= 1.0 && 0.0 <= x <= c.burst && x <= c.burst + g && Owes(c, x, g)
    ensures var y, h := Filled(c, x, m), g + Earned(c, m);
            && 0.0 <= y <= c.burst && y <= c.burst + h && Owes(c, y, h)
            && (y >= 1.0 ==> y - 1.0 <= c.burst + (h - 1.0) && Owes(c, y - 1.0, h - 1.0))
  {
    EarnedNonNegative(c, m);
    hide Spendable, Earned;
    var y, h := Filled(c, x, m), g + Earned(c, m);
    forall n: nat
      ensures Spendable(c, y, n) as real <= Earned(c, n + c.idleTtl + 1) + h
    {
      WaitLoses(c, x, m, n);
      assert Spendable(c, x, m + n) as real <= Earned(c, m + n + c.idleTtl + 1) + g;
      EarnedAdds(c, m, n + c.idleTtl + 1);
      assert m + (n + c.idleTtl + 1) == m + n + c.idleTtl + 1;
    }
    if y >= 1.0 {
      OwesLess(c, y, h);
    }
  }

  lemma OwesLess(c: Config, x: real, g: real)
    requires x >= 1.0 && Owes(c, x, g)
    ensures Owes(c, x - 1.0, g - 1.0)
  {
    hide Spendable, Earned;
    var y := x - 1.0;
    forall n: nat
      ensures Spendable(c, y, n) as real <= Earned(c, n + c.idleTtl + 1) + (g - 1.0)
    {
      OneTokenMore(c, x, n);
      assert Spendable(c, x, n) as real <= Earned(c, n + c.idleTtl + 1) + g;
    }
  }

  /** A key whose bucket is not swept now keeps it, and is answered from it. */
  lemma KeptIsTracked(c: Config, l: Limiter, call: Call, key: Key)
    requires key in l.buckets && !(SweepDue(c, l, call.now) && call.now - l.buckets[key].lastUsed > c.idleTtl)
    ensures var (answer, l') := Allow(c, l, call.key, call.now);
            && key in l'.buckets
            && (call.key != key ==> l'.buckets[key] == l.buckets[key])
            && (call.key == key ==>
                  var (ok, b) := Spend(c, l.buckets[key], call.now); answer == (if ok then Allowed else Denied) && l'.buckets[key] == b)
  {
    hide Spend;
  }

  lemma FullOwes(c: Config, x: real)
    requires Sane(c) && Paces(c) && 0.0 <= x <= c.burst
    ensures Owes(c, x, 0.0) && (x >= 1.0 ==> Owes(c, x - 1.0, -1.0))
  {
    hide Spendable, Earned;
    forall n: nat
      ensures Spendable(c, x, n) as real <= Earned(c, n + c.idleTtl + 1) + 0.0
    {
      SpendableGrows(c, x, c.burst, n);
    }
    if x >= 1.0 {
      OwesLess(c, x, 0.0);
    }
  }

  /** In any window a key is allowed at most burst plus rate times the window's length. */
  lemma {:induction false} RateBound(c: Config, l: Limiter, calls: seq<Call>, key: Key, start: int, span: int)
    requires Sane(c) && Paces(c) && Sound(c, l, start) && span >= 0 && InOrder(calls, start)
    requires forall call :: call in calls ==> call.now <= start + span
    ensures AllowedCount(c, l, calls, key) as real <= c.burst + Earned(c, span)
    decreases |calls|, 0
  {
    assert c.burst >= 1.0;
    hide Allow, Earned, Spendable, Owes, Paces, Sound, Sane, AllowedCount;
    EarnedNonNegative(c, span);
    CountFirst(c, l, calls, key);
    if |calls| > 0 {
      var call := calls[0];
      var l' := Allow(c, l, call.key, call.now).1;
      var left := start + span - call.now;
      AllowSound(c, l, call.key, start, call.now);
      EarnedAdds(c, call.now - start, left);
      EarnedNonNegative(c, call.now - start);
      assert forall other :: other in calls[1..] ==> other in calls;
      if call.key != key {
        RateBound(c, l', calls[1..], key, call.now, left);
      } else if Allow(c, l, key, call.now).0.Full? {
        RateBound(c, l', calls[1..], key, call.now, left);
      } else {
        var x, g := FirstCall(c, l, key, start, call.now);
        OwingBound(c, l', calls[1..], key, call.now, start + span, call.now, x, g);
      }
    }
  }

  lemma CountFirst(c: Config, l: Limiter, calls: seq<Call>, key: Key)
    ensures |calls| == 0 ==> AllowedCount(c, l, calls, key) == 0
    ensures |calls| > 0 ==>
              var (answer, l') := Allow(c, l, calls[0].key, calls[0].now);
              AllowedCount(c, l, calls, key)
              == (if calls[0].key == key && answer.Allowed? then 1 else 0) + AllowedCount(c, l', calls[1..], key)
  {
    hide Allow;
  }

  /** After a call the key is tracked, and owes a token less if it was allowed one. */
  lemma FirstCall(c: Config, l: Limiter, key: Key, was: int, now: int) returns (x: real, g: real)
    requires Sane(c) && Paces(c) && Sound(c, l, was) && was <= now && !Allow(c, l, key, now).0.Full?
    ensures var (answer, l') := Allow(c, l, key, now);
            && key in l'.buckets && l'.buckets[key] == Bucket(x, now, now)
            && g == if answer.Allowed? then -1.0 else 0.0
    ensures 0.0 <= x <= c.burst && x <= c.burst + g && Owes(c, x, g)
  {
    assert c.burst >= 1.0;
    if key in Swept(c, l, now).buckets {
      var b := l.buckets[key];
      EarnedNonNegative(c, now - b.last);
      hide Allow, Earned, Spendable, Owes, Paces, Spend, Swept;
      KeptIsTracked(c, l, Call(key, now), key);
      SpendSteps(c, b.tokens, b.last, now);
      var y := Filled(c, b.tokens, now - b.last);
      FullOwes(c, y);
      x, g := if y >= 1.0 then y - 1.0 else y, if y >= 1.0 then -1.0 else 0.0;
    } else {
      hide Allow, Earned, Spendable, Owes, Paces, Spend, Swept;
      FullOwes(c, c.burst);
      x, g := c.burst - 1.0, -1.0;
    }
  }

  /** A tracked key that owes g is allowed at most the burst, what is earned since its last call, and g. */
  lemma {:induction false} OwingBound(c: Config, l: Limiter, calls: seq<Call>, key: Key, was: int, end: int,
                                      u: int, x: real, g: real)
    requires Sane(c) && Paces(c) && Sound(c, l, was) && InOrder(calls, was)
    requires was <= end && (forall call :: call in calls ==> call.now <= end)
    requires key in l.buckets && l.buckets[key] == Bucket(x, u, u) && u <= was
    requires 0.0 <= x <= c.burst && x <= c.burst + g && Owes(c, x, g)
    ensures AllowedCount(c, l, calls, key) as real <= c.burst + Earned(c, end - u) + g
    decreases |calls|, 1
  {
    assert c.burst >= 1.0;
    hide Allow, Earned, Spendable, Owes, Paces, Sound, Sane, AllowedCount, SweepDue;
    EarnedNonNegative(c, end - u);
    CountFirst(c, l, calls, key);
    if |calls| > 0 {
      assert forall other :: other in calls[1..] ==> other in calls;
      var call := calls[0];
      var l' := Allow(c, l, call.key, call.now).1;
      AllowSound(c, l, call.key, was, call.now);
      if SweepDue(c, l, call.now) && call.now - u > c.idleTtl {
        EvictedOwes(c, x, g, u, call.now, end);
        RateBound(c, l, calls, key, call.now, end - call.now);
      } else {
        var v, y, h := NextCall(c, l, call, key, u, x, g);
        EarnedSplit(c, u, v, end);
        OwingBound(c, l', calls[1..], key, call.now, end, v, y, h);
      }
    }
  }

  /** A call that does not sweep the key's bucket out: what it owes then. */
  lemma NextCall(c: Config, l: Limiter, call: Call, key: Key, u: int, x: real, g: real) returns (v: int, y: real, h: real)
    requires Sane(c) && c.burst >= 1.0 && key in l.buckets && l.buckets[key] == Bucket(x, u, u) && u <= call.now
    requires !(SweepDue(c, l, call.now) && call.now - u > c.idleTtl)
    requires 0.0 <= x <= c.burst && x <= c.burst + g && Owes(c, x, g)
    ensures var (answer, l') := Allow(c, l, call.key, call.now);
            && key in l'.buckets && l'.buckets[key] == Bucket(y, v, v) && u <= v <= call.now
            && h == g + Earned(c, v - u) - if call.key == key && answer.Allowed? then 1.0 else 0.0
    ensures 0.0 <= y <= c.burst && y <= c.burst + h && Owes(c, y, h)
  {
    hide Allow, Earned, Spendable, Owes, Spend;
    EarnedZero(c);
    KeptIsTracked(c, l, call, key);
    v, y, h := u, x, g;
    if call.key == key {
      SpendSteps(c, x, u, call.now);
      CallPays(c, x, call.now - u, g);
      var full, owed := Filled(c, x, call.now - u), g + Earned(c, call.now - u);
      v := call.now;
      y, h := if full >= 1.0 then full - 1.0 else full, if full >= 1.0 then owed - 1.0 else owed;
    }
  }

  /** By the time a bucket can be replaced, what it owes has been earned. */
  lemma EvictedOwes(c: Config, x: real, g: real, u: int, now: int, end: int)
    requires Sane(c) && Owes(c, x, g) && now - u > c.idleTtl
    ensures Earned(c, end - now) <= Earned(c, end - u) + g
  {
    assert Spendable(c, x, 0) as real <= Earned(c, 0 + c.idleTtl + 1) + g;
    EarnedAdds(c, c.idleTtl + 1, now - u - c.idleTtl - 1);
    EarnedNonNegative(c, now - u - c.idleTtl - 1);
    EarnedAdds(c, now - u, end - now);
    hide Earned;
  }

  // ------------------------------------------------------- when the bound does not hold

  /** A tracked key spent as far as it goes, at every nanosecond of a span. */
  lemma {:induction false} Spree(c: Config, l: Limiter, key: Key, was: int, x: real, n: nat)
    returns (calls: seq<Call>, l': Limiter)
    requires Sane(c) && c.burst >= 1.0 && 0.0 <= x <= c.burst && Sound(c, l, was) && |l.buckets| <= c.maxKeys
    requires key in l.buckets && l.buckets[key] == Bucket(x, was, was)
    ensures Leads(c, l, key, was, calls, was + n, Spendable(c, x, n), l')
    ensures key in l'.buckets && l'.buckets[key].lastUsed == was + n
    decreases n, Whole(x)
  {
    hide Allow, Earned, Spend, Leads, Sound, Spendable;
    if x < 1.0 {
      SmallSpendable(c, x, n);
    }
    if x < 1.0 && n == 0 {
      LeadsNowhere(c, l, key, was);
      return [], l;
    }
    var now := if x < 1.0 then was + 1 else was;
    FilledStep(c, x, 0);
    EarnedNonNegative(c, 1);
    SoonIsTracked(c, l, key, now);
    SpendSteps(c, x, was, now);
    AllowSound(c, l, key, was, now);
    AllowFits(c, l, key, now);
    var y, left := Filled(c, x, now - was), if x < 1.0 then n - 1 else n;
    var z := if y >= 1.0 then y - 1.0 else y;
    if y >= 1.0 {
      OneTokenMore(c, y, left);
    }
    var rest;
    rest, l' := Spree(c, Allow(c, l, key, now).1, key, now, z, left);
    LeadsOn(c, l, Call(key, now), was, rest, was + n, Spendable(c, z, left), l');
    calls := [Call(key, now)] + rest;
  }

  /** And no calls within the span are allowed more often, if none of them evicts it. */
  lemma {:induction false} SpreeIsMost(c: Config, l: Limiter, calls: seq<Call>, key: Key, was: int, x: real, n: nat)
    requires Sane(c) && c.burst >= 1.0 && 0.0 <= x <= c.burst
    requires key in l.buckets && l.buckets[key] == Bucket(x, was, was)
    requires Follows(c, key, calls, was) && forall call :: call in calls ==> call.now <= was + n
    ensures AllowedCount(c, l, calls, key) <= Spendable(c, x, n)
    decreases |calls|
  {
    hide Allow, Earned, Spend, Spendable, AllowedCount;
    CountFirst(c, l, calls, key);
    if |calls| > 0 {
      var now := calls[0].now;
      assert calls[0] in calls;
      var m := now - was;
      EarnedNonNegative(c, m);
      SoonIsTracked(c, l, key, now);
      SpendSteps(c, x, was, now);
      WaitLoses(c, x, m, n - m);
      var y := Filled(c, x, m);
      if y >= 1.0 {
        OneTokenMore(c, y, n - m);
      }
      assert forall other :: other in calls[1..] ==> other in calls;
      SpreeIsMost(c, Allow(c, l, key, now).1, calls[1..], key, now, if y >= 1.0 then y - 1.0 else y, n - m);
    }
  }

  /** A key not tracked, or one a call now replaces, is allowed as much as a full bucket is good for. */
  lemma FreshSpree(c: Config, l: Limiter, key: Key, was: int, now: int, n: nat)
    returns (calls: seq<Call>, l': Limiter)
    requires Sane(c) && c.burst >= 1.0 && Sound(c, l, was) && |l.buckets| <= c.maxKeys && was <= now
    requires Allow(c, l, key, now).0 == Allowed
    requires var l1 := Allow(c, l, key, now).1; key in l1.buckets && l1.buckets[key] == Fresh(c, now)
    ensures Leads(c, l, key, was, calls, now + n, Spendable(c, c.burst, n), l')
    ensures key in l'.buckets && l'.buckets[key].lastUsed == now + n
  {
    hide Allow, Earned, Leads, Sound, Spendable;
    AllowSound(c, l, key, was, now);
    AllowFits(c, l, key, now);
    var rest;
    rest, l' := Spree(c, Allow(c, l, key, now).1, key, now, c.burst - 1.0, n);
    LeadsOn(c, l, Call(key, now), was, rest, now + n, Spendable(c, c.burst - 1.0, n), l');
    OneTokenMore(c, c.burst, n);
    calls := [Call(key, now)] + rest;
  }

  /** Sprees, each begun as soon as the last one's bucket can be replaced. */
  lemma {:induction false} Sprees(c: Config, key: Key, n: nat, m: nat) returns (calls: seq<Call>, l': Limiter)
    requires Sane(c) && c.burst >= 1.0 && SweepInterval(c) <= c.idleTtl
    ensures var end := m * (n + c.idleTtl + 1) + n;
            && Leads(c, Limiter(map[], None), key, 0, calls, end, (m + 1) * Spendable(c, c.burst, n), l')
            && key in l'.buckets && l'.buckets[key].lastUsed == end
    decreases m
  {
    hide Allow, Earned, Leads, Spendable;
    var l0 := Limiter(map[], None);
    if m == 0 {
      FirstIsFresh(c, key);
      calls, l' := FreshSpree(c, l0, key, 0, 0, n);
    } else {
      var xs, l := Sprees(c, key, n, m - 1);
      var mid := (m - 1) * (n + c.idleTtl + 1) + n;
      LeadsParts(c, l0, key, 0, xs, mid, m * Spendable(c, c.burst, n), l);
      var now := mid + c.idleTtl + 1;
      assert now == m * (n + c.idleTtl + 1);
      SweptIsFresh(c, l, key, now);
      var ys;
      ys, l' := FreshSpree(c, l, key, mid, now, n);
      LeadsBoth(c, l0, key, 0, xs, mid, m * Spendable(c, c.burst, n), l, ys, now + n, Spendable(c, c.burst, n), l');
      calls := xs + ys;
    }
  }

  lemma LeadsParts(c: Config, l: Limiter, key: Key, was: int, calls: seq<Call>, end: int, count: nat, l': Limiter)
    requires Leads(c, l, key, was, calls, end, count, l')
    ensures was <= end && Sound(c, l', end) && |l'.buckets| <= c.maxKeys
    ensures InOrder(calls, was) && (forall call :: call in calls ==> call.now <= end)
    ensures AllowedCount(c, l, calls, key) == count
  {
  }

  lemma FirstIsFresh(c: Config, key: Key)
    requires Sane(c)
    ensures var (answer, l) := Allow(c, Limiter(map[], None), key, 0);
            answer == Allowed && key in l.buckets && l.buckets[key] == Fresh(c, 0)
    ensures Sound(c, Limiter(map[], None), 0)
  {
    assert Swept(c, Limiter(map[], None), 0).buckets == map[];
  }

  /** Any gain, however small, is in the end more than any amount. */
  lemma Archimedes(gain: real, amount: real) returns (m: nat)
    requires gain > 0.0
    ensures m as real * gain > amount
  {
    if amount < 0.0 {
      return 0;
    }
    var q := amount / gain;
    m := q.Floor + 1;
    assert m as real > q;
    assert m as real * gain > q * gain == amount;
  }

  /** If a full bucket is good for more than is earned by the time it can be replaced, enough sprees break the bound. */
  lemma HastyBreaksBound(c: Config, key: Key, n: nat) returns (calls: seq<Call>, span: int)
    requires Sane(c) && c.burst >= 1.0 && SweepInterval(c) <= c.idleTtl
    requires Spendable(c, c.burst, n) as real > Earned(c, n + c.idleTtl + 1)
    ensures !WithinRate(c, Limiter(map[], None), calls, key, 0, span)
  {
    hide Earned, Leads, Spendable, WithinRate, AllowedCount, InOrder, Sound;
    var cycle := n + c.idleTtl + 1;
    var k, e := Spendable(c, c.burst, n), Earned(c, cycle);
    var m := Archimedes(k as real - e, c.burst + Earned(c, n));
    var l';
    calls, l' := Sprees(c, key, n, m);
    span := m * cycle + n;
    LeadsParts(c, Limiter(map[], None), key, 0, calls, span, (m + 1) * k, l');
    FirstIsFresh(c, key);
    OverBound(c, cycle, m, n, k);
    TooMany(c, Limiter(map[], None), calls, key, span);
  }

  lemma TooMany(c: Config, l: Limiter, calls: seq<Call>, key: Key, span: int)
    requires Sound(c, l, 0) && span >= 0 && InOrder(calls, 0) && forall call :: call in calls ==> call.now <= span
    requires AllowedCount(c, l, calls, key) as real > c.burst + Earned(c, span)
    ensures !WithinRate(c, l, calls, key, 0, span)
  {
    hide Earned, AllowedCount, Sound;
  }

  lemma OverBound(c: Config, cycle: int, m: nat, n: nat, k: nat)
    requires m as real * (k as real - Earned(c, cycle)) > c.burst + Earned(c, n)
    ensures ((m + 1) * k) as real > c.burst + Earned(c, m * cycle + n)
  {
    hide Earned;
    EarnedAdds(c, m * cycle, n);
    EarnedTimes(c, cycle, m);
    Exceeds(m, k, Earned(c, cycle), c.burst + Earned(c, n));
  }

  lemma Exceeds(m: nat, k: nat, e: real, amount: real)
    requires m as real * (k as real - e) > amount
    ensures ((m + 1) * k) as real > amount + m as real * e
  {
    var x, y := m as real, k as real;
    assert (m * k) as real == x * y;
    assert ((m + 1) * k) as real == (m * k) as real + y;
    assert x * (y - e) == x * y - x * e;
  }

  lemma {:induction false} EarnedTimes(c: Config, span: int, m: nat)
    ensures Earned(c, m * span) == m as real * Earned(c, span)
    decreases m
  {
    EarnedZero(c);
    hide Earned;
    if m > 0 {
      EarnedTimes(c, span, m - 1);
      assert m * span == (m - 1) * span + span;
      EarnedAdds(c, (m - 1) * span, span);
      assert m as real * Earned(c, span) == (m - 1) as real * Earned(c, span) + Earned(c, span);
    }
  }

  /**
   The bound holds over every run exactly under pacing settings. (A TTL below four
   nanoseconds, for which sweeps are a minute apart, aside.)
   */
  lemma RateBoundExactly(c: Config)
    requires Sane(c) && SweepInterval(c) <= c.idleTtl
    ensures (forall l, calls, key, start, span :: WithinRate(c, l, calls, key, start, span)) <==> Paces(c)
  {
    hide Earned, AllowedCount, Sound, Spendable;
    if Paces(c) {
      forall l, calls: seq<Call>, key, start, span
        ensures WithinRate(c, l, calls, key, start, span)
      {
        if Sound(c, l, start) && span >= 0 && InOrder(calls, start) && forall call :: call in calls ==> call.now <= start + span {
          RateBound(c, l, calls, key, start, span);
        }
      }
    } else if c.burst < 1.0 {
      SmallBurst(c, "k");
    } else {
      var n: nat :| Spendable(c, c.burst, n) as real > Earned(c, n + c.idleTtl + 1);
      var calls, span := HastyBreaksBound(c, "k", n);
    }
  }

  /** With a burst of less than a token the first call alone is too many. */
  lemma SmallBurst(c: Config, key: Key)
    requires Sane(c) && c.burst < 1.0
    ensures !WithinRate(c, Limiter(map[], None), [Call(key, 0)], key, 0, 0)
  {
    hide Earned;
    FirstIsFresh(c, key);
    EarnedZero(c);
    var start, calls := Limiter(map[], None), [Call(key, 0)];
    assert calls[1..] == [];
    assert AllowedCount(c, Allow(c, start, key, 0).1, calls[1..], key) == 0;
    assert AllowedCount(c, start, calls, key) == 1;
    assert InOrder(calls, 0) && Sound(c, start, 0);
    hide Allow;
  }

  // -------------------------------------------------------------------- room for keys

  lemma SweepShrinks(c: Config, l: Limiter, now: int)
    ensures Swept(c, l, now).buckets.Keys <= l.buckets.Keys
    ensures |Swept(c, l, now).buckets| <= |l.buckets|
  {
    SubmapSize(Swept(c, l, now).buckets, l.buckets);
  }

  /** The table never outgrows its cap. */
  lemma AllowFits(c: Config, l: Limiter, key: Key, now: int)
    requires |l.buckets| <= c.maxKeys
    ensures |Allow(c, l, key, now).1.buckets| <= c.maxKeys
  {
    hide Spend, Swept;
    SweepShrinks(c, l, now);
    var s := Swept(c, l, now);
    if key in s.buckets {
      var b := Spend(c, s.buckets[key], now).1;
      assert s.buckets[key := b].Keys == s.buckets.Keys;
    } else {
      var b := Fresh(c, now);
      assert s.buckets[key := b].Keys == s.buckets.Keys + {key};
    }
  }

  lemma PacedSpend(c: Config, b: Bucket, was: int, now: int)
    requires Sane(c) && c.burst >= 1.0 && SoundBucket(c, b, was) && was <= now
    requires Earned(c, now - b.lastUsed) >= 1.0
    ensures Spend(c, b, now).0
  {
    EarnedZero(c);
    hide Earned;
  }

  /** A tracked key that waits at least one token's time between calls is never refused. */
  lemma PacedKeyIsAllowed(c: Config, l: Limiter, key: Key, was: int, now: int)
    requires Sane(c) && c.burst >= 1.0 && Sound(c, l, was) && was <= now && |l.buckets| <= c.maxKeys
    requires key in l.buckets && Earned(c, now - l.buckets[key].lastUsed) >= 1.0
    ensures Allow(c, l, key, now).0 == Allowed
  {
    hide Earned, Spend;
    SweepShrinks(c, l, now);
    var s := Swept(c, l, now);
    if key in s.buckets {
      assert s.buckets[key] == l.buckets[key];
      PacedSpend(c, l.buckets[key], was, now);
    } else {
      SubmapSize(s.buckets, l.buckets);
    }
  }
}
