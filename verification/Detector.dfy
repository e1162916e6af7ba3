/**
 The saturation detector (tunnel/autoscale/autoscale.go): watermarks, sustain, cooldown.
 Times are nanoseconds; None is an unset time.
 */
module Detector {
  import opened Basics

  datatype Config = Config(high: real, low: real, sustain: int, cooldown: int, minNodes: int, maxNodes: int)

  datatype Action = Stay | ScaleUp | ScaleDown

  datatype Reading = Reading(ratio: real, nodes: int, now: int)

  /** When the current runs past each watermark began, and when the last action fired. */
  datatype Timers = Timers(above: Option<int>, below: Option<int>, last: Option<int>)

  // ------------------------------------------------------------------------ defaults

  function DurationField(v: int, def: int): int {
    if v < 0 then 0 else if v == 0 then def else v
  }

  function WithDefaults(c: Config): Config {
    var high := if c.high <= 0.0 then 0.80 else c.high;
    var low := if c.low <= 0.0 then 0.30 else c.low;
    Config(high, if low >= high then high / 2.0 else low, DurationField(c.sustain, 60 * SECOND),
           DurationField(c.cooldown, 180 * SECOND), if c.minNodes <= 0 then 1 else c.minNodes, c.maxNodes)
  }

  /** The band between the watermarks is never empty, and a pool keeps at least one node. */
  lemma DefaultsAreUsable(c: Config)
    ensures var d := WithDefaults(c); 0.0 < d.low < d.high && d.sustain >= 0 && d.cooldown >= 0 && d.minNodes >= 1
  {
  }

  /** What is set is kept; what is not gets its default, and a band that is empty half the high watermark. */
  lemma DefaultsMean(c: Config)
    ensures var d := WithDefaults(c);
            && d.high == (if c.high > 0.0 then c.high else 0.80)
            && (0.0 < c.low < d.high ==> d.low == c.low)
            && (c.low <= 0.0 && 0.30 < d.high ==> d.low == 0.30)
            && (c.low >= d.high || (c.low <= 0.0 && 0.30 >= d.high) ==> d.low == d.high / 2.0)
            && d.sustain == (if c.sustain > 0 then c.sustain else if c.sustain == 0 then 60_000_000_000 else 0)
            && d.cooldown == (if c.cooldown > 0 then c.cooldown else if c.cooldown == 0 then 180_000_000_000 else 0)
            && d.minNodes == (if c.minNodes >= 1 then c.minNodes else 1) && d.maxNodes == c.maxNodes
  {
  }

  /** Applying the defaults again is harmless exactly when no duration was disabled. */
  lemma DefaultsTwice(c: Config)
    ensures WithDefaults(WithDefaults(c)) == WithDefaults(c) <==> c.sustain >= 0 && c.cooldown >= 0
  {
  }

  // --------------------------------------------------------------------- one reading

  /** Past the upper watermark, or, short of that, past the lower one. */
  predicate Past(c: Config, up: bool, r: Reading) {
    if up then r.ratio >= c.high else r.ratio < c.high && r.ratio <= c.low
  }

  predicate CooldownElapsed(c: Config, last: Option<int>, now: int) {
    last.None? || now - last.value >= c.cooldown
  }

  predicate Room(c: Config, up: bool, nodes: int) {
    if up then !(c.maxNodes > 0 && nodes >= c.maxNodes) else nodes > c.minNodes
  }

  function Began(timer: Option<int>, now: int): int {
    if timer.None? then now else timer.value
  }

  function React(c: Config, t: Timers, r: Reading): (Action, Timers) {
    if Past(c, true, r) then
      var began := Began(t.above, r.now);
      if r.now - began < c.sustain || !CooldownElapsed(c, t.last, r.now) || !Room(c, true, r.nodes) then
        (Stay, Timers(Some(began), None, t.last))
      else (ScaleUp, Timers(None, None, Some(r.now)))
    else if Past(c, false, r) then
      var began := Began(t.below, r.now);
      if r.now - began < c.sustain || !CooldownElapsed(c, t.last, r.now) || !Room(c, false, r.nodes) then
        (Stay, Timers(None, Some(began), t.last))
      else (ScaleDown, Timers(None, None, Some(r.now)))
    else (Stay, Timers(None, None, t.last))
  }

  /**
   One reading in numbers. At or over the high watermark, or else at or under the low one, a
   run starts or goes on and the other ends; it is acted on when it has lasted Sustain, the
   last action lies Cooldown back and there is room, and then starts over. In between, both end.
   */
  lemma ReactMeans(c: Config, t: Timers, r: Reading)
    ensures var (action, u) := React(c, t, r);
            var cool := t.last.None? || r.now - t.last.value >= c.cooldown;
            if r.ratio >= c.high then
              var since := if t.above.Some? then t.above.value else r.now;
              if r.now - since >= c.sustain && cool && (c.maxNodes <= 0 || r.nodes < c.maxNodes)
              then action == ScaleUp && u.above.None? && u.below.None? && u.last == Some(r.now)
              else action == Stay && u.above == Some(since) && u.below.None? && u.last == t.last
            else if r.ratio <= c.low then
              var since := if t.below.Some? then t.below.value else r.now;
              if r.now - since >= c.sustain && cool && r.nodes > c.minNodes
              then action == ScaleDown && u.above.None? && u.below.None? && u.last == Some(r.now)
              else action == Stay && u.below == Some(since) && u.above.None? && u.last == t.last
            else action == Stay && u.above.None? && u.below.None? && u.last == t.last
  {
  }

  // ------------------------------------------------------------------ a run of readings

  function TimersAfter(c: Config, rs: seq<Reading>, n: nat): Timers
    requires n <= |rs|
  {
    if n == 0 then Timers(None, None, None) else React(c, TimersAfter(c, rs, n - 1), rs[n - 1]).1
  }

  function ActionAt(c: Config, rs: seq<Reading>, j: nat): Action
    requires j < |rs|
  {
    React(c, TimersAfter(c, rs, j), rs[j]).0
  }

  ghost predicate Clocked(rs: seq<Reading>) {
    forall i, j :: 0 <= i <= j < |rs| ==> rs[i].now <= rs[j].now
  }

  function Doing(up: bool): Action {
    if up then ScaleUp else ScaleDown
  }

  /** Reading k is past the watermark and was not answered by that watermark's action. */
  predicate Open(c: Config, rs: seq<Reading>, up: bool, k: nat)
    requires k < |rs|
  {
    Past(c, up, rs[k]) && ActionAt(c, rs, k) != Doing(up)
  }

  /** From reading i to reading j load stayed past the watermark, unanswered before j. */
  ghost predicate Unbroken(c: Config, rs: seq<Reading>, up: bool, i: nat, j: nat)
    requires i <= j < |rs|
  {
    Past(c, up, rs[j]) && forall k :: i <= k < j ==> Open(c, rs, up, k)
  }

  /** Some such run ending at j lasted at least Sustain. */
  ghost predicate Sustained(c: Config, rs: seq<Reading>, up: bool, j: nat)
    requires j < |rs|
  {
    exists i :: 0 <= i <= j && Unbroken(c, rs, up, i, j) && rs[j].now - rs[i].now >= c.sustain
  }

  /** Told by the ratios: from some reading on, Sustain ago or more, all were beyond the watermark, and none was acted on. */
  lemma SustainedMeans(c: Config, rs: seq<Reading>, up: bool, j: nat)
    requires j < |rs| && c.low < c.high
    ensures Sustained(c, rs, up, j) <==>
              exists i :: 0 <= i <= j && rs[j].now - rs[i].now >= c.sustain
                          && (forall k :: i <= k <= j ==> if up then rs[k].ratio >= c.high else rs[k].ratio <= c.low)
                          && (forall k :: i <= k < j ==> ActionAt(c, rs, k) != if up then ScaleUp else ScaleDown)
  {
    hide ActionAt;
    forall i | 0 <= i <= j
      ensures Unbroken(c, rs, up, i, j) <==>
                && (forall k :: i <= k <= j ==> if up then rs[k].ratio >= c.high else rs[k].ratio <= c.low)
                && (forall k :: i <= k < j ==> ActionAt(c, rs, k) != if up then ScaleUp else ScaleDown)
    {
      forall k | i <= k < j
        ensures Open(c, rs, up, k) <==>
                  && (if up then rs[k].ratio >= c.high else rs[k].ratio <= c.low)
                  && ActionAt(c, rs, k) != if up then ScaleUp else ScaleDown
      {
      }
    }
  }

  /** Every earlier action lies at least Cooldown back. */
  ghost predicate Cooled(c: Config, rs: seq<Reading>, j: nat)
    requires j < |rs|
  {
    forall k :: 0 <= k < j && ActionAt(c, rs, k) != Stay ==> rs[j].now - rs[k].now >= c.cooldown
  }

  // ------------------------------------------------------------- what the timers mean

  /** Where the run still open before reading n began; n itself when none is. */
  function RunStart(c: Config, rs: seq<Reading>, up: bool, n: nat): (i: nat)
    requires n <= |rs|
    ensures i <= n
  {
    if n == 0 || !Open(c, rs, up, n - 1) then n else RunStart(c, rs, up, n - 1)
  }

  function RunTimer(c: Config, rs: seq<Reading>, up: bool, n: nat): Option<int>
    requires n <= |rs|
  {
    var i := RunStart(c, rs, up, n);
    if i == n then None else Some(rs[i].now)
  }

  function LastActed(c: Config, rs: seq<Reading>, n: nat): Option<int>
    requires n <= |rs|
  {
    if n == 0 then None
    else if ActionAt(c, rs, n - 1) != Stay then Some(rs[n - 1].now)
    else LastActed(c, rs, n - 1)
  }

  lemma {:induction false} TimersMean(c: Config, rs: seq<Reading>, n: nat)
    requires n <= |rs|
    ensures TimersAfter(c, rs, n) == Timers(RunTimer(c, rs, true, n), RunTimer(c, rs, false, n), LastActed(c, rs, n))
  {
    if n > 0 {
      TimersMean(c, rs, n - 1);
      hide TimersAfter;
      TimersUnfold(c, rs, n);
      RunStep(c, rs, true, n);
      RunStep(c, rs, false, n);
      hide RunTimer;
    }
  }

  lemma TimersUnfold(c: Config, rs: seq<Reading>, n: nat)
    requires 0 < n <= |rs|
    ensures TimersAfter(c, rs, n) == React(c, TimersAfter(c, rs, n - 1), rs[n - 1]).1
    ensures ActionAt(c, rs, n - 1) == React(c, TimersAfter(c, rs, n - 1), rs[n - 1]).0
  {
  }

  lemma RunStep(c: Config, rs: seq<Reading>, up: bool, n: nat)
    requires 0 < n <= |rs|
    ensures RunTimer(c, rs, up, n)
            == if Open(c, rs, up, n - 1) then Some(Began(RunTimer(c, rs, up, n - 1), rs[n - 1].now)) else None
  {
    hide Open;
  }

  lemma {:induction false} RunIsOpen(c: Config, rs: seq<Reading>, up: bool, n: nat)
    requires n <= |rs|
    ensures var i := RunStart(c, rs, up, n);
            (forall k :: i <= k < n ==> Open(c, rs, up, k)) && (i > 0 ==> !Open(c, rs, up, i - 1))
  {
    hide Open;
    if n > 0 && Open(c, rs, up, n - 1) {
      RunIsOpen(c, rs, up, n - 1);
    }
  }

  /** The timer measures the longest unbroken run, so it has lasted Sustain when any has. */
  lemma SustainedIsMeasured(c: Config, rs: seq<Reading>, up: bool, j: nat)
    requires j < |rs| && Clocked(rs) && Past(c, up, rs[j])
    ensures Sustained(c, rs, up, j) <==> rs[j].now - Began(RunTimer(c, rs, up, j), rs[j].now) >= c.sustain
  {
    hide Open, RunStart;
    var i := RunStart(c, rs, up, j);
    RunIsOpen(c, rs, up, j);
    assert Unbroken(c, rs, up, i, j);
    assert rs[i].now == Began(RunTimer(c, rs, up, j), rs[j].now);
    assert i > 0 ==> !Open(c, rs, up, i - 1);
  }

  lemma {:induction false} CooledIsMeasured(c: Config, rs: seq<Reading>, j: nat, n: nat)
    requires n <= j < |rs| && Clocked(rs)
    ensures CooldownElapsed(c, LastActed(c, rs, n), rs[j].now)
            <==> forall k :: 0 <= k < n && ActionAt(c, rs, k) != Stay ==> rs[j].now - rs[k].now >= c.cooldown
    ensures LastActed(c, rs, n).Some? ==> exists k :: 0 <= k < n && ActionAt(c, rs, k) != Stay && LastActed(c, rs, n) == Some(rs[k].now)
  {
    hide ActionAt;
    if n > 0 {
      CooledIsMeasured(c, rs, j, n - 1);
    }
  }

  /**
   Over any run of readings: the detector scales in a direction exactly when an unbroken
   run past that watermark, since the last such action, has lasted Sustain, every action
   lies Cooldown back, and the pool has room.
   */
  lemma ActsExactly(c: Config, rs: seq<Reading>, up: bool, j: nat)
    requires j < |rs| && Clocked(rs)
    ensures ActionAt(c, rs, j) == Doing(up) <==> Sustained(c, rs, up, j) && Cooled(c, rs, j) && Room(c, up, rs[j].nodes)
  {
    hide TimersAfter, RunTimer, LastActed, Room, Sustained;
    TimersMean(c, rs, j);
    CooledIsMeasured(c, rs, j, j);
    assert Cooled(c, rs, j) <==> CooldownElapsed(c, LastActed(c, rs, j), rs[j].now);
    if Past(c, up, rs[j]) {
      SustainedIsMeasured(c, rs, up, j);
    } else {
      PastIfSustained(c, rs, up, j);
    }
  }

  /** The same in numbers. */
  lemma ActsInNumbers(c: Config, rs: seq<Reading>, j: nat)
    requires j < |rs| && Clocked(rs) && c.low < c.high
    ensures ActionAt(c, rs, j) == ScaleUp <==>
              && (exists i :: 0 <= i <= j && rs[j].now - rs[i].now >= c.sustain
                              && (forall k :: i <= k <= j ==> rs[k].ratio >= c.high)
                              && (forall k :: i <= k < j ==> ActionAt(c, rs, k) != ScaleUp))
              && (forall k :: 0 <= k < j && ActionAt(c, rs, k) != Stay ==> rs[j].now - rs[k].now >= c.cooldown)
              && (c.maxNodes <= 0 || rs[j].nodes < c.maxNodes)
    ensures ActionAt(c, rs, j) == ScaleDown <==>
              && (exists i :: 0 <= i <= j && rs[j].now - rs[i].now >= c.sustain
                              && (forall k :: i <= k <= j ==> rs[k].ratio <= c.low)
                              && (forall k :: i <= k < j ==> ActionAt(c, rs, k) != ScaleDown))
              && (forall k :: 0 <= k < j && ActionAt(c, rs, k) != Stay ==> rs[j].now - rs[k].now >= c.cooldown)
              && rs[j].nodes > c.minNodes
  {
    hide ActionAt, Sustained;
    ActsExactly(c, rs, true, j);
    ActsExactly(c, rs, false, j);
    SustainedMeans(c, rs, true, j);
    SustainedMeans(c, rs, false, j);
  }

  lemma PastIfSustained(c: Config, rs: seq<Reading>, up: bool, j: nat)
    requires j < |rs|
    ensures Sustained(c, rs, up, j) ==> Past(c, up, rs[j])
  {
  }

  // ------------------------------------------------------------------------ thrashing

  /** How many of the readings lo..hi were answered by an action. */
  function Actions(c: Config, rs: seq<Reading>, lo: nat, hi: nat): nat
    requires lo <= hi <= |rs|
    decreases hi
  {
    if lo == hi then 0 else Actions(c, rs, lo, hi - 1) + (if ActionAt(c, rs, hi - 1) != Stay then 1 else 0)
  }

  /** The last of m actions comes at least m - 1 cooldowns after the first reading. */
  lemma {:induction false} ActionsSpread(c: Config, rs: seq<Reading>, lo: nat, hi: nat) returns (last: nat)
    requires lo <= hi <= |rs| && Clocked(rs) && c.cooldown >= 0
    ensures Actions(c, rs, lo, hi) > 0 ==>
              && lo <= last < hi && ActionAt(c, rs, last) != Stay
              && (Actions(c, rs, lo, hi) - 1) * c.cooldown <= rs[last].now - rs[lo].now
    decreases hi
  {
    hide ActionAt;
    last := lo;
    if lo < hi {
      var before := ActionsSpread(c, rs, lo, hi - 1);
      if ActionAt(c, rs, hi - 1) == Stay {
        last := before;
      } else {
        last := hi - 1;
        var m := Actions(c, rs, lo, hi - 1);
        if m > 0 {
          ActedMeansCooled(c, rs, hi - 1);
          assert rs[hi - 1].now - rs[before].now >= c.cooldown;
          assert m * c.cooldown == (m - 1) * c.cooldown + c.cooldown;
        }
      }
    }
  }

  lemma ActedMeansCooled(c: Config, rs: seq<Reading>, j: nat)
    requires j < |rs| && Clocked(rs) && ActionAt(c, rs, j) != Stay
    ensures Cooled(c, rs, j)
  {
    ActsExactly(c, rs, true, j);
    ActsExactly(c, rs, false, j);
    hide ActionAt, Sustained, Cooled;
  }

  /** In any window of length T there are at most T / Cooldown + 1 actions. */
  lemma ActionsAreRare(c: Config, rs: seq<Reading>, lo: nat, hi: nat, window: nat)
    requires lo < hi <= |rs| && Clocked(rs) && c.cooldown > 0 && rs[hi - 1].now - rs[lo].now <= window
    ensures Actions(c, rs, lo, hi) <= window / c.cooldown + 1
  {
    hide Actions;
    var last := ActionsSpread(c, rs, lo, hi);
    var m := Actions(c, rs, lo, hi);
    if m > 0 {
      assert rs[last].now <= rs[hi - 1].now;
      QuotientBound(m - 1, c.cooldown, window);
    }
  }

  lemma QuotientBound(m: nat, d: nat, t: nat)
    requires d > 0 && m * d <= t
    ensures m <= t / d
  {
    var q := t / d;
    assert t < (q + 1) * d;
    if m >= q + 1 {
      ProductGrows(q + 1, m, d);
    }
  }

  lemma ProductGrows(a: nat, b: nat, d: nat)
    requires a <= b
    ensures a * d <= b * d
  {
  }

  // ------------------------------------------------------------------------- detector

  class SaturationDetector {
    const cfg: Config
    var aboveSince: Option<int>
    var belowSince: Option<int>
    var lastAction: Option<int>
    // Every reading fed in, oldest first.
    ghost var readings: seq<Reading>

    ghost function State(): Timers
      reads this
    {
      Timers(aboveSince, belowSince, lastAction)
    }

    ghost predicate Valid()
      reads this
    {
      Clocked(readings) && State() == TimersAfter(cfg, readings, |readings|)
    }

    constructor (requested: Config)
      ensures Valid() && readings == [] && cfg == WithDefaults(requested)
    {
      cfg := WithDefaults(requested);
      aboveSince, belowSince, lastAction, readings := None, None, None, [];
    }

    method Observe(ratio: real, nodes: int, now: int) returns (action: Action)
      requires Valid()
      requires |readings| > 0 ==> readings[|readings| - 1].now <= now
      modifies this
      ensures Valid()
      ensures readings == old(readings) + [Reading(ratio, nodes, now)]
      ensures action == ActionAt(cfg, readings, |readings| - 1)
      ensures forall up :: action == Doing(up) <==>
                             && Sustained(cfg, readings, up, |readings| - 1)
                             && Cooled(cfg, readings, |readings| - 1)
                             && Room(cfg, up, nodes)
      ensures (action, State()) == React(cfg, old(State()), Reading(ratio, nodes, now))
      ensures action == ScaleUp ==> ratio >= cfg.high
      ensures action == ScaleDown ==> ratio <= cfg.low
      ensures cfg.low < ratio < cfg.high ==>
                action == Stay && aboveSince.None? && belowSince.None? && lastAction == old(lastAction)
      ensures ratio >= cfg.high ==>
                var since := if old(aboveSince).Some? then old(aboveSince).value else now;
                var acts := now - since >= cfg.sustain
                            && (old(lastAction).None? || now - old(lastAction).value >= cfg.cooldown)
                            && (cfg.maxNodes <= 0 || nodes < cfg.maxNodes);
                action == (if acts then ScaleUp else Stay) && belowSince.None?
                && aboveSince == (if acts then None else Some(since))
      ensures ratio <= cfg.low && ratio < cfg.high ==>
                var since := if old(belowSince).Some? then old(belowSince).value else now;
                var acts := now - since >= cfg.sustain
                            && (old(lastAction).None? || now - old(lastAction).value >= cfg.cooldown)
                            && nodes > cfg.minNodes;
                action == (if acts then ScaleDown else Stay) && aboveSince.None?
                && belowSince == (if acts then None else Some(since))
      ensures lastAction == if action == Stay then old(lastAction) else Some(now)
    {
      hide TimersAfter, Sustained, Cooled;
      ReactMeans(cfg, State(), Reading(ratio, nodes, now));
      ghost var was := State();
      ghost var before := readings;
      ghost var n := |before|;
      ghost var r := Reading(ratio, nodes, now);
      readings := readings + [r];
      TimersPrefix(cfg, before, readings, n);
      TimersUnfold(cfg, readings, n + 1);
      ActsExactly(cfg, readings, true, n);
      ActsExactly(cfg, readings, false, n);
      action := Stay;
      if ratio >= cfg.high {
        belowSince := None;
        if aboveSince.None? {
          aboveSince := Some(now);
        }
        if now - aboveSince.value < cfg.sustain {
          return;
        }
        if lastAction.Some? && now - lastAction.value < cfg.cooldown {
          return;
        }
        if cfg.maxNodes > 0 && nodes >= cfg.maxNodes {
          return;
        }
        lastAction := Some(now);
        aboveSince := None;
        action := ScaleUp;
      } else if ratio <= cfg.low {
        aboveSince := None;
        if belowSince.None? {
          belowSince := Some(now);
        }
        if now - belowSince.value < cfg.sustain {
          return;
        }
        if lastAction.Some? && now - lastAction.value < cfg.cooldown {
          return;
        }
        if nodes <= cfg.minNodes {
          return;
        }
        lastAction := Some(now);
        belowSince := None;
        action := ScaleDown;
      } else {
        aboveSince := None;
        belowSince := None;
      }
    }
  }

  lemma {:induction false} TimersPrefix(c: Config, rs: seq<Reading>, more: seq<Reading>, n: nat)
    requires n <= |rs| && rs <= more
    ensures TimersAfter(c, more, n) == TimersAfter(c, rs, n)
  {
    if n > 0 {
      TimersPrefix(c, rs, more, n - 1);
    }
  }
}
