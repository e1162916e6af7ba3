/**
 The scaling loop (tunnel/autoscale/autoscale.go) over the detector and the pool: ticks,
 and at most one provision or decommission in flight, whose own steps interleave with
 ticks, probes and load reports.
 */
module Autoscaler {
  import opened Basics
  import opened Pool
  import opened Detector

  /** The scale operation in flight, and how far it has got. */
  datatype Op = Idle | Growing | Choosing | Chosen(id: Id) | Draining(id: Id) | Finished

  datatype Setup = Setup(cfg: Config, self: Id, provisioner: bool, ops: TextOps)

  /** The members, the readings taken, the operation in flight, and a decision not yet launched. */
  datatype World = World(members: Members, readings: seq<Reading>, op: Op, decided: Action)

  datatype Event =
    | Sample(ratio: real, now: int)
    | Launch
    | ProvisionFails
    | ProvisionReady(node: Node, at: int)
    | Choose(choice: Option<Id>)
    | MarkDraining
    | DecommissionFails
    | DecommissionDone
    | Clear
    | Probe(id: Id, healthy: bool, at: int)
    | Report(id: Id, ratio: real)

  // --------------------------------------------------------------------------- steps

  ghost predicate Enabled(s: Setup, w: World, e: Event) {
    match e
    case Sample(_, now) => w.decided == Stay && (|w.readings| > 0 ==> w.readings[|w.readings| - 1].now <= now)
    case Launch => true
    case ProvisionFails => w.op == Growing
    case ProvisionReady(_, _) => w.op == Growing
    case Choose(choice) =>
      && w.op == Choosing
      && (choice.Some? ==> IsDrainChoice(w.members, s.self, choice.value))
      && (choice.None? ==> forall k :: k in w.members ==> k == s.self)
    case MarkDraining => w.op.Chosen?
    case DecommissionFails => w.op.Draining?
    case DecommissionDone => w.op.Draining?
    case Clear => w.op == Finished
    case Probe(_, _, _) => true
    case Report(_, _) => true
  }

  function Sampled(s: Setup, w: World, ratio: real, now: int): World {
    var ms := if s.self != "" then Loaded(w.members, s.self, ratio) else w.members;
    var rs := w.readings + [Reading(ratio, |ms|, now)];
    w.(members := ms, readings := rs, decided := ActionAt(s.cfg, rs, |w.readings|))
  }

  /** A decision made while an operation is in flight, or with no provisioner, is dropped. */
  function Launched(s: Setup, w: World): World {
    if w.decided == Stay || !s.provisioner || w.op != Idle then w.(decided := Stay)
    else w.(decided := Stay, op := if w.decided == ScaleUp then Growing else Choosing)
  }

  function Next(s: Setup, w: World, e: Event): World {
    match e
    case Sample(ratio, now) => Sampled(s, w, ratio, now)
    case Launch => Launched(s, w)
    case ProvisionFails => w.(op := Finished)
    case ProvisionReady(node, at) => w.(members := Added(s.ops, w.members, node, at), op := Finished)
    case Choose(choice) => w.(op := if choice.None? then Finished else Chosen(choice.value))
    case MarkDraining => if w.op.Chosen? then w.(members := Marked(w.members, w.op.id, true), op := Draining(w.op.id)) else w
    case DecommissionFails => if w.op.Draining? then w.(members := Marked(w.members, w.op.id, false), op := Finished) else w
    case DecommissionDone => if w.op.Draining? then w.(members := w.members - {w.op.id}, op := Finished) else w
    case Clear => w.(op := Idle)
    case Probe(id, healthy, at) =>
      if id in w.members then w.(members := w.members[id := w.members[id].(healthy := healthy, lastProbe := at)]) else w
    case Report(id, ratio) => w.(members := Loaded(w.members, id, ratio))
  }

  /** An operation's success, the only step that changes how many members there are. */
  predicate Resizes(e: Event) {
    e.ProvisionReady? || e.DecommissionDone?
  }

  /** Whether the size allows scaling in the decided direction. */
  predicate Allows(c: Config, action: Action, size: int) {
    action == Stay || Room(c, action == ScaleUp, size)
  }

  function Underway(op: Op): Action {
    match op
    case Growing => ScaleUp
    case Choosing => ScaleDown
    case Chosen(_) => ScaleDown
    case Draining(_) => ScaleDown
    case _ => Stay
  }

  predicate WithinBounds(c: Config, size: nat) {
    c.minNodes <= size && (c.maxNodes > 0 ==> size <= c.maxNodes)
  }

  /** Scaling in this direction has room, or is scaling down with nobody but self to remove. */
  ghost predicate Harmless(s: Setup, action: Action, ms: Members) {
    Allows(s.cfg, action, |ms|) || (action == ScaleDown && forall k :: k in ms ==> k == s.self)
  }

  /** Bounds hold, and the operation in flight cannot break them. */
  ghost predicate Inv(s: Setup, w: World) {
    && Filed(w.members)
    && Clocked(w.readings)
    && WithinBounds(s.cfg, |w.members|)
    && Harmless(s, Underway(w.op), w.members)
    && ((w.op.Chosen? || w.op.Draining?) ==> w.op.id != s.self && w.op.id in w.members)
  }

  /** The launch of a pending decision that starts an operation. */
  predicate Starts(s: Setup, w: World) {
    w.decided != Stay && s.provisioner && w.op == Idle
  }

  /** A launch that starts an operation starts a harmless one. */
  ghost predicate Careful(s: Setup, w: World, e: Event) {
    e == Launch && Starts(s, w) ==> Harmless(s, w.decided, w.members)
  }

  // ---------------------------------------------------------------- one step keeps it

  lemma MarksKeepKeys(ms: Members, id: Id, draining: bool, ratio: real)
    ensures Marked(ms, id, draining).Keys == ms.Keys && Loaded(ms, id, ratio).Keys == ms.Keys
    ensures Filed(ms) ==> Filed(Marked(ms, id, draining)) && Filed(Loaded(ms, id, ratio))
  {
    if id in ms {
      assert ms[id := ms[id].(draining := draining)].Keys == ms.Keys;
      assert ms[id := ms[id].(load := ratio)].Keys == ms.Keys;
    }
  }

  lemma SameKeysSameSize(a: Members, b: Members)
    requires a.Keys == b.Keys
    ensures |a| == |b|
  {
    assert |a.Keys| == |b.Keys|;
  }

  lemma AddGrowsByOne(ops: TextOps, ms: Members, n: Node, now: int)
    ensures |ms| <= |Added(ops, ms, n, now)| <= |ms| + 1
    ensures ms.Keys <= Added(ops, ms, n, now).Keys
    ensures Filed(ms) ==> Filed(Added(ops, ms, n, now))
  {
    var after := Added(ops, ms, n, now);
    if !ops.blank(n.id) {
      if n.id in ms {
        assert after.Keys == ms.Keys;
        SameKeysSameSize(after, ms);
      } else {
        assert after.Keys == ms.Keys + {n.id};
        assert |after.Keys| == |ms.Keys| + 1;
      }
    }
  }

  lemma RemoveShrinksByOne(ms: Members, id: Id)
    ensures |ms| - 1 <= |ms - {id}| <= |ms|
    ensures Filed(ms) ==> Filed(ms - {id})
  {
    var after := ms - {id};
    if id in ms {
      assert ms.Keys == after.Keys + {id};
      assert |ms.Keys| == |after.Keys| + 1;
    } else {
      assert after == ms;
    }
  }

  /** A step that keeps the keys and the readings, and starts nothing that could do harm. */
  lemma QuietKeeps(s: Setup, w: World, v: World)
    requires Inv(s, w) && Filed(v.members) && v.members.Keys == w.members.Keys && Clocked(v.readings)
    requires Harmless(s, Underway(v.op), w.members)
    requires (v.op.Chosen? || v.op.Draining?) ==> v.op.id != s.self && v.op.id in w.members
    ensures Inv(s, v)
  {
    SameKeysSameSize(v.members, w.members);
    hide Filed, Clocked, WithinBounds, Allows;
  }

  /** What remains of an operation that has finished: the size it left. */
  lemma FinishedKeeps(s: Setup, w: World, v: World)
    requires Inv(s, w) && Filed(v.members) && v.readings == w.readings
    requires v.op == Finished && WithinBounds(s.cfg, |v.members|)
    ensures Inv(s, v)
  {
    hide Filed, Clocked, WithinBounds;
  }

  lemma InvParts(s: Setup, w: World)
    requires Inv(s, w)
    ensures Filed(w.members) && Clocked(w.readings) && WithinBounds(s.cfg, |w.members|)
    ensures Harmless(s, Underway(w.op), w.members)
    ensures (w.op.Chosen? || w.op.Draining?) ==> w.op.id != s.self && w.op.id in w.members
  {
  }

  lemma ResizeKeeps(s: Setup, w: World, e: Event)
    requires Inv(s, w) && Enabled(s, w, e) && Resizes(e)
    ensures Inv(s, Next(s, w, e))
    ensures s.self in w.members ==> s.self in Next(s, w, e).members
  {
    hide Inv, IsDrainChoice, Added, Filed, Clocked;
    InvParts(s, w);
    if e.ProvisionReady? {
      AddGrowsByOne(s.ops, w.members, e.node, e.at);
    } else {
      RemoveShrinksByOne(w.members, w.op.id);
    }
    FinishedKeeps(s, w, Next(s, w, e));
  }

  lemma NothingIsHarmless(s: Setup, ms: Members)
    ensures Harmless(s, Stay, ms)
  {
  }

  /** Every step keeps the bounds, however ticks and completions interleave, if launches are careful. */
  lemma StepKeeps(s: Setup, w: World, e: Event)
    requires Inv(s, w) && Enabled(s, w, e) && Careful(s, w, e)
    ensures Inv(s, Next(s, w, e))
    ensures s.self in w.members ==> s.self in Next(s, w, e).members
  {
    hide Inv, IsDrainChoice, Filed, Marked, Loaded, Added, Harmless, ActionAt;
    InvParts(s, w);
    NothingIsHarmless(s, w.members);
    if Resizes(e) {
      ResizeKeeps(s, w, e);
    } else {
      if e.Report? {
        MarksKeepKeys(w.members, e.id, true, e.ratio);
      } else if e.Sample? {
        MarksKeepKeys(w.members, s.self, true, e.ratio);
      } else if e.Probe? {
        if e.id in w.members {
          ProbeKeepsKeys(w.members, e.id, e.healthy, e.at);
        }
      } else if w.op.Chosen? || w.op.Draining? {
        MarksKeepKeys(w.members, w.op.id, e.MarkDraining?, 0.0);
      } else if e.Choose? && e.choice.Some? {
        ChoiceIsOther(w.members, s.self, e.choice.value);
      }
      QuietKeeps(s, w, Next(s, w, e));
    }
  }

  lemma ProbeKeepsKeys(ms: Members, id: Id, healthy: bool, at: int)
    requires Filed(ms) && id in ms
    ensures var after := ms[id := ms[id].(healthy := healthy, lastProbe := at)]; after.Keys == ms.Keys && Filed(after)
  {
  }

  lemma ChoiceIsOther(ms: Members, self: Id, id: Id)
    requires IsDrainChoice(ms, self, id)
    ensures id in ms && id != self
  {
  }

  // --------------------------------------------------------------------------- runs

  function Run(s: Setup, w: World, es: seq<Event>): World
    decreases |es|
  {
    if |es| == 0 then w else Run(s, Next(s, w, es[0]), es[1..])
  }

  /** Every step could happen, and no launch starts an operation the size then forbids. */
  ghost predicate CarefulRun(s: Setup, w: World, es: seq<Event>)
    decreases |es|
  {
    |es| > 0 ==>
      Enabled(s, w, es[0]) && Careful(s, w, es[0]) && CarefulRun(s, Next(s, w, es[0]), es[1..])
  }

  /** Over any such run the pool stays within its bounds and keeps the scaler's own node. */
  lemma {:induction false} RunKeeps(s: Setup, w: World, es: seq<Event>)
    requires Inv(s, w) && CarefulRun(s, w, es)
    ensures Inv(s, Run(s, w, es))
    ensures WithinBounds(s.cfg, |Run(s, w, es).members|)
    ensures s.cfg.minNodes <= |Run(s, w, es).members|
    ensures s.cfg.maxNodes > 0 ==> |Run(s, w, es).members| <= s.cfg.maxNodes
    ensures s.self in w.members ==> s.self in Run(s, w, es).members
    decreases |es|
  {
    hide Enabled, Next, Careful;
    if |es| > 0 {
      StepKeeps(s, w, es[0]);
      RunKeeps(s, Next(s, w, es[0]), es[1..]);
    }
  }

  // --------------------------------------------------------------------- atomic ticks

  /** Every step could happen, and no operation completes between a decision and its launch. */
  ghost predicate Atomic(s: Setup, w: World, es: seq<Event>)
    decreases |es|
  {
    |es| > 0 ==>
      && Enabled(s, w, es[0])
      && (Resizes(es[0]) ==> w.decided == Stay)
      && Atomic(s, Next(s, w, es[0]), es[1..])
  }

  lemma ActedHadRoom(c: Config, rs: seq<Reading>, j: nat)
    requires j < |rs|
    ensures Allows(c, ActionAt(c, rs, j), rs[j].nodes)
  {
  }

  /** What a tick decided still has room when no operation has completed since. */
  lemma DecisionKeepsRoom(s: Setup, w: World, e: Event)
    requires Enabled(s, w, e) && (Resizes(e) ==> w.decided == Stay)
    requires Allows(s.cfg, w.decided, |w.members|)
    ensures Allows(s.cfg, Next(s, w, e).decided, |Next(s, w, e).members|)
  {
    hide ActionAt, IsDrainChoice, Marked, Loaded, Added, Allows;
    var v := Next(s, w, e);
    if e.Sample? {
      ActedHadRoom(s.cfg, v.readings, |w.readings|);
    } else if v.decided == Stay {
      StayIsAllowed(s.cfg, |v.members|);
    } else {
      if e.Report? {
        MarksKeepKeys(w.members, e.id, true, e.ratio);
      } else if w.op.Chosen? || w.op.Draining? {
        MarksKeepKeys(w.members, w.op.id, e.MarkDraining?, 0.0);
      }
      assert v.members.Keys == w.members.Keys;
      SameKeysSameSize(v.members, w.members);
    }
  }

  lemma StayIsAllowed(c: Config, size: int)
    ensures Allows(c, Stay, size)
  {
  }

  /** So with atomic ticks every launch is careful, and the bounds hold over every run. */
  lemma {:induction false} AtomicIsCareful(s: Setup, w: World, es: seq<Event>)
    requires Atomic(s, w, es) && Allows(s.cfg, w.decided, |w.members|)
    ensures CarefulRun(s, w, es)
    decreases |es|
  {
    hide Enabled, Next, Allows;
    if |es| > 0 {
      DecisionKeepsRoom(s, w, es[0]);
      AtomicIsCareful(s, Next(s, w, es[0]), es[1..]);
    }
  }

  lemma AtomicTicksKeepBounds(s: Setup, w: World, es: seq<Event>)
    requires Inv(s, w) && w.decided == Stay && Atomic(s, w, es)
    ensures WithinBounds(s.cfg, |Run(s, w, es).members|)
    ensures s.self in w.members ==> s.self in Run(s, w, es).members
  {
    AtomicIsCareful(s, w, es);
    RunKeeps(s, w, es);
  }

  /** Every decision in a run is the one the detector's specification makes on the readings so far. */
  lemma SampleDecides(s: Setup, w: World, ratio: real, now: int, up: bool)
    requires Clocked(w.readings) && (|w.readings| > 0 ==> w.readings[|w.readings| - 1].now <= now)
    ensures var v := Sampled(s, w, ratio, now);
            var j := |w.readings|;
            && Clocked(v.readings)
            && (v.decided == Detector.Doing(up) <==>
                Sustained(s.cfg, v.readings, up, j) && Cooled(s.cfg, v.readings, j) && Room(s.cfg, up, |v.members|))
  {
    hide ActionAt, Sustained, Cooled, Room;
    var v := Sampled(s, w, ratio, now);
    ActsExactly(s.cfg, v.readings, up, |w.readings|);
  }

  // ----------------------------------------------------------------------- the loop

  /**
   The loop's methods, each a step or two of the model: Tick on the sampling loop, the
   others on the one scale operation's own goroutine.
   */
  class ScaleLoop {
    const setup: Setup
    const det: SaturationDetector
    const pool: NodePool
    var scaling: bool
    ghost var op: Op

    ghost predicate Valid()
      reads this, det, pool
    {
      && det.Valid() && det.cfg == setup.cfg
      && pool.Valid() && pool.ops == setup.ops
      && (scaling <==> op != Idle)
    }

    ghost function State(): World
      reads this, det, pool
    {
      World(pool.members, det.readings, op, Stay)
    }

    constructor (requested: Config, self: Id, provisioner: bool, pool: NodePool)
      requires pool.Valid()
      ensures Valid() && this.pool == pool && fresh(det)
      ensures setup == Setup(WithDefaults(requested), self, provisioner, pool.ops)
      ensures State() == World(pool.members, [], Idle, Stay)
    {
      det := new SaturationDetector(requested);
      setup := Setup(WithDefaults(requested), self, provisioner, pool.ops);
      this.pool, scaling, op := pool, false, Idle;
    }

    /** One cycle: publish the load, observe, and launch what was decided. */
    method Tick(ratio: real, now: int) returns (action: Action)
      requires Valid() && Enabled(setup, State(), Sample(ratio, now))
      modifies this, det, pool
      ensures Valid()
      ensures var mid := Next(setup, old(State()), Sample(ratio, now));
              action == mid.decided && State() == Next(setup, mid, Launch)
      ensures det.readings == old(det.readings) + [Reading(ratio, |old(pool.members)|, now)]
      ensures pool.members.Keys == old(pool.members).Keys
      ensures forall k :: k in pool.members ==>
                            pool.members[k] == if setup.self != "" && k == setup.self then old(pool.members)[k].(load := ratio)
                                               else old(pool.members)[k]
      ensures op == if action == Stay || !setup.provisioner || old(op) != Idle then old(op)
                    else if action == ScaleUp then Growing else Choosing
    {
      hide ActionAt, Loaded, IsDrainChoice, Sustained, Cooled;
      if setup.self != "" {
        pool.UpdateLoad(setup.self, ratio);
      }
      SameKeysSameSize(pool.members, old(pool.members));
      action := det.Observe(ratio, pool.Size(), now);
      if action == Stay {
        return;
      }
      Dispatch(action);
    }

    /** Starts the operation, unless one is in flight or there is no provisioner. */
    method Dispatch(action: Action)
      requires scaling <==> op != Idle
      requires action != Stay
      modifies this
      ensures scaling <==> op != Idle
      ensures op == if setup.provisioner && old(op) == Idle then (if action == ScaleUp then Growing else Choosing) else old(op)
    {
      if !setup.provisioner {
        return;
      }
      if scaling {
        return;
      }
      scaling := true;
      op := if action == ScaleUp then Growing else Choosing;
    }

    /** The provisioner has answered: a node, or nothing. */
    method DoProvision(answer: Option<Node>, at: int)
      requires Valid() && op == Growing
      modifies this, pool
      ensures Valid()
      ensures State() == Next(setup, old(State()), if answer.Some? then ProvisionReady(answer.value, at) else ProvisionFails)
      ensures answer.None? ==> pool.members == old(pool.members)
      ensures answer.Some? && !setup.ops.blank(answer.value.id) ==>
                && pool.members.Keys == old(pool.members).Keys + {answer.value.id}
                && pool.members[answer.value.id].node == answer.value
    {
      hide Added;
      op := Finished;
      if answer.None? {
        return;
      }
      pool.Add(answer.value, at);
    }

    /** Picks the node to remove, never this one, and marks it draining. */
    method BeginDecommission() returns (choice: Option<Id>)
      requires Valid() && op == Choosing
      modifies this, pool
      ensures Valid() && Enabled(setup, old(State()), Choose(choice))
      ensures choice.None? ==> State() == Next(setup, old(State()), Choose(None))
      ensures choice.Some? ==>
                choice.value != setup.self && State() == Next(setup, Next(setup, old(State()), Choose(choice)), MarkDraining)
      ensures choice.None? ==> pool.members == old(pool.members)
      ensures choice.Some? ==> choice.value in pool.members && pool.members[choice.value].draining
      ensures pool.members.Keys == old(pool.members).Keys
    {
      hide IsDrainChoice, Marked;
      choice := pool.DrainCandidate(setup.self);
      if choice.None? {
        op := Finished;
        return;
      }
      ChoiceIsOther(pool.members, setup.self, choice.value);
      op := Draining(choice.value);
      pool.Drain(choice.value);
    }

    /** The provisioner has answered: the node is gone and leaves the pool, or it serves again. */
    method EndDecommission(id: Id, done: bool)
      requires Valid() && op == Draining(id)
      modifies this, pool
      ensures Valid()
      ensures State() == Next(setup, old(State()), if done then DecommissionDone else DecommissionFails)
      ensures done ==> pool.members == old(pool.members) - {id}
      ensures !done ==> pool.members.Keys == old(pool.members).Keys && (id in pool.members ==> !pool.members[id].draining)
    {
      hide Marked;
      op := Finished;
      if !done {
        pool.Undrain(id);
        return;
      }
      pool.Remove(id);
    }

    /** The operation's last step lets the next one start. */
    method Release()
      requires Valid() && op == Finished
      modifies this
      ensures Valid() && State() == Next(setup, old(State()), Clear)
    {
      scaling := false;
      op := Idle;
    }
  }

  // ------------------------------------------------------------------- a split tick

  /** A run that begins with the launch, is careful after it, and ends out of bounds. */
  ghost predicate Breaks(s: Setup, w: World, es: seq<Event>) {
    && |es| > 0 && es[0] == Launch
    && CarefulRun(s, Launched(s, w), es[1..])
    && !WithinBounds(s.cfg, |Run(s, w, es).members|)
  }

  lemma CarefulOne(s: Setup, w: World, e: Event, rest: seq<Event>)
    requires Enabled(s, w, e) && Careful(s, w, e)
    ensures CarefulRun(s, w, [e] + rest) <==> CarefulRun(s, Next(s, w, e), rest)
    ensures Run(s, w, [e] + rest) == Run(s, Next(s, w, e), rest)
  {
    assert ([e] + rest)[1..] == rest;
  }

  /** A launch past the ceiling: the provisioned node is one too many. */
  lemma LaunchPastCeiling(s: Setup, w: World, extra: Node) returns (es: seq<Event>)
    requires Inv(s, w) && Starts(s, w) && w.decided == ScaleUp && !Harmless(s, w.decided, w.members)
    requires extra.id !in w.members && !s.ops.blank(extra.id)
    ensures Breaks(s, w, es)
  {
    hide Inv, CarefulRun, Run;
    InvParts(s, w);
    var v := Launched(s, w);
    var ready := ProvisionReady(extra, 0);
    var end := Next(s, v, ready);
    CarefulOne(s, v, ready, []);
    RunNothing(s, end);
    assert end.members.Keys == w.members.Keys + {extra.id};
    assert |end.members.Keys| == |w.members.Keys| + 1;
    es := [Launch] + ([ready] + []);
    assert es[1..] == [ready] + [];
    RunFirst(s, w, es);
  }

  lemma RunNothing(s: Setup, w: World)
    ensures Run(s, w, []) == w && CarefulRun(s, w, [])
  {
  }

  lemma RunFirst(s: Setup, w: World, es: seq<Event>)
    requires |es| > 0
    ensures Run(s, w, es) == Run(s, Next(s, w, es[0]), es[1..])
  {
  }

  /** A launch below the floor: the node chosen to go is one too few. */
  lemma LaunchBelowFloor(s: Setup, w: World) returns (es: seq<Event>)
    requires Inv(s, w) && Starts(s, w) && w.decided == ScaleDown && !Harmless(s, w.decided, w.members)
    ensures Breaks(s, w, es)
  {
    hide Inv, CarefulRun, Run, IsDrainChoice;
    InvParts(s, w);
    var id := ChoiceExists(w.members, s.self);
    ChoiceIsOther(w.members, s.self, id);
    var v := Launched(s, w);
    var chosen := Next(s, v, Choose(Some(id)));
    var draining := Next(s, chosen, MarkDraining);
    var end := Next(s, draining, DecommissionDone);
    CarefulOne(s, v, Choose(Some(id)), [MarkDraining] + ([DecommissionDone] + []));
    CarefulOne(s, chosen, MarkDraining, [DecommissionDone] + []);
    CarefulOne(s, draining, DecommissionDone, []);
    RunNothing(s, end);
    MarksKeepKeys(w.members, id, true, 0.0);
    SameKeysSameSize(draining.members, w.members);
    assert draining.members.Keys == end.members.Keys + {id};
    assert |draining.members.Keys| == |end.members.Keys| + 1;
    es := [Launch] + ([Choose(Some(id))] + ([MarkDraining] + ([DecommissionDone] + [])));
    assert es[1..] == [Choose(Some(id))] + ([MarkDraining] + ([DecommissionDone] + []));
    RunFirst(s, w, es);
  }

  /**
   Launching a decision can take the pool out of its bounds, in some run careful from then
   on, exactly when it starts an operation and the size at the launch forbids it (removing
   has somebody to remove).
   */
  lemma LaunchBreaksExactly(s: Setup, w: World, extra: Node)
    requires Inv(s, w) && extra.id !in w.members && !s.ops.blank(extra.id)
    ensures (exists es :: Breaks(s, w, es)) <==> Starts(s, w) && !Harmless(s, w.decided, w.members)
  {
    hide Inv, Run, CarefulRun, Harmless, WithinBounds;
    if Starts(s, w) && !Harmless(s, w.decided, w.members) {
      var es: seq<Event>;
      if w.decided == ScaleUp {
        es := LaunchPastCeiling(s, w, extra);
      } else {
        es := LaunchBelowFloor(s, w);
      }
      assert Breaks(s, w, es);
    } else {
      StepKeeps(s, w, Launch);
      forall es | |es| > 0 && es[0] == Launch && CarefulRun(s, Launched(s, w), es[1..])
        ensures WithinBounds(s.cfg, |Run(s, w, es).members|)
      {
        RunFirst(s, w, es);
        RunKeeps(s, Launched(s, w), es[1..]);
      }
    }
  }

  function Relay(id: Id): Node {
    Node(id, "", "", "", "")
  }

  /** The pool ceiling is 2 and the pool holds one node, under constant high load. */
  function CrowdedSetup(ops: TextOps): Setup {
    Setup(Config(0.8, 0.3, 0, 0, 1, 2), "self", true, ops)
  }

  function CrowdedWorld(): World {
    World(map["self" := Member(Relay("self"), true, false, 0.0, 0)], [], Idle, Stay)
  }

  /** The first provision completes between the second decision and its launch. */
  function CrowdedEvents(): seq<Event> {
    [Sample(0.9, 0), Launch, Sample(0.9, 1), ProvisionReady(Relay("b"), 2), Clear, Launch, ProvisionReady(Relay("c"), 3)]
  }

  ghost predicate AllEnabled(s: Setup, w: World, es: seq<Event>)
    decreases |es|
  {
    |es| > 0 ==> Enabled(s, w, es[0]) && AllEnabled(s, Next(s, w, es[0]), es[1..])
  }

  lemma Advance(s: Setup, w: World, es: seq<Event>, k: nat)
    requires k < |es|
    ensures Run(s, w, es[k..]) == Run(s, Next(s, w, es[k]), es[k + 1..])
    ensures AllEnabled(s, w, es[k..]) <==> Enabled(s, w, es[k]) && AllEnabled(s, Next(s, w, es[k]), es[k + 1..])
  {
    assert es[k..][1..] == es[k + 1..];
  }

  lemma Stop(s: Setup, w: World, es: seq<Event>)
    ensures Run(s, w, es[|es|..]) == w && AllEnabled(s, w, es[|es|..])
  {
  }

  lemma CrowdedDecisions(c: Config)
    requires c == Config(0.8, 0.3, 0, 0, 1, 2)
    ensures ActionAt(c, [Reading(0.9, 1, 0)], 0) == ScaleUp
    ensures ActionAt(c, [Reading(0.9, 1, 0), Reading(0.9, 1, 1)], 1) == ScaleUp
  {
    var rs := [Reading(0.9, 1, 0), Reading(0.9, 1, 1)];
    TimersUnfold(c, rs, 1);
  }

  /** The world just after the second decision. */
  function CrowdedMiddle(): World {
    World(map["self" := Member(Relay("self"), true, false, 0.9, 0)], [Reading(0.9, 1, 0), Reading(0.9, 1, 1)], Growing, ScaleUp)
  }

  lemma CrowdedStart(ops: TextOps)
    ensures var s, es := CrowdedSetup(ops), CrowdedEvents();
            && Run(s, CrowdedWorld(), es) == Run(s, CrowdedMiddle(), es[3..])
            && (AllEnabled(s, CrowdedMiddle(), es[3..]) ==> AllEnabled(s, CrowdedWorld(), es))
  {
    hide ActionAt, Run, AllEnabled;
    var s, es := CrowdedSetup(ops), CrowdedEvents();
    CrowdedDecisions(s.cfg);
    var w0, w3 := CrowdedWorld(), CrowdedMiddle();
    var w1 := World(w3.members, [Reading(0.9, 1, 0)], Idle, ScaleUp);
    var w2 := w1.(op := Growing, decided := Stay);
    assert es[0..] == es;
    Advance(s, w0, es, 0);
    assert Next(s, w0, es[0]) == w1;
    Advance(s, w1, es, 1);
    assert Next(s, w1, es[1]) == w2;
    Advance(s, w2, es, 2);
    assert Next(s, w2, es[2]) == w3 by {
      assert Loaded(w2.members, "self", 0.9) == w2.members;
      assert w2.readings + [Reading(0.9, 1, 1)] == w3.readings;
    }
  }

  lemma ThreeKeys(ms: Members)
    requires ms.Keys == {"self", "b", "c"}
    ensures |ms| == 3
  {
    assert |ms| == |ms.Keys|;
  }

  /** The world once the first provision has finished. */
  function CrowdedLate(): World {
    var w := CrowdedMiddle();
    w.(members := w.members["b" := Member(Relay("b"), true, false, 0.0, 2)], op := Idle)
  }

  lemma CrowdedFirst(ops: TextOps)
    requires !ops.blank("b")
    ensures var s, es := CrowdedSetup(ops), CrowdedEvents();
            && Run(s, CrowdedMiddle(), es[3..]) == Run(s, CrowdedLate(), es[5..])
            && (AllEnabled(s, CrowdedLate(), es[5..]) ==> AllEnabled(s, CrowdedMiddle(), es[3..]))
  {
    hide ActionAt, Run, AllEnabled, IsDrainChoice, Sampled, Loaded, Marked;
    var s, es := CrowdedSetup(ops), CrowdedEvents();
    var w3, w5 := CrowdedMiddle(), CrowdedLate();
    Advance(s, w3, es, 3);
    assert Next(s, w3, es[3]) == w5.(op := Finished);
    Advance(s, w5.(op := Finished), es, 4);
  }

  lemma CrowdedSecond(ops: TextOps)
    requires !ops.blank("c")
    ensures var s, es := CrowdedSetup(ops), CrowdedEvents();
            AllEnabled(s, CrowdedLate(), es[5..]) && |Run(s, CrowdedLate(), es[5..]).members| == 3
  {
    hide ActionAt, Run, AllEnabled, IsDrainChoice, Sampled, Loaded, Marked;
    var s, es := CrowdedSetup(ops), CrowdedEvents();
    var w5 := CrowdedLate();
    Advance(s, w5, es, 5);
    var w6 := w5.(op := Growing, decided := Stay);
    assert Next(s, w5, es[5]) == w6;
    Advance(s, w6, es, 6);
    var w7 := w6.(members := w6.members["c" := Member(Relay("c"), true, false, 0.0, 3)], op := Finished);
    assert Next(s, w6, es[6]) == w7;
    Stop(s, w7, es);
    ThreeKeys(w7.members);
  }

  /** If a tick's size check and its launch are separate steps, the ceiling can be passed. */
  lemma SplitTickOverflows(ops: TextOps)
    requires !ops.blank("b") && !ops.blank("c")
    ensures var s, w := CrowdedSetup(ops), CrowdedWorld();
            Inv(s, w) && AllEnabled(s, w, CrowdedEvents()) && |Run(s, w, CrowdedEvents()).members| == 3
  {
    hide Run, AllEnabled;
    CrowdedStart(ops);
    CrowdedFirst(ops);
    CrowdedSecond(ops);
    assert CrowdedWorld().members.Keys == {"self"};
    assert |CrowdedWorld().members| == |CrowdedWorld().members.Keys|;
  }
}
