/**
 What pinning means (tunnel/pubcache/pin.go): which objects a pin retains, what happens on
 the way under a schedule of quarantines, when it is refused, and the state it ends in.
 */
module PinPlan {
  import opened Basics
  import opened Manifest
  import opened PinModel
  import opened PinInterleavings

  datatype Why = Budget | Fetch | Unverified | DiskFailed | NotFound | Forbidden

  datatype Outcome = Done(rec: Record) | Refused(why: Why)

  /** Everything an operation meets from outside: fetches, disk failures, quarantines. */
  datatype Env = Env(
    fetch: Key -> Option<Bytes>,
    writeOk: Key -> bool,
    indexOk: bool,
    now: int,
    during: nat -> seq<Bad>,
    window: seq<Bad>,
    undo: seq<Bad>)
  {
    /** No quarantine runs before the pin is committed or given up. */
    ghost predicate Calm() {
      (forall i :: during(i) == []) && undo == []
    }

    ghost predicate Quiet() {
      Calm() && window == []
    }
  }

  // ------------------------------------------------------------------- the object set

  /** Chunks without repetitions, in order of first mention. */
  function Distinct(chunks: seq<Address>): (d: seq<Address>)
    ensures forall a :: a in d <==> a in chunks
    ensures forall i, j :: 0 <= i < j < |d| ==> d[i] != d[j]
  {
    if |chunks| == 0 then []
    else
      var n := |chunks| - 1;
      var d := Distinct(chunks[..n]);
      assert chunks == chunks[..n] + [chunks[n]];
      if chunks[n] in d then d else d + [chunks[n]]
  }

  /** The keys a pin retains: its root, then each distinct chunk. */
  function WantedKeys(root: Key, chunks: seq<Address>): (keys: seq<Key>)
    requires root.kind != Chunk || chunks == []
    ensures |keys| == 1 + |Distinct(chunks)| && keys[0] == root
    ensures forall a :: a in chunks ==> Key(Chunk, a) in keys
    ensures forall i, j :: 0 <= i < j < |keys| ==> keys[i] != keys[j]
  {
    var d := Distinct(chunks);
    var rest := seq(|d|, i requires 0 <= i < |d| => Key(Chunk, d[i]));
    assert forall a :: a in d ==> Key(Chunk, a) in rest by {
      forall a | a in d
        ensures Key(Chunk, a) in rest
      {
        var i :| 0 <= i < |d| && d[i] == a;
        assert rest[i] == Key(Chunk, a);
      }
    }
    [root] + rest
  }

  lemma WantedNone(root: Key)
    requires root.kind != Chunk
    ensures WantedKeys(root, []) == [root]
  {
  }

  lemma WantedOneMore(root: Key, chunks: seq<Address>, c: Address)
    requires root.kind != Chunk
    ensures WantedKeys(root, chunks + [c])
            == if c in chunks then WantedKeys(root, chunks) else WantedKeys(root, chunks) + [Key(Chunk, c)]
  {
    assert (chunks + [c])[..|chunks|] == chunks;
  }

  /** The objects a pin of root retains, given the root's bytes. */
  function ObjectsOf(gate: Gate, root: Key, body: Bytes): seq<Key> {
    match gate.chunks(root, body)
    case Some(chunks) => if root.kind == PubManifest then WantedKeys(root, chunks) else [root]
    case None => [root]
  }

  ghost predicate NoDuplicates(keys: seq<Key>) {
    forall i, j :: 0 <= i < j < |keys| ==> keys[i] != keys[j]
  }

  lemma ObjectsMeans(gate: Gate, root: Key, body: Bytes)
    ensures root.kind != PubManifest ==> ObjectsOf(gate, root, body) == [root]
    ensures root.kind == PubManifest && gate.chunks(root, body).Some? ==>
              ObjectsOf(gate, root, body) == WantedKeys(root, gate.chunks(root, body).value)
  {
  }

  lemma NoDuplicateWants(gate: Gate, root: Key, body: Bytes)
    ensures NoDuplicates(ObjectsOf(gate, root, body)) && |ObjectsOf(gate, root, body)| > 0
  {
  }

  // ------------------------------------------------------------- when a pin is refused

  /** What a store is opened with: the gate, and the budgets, none of which is set at zero or below. */
  datatype Rules = Rules(gate: Gate, maxBytes: int, maxPinBytes: int, maxObjBytes: int, maxPins: int)

  /** The gate and the three byte budgets, for one object that is not held yet. */
  function Screen(c: Rules, key: Key, body: Bytes, pinBytes: nat, bytes: int): (failed: Option<Why>)
    ensures failed.None? <==>
              && c.gate.accepts(key, body)
              && (c.maxObjBytes <= 0 || |body| <= c.maxObjBytes)
              && (c.maxPinBytes <= 0 || pinBytes + |body| <= c.maxPinBytes)
              && (c.maxBytes <= 0 || bytes + |body| <= c.maxBytes)
    ensures failed == Some(Unverified) <==> !c.gate.accepts(key, body)
    ensures failed.Some? ==> failed.value == Unverified || failed.value == Budget
  {
    if !c.gate.accepts(key, body) then Some(Unverified)
    else if c.maxObjBytes > 0 && |body| > c.maxObjBytes then Some(Budget)
    else if c.maxPinBytes > 0 && pinBytes + |body| > c.maxPinBytes then Some(Budget)
    else if c.maxBytes > 0 && bytes + |body| > c.maxBytes then Some(Budget)
    else None
  }

  /** What a pin sets out to retain: its keys, the root's bytes, and where the rest come from. */
  datatype Plan = Plan(wants: seq<Key>, rootBody: Bytes, env: Env)

  function BodyOf(p: Plan, i: nat): Option<Bytes>
    requires i < |p.wants|
  {
    if i == 0 then Some(p.rootBody) else p.env.fetch(p.wants[i])
  }

  function NewSize(p: Plan, i: nat): nat
    requires i < |p.wants|
  {
    if BodyOf(p, i).Some? then |BodyOf(p, i).value| else 0
  }

  /**
   Everything that happens from a pin's start until it has passed its first n objects, when
   it does not stop: a held object is passed by, a missing one is written and then claimed,
   and the scheduled quarantines run at each point where the lock is free.
   */
  ghost function Timeline(s: Store, p: Plan, n: nat): seq<Inside>
    requires n <= |p.wants|
  {
    if n == 0 then Purges(p.env.during(0))
    else
      var seen := Timeline(s, p, n - 1) + Purges(p.env.during(4 * n - 3));
      var key, body := p.wants[n - 1], BodyOf(p, n - 1);
      if key in After(s, seen).objects || body.None? then seen
      else
        seen + Purges(p.env.during(4 * n - 2)) + Purges(p.env.during(4 * n - 1)) + [Put(key, body.value)]
        + Purges(p.env.during(4 * n)) + [Own(key, |body.value|)]
  }

  /** All of it, until the lock is taken to enter the record. */
  ghost function Flown(s: Store, p: Plan): seq<Inside> {
    Timeline(s, p, |p.wants|) + Purges(p.env.during(4 * |p.wants| + 1))
  }

  /** The events until object i is looked up. */
  ghost function Seen(s: Store, p: Plan, i: nat): seq<Inside>
    requires i < |p.wants|
  {
    Timeline(s, p, i) + Purges(p.env.during(4 * i + 1))
  }

  /** The size so far of a pin that has passed its first n objects. */
  ghost function Weighed(s: Store, p: Plan, n: nat): nat
    requires n <= |p.wants|
  {
    if n == 0 then 0
    else
      var held := After(s, Seen(s, p, n - 1)).objects;
      Weighed(s, p, n - 1) + if p.wants[n - 1] in held then held[p.wants[n - 1]] else NewSize(p, n - 1)
  }

  lemma TimelineUnfold(s: Store, p: Plan, n: nat)
    requires n < |p.wants|
    ensures var seen := Timeline(s, p, n) + Purges(p.env.during(4 * n + 1));
            var key := p.wants[n];
            && (key in After(s, seen).objects ==> Timeline(s, p, n + 1) == seen)
            && (key !in After(s, seen).objects && BodyOf(p, n).Some? ==>
                  Timeline(s, p, n + 1)
                  == seen + Purges(p.env.during(4 * n + 2)) + Purges(p.env.during(4 * n + 3)) + [Put(key, BodyOf(p, n).value)]
                     + Purges(p.env.during(4 * n + 4)) + [Own(key, |BodyOf(p, n).value|)])
  {
    hide After, Purges;
  }

  lemma TimelineStart(s: Store, p: Plan)
    ensures Timeline(s, p, 0) == [] + Purges(p.env.during(0))
  {
    assert [] + Purges(p.env.during(0)) == Purges(p.env.during(0));
  }

  lemma SeenUnfold(s: Store, p: Plan, i: nat)
    requires i < |p.wants|
    ensures Seen(s, p, i) == Timeline(s, p, i) + Purges(p.env.during(4 * i + 1))
  {
  }

  lemma FlownUnfold(s: Store, p: Plan)
    ensures Flown(s, p) == Timeline(s, p, |p.wants|) + Purges(p.env.during(4 * |p.wants| + 1))
  {
  }

  /** The budgets and the gate for object i, when it is about to be written. */
  ghost function Screened(c: Rules, s: Store, p: Plan, i: nat): Option<Why>
    requires i < |p.wants| && BodyOf(p, i).Some?
  {
    var later := After(s, Seen(s, p, i) + Purges(p.env.during(4 * i + 2)));
    Screen(c, p.wants[i], BodyOf(p, i).value, Weighed(s, p, i), later.bytes)
  }

  /** Why the pin stops at object i, if it does: a held object is passed by. */
  ghost function Refusal(c: Rules, s: Store, p: Plan, i: nat): Option<Why>
    requires i < |p.wants|
  {
    if p.wants[i] in After(s, Seen(s, p, i)).objects then None
    else if BodyOf(p, i).None? then Some(Fetch)
    else if Screened(c, s, p, i).Some? then Screened(c, s, p, i)
    else if p.env.writeOk(p.wants[i]) then None
    else Some(DiskFailed)
  }

  lemma HeldIsPassed(c: Rules, s: Store, p: Plan, i: nat)
    requires i < |p.wants| && p.wants[i] in After(s, Seen(s, p, i)).objects
    ensures Refusal(c, s, p, i).None?
  {
  }

  /** Everything that happens until the pin stops at object i and is rolled back. */
  ghost function Halted(c: Rules, s: Store, p: Plan, i: nat): seq<Inside>
    requires i < |p.wants|
  {
    var asked := Seen(s, p, i) + Purges(p.env.during(4 * i + 2));
    if BodyOf(p, i).None? || Screened(c, s, p, i).Some? then asked
    else asked + Purges(p.env.during(4 * i + 3)) + Purges(p.env.during(4 * i + 4))
  }

  /** How many of its first n objects the pin passes before the first refusal. */
  ghost function Passed(c: Rules, s: Store, p: Plan, n: nat): (m: nat)
    requires n <= |p.wants|
    ensures m <= n
  {
    if n == 0 then 0
    else
      var m := Passed(c, s, p, n - 1);
      if m == n - 1 && Refusal(c, s, p, n - 1).None? then n else m
  }

  /** It passes objects until one is refused, and only until then. */
  lemma {:induction false} PassedMeans(c: Rules, s: Store, p: Plan, n: nat)
    requires n <= |p.wants|
    ensures var m := Passed(c, s, p, n);
            && (m < n ==> Refusal(c, s, p, m).Some?)
            && (forall i :: 0 <= i < m ==> Refusal(c, s, p, i).None?)
  {
    hide Refusal;
    if n > 0 {
      PassedMeans(c, s, p, n - 1);
    }
  }

  /** The first refusal is where it stops. */
  lemma {:induction false} StopsThere(c: Rules, s: Store, p: Plan, i: nat, n: nat)
    requires i < n <= |p.wants| && Passed(c, s, p, i) == i && Refusal(c, s, p, i).Some?
    ensures Passed(c, s, p, n) == i
    decreases n
  {
    hide Refusal;
    if n - 1 > i {
      StopsThere(c, s, p, i, n - 1);
    }
  }

  lemma PassesOn(c: Rules, s: Store, p: Plan, i: nat)
    requires i < |p.wants| && Passed(c, s, p, i) == i && Refusal(c, s, p, i).None?
    ensures Passed(c, s, p, i + 1) == i + 1
  {
    hide Refusal;
  }

  // -------------------------------------------------------------------- how a pin ends

  /** Objects can be listed: of a manifest, that is, the bytes verify. */
  predicate Lists(gate: Gate, root: Key, body: Bytes) {
    root.kind == PubManifest ==> gate.chunks(root, body).Some?
  }

  /** The plan of a pin whose root could be fetched. */
  function PlanFor(gate: Gate, root: Key, env: Env): Plan
    requires env.fetch(root).Some?
  {
    var body := env.fetch(root).value;
    Plan(ObjectsOf(gate, root, body), body, env)
  }

  /** The record entered when every object has been passed. */
  ghost function RecordOf(s: Store, p: Plan, root: Key, owner: string): Record {
    Record(root, owner, p.wants, Weighed(s, p, |p.wants|), p.env.now)
  }

  /** The store when the record is about to be entered. */
  ghost function AtEntry(s: Store, p: Plan): Store {
    After(s, Flown(s, p))
  }

  /** A record entered and in the index, the window, and the claims released. */
  ghost function Settled(e: Store, rec: Record, window: seq<Bad>): Store {
    QuarantinedAll(Entered(e, rec, true), window).(pending := map[])
  }

  /** A pin of listed objects: stopped at the first refusal, given up for a failing index write, or done. */
  ghost function Attempt(c: Rules, s: Store, p: Plan, root: Key, owner: string): (Outcome, Store) {
    var i := Passed(c, s, p, |p.wants|);
    var e, rec := AtEntry(s, p), RecordOf(s, p, root, owner);
    PassedMeans(c, s, p, |p.wants|);
    if i < |p.wants| then (Refused(Refusal(c, s, p, i).value), GivenUp(After(s, Halted(c, s, p, i)), p.env.undo))
    else if p.env.indexOk then (Done(rec), Settled(e, rec, p.env.window))
    else (Refused(DiskFailed), Withdrawn(e, rec, p.env.window, p.env.undo))
  }

  /** There is room for another pin and the root is at hand. */
  ghost predicate Begins(c: Rules, s: Store, root: Key, env: Env) {
    && root !in s.pins
    && (c.maxPins > 0 ==> |s.pins| < c.maxPins)
    && env.fetch(root).Some? && Lists(c.gate, root, env.fetch(root).value)
  }

  /** And every object is passed, so the record is entered. */
  ghost predicate Enters(c: Rules, s: Store, root: Key, env: Env) {
    Begins(c, s, root, env) && var p := PlanFor(c.gate, root, env); Passed(c, s, p, |p.wants|) == |p.wants|
  }

  /** The store just after the record was entered. */
  ghost function AfterEntry(c: Rules, s: Store, root: Key, owner: string, env: Env): Store
    requires env.fetch(root).Some?
  {
    var p := PlanFor(c.gate, root, env);
    Entered(AtEntry(s, p), RecordOf(s, p, root, owner), env.indexOk)
  }

  /** The record, if an index that has it may be written. */
  ghost function Indexing(env: Env, rec: Record): Option<Record> {
    if env.indexOk || env.window != [] then Some(rec) else None
  }

  ghost function Making(c: Rules, s: Store, root: Key, owner: string, env: Env): Option<Record> {
    if Enters(c, s, root, env) then Indexing(env, RecordOf(s, PlanFor(c.gate, root, env), root, owner)) else None
  }

  /** What a pin answers and the state it ends in, whatever quarantines run on the way. */
  ghost function Ending(c: Rules, s: Store, root: Key, owner: string, env: Env): (Outcome, Store) {
    if root in s.pins then (Done(s.pins[root]), s)
    else if c.maxPins > 0 && |s.pins| >= c.maxPins then (Refused(Budget), s)
    else if Begins(c, s, root, env) then Attempt(c, s, PlanFor(c.gate, root, env), root, owner)
    else (Refused(if env.fetch(root).None? then Fetch else Unverified), QuarantinedAll(s, env.during(0)))
  }
}
