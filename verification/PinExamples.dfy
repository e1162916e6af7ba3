/**
 Schedules of quarantines, for any gate and any bytes, at which a pin does not do what one
 would hope: a record done whose chunk is gone from the books, one whose file is gone from
 the disk, objects left that nothing names, and a refused pin that a restart brings back.
 */
module PinExamples {
  import opened Basics
  import opened Manifest
  import opened Totals
  import opened PinModel
  import opened PinInterleavings
  import opened PinPlan
  import opened PinResults

  /** A pinned root, a manifest to pin, and the one chunk it names, which the first also has. */
  predicate Shared(gate: Gate, oldRoot: Key, newRoot: Key, chunk: Key, b: Bytes) {
    && oldRoot != newRoot && oldRoot != chunk && newRoot.kind == PubManifest && chunk.kind == Chunk
    && gate.accepts(newRoot, b) && gate.chunks(newRoot, b) == Some([chunk.addr])
  }

  function OldRecord(oldRoot: Key, chunk: Key, a: Bytes, d: Bytes): Record {
    Record(oldRoot, "", [oldRoot, chunk], |a| + |d|, 0)
  }

  /** A store holding one pin, of a root and the chunk. */
  function OnePin(oldRoot: Key, chunk: Key, a: Bytes, d: Bytes): Store {
    var pins := map[oldRoot := OldRecord(oldRoot, chunk, a, d)];
    Store(pins, map[oldRoot := |a|, chunk := |d|], {}, map[], |a| + |d|,
          Disk(map[oldRoot := a, chunk := d], Some(pins)))
  }

  function NoPins(): Store {
    Store(map[], map[], {}, map[], 0, Disk(map[], Some(map[])))
  }

  function Unlimited(gate: Gate): Rules {
    Rules(gate, 0, 0, 0, 0)
  }

  lemma OnePinHealthy(oldRoot: Key, chunk: Key, a: Bytes, d: Bytes)
    requires oldRoot != chunk
    ensures Healthy(OnePin(oldRoot, chunk, a, d))
  {
    var s, rec := OnePin(oldRoot, chunk, a, d), OldRecord(oldRoot, chunk, a, d);
    assert Accounted(s) by {
      TwoTotal(oldRoot, chunk, |a|, |d|);
    }
    hide Total;
    assert rec.objects[0] == oldRoot && rec.objects[1] == chunk;
    assert oldRoot in rec.objects && chunk in rec.objects;
    assert s.pins.Keys == {oldRoot} && s.pins[oldRoot] == rec;
    assert AllNamed(s) by {
      assert s.objects.Keys == {oldRoot, chunk};
      assert oldRoot in Referenced(s.pins) && chunk in Referenced(s.pins);
    }
    assert Complete(s) && OnDisk(s) && Synced(s);
  }

  lemma TwoTotal(x: Key, y: Key, m: nat, n: nat)
    requires x != y
    ensures Total(map[x := m, y := n]) == m + n
  {
    var none: map<Key, nat> := map[];
    assert Total(none) == 0;
    hide Total;
    assert none[x := m] == map[x := m] && map[x := m][y := n] == map[x := m, y := n];
    TotalAdd(none, x, m);
    TotalAdd(map[x := m], y, n);
  }

  lemma HealthyParts(s: Store)
    requires Healthy(s)
    ensures Accounted(s) && AllNamed(s) && s.pending == map[] && IndexedPins(s.disk) == s.pins
  {
  }

  /** Root's bytes can be fetched, everything can be written, and quarantines run at one point and in the window. */
  function Schedule(root: Key, b: Bytes, indexOk: bool, at: nat, bads: seq<Bad>, window: seq<Bad>): Env {
    Env((k: Key) => if k == root then Some(b) else None, (k: Key) => true, indexOk, 0,
        (i: nat) => if i == at then bads else [], window, [])
  }

  // ------------------------------------------------------------- a manifest and its chunk

  lemma TwoWants(gate: Gate, oldRoot: Key, newRoot: Key, chunk: Key, b: Bytes, env: Env)
    requires Shared(gate, oldRoot, newRoot, chunk, b) && env.fetch(newRoot) == Some(b)
    ensures PlanFor(gate, newRoot, env) == Plan([newRoot, chunk], b, env)
  {
    hide WantedKeys, Distinct;
    ObjectsMeans(gate, newRoot, b);
    WantedNone(newRoot);
    WantedOneMore(newRoot, [], chunk.addr);
    assert [] + [chunk.addr] == [chunk.addr];
    assert Key(Chunk, chunk.addr) == chunk;
  }

  /** Nothing has happened when the first object is looked up: it is missing, and nothing objects to it. */
  lemma FirstIsStaged(c: Rules, s: Store, p: Plan, k: Key)
    requires |p.wants| > 0 && p.wants[0] == k && k !in s.objects && c.gate.accepts(k, p.rootBody) && c == Unlimited(c.gate)
    requires forall i :: 0 <= i <= 3 ==> p.env.during(i) == []
    requires p.env.writeOk(k)
    ensures Refusal(c, s, p, 0).None?
    ensures Timeline(s, p, 1) == [Put(k, p.rootBody)] + Purges(p.env.during(4)) + [Own(k, |p.rootBody|)]
  {
    hide After, Screen;
    var none: seq<Inside> := [];
    assert Purges([]) == none;
    NothingYet(s);
    assert Seen(s, p, 0) == none && Seen(s, p, 0) + Purges(p.env.during(2)) == none;
    NoLimit(c, k, p.rootBody, Weighed(s, p, 0), s.bytes);
    TimelineUnfold(s, p, 0);
    assert none + [Put(k, p.rootBody)] == [Put(k, p.rootBody)];
  }

  lemma NoLimit(c: Rules, k: Key, body: Bytes, pinBytes: nat, bytes: int)
    requires c.gate.accepts(k, body) && c == Unlimited(c.gate)
    ensures Screen(c, k, body, pinBytes, bytes).None?
  {
  }

  lemma NothingYet(s: Store)
    ensures After(s, []) == s
  {
  }

  lemma TwoSteps(s: Store, k: Key, body: Bytes)
    ensures After(s, [Put(k, body), Own(k, |body|)]) == Claimed(FileWritten(s, k, body), k, |body|)
  {
    hide After;
    NothingYet(s);
    AfterOne(s, [], Put(k, body));
    AfterOne(s, [Put(k, body)], Own(k, |body|));
    assert [] + [Put(k, body)] == [Put(k, body)];
    assert [Put(k, body)] + [Own(k, |body|)] == [Put(k, body), Own(k, |body|)];
  }

  /** The pin writes and claims its root, finds the chunk, and then the quarantines at point nine run. */
  lemma TheFlight(gate: Gate, oldRoot: Key, newRoot: Key, chunk: Key, a: Bytes, b: Bytes, d: Bytes,
                  indexOk: bool, last: seq<Bad>, window: seq<Bad>)
    requires Shared(gate, oldRoot, newRoot, chunk, b)
    ensures var s, env := OnePin(oldRoot, chunk, a, d), Schedule(newRoot, b, indexOk, 9, last, window);
            && PlanFor(gate, newRoot, env) == Plan([newRoot, chunk], b, env)
            && Enters(Unlimited(gate), s, newRoot, env)
            && Flown(s, Plan([newRoot, chunk], b, env)) == [Put(newRoot, b), Own(newRoot, |b|)] + Purges(last)
  {
    hide After, Refusal, Timeline, ObjectsOf;
    var c, s := Unlimited(gate), OnePin(oldRoot, chunk, a, d);
    var env := Schedule(newRoot, b, indexOk, 9, last, window);
    var p := Plan([newRoot, chunk], b, env);
    TwoWants(gate, oldRoot, newRoot, chunk, b, env);
    var es, none: seq<Inside> := [Put(newRoot, b), Own(newRoot, |b|)], [];
    FirstIsStaged(c, s, p, newRoot);
    assert Purges([]) == none;
    assert Timeline(s, p, 1) == es;
    assert Seen(s, p, 1) == es;
    TwoSteps(s, newRoot, b);
    HeldIsPassed(c, s, p, 1);
    TimelineUnfold(s, p, 1);
    assert Timeline(s, p, 2) == es;
    PassesOn(c, s, p, 0);
    PassesOn(c, s, p, 1);
  }

  lemma OnlyPinTouched(oldRoot: Key, chunk: Key, a: Bytes, d: Bytes, k: Key, bad: Bad)
    requires bad.key == oldRoot || bad.key == chunk
    ensures !StillNamed(OnePin(oldRoot, chunk, a, d), k, [bad])
  {
    var s, bads := OnePin(oldRoot, chunk, a, d), [bad];
    assert bads[0].key in Keys(bads);
    var rec := OldRecord(oldRoot, chunk, a, d);
    assert s.pins.Keys == {oldRoot} && s.pins[oldRoot] == rec;
    assert rec.objects[0] == oldRoot && rec.objects[1] == chunk;
    assert Touches(rec, bads);
    forall r | r in s.pins
      ensures Touches(s.pins[r], bads)
    {
      assert r == oldRoot;
    }
  }

  /**
   A quarantine of the old root after the chunk was found present and before the record is
   entered: the pin is done, and its record has an object that is no longer held.
   */
  lemma DoneButIncomplete(gate: Gate, oldRoot: Key, newRoot: Key, chunk: Key, a: Bytes, b: Bytes, d: Bytes)
    requires Shared(gate, oldRoot, newRoot, chunk, b)
    ensures var s := OnePin(oldRoot, chunk, a, d);
            var end := Ending(Unlimited(gate), s, newRoot, "", Schedule(newRoot, b, true, 9, [Bad(oldRoot, true)], []));
            Healthy(s) && end.0.Done? && !CompleteIn(end.0.rec, end.1.objects.Keys)
  {
    hide Healthy, Flown, StillNamed, Ending, Enters, Weighed, ObjectsOf, HeldAfter, After, CompleteIn, Touches;
    var c, s := Unlimited(gate), OnePin(oldRoot, chunk, a, d);
    var bads := [Bad(oldRoot, true)];
    var env := Schedule(newRoot, b, true, 9, bads, []);
    OnePinHealthy(oldRoot, chunk, a, d);
    TheFlight(gate, oldRoot, newRoot, chunk, a, b, d, true, bads, []);
    DoneMeans(c, s, newRoot, "", env);
    PinCompleteness(c, s, newRoot, "", env);
    var es := Flown(s, PlanFor(gate, newRoot, env));
    assert es == [Put(newRoot, b), Own(newRoot, |b|), Purge(bads[0])];
    LostOnTheWay(oldRoot, newRoot, chunk, a, b, d, es);
    var rec := RecordOf(s, PlanFor(gate, newRoot, env), newRoot, "");
    assert rec.objects[1] == chunk;
  }

  lemma LostOnTheWay(oldRoot: Key, newRoot: Key, chunk: Key, a: Bytes, b: Bytes, d: Bytes, es: seq<Inside>)
    requires newRoot != chunk && es == [Put(newRoot, b), Own(newRoot, |b|), Purge(Bad(oldRoot, true))]
    ensures !HeldAfter(OnePin(oldRoot, chunk, a, d), es, chunk)
  {
    hide StillNamed;
    var bad := Bad(oldRoot, true);
    assert NeverOwned(es, chunk);
    LastIsBad(es, bad);
    OnlyPinTouched(oldRoot, chunk, a, d, chunk, bad);
  }

  lemma LastIsBad(es: seq<Inside>, bad: Bad)
    requires |es| == 3 && !es[0].Purge? && !es[1].Purge? && es[2] == Purge(bad)
    ensures BadsOf(es) == [bad]
  {
    assert es[..2] == [es[0], es[1]] && es[..2][..1] == [es[0]] && es[..2][..1][..0] == [];
    assert BadsOf([]) == [];
    assert BadsOf(es[..2][..1]) == [];
    assert BadsOf(es[..2]) == [];
  }

  /** A quarantine of the chunk after the record was entered: the manifest is left, and nothing names it. */
  lemma DoneAndLeaks(gate: Gate, oldRoot: Key, newRoot: Key, chunk: Key, a: Bytes, b: Bytes, d: Bytes)
    requires Shared(gate, oldRoot, newRoot, chunk, b)
    ensures var s := OnePin(oldRoot, chunk, a, d);
            var end := Ending(Unlimited(gate), s, newRoot, "", Schedule(newRoot, b, true, 9, [], [Bad(chunk, true)]));
            Healthy(s) && end.0.Done? && !AllNamed(end.1)
  {
    hide Healthy, Flown, StillNamed, Ending, Enters, Weighed, ObjectsOf, After, Accounted, AllNamed, StaysNamed, Keys, Touches;
    var c, s := Unlimited(gate), OnePin(oldRoot, chunk, a, d);
    var bads := [Bad(chunk, true)];
    var env := Schedule(newRoot, b, true, 9, [], bads);
    OnePinHealthy(oldRoot, chunk, a, d);
    HealthyParts(s);
    TheFlight(gate, oldRoot, newRoot, chunk, a, b, d, true, [], bads);
    DoneMeans(c, s, newRoot, "", env);
    PinNaming(c, s, newRoot, "", env);
    var p := PlanFor(gate, newRoot, env);
    assert Flown(s, p) == [Put(newRoot, b), Own(newRoot, |b|)];
    TwoSteps(s, newRoot, b);
    var e, rec := AtEntry(s, p), RecordOf(s, p, newRoot, "");
    assert rec.objects[1] == chunk;
    OnlyPinTouched(oldRoot, chunk, a, d, newRoot, bads[0]);
    SameNames(s, e, newRoot, bads);
    LeftUnnamed(e, rec, env, newRoot, bads[0]);
  }

  /** A claimed object that only the record names is left when the window drops the record for another. */
  lemma LeftUnnamed(e: Store, rec: Record, env: Env, k: Key, bad: Bad)
    requires env.indexOk && env.window == [bad] && rec.root !in e.pins
    requires k in e.pending && k in e.objects && k != bad.key && bad.key in rec.objects && !StillNamed(e, k, [bad])
    ensures !StaysNamed(e, rec, env)
  {
    hide StillNamed;
    assert [bad][0].key in Keys([bad]);
    assert Touches(rec, [bad]) && k !in Keys([bad]);
    EnteredNames(e, rec, true, k, [bad]);
  }

  /**
   A quarantine of the old root after the record was entered and before it is taken out
   again, the index write having failed: the chunk is left, and nothing names it.
   */
  lemma RefusedAndLeaks(gate: Gate, oldRoot: Key, newRoot: Key, chunk: Key, a: Bytes, b: Bytes, d: Bytes)
    requires Shared(gate, oldRoot, newRoot, chunk, b)
    ensures var s := OnePin(oldRoot, chunk, a, d);
            var end := Ending(Unlimited(gate), s, newRoot, "", Schedule(newRoot, b, false, 9, [], [Bad(oldRoot, true)]));
            Healthy(s) && end.0 == Refused(DiskFailed) && !AllNamed(end.1)
  {
    hide Healthy, Flown, StillNamed, Weighed, ObjectsOf, After, Accounted, AllNamed, Referenced, Withdrawn, Settled, Refusal;
    var c, s := Unlimited(gate), OnePin(oldRoot, chunk, a, d);
    var bads := [Bad(oldRoot, true)];
    var env := Schedule(newRoot, b, false, 9, [], bads);
    OnePinHealthy(oldRoot, chunk, a, d);
    HealthyParts(s);
    TheFlight(gate, oldRoot, newRoot, chunk, a, b, d, false, [], bads);
    PinNaming(c, s, newRoot, "", env);
    var p := PlanFor(gate, newRoot, env);
    assert Flown(s, p) == [Put(newRoot, b), Own(newRoot, |b|)];
    TwoSteps(s, newRoot, b);
    var e, rec := AtEntry(s, p), RecordOf(s, p, newRoot, "");
    assert rec.objects[1] == chunk && chunk in e.objects && chunk !in e.pending;
    OnlyPinTouched(oldRoot, chunk, a, d, chunk, bads[0]);
    SameNames(s, e, chunk, bads);
    assert Keys(bads) == {oldRoot} by {
      assert bads[0].key in Keys(bads);
    }
    assert !Touches(rec, bads);
  }

  // -------------------------------------------------------------------- a single object

  lemma OneWant(gate: Gate, k: Key, body: Bytes, env: Env)
    requires k.kind != PubManifest && env.fetch(k) == Some(body)
    ensures PlanFor(gate, k, env) == Plan([k], body, env) && Lists(gate, k, body)
  {
    ObjectsMeans(gate, k, body);
  }

  /**
   Two readers found a rotten object; the quarantine of the second runs after a pin of the
   object has written it and before it claims it. The pin is done, the books have the object,
   and its file is gone: a restart does not bring the pin back.
   */
  lemma DoneButGone(gate: Gate, k: Key, body: Bytes)
    requires k.kind != PubManifest && gate.accepts(k, body)
    ensures var end := Ending(Unlimited(gate), NoPins(), k, "", Schedule(k, body, true, 4, [Bad(k, true)], []));
            && Healthy(NoPins()) && end.0.Done?
            && CompleteIn(end.0.rec, end.1.objects.Keys) && AllNamed(end.1)
            && !CompleteIn(end.0.rec, end.1.disk.files.Keys) && k !in Recovered(end.1.disk).pins
  {
    hide Flown, StillNamed, Ending, Enters, Weighed, ObjectsOf, After, Accounted, AllNamed, Recovered, Touches, Keys, CompleteIn;
    hide HeldAfter, FiledAfter;
    var c, s := Unlimited(gate), NoPins();
    var env := Schedule(k, body, true, 4, [Bad(k, true)], []);
    NoPinsHealthy();
    OneFlight(gate, k, body);
    DoneMeans(c, s, k, "", env);
    PinCompleteness(c, s, k, "", env);
    PinNaming(c, s, k, "", env);
    PinDurability(c, s, k, "", env);
    var p := PlanFor(gate, k, env);
    var es := Flown(s, p);
    var rec := RecordOf(s, p, k, "");
    assert rec.objects == [k] && rec.objects[0] == k;
    HeldWithoutFile(s, es, k, body);
    TouchesSplit([]);
    NothingStrays(s, es, rec, env, k, body);
  }

  lemma HeldWithoutFile(s: Store, es: seq<Inside>, k: Key, body: Bytes)
    requires es == [Put(k, body), Purge(Bad(k, true)), Own(k, |body|)]
    ensures HeldAfter(s, es, k) && !FiledAfter(s, es, k)
  {
    assert Puts(es[0], k) && Owns(es[2], k);
    assert OwnedSince(es, k);
    assert !PutSince(es, k) by {
      assert !Puts(es[2], k) && !Puts(es[..2][1], k) && Spoils(es[..2][1], k);
    }
  }

  lemma NoPinsHealthy()
    ensures Healthy(NoPins()) && Accounted(NoPins()) && AllNamed(NoPins())
  {
    assert Total(NoPins().objects) == 0;
  }

  /** The one claimed object is named by the record. */
  lemma NothingStrays(s: Store, es: seq<Inside>, rec: Record, env: Env, k: Key, body: Bytes)
    requires s == NoPins() && es == [Put(k, body), Purge(Bad(k, true)), Own(k, |body|)] && rec.root == k && rec.objects == [k]
    requires env.indexOk && env.window == []
    ensures StaysNamed(After(s, es), rec, env)
  {
    hide Touches, Keys, Then;
    var e := After(s, es);
    PinsAfter(s, es);
    TouchesSplit([]);
    forall x | x in e.pending
      ensures x == k
    {
      PendingAfter(s, es, x);
      var i :| 0 <= i < |es| && Owns(es[i], x);
    }
    assert rec.objects[0] == k;
    EnteredNames(e, rec, true, k, []);
  }

  lemma OneFlight(gate: Gate, k: Key, body: Bytes)
    requires k.kind != PubManifest && gate.accepts(k, body)
    ensures var s, env := NoPins(), Schedule(k, body, true, 4, [Bad(k, true)], []);
            && PlanFor(gate, k, env) == Plan([k], body, env)
            && Enters(Unlimited(gate), s, k, env)
            && Flown(s, Plan([k], body, env)) == [Put(k, body), Purge(Bad(k, true)), Own(k, |body|)]
  {
    hide After, Refusal, Timeline, ObjectsOf;
    var c, s := Unlimited(gate), NoPins();
    var env := Schedule(k, body, true, 4, [Bad(k, true)], []);
    var p := Plan([k], body, env);
    OneWant(gate, k, body, env);
    FirstIsStaged(c, s, p, k);
    var none: seq<Inside> := [];
    assert Purges([]) == none;
    assert Purges([Bad(k, true)]) == [Purge(Bad(k, true))];
    PassesOn(c, s, p, 0);
  }

  /**
   A pin of a chunk that is held, its index write failing, and in the window a quarantine of
   some other object, which writes the index with the record in it: the pin is refused, and
   after a restart it is there.
   */
  lemma RefusedButBack(gate: Gate, oldRoot: Key, chunk: Key, other: Key, a: Bytes, d: Bytes)
    requires oldRoot != chunk && chunk.kind == Chunk && other != oldRoot && other != chunk
    ensures var s := OnePin(oldRoot, chunk, a, d);
            var end := Ending(Unlimited(gate), s, chunk, "", Schedule(chunk, d, false, 0, [], [Bad(other, true)]));
            Healthy(s) && end.0 == Refused(DiskFailed) && chunk !in end.1.pins && chunk in Recovered(end.1.disk).pins
  {
    hide Healthy, StillNamed, Weighed, ObjectsOf, After, Recovered, Withdrawn, Settled, Refusal, Touches, Keys, Timeline;
    var c, s := Unlimited(gate), OnePin(oldRoot, chunk, a, d);
    var bads := [Bad(other, true)];
    var env := Schedule(chunk, d, false, 0, [], bads);
    OnePinHealthy(oldRoot, chunk, a, d);
    HealthyParts(s);
    OneWant(gate, chunk, d, env);
    var p := Plan([chunk], d, env);
    var none: seq<Inside> := [];
    assert Purges([]) == none;
    NothingYet(s);
    assert Timeline(s, p, 0) == none by {
      TimelineStart(s, p);
    }
    assert Seen(s, p, 0) == none;
    HeldIsPassed(c, s, p, 0);
    PassesOn(c, s, p, 0);
    TimelineUnfold(s, p, 0);
    assert Flown(s, p) == none;
    var rec := RecordOf(s, p, chunk, "");
    RefusedPinReturns(c, s, chunk, "", env);
    UntouchedByOther(rec, chunk, other, bads);
    assert bads[0] in bads && bads[0].indexOk;
    assert LeftBehind(s, rec, bads, []);
    WithdrawnWithout(s, rec, bads);
  }

  lemma UntouchedByOther(rec: Record, k: Key, other: Key, bads: seq<Bad>)
    requires rec.objects == [k] && bads == [Bad(other, true)] && k != other
    ensures !Touches(rec, bads) && !Touches(rec, [])
  {
    assert Keys(bads) == {other} by {
      assert bads[0].key in Keys(bads);
    }
  }

  lemma WithdrawnWithout(e: Store, rec: Record, window: seq<Bad>)
    ensures rec.root !in Withdrawn(e, rec, window, []).pins
  {
    hide QuarantinedAll, Total, Touches;
    GivenUpPins(TakenBack(QuarantinedAll(Entered(e, rec, false), window), rec.root), []);
  }
}
