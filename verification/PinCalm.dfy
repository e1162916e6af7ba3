/**
 Pins that no quarantine disturbs (tunnel/pubcache/pin.go): when they succeed, told from the
 store they begin in, that a refusal puts everything back, and what a success adds.
 */
module PinCalm {
  import opened Basics
  import opened Totals
  import opened PinModel
  import opened PinInterleavings
  import opened PinPlan
  import opened PinCrash
  import opened PinResults

  /** The sizes held for a list of keys, added up. */
  ghost function SumSizes(objects: map<Key, nat>, keys: seq<Key>): nat {
    if |keys| == 0 then 0
    else
      var n := |keys| - 1;
      SumSizes(objects, keys[..n]) + if keys[n] in objects then objects[keys[n]] else 0
  }

  lemma {:induction false} SumSizesFrame(objects: map<Key, nat>, keys: seq<Key>, k: Key, v: nat)
    requires k !in keys
    ensures SumSizes(objects[k := v], keys) == SumSizes(objects, keys)
    decreases |keys|
  {
    if |keys| > 0 {
      SumSizesFrame(objects, keys[..|keys| - 1], k, v);
    }
  }

  /** Of different keys that are held, it is the total. */
  lemma {:induction false} SumIsTotal(objects: map<Key, nat>, keys: seq<Key>)
    requires NoDuplicates(keys) && forall k :: k in keys ==> k in objects
    ensures SumSizes(objects, keys) == Total(Sizes(objects, keys))
    decreases |keys|
  {
    hide Total, SumSizes;
    var all := Sizes(objects, keys);
    if |keys| == 0 {
      SumNothing(objects, keys);
      NoSizes();
      assert SizesOf(map[]) == all;
    } else {
      var n := |keys| - 1;
      var front, last := keys[..n], keys[n];
      assert keys == front + [last];
      SumIsTotal(objects, front);
      SumSnoc(objects, front, last);
      NotYet(keys, n);
      SizesSnoc(objects, front, last);
      hide Sizes;
      TotalAdd(Sizes(objects, front), last, objects[last]);
    }
  }

  ghost function Sizes(objects: map<Key, nat>, keys: seq<Key>): map<Key, nat> {
    map k | k in keys && k in objects :: objects[k]
  }

  lemma SizesSnoc(objects: map<Key, nat>, keys: seq<Key>, k: Key)
    requires k in objects && k !in keys
    ensures Sizes(objects, keys + [k]) == Sizes(objects, keys)[k := objects[k]] && k !in Sizes(objects, keys)
  {
  }

  /** The size of the first n objects of a pin, and the part of it that is new. */
  function PinSize(s: Store, p: Plan, n: nat): nat
    requires n <= |p.wants|
  {
    if n == 0 then 0
    else PinSize(s, p, n - 1) + if p.wants[n - 1] in s.objects then s.objects[p.wants[n - 1]] else NewSize(p, n - 1)
  }

  function Growth(s: Store, p: Plan, n: nat): nat
    requires n <= |p.wants|
  {
    if n == 0 then 0
    else Growth(s, p, n - 1) + if p.wants[n - 1] in s.objects then 0 else NewSize(p, n - 1)
  }

  /** Why object i cannot join, if it cannot: a held one always can. */
  function Objection(c: Rules, s: Store, p: Plan, i: nat): Option<Why>
    requires i < |p.wants|
  {
    if p.wants[i] in s.objects then None
    else if BodyOf(p, i).None? then Some(Fetch)
    else
      var screened := Screen(c, p.wants[i], BodyOf(p, i).value, PinSize(s, p, i), s.bytes + Growth(s, p, i));
      if screened.Some? then screened
      else if p.env.writeOk(p.wants[i]) then None
      else Some(DiskFailed)
  }

  /** What the first n objects add to the store. */
  ghost function NewBodies(s: Store, p: Plan, n: nat): map<Key, Bytes>
    requires n <= |p.wants|
  {
    if n == 0 then map[]
    else if p.wants[n - 1] in s.objects || BodyOf(p, n - 1).None? then NewBodies(s, p, n - 1)
    else NewBodies(s, p, n - 1)[p.wants[n - 1] := BodyOf(p, n - 1).value]
  }

  /** Bodies that pass the gate under their keys. */
  ghost predicate Genuine(gate: Gate, bodies: map<Key, Bytes>) {
    forall k :: k in bodies ==> gate.accepts(k, bodies[k])
  }

  lemma {:induction false} NewBodiesParts(s: Store, p: Plan, n: nat)
    requires n <= |p.wants| && NoDuplicates(p.wants)
    ensures var w := NewBodies(s, p, n);
            && w.Keys !! s.objects.Keys && (forall k :: k in w ==> k in p.wants[..n])
            && (n < |p.wants| ==> p.wants[n] !in w)
            && SizesOf(w).Keys == w.Keys
    decreases n
  {
    if n > 0 {
      NewBodiesParts(s, p, n - 1);
      assert p.wants[..n] == p.wants[..n - 1] + [p.wants[n - 1]];
    }
  }

  lemma {:induction false} NewBodiesFetched(gate: Gate, s: Store, root: Key, env: Env, n: nat)
    requires env.fetch(root).Some? && n <= |PlanFor(gate, root, env).wants|
    ensures var w := NewBodies(s, PlanFor(gate, root, env), n); forall k :: k in w ==> env.fetch(k) == Some(w[k])
  {
    hide ObjectsOf;
    var p := PlanFor(gate, root, env);
    if n > 0 {
      NewBodiesFetched(gate, s, root, env, n - 1);
      RootFirst(gate, root, env);
      hide PlanFor;
    }
  }

  lemma RootFirst(gate: Gate, root: Key, env: Env)
    requires env.fetch(root).Some?
    ensures var p := PlanFor(gate, root, env);
            |p.wants| > 0 && p.wants[0] == root && p.rootBody == env.fetch(root).value && p.env == env
  {
  }

  lemma {:induction false} NewBodiesTotal(s: Store, p: Plan, n: nat)
    requires n <= |p.wants| && NoDuplicates(p.wants)
    ensures Total(SizesOf(NewBodies(s, p, n))) == Growth(s, p, n)
    decreases n
  {
    hide Total, SizesOf, NoDuplicates;
    if n == 0 {
      NoSizes();
    } else {
      NewBodiesTotal(s, p, n - 1);
      NewBodiesParts(s, p, n - 1);
      var w, k := NewBodies(s, p, n - 1), p.wants[n - 1];
      if k !in s.objects && BodyOf(p, n - 1).Some? {
        SizesOfMore(w, k, BodyOf(p, n - 1).value);
        TotalAdd(SizesOf(w), k, NewSize(p, n - 1));
      }
    }
  }

  lemma NoSizes()
    ensures SizesOf(map[]) == map[] && Total(SizesOf(map[])) == 0
  {
    assert SizesOf(map[]) == map[];
  }

  lemma NoPurges(es: seq<Inside>)
    ensures es + Purges([]) == es
  {
  }

  /** With no quarantine on the way the store is the first one with the new objects staged. */
  lemma {:induction false} CalmTimeline(s: Store, p: Plan, n: nat)
    requires p.env.Calm() && NoDuplicates(p.wants) && s.pending == map[] && n <= |p.wants|
    ensures After(s, Timeline(s, p, n)) == Staged(s, NewBodies(s, p, n))
    ensures n < |p.wants| ==> Seen(s, p, n) == Timeline(s, p, n)
    decreases n
  {
    hide Staged, NoDuplicates, After, Purges;
    NoPurges([]);
    if n == 0 {
      StageNothing(s);
      NothingAfter(s);
    } else {
      var i := n - 1;
      CalmTimeline(s, p, i);
      TimelineUnfold(s, p, i);
      NoPurges(Timeline(s, p, i));
      CalmStep(s, p, i);
    }
    if n < |p.wants| {
      SeenUnfold(s, p, n);
      NoPurges(Timeline(s, p, n));
    }
  }

  lemma NothingAfter(s: Store)
    ensures After(s, []) == s
  {
  }

  lemma CalmStep(s: Store, p: Plan, i: nat)
    requires p.env.Calm() && NoDuplicates(p.wants) && i < |p.wants|
    requires After(s, Timeline(s, p, i)) == Staged(s, NewBodies(s, p, i)) && Seen(s, p, i) == Timeline(s, p, i)
    ensures After(s, Timeline(s, p, i + 1)) == Staged(s, NewBodies(s, p, i + 1))
  {
    hide After, Purges, NoDuplicates, Claims, Claimed;
    var es, k := Timeline(s, p, i), p.wants[i];
    var w := NewBodies(s, p, i);
    TimelineUnfold(s, p, i);
    NewBodiesParts(s, p, i);
    NoPurges(es);
    StagedHolds(s, w, k);
    if k !in s.objects && BodyOf(p, i).Some? {
      var body := BodyOf(p, i).value;
      var put := es + [Put(k, body)];
      NoPurges(put);
      AfterOne(s, es, Put(k, body));
      AfterOne(s, put, Own(k, |body|));
      StageOneMore(s, w, k, body);
    }
  }

  /** Held means held at the start or written since. */
  lemma StagedHolds(s: Store, bodies: map<Key, Bytes>, k: Key)
    requires bodies.Keys !! s.objects.Keys && k !in bodies
    ensures k in Staged(s, bodies).objects <==> k in s.objects
    ensures k in s.objects ==> Staged(s, bodies).objects[k] == s.objects[k]
    ensures Staged(s, bodies).bytes == s.bytes + Total(SizesOf(bodies))
  {
  }

  lemma {:induction false} CalmWeighed(s: Store, p: Plan, n: nat)
    requires p.env.Calm() && NoDuplicates(p.wants) && s.pending == map[] && n <= |p.wants|
    ensures Weighed(s, p, n) == PinSize(s, p, n)
    decreases n
  {
    hide Staged, NoDuplicates, After, Purges, Timeline, Seen;
    if n > 0 {
      var i := n - 1;
      CalmWeighed(s, p, i);
      CalmTimeline(s, p, i);
      NewBodiesParts(s, p, i);
      StagedHolds(s, NewBodies(s, p, i), p.wants[i]);
    }
  }

  /** What a calm pin meets at each object can be told from the store it begins in. */
  lemma CalmRefusal(c: Rules, s: Store, p: Plan, i: nat)
    requires p.env.Calm() && NoDuplicates(p.wants) && s.pending == map[] && i < |p.wants|
    ensures Refusal(c, s, p, i) == Objection(c, s, p, i)
  {
    hide Staged, NoDuplicates, After, Purges, Timeline, Seen, Screen, Weighed, PinSize, Growth;
    CalmTimeline(s, p, i);
    CalmWeighed(s, p, i);
    NewBodiesParts(s, p, i);
    NewBodiesTotal(s, p, i);
    StagedHolds(s, NewBodies(s, p, i), p.wants[i]);
    NoPurges(Seen(s, p, i));
  }

  /** Nobody objects to any of the objects. */
  ghost predicate NoObjection(c: Rules, s: Store, p: Plan) {
    forall i :: 0 <= i < |p.wants| ==> Objection(c, s, p, i).None?
  }

  /**
   A calm pin is done exactly when it was already there, or there is room, the root is at
   hand and verifies, no object is objected to, and the index is written; and otherwise, if
   some object is objected to, it is refused for the first objection.
   */
  lemma CalmOutcome(c: Rules, s: Store, root: Key, owner: string, env: Env)
    requires env.Calm() && s.pending == map[]
    ensures Ending(c, s, root, owner, env).0.Done? <==>
              root in s.pins
              || (Begins(c, s, root, env) && NoObjection(c, s, PlanFor(c.gate, root, env)) && env.indexOk)
    ensures forall i :: Begins(c, s, root, env) && 0 <= i < |PlanFor(c.gate, root, env).wants|
                        && Objection(c, s, PlanFor(c.gate, root, env), i).Some?
                        && (forall j :: 0 <= j < i ==> Objection(c, s, PlanFor(c.gate, root, env), j).None?) ==>
                          Ending(c, s, root, owner, env).0 == Refused(Objection(c, s, PlanFor(c.gate, root, env), i).value)
  {
    hide Refusal, Settled, Withdrawn, GivenUp, QuarantinedAll, Flown, Halted, ObjectsOf, Weighed, After, Entered;
    hide Objection, NoDuplicates, Passed;
    if Begins(c, s, root, env) {
      var p := PlanFor(c.gate, root, env);
      NoDuplicateWants(c.gate, root, env.fetch(root).value);
      PassedMeans(c, s, p, |p.wants|);
      forall i | 0 <= i < |p.wants|
        ensures Refusal(c, s, p, i) == Objection(c, s, p, i)
      {
        CalmRefusal(c, s, p, i);
      }
    }
  }

  /** Everything is as it was, but for files and hash marks under keys that were not held. */
  ghost predicate Restored(s: Store, t: Store, written: map<Key, Bytes>) {
    && written.Keys !! s.objects.Keys
    && t == s.(verified := s.verified - written.Keys, disk := s.disk.(files := s.disk.files - written.Keys))
  }

  /** A refused pin that no quarantine disturbs leaves everything as it was. */
  lemma RefusalRestores(c: Rules, s: Store, root: Key, owner: string, env: Env) returns (written: map<Key, Bytes>)
    requires env.Quiet() && s.pending == map[] && Ending(c, s, root, owner, env).0.Refused?
    ensures Restored(s, Ending(c, s, root, owner, env).1, written)
  {
    hide Refusal, Settled, Staged, GivenUp, After, Flown, ObjectsOf, Weighed, NoDuplicates, Timeline, Passed;
    hide Screened, Seen, Purges, Restored;
    written := map[];
    RestoredNothing(s);
    if Begins(c, s, root, env) {
      var p := PlanFor(c.gate, root, env);
      NoDuplicateWants(c.gate, root, env.fetch(root).value);
      var i := Passed(c, s, p, |p.wants|);
      CalmTimeline(s, p, i);
      written := NewBodies(s, p, i);
      NewBodiesParts(s, p, i);
      QuietlyGivenUp(s, written);
      NoPurges(Timeline(s, p, i));
      if i == |p.wants| {
        FlownUnfold(s, p);
        PinsAfter(s, Flown(s, p));
        QuietlyWithdrawn(AtEntry(s, p), RecordOf(s, p, root, owner));
      }
    }
  }

  lemma RestoredNothing(s: Store)
    ensures Restored(s, s, map[])
  {
    assert s.disk.files - {} == s.disk.files && s.verified - {} == s.verified;
  }

  lemma QuietlyGivenUp(s: Store, w: map<Key, Bytes>)
    requires s.pending == map[] && w.Keys !! s.objects.Keys
    ensures Restored(s, GivenUp(Staged(s, w), []), w)
  {
    hide Total, DroppedAll, SizesOf;
    assert Staged(s, w).pending.Keys == w.Keys;
    RolledBack(s, w);
    NoBads(DroppedAll(Staged(s, w), w.Keys));
  }

  lemma QuietlyWithdrawn(e: Store, rec: Record)
    requires rec.root !in e.pins
    ensures Withdrawn(e, rec, [], []) == GivenUp(e, [])
  {
    hide GivenUp, QuarantinedAll;
    NoBads(Entered(e, rec, false));
    assert TakenBack(Entered(e, rec, false), rec.root) == e;
  }

  /** A new record over held and newly written objects, every new one verified. */
  ghost predicate Added(gate: Gate, s: Store, rec: Record, written: map<Key, Bytes>) {
    && written.Keys !! s.objects.Keys && Genuine(gate, written)
    && (forall k :: k in written ==> k in rec.objects)
    && CompleteIn(rec, s.objects.Keys + written.Keys)
    && rec.bytes == SumSizes(s.objects + SizesOf(written), rec.objects)
  }

  /** A pin that succeeds before any quarantine runs only adds: its record and the objects it wrote. */
  lemma SuccessAdds(c: Rules, s: Store, root: Key, owner: string, env: Env) returns (written: map<Key, Bytes>)
    requires env.Calm() && s.pending == map[] && Commits(c, s, root, env)
    ensures var rec := RecordOf(s, PlanFor(c.gate, root, env), root, owner);
            && Added(c.gate, s, rec, written) && (forall k :: k in written ==> env.fetch(k) == Some(written[k]))
            && Ending(c, s, root, owner, env).1 == QuarantinedAll(Committed(s, rec, written), env.window).(pending := map[])
  {
    hide Refusal, Staged, After, Flown, ObjectsOf, Weighed, NoDuplicates, Timeline, QuarantinedAll, Passed, Added;
    DoneMeans(c, s, root, owner, env);
    var p := PlanFor(c.gate, root, env);
    NoDuplicateWants(c.gate, root, env.fetch(root).value);
    var n := |p.wants|;
    CalmTimeline(s, p, n);
    FlownUnfold(s, p);
    NoPurges(Timeline(s, p, n));
    written := NewBodies(s, p, n);
    NewBodiesFetched(c.gate, s, root, env, n);
    PassedMeans(c, s, p, n);
    CalmRecord(c, s, p, root, owner);
  }

  /** The record is over held and newly written objects, all verified, its size the sum of theirs. */
  lemma CalmRecord(c: Rules, s: Store, p: Plan, root: Key, owner: string)
    requires p.env.Calm() && NoDuplicates(p.wants) && s.pending == map[] && |p.wants| > 0
    requires forall i :: 0 <= i < |p.wants| ==> Refusal(c, s, p, i).None?
    ensures Added(c.gate, s, RecordOf(s, p, root, owner), NewBodies(s, p, |p.wants|))
  {
    hide Refusal, Staged, Weighed, NoDuplicates, Screen, PinSize, SumSizes, Growth;
    var n := |p.wants|;
    assert p.wants[..n] == p.wants;
    NewBodiesParts(s, p, n);
    CalmWeighed(s, p, n);
    NewBodiesGenuine(c, s, p, n);
    NewBodiesSum(c, s, p, n);
    NewBodiesHeld(c, s, p, n);
  }

  lemma {:induction false} NewBodiesGenuine(c: Rules, s: Store, p: Plan, n: nat)
    requires p.env.Calm() && NoDuplicates(p.wants) && s.pending == map[] && n <= |p.wants|
    requires forall i :: 0 <= i < n ==> Refusal(c, s, p, i).None?
    ensures Genuine(c.gate, NewBodies(s, p, n))
    decreases n
  {
    hide Refusal, NoDuplicates, PinSize, Growth;
    if n > 0 {
      NewBodiesGenuine(c, s, p, n - 1);
      CalmRefusal(c, s, p, n - 1);
    }
  }

  lemma {:induction false} NewBodiesHeld(c: Rules, s: Store, p: Plan, n: nat)
    requires p.env.Calm() && NoDuplicates(p.wants) && s.pending == map[] && n <= |p.wants|
    requires forall i :: 0 <= i < n ==> Refusal(c, s, p, i).None?
    ensures forall k :: k in p.wants[..n] ==> k in s.objects || k in NewBodies(s, p, n)
    decreases n
  {
    hide Refusal, Screen, Growth, PinSize, NoDuplicates;
    if n > 0 {
      NewBodiesHeld(c, s, p, n - 1);
      CalmRefusal(c, s, p, n - 1);
      assert p.wants[..n] == p.wants[..n - 1] + [p.wants[n - 1]];
    }
  }

  lemma {:induction false} NewBodiesSum(c: Rules, s: Store, p: Plan, n: nat)
    requires p.env.Calm() && NoDuplicates(p.wants) && s.pending == map[] && n <= |p.wants|
    requires forall i :: 0 <= i < n ==> Refusal(c, s, p, i).None?
    ensures PinSize(s, p, n) == SumSizes(s.objects + SizesOf(NewBodies(s, p, n)), p.wants[..n])
    decreases n
  {
    hide Refusal, NoDuplicates, SizesOf, SumSizes, NewBodies, PinSize;
    BodiesUnfold(s, p, n);
    if n == 0 {
      SumNothing(s.objects + SizesOf(NewBodies(s, p, 0)), p.wants[..0]);
    } else {
      var i := n - 1;
      var w, k := NewBodies(s, p, i), p.wants[i];
      NewBodiesSum(c, s, p, i);
      NewBodiesParts(s, p, i);
      NotYet(p.wants, i);
      assert p.wants[..n] == p.wants[..i] + [k];
      SumSnoc(s.objects + SizesOf(NewBodies(s, p, n)), p.wants[..i], k);
      if k !in s.objects {
        NotObjected(c, s, p, i);
        OneMoreSize(s.objects, w, k, BodyOf(p, i).value, p.wants[..i]);
      }
    }
  }

  lemma BodiesUnfold(s: Store, p: Plan, n: nat)
    requires n <= |p.wants|
    ensures n == 0 ==> PinSize(s, p, n) == 0
    ensures n > 0 ==>
              var w, k := NewBodies(s, p, n - 1), p.wants[n - 1];
              && PinSize(s, p, n) == PinSize(s, p, n - 1) + (if k in s.objects then s.objects[k] else NewSize(p, n - 1))
              && NewBodies(s, p, n) == (if k in s.objects || BodyOf(p, n - 1).None? then w else w[k := BodyOf(p, n - 1).value])
  {
  }

  lemma NotObjected(c: Rules, s: Store, p: Plan, i: nat)
    requires p.env.Calm() && NoDuplicates(p.wants) && s.pending == map[] && i < |p.wants|
    requires Refusal(c, s, p, i).None? && p.wants[i] !in s.objects
    ensures BodyOf(p, i).Some?
  {
    hide Refusal, NoDuplicates, Screen, PinSize, Growth;
    CalmRefusal(c, s, p, i);
  }

  lemma SumNothing(objects: map<Key, nat>, keys: seq<Key>)
    requires |keys| == 0
    ensures SumSizes(objects, keys) == 0
  {
  }

  lemma SumSnoc(objects: map<Key, nat>, keys: seq<Key>, k: Key)
    ensures SumSizes(objects, keys + [k]) == SumSizes(objects, keys) + if k in objects then objects[k] else 0
  {
    assert (keys + [k])[..|keys|] == keys;
  }

  lemma OneMoreSize(objects: map<Key, nat>, w: map<Key, Bytes>, k: Key, body: Bytes, keys: seq<Key>)
    requires k !in keys
    ensures var held := objects + SizesOf(w);
            && objects + SizesOf(w[k := body]) == held[k := |body|]
            && SumSizes(held[k := |body|], keys) == SumSizes(held, keys)
  {
    hide SizesOf, SumSizes;
    SizesOfMore(w, k, body);
    UnionUpdate(objects, SizesOf(w), k, |body|);
    SumSizesFrame(objects + SizesOf(w), keys, k, |body|);
  }

  lemma NotYet(keys: seq<Key>, i: nat)
    requires NoDuplicates(keys) && i < |keys|
    ensures keys[i] !in keys[..i]
  {
  }

  /** So a healthy store is healthy again, and the new pin durable. */
  lemma SuccessHealthy(c: Rules, s: Store, root: Key, owner: string, env: Env)
    requires env.Quiet() && Healthy(s) && Commits(c, s, root, env)
    ensures Healthy(Ending(c, s, root, owner, env).1)
    ensures root in Recovered(Ending(c, s, root, owner, env).1.disk).pins
  {
    hide Staged, Healthy, QuarantinedAll, Ending, Added, Recovered, Committed, ObjectsOf, Flown, Weighed, Commits;
    HealthyUnclaimed(s);
    DoneMeansRoot(c, s, root, env);
    var written := SuccessAdds(c, s, root, owner, env);
    var rec := RecordOf(s, PlanFor(c.gate, root, env), root, owner);
    AddedParts(c.gate, s, rec, written);
    CommittedHealthy(s, rec, written);
    NoBads(Committed(s, rec, written));
    var t := Committed(s, rec, written).(pending := map[]);
    CommittedPins(s, rec, written);
    RestartIsLossless(t);
  }

  lemma HealthyUnclaimed(s: Store)
    requires Healthy(s)
    ensures s.pending == map[]
  {
  }

  lemma DoneMeansRoot(c: Rules, s: Store, root: Key, env: Env)
    requires Commits(c, s, root, env)
    ensures root !in s.pins && env.fetch(root).Some?
  {
  }

  lemma AddedParts(gate: Gate, s: Store, rec: Record, written: map<Key, Bytes>)
    requires Added(gate, s, rec, written)
    ensures written.Keys !! s.objects.Keys && (forall k :: k in written ==> k in rec.objects)
    ensures CompleteIn(rec, s.objects.Keys + written.Keys)
  {
  }

  /** And no crash on the way loses a pin, or brings back one that is not whole. */
  lemma QuietCrashSafe(c: Rules, s: Store, root: Key, owner: string, env: Env, disks: seq<Disk>, before: seq<Disk>)
    requires env.Quiet() && Healthy(s)
    requires Outlasting(disks, before, s.pins, Ending(c, s, root, owner, env).1, Making(c, s, root, owner, env))
    ensures SafeSteps(disks, before, s.pins, {})
  {
    hide Healthy, Ending, Making, Outlives, Survives;
    var t := Ending(c, s, root, owner, env).1;
    QuietPins(c, s, root, owner, env);
    forall d | d in disks && d !in before
      ensures Survives(d, s.pins, {})
    {
      QuietDisk(d, s.pins, t, Making(c, s, root, owner, env));
    }
  }

  /** No pin goes, and one that may be in an index is there and whole. */
  lemma QuietPins(c: Rules, s: Store, root: Key, owner: string, env: Env)
    requires env.Quiet() && Healthy(s)
    ensures var t, made := Ending(c, s, root, owner, env).1, Making(c, s, root, owner, env);
            && s.pins.Keys <= t.pins.Keys
            && (made.Some? ==> made.value.root in t.pins && CompleteIn(made.value, t.disk.files.Keys))
  {
    hide Healthy, QuarantinedAll, Ending, ObjectsOf, Flown, Weighed, Enters, After, Entered, Added, Staged, Touches, Settled;
    HealthyUnclaimed(s);
    var t := Ending(c, s, root, owner, env).1;
    if Ending(c, s, root, owner, env).0.Refused? {
      var written := RefusalRestores(c, s, root, owner, env);
      RefusedUncommitted(c, s, root, owner, env);
    } else if root in s.pins {
      KeptAsItIs(c, s, root, owner, env);
    } else {
      DoneMeans(c, s, root, owner, env);
      DoneMeansRoot(c, s, root, env);
      var written := SuccessAdds(c, s, root, owner, env);
      var rec := RecordOf(s, PlanFor(c.gate, root, env), root, owner);
      NoBads(Committed(s, rec, written));
      CommittedPins(s, rec, written);
      SuccessHealthy(c, s, root, owner, env);
      HealthyWhole(t, root);
    }
  }

  lemma RefusedUncommitted(c: Rules, s: Store, root: Key, owner: string, env: Env)
    requires env.Quiet() && Ending(c, s, root, owner, env).0.Refused?
    ensures Making(c, s, root, owner, env).None?
  {
    hide Settled, Withdrawn, GivenUp, QuarantinedAll, Flown, Halted, ObjectsOf, Weighed, After, Refusal;
  }

  lemma KeptAsItIs(c: Rules, s: Store, root: Key, owner: string, env: Env)
    requires root in s.pins
    ensures Ending(c, s, root, owner, env) == (Done(s.pins[root]), s) && Making(c, s, root, owner, env).None?
  {
  }

  lemma CommittedPins(s: Store, rec: Record, bodies: map<Key, Bytes>)
    ensures Committed(s, rec, bodies).pins == s.pins[rec.root := rec]
  {
    hide Total;
  }

  lemma HealthyWhole(t: Store, root: Key)
    requires Healthy(t) && root in t.pins
    ensures CompleteIn(t.pins[root], t.disk.files.Keys)
  {
    CompleteInMore(t.pins[root], t.objects.Keys, t.disk.files.Keys);
  }

  lemma QuietDisk(d: Disk, was: map<Key, Record>, t: Store, made: Option<Record>)
    requires Outlives(d, was, t, made) && was.Keys <= t.pins.Keys
    requires made.Some? ==> made.value.root in t.pins && CompleteIn(made.value, t.disk.files.Keys)
    ensures Survives(d, was, {})
  {
    forall r | r in IndexedPins(d)
      ensures CompleteIn(IndexedPins(d)[r], d.files.Keys)
    {
      if r in was && was[r] == IndexedPins(d)[r] {
        assert Lasts(d, was[r], r);
      } else {
        CompleteInMore(made.value, t.disk.files.Keys, d.files.Keys);
      }
    }
    forall r | r in was
      ensures r in IndexedPins(d) && IndexedPins(d)[r] == was[r]
    {
      assert Lasts(d, was[r], r);
    }
  }
}
