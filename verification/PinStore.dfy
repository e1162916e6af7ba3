/**
 The durable pin store as it runs (tunnel/pubcache/pin.go). Whole pin and unpin
 operations are serialised; quarantine is not, so an operation takes a schedule of the
 quarantines that run at each point where it does not hold the lock.
 */
module PinStore {
  import opened Basics
  import opened Manifest
  import opened Totals
  import opened PinModel
  import opened PinInterleavings
  import opened PinPlan
  import opened PinCrash
  import opened PinLoad
  import opened PinOthers

  /** One claim fewer on each listed key. */
  ghost function Unclaimed(pending: map<Key, nat>, keys: seq<Key>): map<Key, nat>
    decreases |keys|
  {
    if |keys| == 0 then pending
    else
      var n := if keys[0] in pending then pending[keys[0]] else 0;
      Unclaimed(if n <= 1 then pending - {keys[0]} else pending[keys[0] := n - 1], keys[1..])
  }

  /** A key keeps as many claims as it had less those released, and is gone with the last. */
  lemma {:induction false} UnclaimMeans(pending: map<Key, nat>, keys: seq<Key>, k: Key)
    requires k in pending ==> pending[k] > 0
    ensures var had, t := if k in pending then pending[k] else 0, Unclaimed(pending, keys);
            if had > multiset(keys)[k] then k in t && t[k] == had - multiset(keys)[k] else k !in t
    decreases |keys|
  {
    if |keys| > 0 {
      assert keys == [keys[0]] + keys[1..];
      var n := if keys[0] in pending then pending[keys[0]] else 0;
      UnclaimMeans(if n <= 1 then pending - {keys[0]} else pending[keys[0] := n - 1], keys[1..], k);
    }
  }

  /** Releasing exactly what was claimed leaves no claim. */
  lemma {:induction false} AllUnclaimed(pending: map<Key, nat>, keys: seq<Key>)
    requires forall k :: k in pending ==> k in keys && pending[k] == 1
    ensures Unclaimed(pending, keys) == map[]
    decreases |keys|
  {
    if |keys| == 0 {
      assert pending.Keys == {};
    } else {
      assert keys == [keys[0]] + keys[1..];
      assert keys[0] !in pending ==> pending - {keys[0]} == pending;
      AllUnclaimed(pending - {keys[0]}, keys[1..]);
    }
  }

  // ------------------------------------------------------------------- traces of a run

  /** They did at every lock release. */
  ghost predicate Sound(c: Rules, releases: seq<Store>) {
    forall s :: s in releases ==> Fits(c, s)
  }

  lemma SoundMore(c: Rules, releases: seq<Store>, s: Store)
    requires Sound(c, releases) && Fits(c, s)
    ensures Sound(c, releases + [s])
  {
    hide Fits;
  }

  /** From some point on, every state seen at a lock release had all its objects named. */
  ghost predicate NamedFrom(releases: seq<Store>, from: nat) {
    from <= |releases| && forall i :: from <= i < |releases| ==> AllNamed(releases[i])
  }

  /** The last release was of this state. */
  ghost predicate Latest(releases: seq<Store>, s: Store) {
    |releases| > 0 && releases[|releases| - 1] == s
  }

  lemma NamedMore(releases: seq<Store>, from: nat, s: Store)
    requires NamedFrom(releases, from) && AllNamed(s)
    ensures NamedFrom(releases + [s], from)
  {
    hide AllNamed;
  }

  lemma NamedOn(before: seq<Store>, after: seq<Store>, from: nat)
    requires NamedFrom(before, from) && before <= after && NamedFrom(after, |before|)
    ensures NamedFrom(after, from)
  {
    hide AllNamed;
  }

  /** Some of the given pins, unchanged. */
  ghost predicate Among(pins: map<Key, Record>, of: map<Key, Record>) {
    pins.Keys <= of.Keys && forall r :: r in pins ==> pins[r] == of[r]
  }

  /**
   A pin under way: the store it began in, what has happened and what it wrote since, the
   lengths of the logs and the record entered; and whether all was named, rightly marked and
   healthy when it began.
   */
  datatype Flight = Flight(
    s0: Store,
    trace: seq<Inside>,
    wrote: set<Key>,
    from: nat,
    disks: seq<Disk>,
    made: Option<Record>,
    named: bool,
    marked: bool,
    whole: bool)

  /** The books, budgets, claims, pins, names and marks of a pin under way. */
  ghost predicate Kept(c: Rules, s: Store, releases: seq<Store>, f: Flight) {
    && Fits(c, s) && Sound(c, releases)
    && s.pending == Claims(f.wrote)
    && Among(s.pins, f.s0.pins)
    && (f.named ==> AllNamed(s) && NamedFrom(releases, f.from))
    && (f.marked ==> MarksRight(c.gate, s))
  }

  /** No crash so far loses a pin that no quarantine has touched. */
  ghost predicate Guarded(s: Store, disks: seq<Disk>, f: Flight) {
    f.whole ==> Shielded(s, f.s0.pins, f.wrote, f.made) && Outlasting(disks, f.disks, f.s0.pins, s, f.made)
  }

  /** Where a pin stands when it has passed its first n objects. */
  ghost predicate OnTrack(c: Rules, p: Plan, n: nat, f: Flight, wrote: seq<Key>, pinBytes: nat) {
    && n <= |p.wants| && f.trace == Timeline(f.s0, p, n)
    && Tallied(wrote, f.wrote, p.wants, n)
    && pinBytes == Weighed(f.s0, p, n) && Passed(c, f.s0, p, n) == n
  }

  class PinStore {
    const rules: Rules

    var pins: map<Key, Record>
    var objects: map<Key, nat>
    var verified: set<Key>
    var pending: map<Key, nat>
    var bytes: int
    var disk: Disk

    ghost var releases: seq<Store>
    ghost var disks: seq<Disk>

    /** An empty store over the object files an earlier process left; Load fills it. */
    constructor (rules: Rules, files: Files)
      ensures this.rules == rules && State() == Store(map[], map[], {}, map[], 0, Disk(files, None))
      ensures releases == [] && disks == []
    {
      this.rules := rules;
      pins, objects, verified, pending, bytes := map[], map[], {}, map[], 0;
      disk, disks, releases := Disk(files, None), [], [];
    }

    ghost function State(): Store
      reads this
    {
      Store(pins, objects, verified, pending, bytes, disk)
    }

    /** The books balance and the budgets hold, now and at every lock release so far. */
    ghost predicate Balanced()
      reads this
    {
      Fits(rules, State()) && Sound(rules, releases)
    }

    // ----------------------------------------------------------------- steps on the disk

    method RemoveFile(k: Key)
      modifies this`disk, this`disks
      ensures disk == old(disk).(files := old(disk).files - {k})
      ensures disks == old(disks) + [disk]
    {
      disk := disk.(files := disk.files - {k});
      disks := disks + [disk];
    }

    method WriteObject(k: Key, body: Bytes, ok: bool)
      modifies this`disk, this`disks
      ensures disk == if ok then old(disk).(files := old(disk).files[k := body]) else old(disk)
      ensures disks == old(disks) + [disk]
    {
      if ok {
        disk := disk.(files := disk.files[k := body]);
      }
      disks := disks + [disk];
    }

    method WriteIndex(ok: bool)
      modifies this`disk, this`disks
      ensures State() == IndexWritten(old(State()), ok)
      ensures disks == old(disks) + [disk]
    {
      if ok {
        disk := disk.(index := Some(pins));
      }
      disks := disks + [disk];
    }

    /** Forgets one object and removes its file. */
    method DropObject(k: Key)
      modifies this`objects, this`verified, this`bytes, this`disk, this`disks
      ensures State() == Dropped(old(State()), k)
      ensures disks == old(disks) + [disk]
    {
      if k in objects {
        bytes := bytes - objects[k];
        verified := verified - {k};
      }
      objects := objects - {k};
      RemoveFile(k);
    }

    ghost method Unlock()
      modifies this`releases
      ensures releases == old(releases) + [State()]
    {
      releases := releases + [State()];
    }

    // ---------------------------------------------------------- reclaim and quarantine

    method Reclaim()
      modifies this`objects, this`verified, this`bytes, this`disk, this`disks
      ensures State() == Reclaimed(old(State()))
      ensures Keep(disks, old(disks), old(disk.index),
                   old(disk.files.Keys) - (old(objects.Keys) - Live(old(State()))))
    {
      hide Total;
      ghost var s0 := State();
      var live := (set r, k | r in pins && k in pins[r].objects :: k) + pending.Keys;
      ghost var dead := objects.Keys - live;
      var todo := objects.Keys - live;
      ghost var gone: set<Key> := {};
      DroppedNone(s0);
      while todo != {}
        invariant gone + todo == dead && gone !! todo
        invariant State() == DroppedAll(s0, gone)
        invariant Keep(disks, old(disks), s0.disk.index, s0.disk.files.Keys - dead)
        decreases todo
      {
        var k :| k in todo;
        DropOneMore(s0, gone, k);
        DropObject(k);
        gone, todo := gone + {k}, todo - {k};
      }
      assert gone == dead;
    }

    /** Drops a bad object and the pins that need it, and writes the reduced index. */
    method Quarantine(bad: Bad)
      modifies this
      ensures State() == Quarantined(old(State()), bad)
      ensures releases == old(releases) + [State()]
      ensures QuarantineDisks(disks, old(disks), old(State()), bad.key)
    {
      hide Total, Reclaimed, Live, Keep, QuarantineDisks;
      ghost var s0 := State();
      pins := map r | r in pins && bad.key !in pins[r].objects :: pins[r];
      DropObject(bad.key);
      ghost var dropped, first := State(), disks;
      Reclaim();
      ghost var mid := disks;
      ReclaimedDisk(dropped);
      WriteIndex(bad.indexOk);
      ThoseDisks(mid, disk, first, old(disks), s0, dropped, bad.key);
      Unlock();
    }

    /** The quarantines scheduled for one point where an operation does not hold the lock. */
    method Interfere(bads: seq<Bad>)
      requires Balanced()
      modifies this
      ensures State() == QuarantinedAll(old(State()), bads) && Balanced()
      ensures old(releases) <= releases && NamedFrom(releases, |old(releases)|)
      ensures Latest(old(releases), old(State())) ==> Latest(releases, State())
      ensures forall f :: Guarded(old(State()), old(disks), f) ==> Guarded(State(), disks, f)
      ensures bads == [] ==> State() == old(State()) && disks == old(disks)
    {
      hide Quarantined, Accounted, AllNamed, QuarantineDisks, Guarded, Fits;
      var i := 0;
      while i < |bads|
        invariant 0 <= i <= |bads| && Balanced()
        invariant old(releases) <= releases && NamedFrom(releases, |old(releases)|)
        invariant Latest(old(releases), old(State())) ==> Latest(releases, State())
        invariant forall f :: Guarded(old(State()), old(disks), f) ==> Guarded(State(), disks, f)
        invariant QuarantinedAll(old(State()), bads) == QuarantinedAll(State(), bads[i..])
        invariant i == 0 ==> State() == old(State()) && disks == old(disks)
      {
        assert bads[i..][0] == bads[i] && bads[i..][1..] == bads[i + 1..];
        ghost var s, log := State(), disks;
        QuarantineFits(rules, s, bads[i]);
        Quarantine(bads[i]);
        forall f | Guarded(s, log, f)
          ensures Guarded(State(), disks, f)
        {
          GuardedPurge(s, log, disks, bads[i], f);
        }
        i := i + 1;
      }
    }

    // ---------------------------------------------------------------------------- pin

    /** What a pin under way keeps, whatever quarantines run. */
    ghost predicate Carried(f: Flight)
      reads this
    {
      Kept(rules, State(), releases, f) && Guarded(State(), disks, f)
    }

    /** And the store is what the events so far have made of it. */
    ghost predicate InFlight(f: Flight)
      reads this
    {
      Carried(f) && f.made.None? && State() == After(f.s0, f.trace)
    }

    /** Lets the scheduled quarantines run inside a pin. */
    method Yield(bads: seq<Bad>, ghost f: Flight)
      requires InFlight(f)
      modifies this
      ensures InFlight(f.(trace := f.trace + Purges(bads)))
      ensures objects.Keys <= old(objects.Keys) && bytes <= old(bytes)
      ensures forall k :: k in disk.files ==> k in old(disk).files && disk.files[k] == old(disk).files[k]
    {
      hide Fits, Quarantined, After, QuarantinedAll, Kept, NamedFrom, Sound, Guarded;
      ghost var s, log := State(), releases;
      KeptParts(rules, s, log, f);
      AfterPurges(f.s0, f.trace, bads);
      FilesAllOnlyGo(s, bads);
      Interfere(bads);
      KeptPurged(rules, s, log, f, bads, releases);
      AnyTrace(rules, State(), releases, disks, f, f.trace + Purges(bads));
    }

    /** Enters one written object in the books, under the lock. */
    method Claim(key: Key, n: nat)
      requires key !in objects && Balanced() && (rules.maxBytes > 0 ==> bytes + n <= rules.maxBytes)
      modifies this`objects, this`verified, this`pending, this`bytes, this`releases
      ensures State() == Claimed(old(State()), key, n) && Balanced()
      ensures objects == old(objects)[key := n] && verified == old(verified) + {key} && bytes == old(bytes) + n
      ensures key in pending && pending[key] == 1 + if key in old(pending) then old(pending)[key] else 0
      ensures AllNamed(old(State())) ==> AllNamed(State())
      ensures releases == old(releases) + [State()]
    {
      hide Accounted, AllNamed;
      ClaimFits(rules, State(), key, n);
      objects := objects[key := n];
      verified := verified + {key};
      bytes := bytes + n;
      pending := pending[key := (if key in pending then pending[key] else 0) + 1];
      SoundMore(rules, releases, State());
      Unlock();
    }

    /** The unlocked write of one admitted object, with quarantines before and after it. */
    method WriteStaged(key: Key, body: Bytes, ok: bool, before: seq<Bad>, after: seq<Bad>, ghost f: Flight)
      returns (ghost g: Flight)
      requires InFlight(f) && rules.gate.accepts(key, body)
      modifies this
      ensures g == f.(trace := f.trace + Purges(before) + (if ok then [Put(key, body)] else []) + Purges(after)) && InFlight(g)
      ensures ok ==> (key in disk.files ==> disk.files[key] == body)
      ensures objects.Keys <= old(objects.Keys) && bytes <= old(bytes)
    {
      hide Kept, After, Purges, Guarded;
      Yield(before, f);
      g := f.(trace := f.trace + Purges(before));
      ghost var was, log := State(), disks;
      WriteObject(key, body, ok);
      GuardedPut(was, log, key, body, ok, g);
      if ok {
        AfterOne(f.s0, g.trace, Put(key, body));
        KeptPut(rules, was, releases, g, key, body);
        AnyTrace(rules, State(), releases, disks, g, g.trace + [Put(key, body)]);
      }
      ghost var put := if ok then [Put(key, body)] else [];
      assert !ok ==> g.trace + put == g.trace;
      g := g.(trace := g.trace + put);
      Yield(after, g);
      g := g.(trace := g.trace + Purges(after));
    }

    /** Writes and claims one admitted object. */
    method StageOne(key: Key, body: Bytes, ok: bool, before: seq<Bad>, after: seq<Bad>, ghost f: Flight)
      returns (ghost g: Flight)
      requires InFlight(f) && key !in objects && key !in f.wrote
      requires rules.gate.accepts(key, body) && (rules.maxBytes > 0 ==> bytes + |body| <= rules.maxBytes)
      modifies this
      ensures InFlight(g)
      ensures ok ==>
                g == f.(wrote := f.wrote + {key},
                        trace := f.trace + Purges(before) + [Put(key, body)] + Purges(after) + [Own(key, |body|)])
      ensures !ok ==> g == f.(trace := f.trace + Purges(before) + Purges(after))
    {
      hide Kept, After, Purges, Fits, AllNamed, Sound, Guarded;
      g := WriteStaged(key, body, ok, before, after, f);
      if ok {
        AfterOne(f.s0, g.trace, Own(key, |body|));
        ghost var was, log := State(), releases;
        KeptParts(rules, was, log, g);
        KeptOwned(rules, was, log, g, key, body);
        GuardedClaim(was, disks, key, |body|, g);
        Claim(key, |body|);
        g := g.(wrote := g.wrote + {key});
        AnyTrace(rules, State(), releases, disks, g, g.trace + [Own(key, |body|)]);
        g := g.(trace := g.trace + [Own(key, |body|)]);
      } else {
        assert f.trace + Purges(before) + [] == f.trace + Purges(before);
      }
    }

    /** Fetches, screens, writes and claims one wanted object that is not held. */
    method StageMissing(plan: Plan, i: nat, pinBytes: nat, ghost f: Flight)
      returns (failed: Option<Why>, body: Bytes, ghost g: Flight)
      requires i < |plan.wants| && InFlight(f)
      requires plan.wants[i] !in objects && plan.wants[i] !in f.wrote
      requires f.trace == Seen(f.s0, plan, i) && pinBytes == Weighed(f.s0, plan, i)
      modifies this
      ensures InFlight(g) && failed == Refusal(rules, f.s0, plan, i)
      ensures failed.None? ==>
                && BodyOf(plan, i) == Some(body)
                && g == f.(wrote := f.wrote + {plan.wants[i]},
                           trace := f.trace + Purges(plan.env.during(4 * i + 2)) + Purges(plan.env.during(4 * i + 3))
                                    + [Put(plan.wants[i], body)] + Purges(plan.env.during(4 * i + 4))
                                    + [Own(plan.wants[i], |body|)])
      ensures failed.Some? ==> g == f.(trace := Halted(rules, f.s0, plan, i))
    {
      hide Kept, Screen, After, Purges, Weighed, Seen, Guarded;
      var env, key := plan.env, plan.wants[i];
      body := [];
      Yield(env.during(4 * i + 2), f);
      g := f.(trace := f.trace + Purges(env.during(4 * i + 2)));
      var got := if i == 0 then Some(plan.rootBody) else env.fetch(key);
      if got.None? {
        return Some(Fetch), body, g;
      }
      body := got.value;
      var refused := Screen(rules, key, body, pinBytes, bytes);
      if refused.Some? {
        return refused, body, g;
      }
      var ok := env.writeOk(key);
      g := StageOne(key, body, ok, env.during(4 * i + 3), env.during(4 * i + 4), g);
      return if ok then None else Some(DiskFailed), body, g;
    }

    /** Passes one wanted object: by, if it is held; otherwise it is fetched, screened, written and claimed. */
    method StageNext(plan: Plan, i: nat, wrote: seq<Key>, pinBytes: nat, ghost f: Flight)
      returns (refused: Option<Why>, wroteNow: seq<Key>, pinBytesNow: nat, ghost g: Flight)
      requires i < |plan.wants| && NoDuplicates(plan.wants) && InFlight(f)
      requires OnTrack(rules, plan, i, f, wrote, pinBytes)
      modifies this
      ensures g == f.(trace := g.trace, wrote := g.wrote) && InFlight(g)
      ensures refused == Refusal(rules, f.s0, plan, i)
      ensures refused.None? ==> OnTrack(rules, plan, i + 1, g, wroteNow, pinBytesNow)
      ensures refused.Some? ==> wroteNow == wrote && g.wrote == f.wrote && g.trace == Halted(rules, f.s0, plan, i)
    {
      hide Kept, Tallied, NoDuplicates, OnTrack, Refusal, Weighed, Seen, Guarded, Halted;
      hide After, Timeline, Purges;
      var env, key := plan.env, plan.wants[i];
      OnTrackParts(rules, plan, i, f, wrote, pinBytes);
      TalliedParts(wrote, f.wrote, plan.wants, i);
      SeenUnfold(f.s0, plan, i);
      Yield(env.during(4 * i + 1), f);
      g := f.(trace := f.trace + Purges(env.during(4 * i + 1)));
      refused, wroteNow, pinBytesNow := None, wrote, pinBytes;
      if key in objects {
        HeldIsPassed(rules, f.s0, plan, i);
        OnTrackHeld(rules, plan, i, f, wrote, pinBytes, g);
        pinBytesNow := pinBytes + objects[key];
      } else {
        var body;
        refused, body, g := StageMissing(plan, i, pinBytes, g);
        if refused.None? {
          OnTrackNew(rules, plan, i, f, wrote, pinBytes, body, g);
          wroteNow, pinBytesNow := wrote + [key], pinBytes + |body|;
        }
      }
    }

    /** Stages every wanted object that is not held, stopping at the first refusal. */
    method StageAll(wants: seq<Key>, rootBody: Bytes, env: Env, ghost f: Flight)
      returns (failed: Option<Why>, wrote: seq<Key>, pinBytes: nat, ghost g: Flight)
      requires InFlight(f) && f.wrote == {} && NoDuplicates(wants)
      requires f.trace == Timeline(f.s0, Plan(wants, rootBody, env), 0)
      modifies this
      ensures g == f.(trace := g.trace, wrote := g.wrote) && InFlight(g)
      ensures NoDuplicates(wrote) && Listed(wrote, g.wrote) && forall k :: k in g.wrote ==> k in wants
      ensures var p := Plan(wants, rootBody, env);
              var i := Passed(rules, f.s0, p, |wants|);
              if i < |wants|
              then failed == Refusal(rules, f.s0, p, i) && failed.Some? && g.trace == Halted(rules, f.s0, p, i)
              else failed.None? && g.trace == Timeline(f.s0, p, |wants|) && pinBytes == Weighed(f.s0, p, |wants|)
    {
      hide Kept, Tallied, NoDuplicates, Listed, After, Timeline, Purges, OnTrack, Refusal, Weighed, Guarded, Halted, Passed;
      var plan := Plan(wants, rootBody, env);
      wrote, pinBytes, g := [], 0, f;
      OnTrackStart(rules, plan, f);
      var i := 0;
      while i < |wants|
        invariant 0 <= i <= |wants| && g == f.(trace := g.trace, wrote := g.wrote) && InFlight(g)
        invariant OnTrack(rules, plan, i, g, wrote, pinBytes)
      {
        OnTrackParts(rules, plan, i, g, wrote, pinBytes);
        TalliedParts(wrote, g.wrote, wants, i);
        failed, wrote, pinBytes, g := StageNext(plan, i, wrote, pinBytes, g);
        if failed.Some? {
          StopsThere(rules, f.s0, plan, i, |wants|);
          return;
        }
        i := i + 1;
      }
      OnTrackParts(rules, plan, i, g, wrote, pinBytes);
      TalliedParts(wrote, g.wrote, wants, i);
      failed := None;
    }

    /** Drops an operation's claims on the objects it wrote. */
    method ReleasePending(wrote: seq<Key>)
      modifies this`pending, this`releases
      ensures pending == Unclaimed(old(pending), wrote) && releases == old(releases) + [State()]
    {
      var i := 0;
      while i < |wrote|
        invariant 0 <= i <= |wrote|
        invariant Unclaimed(old(pending), wrote) == Unclaimed(pending, wrote[i..])
        invariant releases == old(releases)
      {
        var k := wrote[i];
        assert wrote[i..][0] == k && wrote[i..][1..] == wrote[i + 1..];
        var n := if k in pending then pending[k] else 0;
        if n <= 1 {
          pending := pending - {k};
        } else {
          pending := pending[k := n - 1];
        }
        i := i + 1;
      }
      Unlock();
    }

    /** Takes back every object the operation wrote. */
    method Rollback(wrote: seq<Key>, ghost keys: set<Key>)
      requires NoDuplicates(wrote) && Listed(wrote, keys)
      modifies this`objects, this`verified, this`bytes, this`disk, this`disks, this`releases
      ensures State() == DroppedAll(old(State()), keys)
      ensures releases == old(releases) + [State()]
      ensures Keep(disks, old(disks), old(disk.index), old(disk.files.Keys) - keys)
    {
      hide Total;
      ghost var s := State();
      ghost var gone: set<Key> := {};
      DroppedNone(s);
      var i := 0;
      while i < |wrote|
        invariant 0 <= i <= |wrote|
        invariant forall k :: k in gone <==> k in wrote[..i]
        invariant State() == DroppedAll(s, gone) && releases == old(releases)
        invariant Keep(disks, old(disks), s.disk.index, s.disk.files.Keys - keys)
      {
        var k := wrote[i];
        assert wrote[..i + 1] == wrote[..i] + [k];
        DropOneMore(s, gone, k);
        DropObject(k);
        gone := gone + {k};
        i := i + 1;
      }
      assert gone == keys;
      Unlock();
    }

    /** Gives a pin up: rollback, then release, with quarantines in between. */
    method Abort(wrote: seq<Key>, undo: seq<Bad>, ghost f: Flight)
      requires Carried(f) && NoDuplicates(wrote) && Listed(wrote, f.wrote)
      requires f.made.Some? ==> f.made.value.root !in pins
      modifies this
      ensures Balanced() && pending == map[] && State() == GivenUp(old(State()), undo)
      ensures f.named ==> AllNamed(State()) && NamedFrom(releases, f.from)
      ensures f.marked ==> MarksRight(rules.gate, State())
      ensures Guarded(State(), disks, f) && old(releases) <= releases
    {
      hide Fits, AllNamed, Claims, DroppedAll, QuarantinedAll, Unclaimed, MarksRight, NamedFrom, Kept, Sound, Guarded;
      ghost var s, log, before := State(), releases, disks;
      KeptPending(rules, s, log, f);
      RollbackFits(rules, s, log, f);
      ReleasedAll(rules, s, log, f, undo, wrote);
      Rollback(wrote, f.wrote);
      GuardedRollback(s, before, disks, f);
      Interfere(undo);
      AbortKeeps(rules, s, log, f, undo, releases);
      ghost var t := State();
      ReleasePending(wrote);
      GuardedRelease(t, disks, f);
    }

    /** Enters the record and tries to persist the index, under the lock. */
    method Enter(rec: Record, ok: bool, ghost f: Flight)
      requires Carried(f) && f.made.None?
      requires rec.root !in f.s0.pins && (rules.maxPins > 0 ==> |f.s0.pins| < rules.maxPins)
      modifies this`pins, this`disk, this`disks, this`releases
      ensures State() == Entered(old(State()), rec, ok) && Balanced()
      ensures Kept(rules, old(State()), releases, f) && Latest(releases, State())
      ensures f.named ==> AllNamed(State())
      ensures f.marked ==> MarksRight(rules.gate, State())
      ensures Guarded(State(), disks, f.(made := Some(rec)))
      ensures !ok ==> Guarded(old(State()), disks, f)
    {
      hide Accounted, AllNamed, Claims, MarksRight, NamedFrom, Kept, Sound, Guarded;
      KeptParts(rules, State(), releases, f);
      EnteredKeeps(State(), rec, ok);
      MarksIrrelevant(rules.gate, State(), pins[rec.root := rec], pending, ok);
      SubmapSize(pins, f.s0.pins);
      ghost var log := releases;
      GuardedEntry(State(), disks, rec, ok, f);
      pins := pins[rec.root := rec];
      WriteIndex(ok);
      Unlock();
      SoundMore(rules, log, State());
      if f.named {
        NamedMore(log, f.from, State());
      }
      KeptFrom(rules, old(State()), releases, f);
    }

    /** The quarantines that run once the record is entered and before the lock is taken again. */
    method Window(bads: seq<Bad>, ghost f: Flight)
      requires Balanced() && Latest(releases, State()) && Guarded(State(), disks, f)
      requires f.named ==> AllNamed(State()) && NamedFrom(releases, f.from)
      requires f.marked ==> MarksRight(rules.gate, State())
      modifies this
      ensures Balanced() && State() == QuarantinedAll(old(State()), bads) && Latest(releases, State())
      ensures f.named ==> AllNamed(State()) && NamedFrom(releases, f.from)
      ensures f.marked ==> MarksRight(rules.gate, State())
      ensures Guarded(State(), disks, f)
      ensures bads == [] ==> State() == old(State()) && disks == old(disks)
    {
      hide Accounted, AllNamed, Sound, QuarantinedAll, MarksRight, NamedFrom, WithinPins, WithinBytes, Guarded;
      ghost var s, log := State(), releases;
      QuarantineAllKeeps(s, bads);
      if f.marked {
        QuarantineAllMarks(rules.gate, s, bads);
      }
      Interfere(bads);
      if f.named {
        NamedOn(log, releases, f.from);
      }
    }

    /** Takes the record out again when the index could not be written. */
    method Withdraw(rec: Record, window: seq<Bad>, ghost f: Flight, ghost was: Store)
      returns (ghost cut: nat)
      requires Balanced() && rec.root !in was.pins && State() == Entered(was, rec, false)
      requires Kept(rules, was, releases, f) && Latest(releases, State()) && f.made.None?
      requires Guarded(State(), disks, f.(made := Some(rec))) && Guarded(was, disks, f)
      modifies this
      ensures Carried(f.(made := if window == [] then None else Some(rec), named := f.named && window == []))
      ensures State() == TakenBack(QuarantinedAll(old(State()), window), rec.root)
      ensures cut <= |releases| && Latest(releases[..cut], QuarantinedAll(old(State()), window))
      ensures f.named ==> NamedFrom(releases[..cut], f.from)
    {
      hide Fits, AllNamed, QuarantinedAll, Sound, MarksRight, NamedFrom, Entered, Kept, Guarded;
      ghost var log := releases;
      Interfere(window);
      cut := |releases|;
      ghost var t := State();
      WithdrawKeeps(rules, was, log, f, rec, window, releases);
      ghost var log2 := releases;
      pins := pins - {rec.root};
      Unlock();
      assert releases[..cut] == log2;
      GuardedTakeBack(t, disks, rec.root, f.(made := Some(rec)));
      if window == [] {
        NoMoreQuarantines(Entered(was, rec, false));
        EnteredUndone(was, rec);
      }
      GuardedAnyway(State(), disks, f.(made := if window == [] then None else Some(rec)), f.named && window == []);
    }

    /** Gives up a pin whose record could not be persisted. */
    method Decline(rec: Record, wrote: seq<Key>, env: Env, ghost f: Flight, ghost was: Store)
      returns (ghost cut: nat)
      requires Balanced() && rec.root !in was.pins && State() == Entered(was, rec, false)
      requires Kept(rules, was, releases, f) && Latest(releases, State()) && f.made.None?
      requires Guarded(State(), disks, f.(made := Some(rec))) && Guarded(was, disks, f)
      requires NoDuplicates(wrote) && Listed(wrote, f.wrote)
      modifies this
      ensures Balanced() && pending == map[] && State() == Withdrawn(was, rec, env.window, env.undo)
      ensures cut <= |releases| && Latest(releases[..cut], QuarantinedAll(old(State()), env.window))
      ensures f.named ==> NamedFrom(releases[..cut], f.from)
      ensures env.window == [] && f.named ==> AllNamed(State()) && NamedFrom(releases, f.from)
      ensures f.marked ==> MarksRight(rules.gate, State())
      ensures Guarded(State(), disks, f.(made := if env.window == [] then None else Some(rec)))
    {
      hide Fits, AllNamed, Sound, QuarantinedAll, Entered, NoDuplicates, Listed, MarksRight, NamedFrom, DroppedAll, Kept, Guarded;
      hide GivenUp;
      cut := Withdraw(rec, env.window, f, was);
      ghost var log := releases;
      ghost var g := f.(made := if env.window == [] then None else Some(rec), named := f.named && env.window == []);
      Abort(wrote, env.undo, g);
      GuardedAnyway(State(), disks, g, f.named);
      assert releases[..cut] == log[..cut];
    }

    /** The end of a committed pin: the window, then the release of its claims. */
    method Close(rec: Record, wrote: seq<Key>, window: seq<Bad>, ghost f: Flight)
      returns (ghost cut: nat)
      requires Balanced() && pending == Claims(f.wrote) && Listed(wrote, f.wrote) && Latest(releases, State())
      requires rec.root in pins && pins[rec.root] == rec && forall k :: k in f.wrote ==> k in rec.objects
      requires f.named ==> AllNamed(State()) && NamedFrom(releases, f.from)
      requires f.marked ==> MarksRight(rules.gate, State())
      requires Guarded(State(), disks, f)
      modifies this
      ensures Balanced() && State() == QuarantinedAll(old(State()), window).(pending := map[])
      ensures cut <= |releases| && Latest(releases[..cut], QuarantinedAll(old(State()), window))
      ensures f.named ==> NamedFrom(releases[..cut], f.from)
      ensures window == [] && f.named ==> AllNamed(State()) && NamedFrom(releases, f.from)
      ensures f.marked ==> MarksRight(rules.gate, State())
      ensures Guarded(State(), disks, f)
    {
      hide Accounted, AllNamed, Claims, Sound, QuarantinedAll, Unclaimed, MarksRight, NamedFrom, Guarded;
      QuarantineAllKeeps(State(), window);
      Window(window, f);
      cut := |releases|;
      ghost var t, log := State(), releases;
      ReleaseKeeps(t, f.wrote, wrote);
      MarksIrrelevant(rules.gate, t, t.pins, map[], false);
      if window == [] && f.named {
        ReleaseNamed(t, rec, f.wrote);
      }
      ReleasePending(wrote);
      GuardedRelease(t, disks, f);
      SoundMore(rules, log, State());
      assert releases[..cut] == log;
      if window == [] && f.named {
        NamedMore(log, f.from, State());
      }
    }

    /** Commits a fully staged pin, or gives it up if the index cannot be written. */
    method Finish(rec: Record, wrote: seq<Key>, env: Env, ghost f: Flight)
      returns (r: Outcome, ghost cut: nat)
      requires InFlight(f) && NoDuplicates(wrote) && Listed(wrote, f.wrote)
      requires rec.root !in f.s0.pins && (rules.maxPins > 0 ==> |f.s0.pins| < rules.maxPins)
      requires forall k :: k in f.wrote ==> k in rec.objects
      modifies this
      ensures Balanced() && pending == map[]
      ensures r == if env.indexOk then Done(rec) else Refused(DiskFailed)
      ensures State() == if env.indexOk then Settled(old(State()), rec, env.window)
                         else Withdrawn(old(State()), rec, env.window, env.undo)
      ensures cut <= |releases|
              && Latest(releases[..cut], QuarantinedAll(Entered(old(State()), rec, env.indexOk), env.window))
      ensures f.named ==> NamedFrom(releases[..cut], f.from)
      ensures env.window == [] && f.named ==> AllNamed(State()) && NamedFrom(releases, f.from)
      ensures f.marked ==> MarksRight(rules.gate, State())
      ensures Guarded(State(), disks, f.(made := Indexing(env, rec)))
    {
      hide Fits, AllNamed, Claims, Sound, QuarantinedAll, Unclaimed, Entered;
      hide After, MarksRight, NamedFrom, DroppedAll, Withdrawn, Kept, Latest, Guarded;
      ghost var was := State();
      KeptParts(rules, was, releases, f);
      EnteredParts(was, rec, env.indexOk);
      Enter(rec, env.indexOk, f);
      if !env.indexOk {
        cut := Decline(rec, wrote, env, f, was);
        return Refused(DiskFailed), cut;
      }
      KeptParts(rules, was, releases, f);
      cut := Close(rec, wrote, env.window, f.(made := Some(rec)));
      return Done(rec), cut;
    }

    /** The keys to retain, repeated chunks skipped. */
    method CollectKeys(root: Key, chunks: seq<Address>) returns (keys: seq<Key>)
      requires root.kind != Chunk
      ensures keys == WantedKeys(root, chunks)
    {
      hide Distinct, WantedKeys;
      WantedNone(root);
      keys := [root];
      var seen: set<Address> := {};
      var i := 0;
      while i < |chunks|
        invariant 0 <= i <= |chunks|
        invariant forall a :: a in seen <==> a in chunks[..i]
        invariant keys == WantedKeys(root, chunks[..i])
      {
        var c := chunks[i];
        assert chunks[..i + 1] == chunks[..i] + [c];
        WantedOneMore(root, chunks[..i], c);
        if c !in seen {
          seen := seen + {c};
          keys := keys + [Key(Chunk, c)];
        }
        i := i + 1;
      }
      assert chunks[..i] == chunks;
    }

    /** The objects to retain: the root and, for a manifest, which must verify, its chunks. */
    method ListObjects(root: Key, body: Bytes) returns (wants: Option<seq<Key>>)
      ensures wants.None? <==> root.kind == PubManifest && rules.gate.chunks(root, body).None?
      ensures wants.Some? ==> wants.value == ObjectsOf(rules.gate, root, body) && NoDuplicates(wants.value) && |wants.value| > 0
    {
      ObjectsMeans(rules.gate, root, body);
      NoDuplicateWants(rules.gate, root, body);
      if root.kind == PubManifest {
        var chunks := rules.gate.chunks(root, body);
        if chunks.None? {
          return None;
        }
        var keys := CollectKeys(root, chunks.value);
        return Some(keys);
      }
      return Some([root]);
    }

    /** Stages and commits the wanted objects of a new pin. */
    method PinWanted(root: Key, owner: string, wants: seq<Key>, rootBody: Bytes, env: Env, ghost f: Flight)
      returns (r: Outcome, ghost cut: nat)
      requires InFlight(f) && f.wrote == {} && NoDuplicates(wants)
      requires f.trace == Timeline(f.s0, Plan(wants, rootBody, env), 0)
      requires root !in f.s0.pins && (rules.maxPins > 0 ==> |f.s0.pins| < rules.maxPins)
      modifies this
      ensures Balanced() && pending == map[]
      ensures (r, State()) == Attempt(rules, f.s0, Plan(wants, rootBody, env), root, owner)
      ensures f.marked ==> MarksRight(rules.gate, State())
      ensures cut <= |releases| && (f.named ==> NamedFrom(releases[..cut], f.from))
      ensures var p := Plan(wants, rootBody, env);
              var rec, all := RecordOf(f.s0, p, root, owner), Passed(rules, f.s0, p, |wants|) == |wants|;
              && (all ==> Latest(releases[..cut], QuarantinedAll(Entered(AtEntry(f.s0, p), rec, env.indexOk), env.window)))
              && (!all ==> cut == |releases|)
              && (f.named && env.window == [] ==> NamedFrom(releases, f.from))
              && (f.whole ==> Outlasting(disks, f.disks, f.s0.pins, State(), if all then Indexing(env, rec) else None))
    {
      hide Fits, AllNamed, Claims, Sound, QuarantinedAll, After, MarksRight, NamedFrom, Timeline, Purges, Entered, Weighed;
      hide DroppedAll, Kept, Withdrawn, Settled, Halted, Refusal, Passed, Latest, Guarded, Flown, GivenUp, NoDuplicates, Listed;
      var failed, wrote, pinBytes;
      ghost var g;
      failed, wrote, pinBytes, g := StageAll(wants, rootBody, env, f);
      ghost var plan := Plan(wants, rootBody, env);
      KeptPending(rules, State(), releases, g);
      if failed.Some? {
        Abort(wrote, env.undo, g);
        GuardedLog(State(), disks, g);
        assert releases[..|releases|] == releases;
        return Refused(failed.value), |releases|;
      }
      Yield(env.during(4 * |wants| + 1), g);
      g := g.(trace := g.trace + Purges(env.during(4 * |wants| + 1)));
      FlownUnfold(f.s0, plan);
      KeptPending(rules, State(), releases, g);
      r, cut := Finish(Record(root, owner, wants, pinBytes, env.now), wrote, env, g);
      GuardedLog(State(), disks, g.(made := Indexing(env, RecordOf(f.s0, plan, root, owner))));
    }

    /** A new pin whose root has been fetched. */
    method PinFetched(root: Key, owner: string, body: Bytes, env: Env, ghost f: Flight)
      returns (r: Outcome, ghost cut: nat)
      requires InFlight(f) && f.wrote == {} && f.trace == [] + Purges(env.during(0))
      requires State() == QuarantinedAll(f.s0, env.during(0)) && f.s0.pending == map[]
      requires env.fetch(root) == Some(body)
      requires root !in f.s0.pins && (rules.maxPins > 0 ==> |f.s0.pins| < rules.maxPins)
      modifies this
      ensures Balanced() && pending == map[]
      ensures (r, State()) == Ending(rules, f.s0, root, owner, env)
      ensures f.marked ==> MarksRight(rules.gate, State())
      ensures cut <= |releases| && (f.named ==> NamedFrom(releases[..cut], f.from))
      ensures f.named && env.window == [] ==> NamedFrom(releases, f.from)
      ensures if Enters(rules, f.s0, root, env) then
                Latest(releases[..cut], QuarantinedAll(AfterEntry(rules, f.s0, root, owner, env), env.window))
              else cut == |releases|
      ensures f.whole ==> Outlasting(disks, f.disks, f.s0.pins, State(), Making(rules, f.s0, root, owner, env))
    {
      hide Fits, AllNamed, Claims, QuarantinedAll, After, MarksRight, Timeline, Purges, Entered, Passed, Attempt;
      hide Kept, NamedFrom, ObjectsOf, NoDuplicates, Latest, Weighed, Guarded, Sound, Outlasting, Flown;
      var wanted := ListObjects(root, body);
      if wanted.None? {
        KeptParts(rules, State(), releases, f);
        KeptPending(rules, State(), releases, f);
        GuardedLog(State(), disks, f);
        assert releases[..|releases|] == releases;
        return Refused(Unverified), |releases|;
      }
      var plan := Plan(wanted.value, body, env);
      TimelineStart(f.s0, plan);
      r, cut := PinWanted(root, owner, wanted.value, body, env, f);
    }

    /**
     Pins a root and everything it names, all or nothing: the outcome and the new state,
     whatever quarantines run on the way. At every lock release the books and budgets hold;
     everything is named at each until the last of the window after the record is entered;
     no wrong mark is made; and no crash on the way loses a pin that is still there at the end.
     */
    method Pin(kind: Kind, addr: Address, owner: string, env: Env) returns (r: Outcome, ghost cut: nat)
      requires Balanced() && pending == map[]
      modifies this
      ensures Balanced() && pending == map[]
      ensures (r, State()) == Ending(rules, old(State()), Key(kind, addr), owner, env)
      ensures MarksRight(rules.gate, old(State())) ==> MarksRight(rules.gate, State())
      ensures cut <= |releases| && (AllNamed(old(State())) ==> NamedFrom(releases[..cut], |old(releases)|))
      ensures AllNamed(old(State())) && env.window == [] ==> NamedFrom(releases, |old(releases)|)
      ensures if Enters(rules, old(State()), Key(kind, addr), env) then
                Latest(releases[..cut], QuarantinedAll(AfterEntry(rules, old(State()), Key(kind, addr), owner, env), env.window))
              else cut == |releases|
      ensures Healthy(old(State())) ==>
                Outlasting(disks, old(disks), old(pins), State(), Making(rules, old(State()), Key(kind, addr), owner, env))
    {
      hide Fits, AllNamed, Claims, Healthy, QuarantinedAll, After, MarksRight, Timeline, Purges, Entered, Attempt, Passed;
      hide Kept, NamedFrom, ObjectsOf, NoDuplicates, Latest, Weighed, Guarded, Sound, Outlasting, Flown;
      cut := |releases|;
      assert releases[..cut] == releases;
      NamedNothing(releases);
      var root := Key(kind, addr);
      ghost var s0 := State();
      OutlastNothing(disks, s0.pins, s0, None);
      if root in pins {
        r := Done(pins[root]);
        return;
      }
      if rules.maxPins > 0 && |pins| >= rules.maxPins {
        r := Refused(Budget);
        return;
      }
      ghost var f := Flight(s0, [], {}, |releases|, disks, None, AllNamed(s0), MarksRight(rules.gate, s0), Healthy(s0));
      Departs(rules, s0, releases, disks, f);
      AfterPurges(s0, [], env.during(0));
      Yield(env.during(0), f);
      f := f.(trace := f.trace + Purges(env.during(0)));
      KeptParts(rules, State(), releases, f);
      KeptPending(rules, State(), releases, f);
      GuardedLog(State(), disks, f);
      cut := |releases|;
      assert releases[..cut] == releases;
      var rootBody := env.fetch(root);
      if rootBody.None? {
        r := Refused(Fetch);
        return;
      }
      r, cut := PinFetched(root, owner, rootBody.value, env, f);
    }

    // ----------------------------------------------------------------- unpin, get, load

    /** Removes a pin its owner asks to remove, and reclaims what no other pin names. */
    method Unpin(kind: Kind, addr: Address, owner: string, indexOk: bool) returns (r: Outcome)
      requires Balanced() && pending == map[]
      modifies this
      ensures Balanced() && pending == map[]
      ensures Key(kind, addr) !in old(pins) ==> r == Refused(NotFound) && State() == old(State())
      ensures var root := Key(kind, addr);
              root in old(pins) ==>
                if old(pins)[root].owner != "" && old(pins)[root].owner != owner
                then r == Refused(Forbidden) && State() == old(State())
                else r == (if indexOk then Done(old(pins)[root]) else Refused(DiskFailed))
                     && State() == Unpinned(old(State()), root, indexOk)
      ensures Healthy(old(State())) ==> SafeSteps(disks, old(disks), old(pins), {Key(kind, addr)})
      ensures MarksRight(rules.gate, old(State())) ==> MarksRight(rules.gate, State())
    {
      hide MarksRight;
      hide Total, Accounted, AllNamed, Reclaimed, Survives, Healthy, Referenced, Sound, WithinPins;
      var root := Key(kind, addr);
      ghost var s0 := State();
      if root !in pins {
        return Refused(NotFound);
      }
      var rec := pins[root];
      if rec.owner != "" && rec.owner != owner {
        return Refused(Forbidden);
      }
      UnpinFits(rules, s0, root, indexOk);
      if MarksRight(rules.gate, s0) {
        UnpinMarks(rules.gate, s0, root, indexOk);
      }
      pins := pins - {root};
      Reclaim();
      ghost var mid := disks;
      WriteIndex(indexOk);
      if Healthy(s0) {
        UnpinSafe(disks, mid, old(disks), s0, root, indexOk);
      }
      SoundMore(rules, releases, State());
      Unlock();
      return if indexOk then Done(rec) else Refused(DiskFailed);
    }

    /**
     Serves a held object, hashing it unless it was hashed before; one that fails is
     quarantined. Others may have made the store met by the time the file is read, and later
     by the time the lock is taken to mark the object or quarantine it.
     */
    method Get(kind: Kind, addr: Address, indexOk: bool, met: Store, later: Store) returns (body: Option<Bytes>)
      requires Balanced() && Meanwhile(rules, State(), met) && Meanwhile(rules, met, later)
      modifies this
      ensures Balanced()
      ensures Key(kind, addr) !in old(objects) ==> body.None? && State() == old(State())
      ensures body.Some? <==>
                && Key(kind, addr) in old(objects) && Key(kind, addr) in met.disk.files
                && (Key(kind, addr) in old(verified) || rules.gate.accepts(Key(kind, addr), met.disk.files[Key(kind, addr)]))
      ensures body.Some? ==> body.value == met.disk.files[Key(kind, addr)]
      ensures var k := Key(kind, addr);
              k in old(objects) ==>
                && body == Served(rules.gate, old(State()), met, k)
                && State() == if body.None? then Quarantined(later, Bad(k, indexOk))
                              else if k in old(verified) then met
                              else Marked(later, k)
      ensures MarksRight(rules.gate, old(State())) ==>
                MarksRight(rules.gate, State()) && (body.Some? ==> rules.gate.accepts(Key(kind, addr), body.value))
    {
      hide Fits, Quarantined, Sound, MarksRight, Meanwhile;
      var key := Key(kind, addr);
      ghost var s := State();
      var hashed := key in verified;
      if key !in objects {
        return None;
      }
      ReadMeanwhile(rules, s, met, key);
      Become(met);
      if key !in disk.files || (!hashed && !rules.gate.accepts(key, disk.files[key])) {
        Become(later);
        Discard(Bad(key, indexOk));
        return None;
      }
      body := Some(disk.files[key]);
      if !hashed {
        MarkMeanwhile(rules, met, later, key);
        Become(later);
        MarkFits(rules, later, key);
        verified := verified + {key};
      }
    }

    /** What other operations have made of the store by the time the lock is taken again. */
    method Become(t: Store)
      requires Balanced() && Meanwhile(rules, State(), t)
      modifies this
      ensures Balanced() && State() == t
      ensures MarksRight(rules.gate, old(State())) ==> MarksRight(rules.gate, State())
    {
      hide Fits, MarksRight;
      pins, objects, verified, pending, bytes, disk := t.pins, t.objects, t.verified, t.pending, t.bytes, t.disk;
      SoundMore(rules, releases, t);
      Unlock();
    }

    /** Quarantine, as a reader that found bytes unreadable or wrong runs it. */
    method Discard(bad: Bad)
      requires Balanced()
      modifies this
      ensures Balanced() && State() == Quarantined(old(State()), bad)
      ensures MarksRight(rules.gate, old(State())) ==> MarksRight(rules.gate, State())
    {
      hide Accounted, AllNamed, Quarantined, Sound, QuarantineDisks, MarksRight;
      QuarantineFits(rules, State(), bad);
      if MarksRight(rules.gate, State()) {
        QuarantineMarks(rules.gate, State(), bad);
      }
      SoundMore(rules, releases, Quarantined(State(), bad));
      Quarantine(bad);
    }

    /** Enters the file sizes of the listed objects that are not entered yet. */
    method AddSizes(keys: seq<Key>)
      requires forall k :: k in keys ==> k in disk.files
      requires bytes == Total(objects)
      modifies this`objects, this`bytes
      ensures objects == WithSizes(disk.files, old(objects), keys) && bytes == Total(objects)
    {
      hide Total, WithSizes;
      var i := 0;
      WithNone(disk.files, objects);
      while i < |keys|
        invariant 0 <= i <= |keys|
        invariant objects == WithSizes(disk.files, old(objects), keys[..i]) && bytes == Total(objects)
      {
        var k := keys[i];
        assert keys[..i + 1] == keys[..i] + [k];
        WithOneMore(disk.files, old(objects), keys[..i], k);
        if k !in objects {
          var n := |disk.files[k]|;
          TotalAdd(objects, k, n);
          objects := objects[k := n];
          bytes := bytes + n;
        }
        i := i + 1;
      }
      assert keys[..i] == keys;
    }

    /** The pin an entry stands for: nothing if a name is malformed or a file is missing. */
    method ReadEntry(e: Entry) returns (rec: Option<Record>)
      ensures rec == Whole(disk.files, e)
    {
      hide Named;
      if e.Blank? || |e.objects| == 0 {
        return None;
      }
      hide Whole;
      var keys: seq<Key> := [];
      var i := 0;
      while i < |e.objects|
        invariant 0 <= i <= |e.objects| && |keys| == i
        invariant forall j :: 0 <= j < i ==> e.objects[j] == Some(keys[j]) && keys[j] in disk.files
      {
        if e.objects[i].None? || e.objects[i].value !in disk.files {
          NotWhole(disk.files, e, i);
          return None;
        }
        keys := keys + [e.objects[i].value];
        i := i + 1;
      }
      WholeMeans(disk.files, e, keys);
      return Some(Record(e.root, e.owner, keys, e.bytes, e.createdAt));
    }

    /** Removes every file no object entry names. */
    method SweepOrphans()
      modifies this`disk, this`disks
      ensures disk == old(disk).(files := map k | k in old(disk).files && k in objects :: old(disk).files[k])
      ensures forall d :: d in disks ==> d in old(disks) || SweptTo(d.files, old(disk).files, objects)
    {
      hide SweptTo;
      var todo := disk.files.Keys - objects.Keys;
      while todo != {}
        invariant disk.index == old(disk).index
        invariant disk.files.Keys == todo + (old(disk).files.Keys * objects.Keys) && todo !! objects.Keys
        invariant forall k :: k in disk.files ==> k in old(disk).files && disk.files[k] == old(disk).files[k]
        invariant forall d :: d in disks ==> d in old(disks) || SweptTo(d.files, old(disk).files, objects)
        decreases todo
      {
        var k :| k in todo;
        RemoveFile(k);
        todo := todo - {k};
        SweptMeans(disk.files, old(disk).files, objects);
      }
    }

    /**
     Reads the index back after a restart and reconciles it with the files; fails on an index
     that cannot be read, or when the reconciled one cannot be written. At every disk on the
     way the files are such that the same would be loaded again.
     */
    method Load(file: IndexFile, indexOk: bool) returns (ok: bool)
      requires State() == Store(map[], map[], {}, map[], 0, Disk(disk.files, None))
      modifies this
      ensures ok <==> file.Missing? || (file.Entries? && indexOk)
      ensures file.Missing? ==> State() == Recovered(old(disk))
      ensures file.Garbled? ==> State() == old(State())
      ensures file.Entries? && indexOk ==> State() == Loaded(old(disk.files), file.entries)
      ensures ok ==> Accounted(State()) && MarksRight(rules.gate, State())
      ensures releases == old(releases)
      ensures file.Entries? ==>
                forall d :: d in disks && d !in old(disks) ==>
                              SweptTo(d.files, old(disk.files), LoadedObjects(old(disk.files), file.entries))
    {
      hide Total, LoadedPins, LoadedObjects, Whole, SweptTo;
      ghost var files := disk.files;
      if file.Missing? {
        SweepOrphans();
        NothingIndexed(files);
        return true;
      }
      if file.Garbled? {
        return false;
      }
      var entries, i := file.entries, 0;
      LoadedNothing(files, entries[..0]);
      NoTotal();
      while i < |entries|
        invariant 0 <= i <= |entries| && disk == old(disk) && disks == old(disks) && releases == old(releases)
        invariant pins == LoadedPins(files, entries[..i]) && objects == LoadedObjects(files, entries[..i])
        invariant bytes == Total(objects) && verified == {} && pending == map[]
      {
        var rec := ReadEntry(entries[i]);
        assert entries[..i + 1][..i] == entries[..i] && entries[..i + 1][i] == entries[i];
        LoadedUnfold(files, entries[..i + 1]);
        if rec.Some? {
          pins := pins[rec.value.root := rec.value];
          WholeFiled(files, entries[i]);
          AddSizes(rec.value.objects);
        }
        i := i + 1;
      }
      assert entries[..i] == entries;
      SweepOrphans();
      WriteIndex(indexOk);
      SweptMeans(disk.files, files, objects);
      return indexOk;
    }
  }

  // --------------------------------------------------------------- books and budgets

  /** Releasing claims on objects that are gone leaves everything named. */
  lemma ReleaseKeeps(s: Store, keys: set<Key>, wrote: seq<Key>)
    requires s.pending == Claims(keys) && Listed(wrote, keys)
    ensures Unclaimed(s.pending, wrote) == map[]
    ensures Accounted(s.(pending := map[])) <==> Accounted(s)
    ensures AllNamed(s) && s.objects.Keys !! keys ==> AllNamed(s.(pending := map[]))
  {
    AllUnclaimed(s.pending, wrote);
  }

  lemma ReleaseNamed(s: Store, rec: Record, keys: set<Key>)
    requires AllNamed(s) && s.pending == Claims(keys) && rec.root in s.pins && s.pins[rec.root] == rec
    requires forall k :: k in keys ==> k in rec.objects
    ensures AllNamed(s.(pending := map[]))
  {
    assert forall k :: k in keys ==> k in Referenced(s.pins);
  }

  lemma EnteredParts(e: Store, rec: Record, ok: bool)
    ensures var t := Entered(e, rec, ok);
            && rec.root in t.pins && t.pins[rec.root] == rec && t.pins.Keys == e.pins.Keys + {rec.root}
            && (forall r :: r in e.pins && r != rec.root ==> t.pins[r] == e.pins[r])
            && t.pending == e.pending && t.objects == e.objects && t.bytes == e.bytes
            && t.disk.files == e.disk.files && (!ok ==> t.disk == e.disk)
  {
  }

  lemma EnteredUndone(e: Store, rec: Record)
    requires rec.root !in e.pins
    ensures var t := Entered(e, rec, false); t.(pins := t.pins - {rec.root}) == e
  {
  }

  lemma FilesAllOnlyGo(s: Store, bads: seq<Bad>)
    ensures var t := QuarantinedAll(s, bads);
            forall k :: k in t.disk.files ==> k in s.disk.files && t.disk.files[k] == s.disk.files[k]
  {
    hide QuarantinedAll;
    forall k
      ensures var t := QuarantinedAll(s, bads); k in t.disk.files ==> k in s.disk.files && t.disk.files[k] == s.disk.files[k]
    {
      FilesOnlyGo(s, bads, k);
    }
  }

  lemma NoMoreQuarantines(s: Store)
    ensures QuarantinedAll(s, []) == s
  {
  }

  lemma NamedNothing(releases: seq<Store>)
    ensures NamedFrom(releases, |releases|)
  {
  }

  lemma OutlastNothing(disks: seq<Disk>, was: map<Key, Record>, s: Store, made: Option<Record>)
    ensures Outlasting(disks, disks, was, s, made)
  {
  }

  // ---------------------------------------------------------------- a pin under way

  lemma Departs(c: Rules, s: Store, releases: seq<Store>, disks: seq<Disk>, f: Flight)
    requires Fits(c, s) && Sound(c, releases) && s.pending == map[]
    requires f == Flight(s, [], {}, |releases|, disks, None, AllNamed(s), MarksRight(c.gate, s), Healthy(s))
    ensures Kept(c, s, releases, f) && Guarded(s, disks, f) && After(s, []) == s
  {
    hide Healthy, AllNamed, Fits, MarksRight, Shielded;
    assert Claims({}) == map[];
    if Healthy(s) {
      HealthyIsShielded(s);
    }
  }

  lemma KeptParts(c: Rules, s: Store, releases: seq<Store>, f: Flight)
    requires Kept(c, s, releases, f)
    ensures Fits(c, s) && Sound(c, releases) && s.pending == Claims(f.wrote) && Among(s.pins, f.s0.pins)
    ensures f.named ==> AllNamed(s) && NamedFrom(releases, f.from)
    ensures f.marked ==> MarksRight(c.gate, s)
  {
  }

  lemma KeptPending(c: Rules, s: Store, releases: seq<Store>, f: Flight)
    requires Kept(c, s, releases, f)
    ensures Fits(c, s) && Sound(c, releases) && s.pending.Keys == f.wrote
    ensures f.wrote == {} ==> s.pending == map[]
  {
  }

  lemma KeptFrom(c: Rules, s: Store, releases: seq<Store>, f: Flight)
    requires Fits(c, s) && Sound(c, releases) && s.pending == Claims(f.wrote) && Among(s.pins, f.s0.pins)
    requires f.named ==> AllNamed(s) && NamedFrom(releases, f.from)
    requires f.marked ==> MarksRight(c.gate, s)
    ensures Kept(c, s, releases, f)
  {
  }

  lemma AnyTrace(c: Rules, s: Store, releases: seq<Store>, disks: seq<Disk>, f: Flight, trace: seq<Inside>)
    requires Kept(c, s, releases, f) && Guarded(s, disks, f)
    ensures Kept(c, s, releases, f.(trace := trace)) && Guarded(s, disks, f.(trace := trace))
  {
  }

  lemma KeptPurged(c: Rules, s: Store, log: seq<Store>, f: Flight, bads: seq<Bad>, after: seq<Store>)
    requires Kept(c, s, log, f) && log <= after && Sound(c, after) && NamedFrom(after, |log|)
    ensures var t := QuarantinedAll(s, bads);
            t.objects.Keys <= s.objects.Keys && t.bytes <= s.bytes && Kept(c, t, after, f)
  {
    hide Accounted, AllNamed, Claims, Quarantined, MarksRight, NamedFrom, QuarantinedAll, Sound;
    QuarantineAllKeeps(s, bads);
    var t := QuarantinedAll(s, bads);
    if f.marked {
      QuarantineAllMarks(c.gate, s, bads);
    }
    if f.named {
      NamedOn(log, after, f.from);
    }
    SubmapSize(t.pins, s.pins);
  }

  lemma KeptPut(c: Rules, s: Store, log: seq<Store>, f: Flight, key: Key, body: Bytes)
    requires c.gate.accepts(key, body) && Kept(c, s, log, f)
    ensures Kept(c, FileWritten(s, key, body), log, f)
  {
    hide Accounted, AllNamed, Claims, MarksRight, NamedFrom, Sound, Among;
    DiskIrrelevant(s, FileWritten(s, key, body).disk);
    if f.marked {
      PutMarks(c.gate, s, key, body);
    }
  }

  lemma KeptOwned(c: Rules, s: Store, log: seq<Store>, f: Flight, key: Key, body: Bytes)
    requires Kept(c, s, log, f) && key !in s.objects && key !in f.wrote
    requires c.gate.accepts(key, body) && (key in s.disk.files ==> s.disk.files[key] == body)
    requires c.maxBytes > 0 ==> s.bytes + |body| <= c.maxBytes
    ensures var t := Claimed(s, key, |body|); Kept(c, t, log + [t], f.(wrote := f.wrote + {key}))
  {
    hide Fits, AllNamed, Claims, MarksRight, NamedFrom, Sound, Among;
    var t := Claimed(s, key, |body|);
    ClaimsMore(f.wrote, key);
    ClaimFits(c, s, key, |body|);
    SoundMore(c, log, t);
    if f.marked {
      ClaimMarks(c.gate, s, key, |body|);
    }
    if f.named {
      NamedMore(log, f.from, t);
    }
  }

  lemma ClaimsMore(keys: set<Key>, k: Key)
    ensures Claims(keys + {k}) == Claims(keys)[k := 1]
    ensures k in Claims(keys) <==> k in keys
  {
  }

  /** A record entered, quarantines, and the record taken out again. */
  lemma WithdrawKeeps(c: Rules, was: Store, log: seq<Store>, f: Flight, rec: Record, window: seq<Bad>, after: seq<Store>)
    requires Kept(c, was, log, f) && rec.root !in was.pins
    requires log <= after && Sound(c, after) && NamedFrom(after, |log|)
    ensures f.named ==> NamedFrom(after, f.from)
    ensures var t := QuarantinedAll(Entered(was, rec, false), window);
            var u := TakenBack(t, rec.root);
            Kept(c, u, after + [u], f.(made := if window == [] then None else Some(rec), named := f.named && window == []))
  {
    hide Accounted, AllNamed, Claims, QuarantinedAll, Sound, MarksRight, NamedFrom, Entered;
    var s := Entered(was, rec, false);
    EnteredKeeps(was, rec, false);
    EnteredParts(was, rec, false);
    QuarantineAllKeeps(s, window);
    var t := QuarantinedAll(s, window);
    var u := TakenBack(t, rec.root);
    if f.marked {
      EnteredMarks(c.gate, was, rec);
      QuarantineAllMarks(c.gate, s, window);
      MarksIrrelevant(c.gate, t, u.pins, u.pending, false);
    }
    TakenBackAccounted(t, rec.root);
    TakenOut(t, rec, was.pins, f.s0.pins);
    SubmapSize(u.pins, was.pins);
    SoundMore(c, after, u);
    if f.named {
      NamedOn(log, after, f.from);
    }
    if window == [] {
      NoMoreQuarantines(s);
      EnteredUndone(was, rec);
      if f.named {
        NamedMore(after, f.from, u);
      }
    }
  }

  /** A record entered over some of the pins, then taken out. */
  lemma TakenOut(s: Store, rec: Record, was: map<Key, Record>, of: map<Key, Record>)
    requires s.pins.Keys <= was.Keys + {rec.root} && Among(was, of)
    requires forall r :: r in s.pins && r != rec.root ==> r in was && s.pins[r] == was[r]
    ensures Among(s.pins - {rec.root}, of)
  {
  }

  lemma EnteredMarks(gate: Gate, s: Store, rec: Record)
    ensures MarksRight(gate, Entered(s, rec, false)) <==> MarksRight(gate, s)
  {
  }

  lemma RollbackFits(c: Rules, s: Store, log: seq<Store>, f: Flight)
    requires Kept(c, s, log, f)
    ensures var t := DroppedAll(s, f.wrote); Fits(c, t) && Sound(c, log + [t])
  {
    hide Fits, AllNamed, DroppedAll, Sound;
    DropFits(c, s, f.wrote);
    SoundMore(c, log, DroppedAll(s, f.wrote));
  }

  lemma ReleasedAll(c: Rules, s: Store, log: seq<Store>, f: Flight, undo: seq<Bad>, wrote: seq<Key>)
    requires Kept(c, s, log, f) && Listed(wrote, f.wrote)
    ensures Unclaimed(QuarantinedAll(DroppedAll(s, f.wrote), undo).pending, wrote) == map[]
  {
    hide Fits, AllNamed, QuarantinedAll, Unclaimed, Total;
    DropFits(c, s, f.wrote);
    var t := DroppedAll(s, f.wrote);
    QuarantineAllFits(c, t, undo);
    ReleaseKeeps(QuarantinedAll(t, undo), f.wrote, wrote);
  }

  /** Everything written dropped, quarantines, and the claims released. */
  lemma AbortKeeps(c: Rules, s: Store, log: seq<Store>, f: Flight, undo: seq<Bad>, after: seq<Store>)
    requires Kept(c, s, log, f)
    requires log + [DroppedAll(s, f.wrote)] <= after && Sound(c, after) && NamedFrom(after, |log| + 1)
    ensures var v := GivenUp(s, undo);
            && v == QuarantinedAll(DroppedAll(s, f.wrote), undo).(pending := map[])
            && Fits(c, v) && Sound(c, after + [v])
            && (f.named ==> AllNamed(v) && NamedFrom(after + [v], f.from))
            && (f.marked ==> MarksRight(c.gate, v))
  {
    hide Fits, AllNamed, Claims, Among, DroppedAll, QuarantinedAll, MarksRight, NamedFrom, Sound;
    KeptPending(c, s, log, f);
    var t := DroppedAll(s, f.wrote);
    var u := QuarantinedAll(t, undo);
    var v := u.(pending := map[]);
    DropFits(c, s, f.wrote);
    QuarantineAllFits(c, t, undo);
    ReleasedNames(c, s, f.wrote, undo);
    SoundMore(c, after, v);
    if f.marked {
      DroppedMarks(c.gate, s, f.wrote);
      QuarantineAllMarks(c.gate, t, undo);
      MarksIrrelevant(c.gate, u, u.pins, map[], false);
    }
    if f.named {
      NamedMore(log, f.from, t);
      NamedOn(log + [t], after, f.from);
      NamedMore(after, f.from, v);
    }
  }

  lemma ReleasedNames(c: Rules, s: Store, keys: set<Key>, undo: seq<Bad>)
    requires Fits(c, s) && s.pending.Keys == keys
    ensures var u := QuarantinedAll(DroppedAll(s, keys), undo);
            && (Fits(c, u) ==> Fits(c, u.(pending := map[])))
            && (AllNamed(s) ==> AllNamed(u.(pending := map[])))
  {
    hide QuarantinedAll, Total;
    var t := DroppedAll(s, keys);
    DroppedAccounted(s, keys);
    QuarantineAllKeeps(t, undo);
  }

  // ------------------------------------------------------------- no crash loses a pin

  lemma GuardedPurge(s: Store, log: seq<Disk>, disks: seq<Disk>, bad: Bad, f: Flight)
    requires Guarded(s, log, f) && QuarantineDisks(disks, log, s, bad.key)
    ensures Guarded(Quarantined(s, bad), disks, f)
  {
    hide Quarantined, QuarantineDisks, Shielded, Outlasting;
    if f.whole {
      PurgeShields(s, bad, f.s0.pins, f.wrote, f.made);
      PurgeOutlasts(disks, log, f.disks, s, bad, f.s0.pins, f.wrote, f.made);
    }
  }

  lemma GuardedPut(s: Store, log: seq<Disk>, k: Key, body: Bytes, ok: bool, f: Flight)
    requires Guarded(s, log, f) && f.made.None?
    ensures var t := if ok then FileWritten(s, k, body) else s; Guarded(t, log + [t.disk], f)
  {
    hide Shielded, Outlasting;
    if f.whole {
      PutShields(s, k, body, f.s0.pins, f.wrote);
      var t := if ok then FileWritten(s, k, body) else s;
      OutlastOn(log, f.disks, f.s0.pins, s, t, None);
      OutlastOne(log, f.disks, f.s0.pins, t, f.wrote, None);
    }
  }

  lemma GuardedClaim(s: Store, disks: seq<Disk>, k: Key, n: nat, f: Flight)
    requires Guarded(s, disks, f) && k !in s.objects && f.made.None?
    ensures Guarded(Claimed(s, k, n), disks, f.(wrote := f.wrote + {k}))
  {
    hide Shielded, Outlasting;
    if f.whole {
      ClaimShields(s, k, n, f.s0.pins, f.wrote, None);
      OutlastOn(disks, f.disks, f.s0.pins, s, Claimed(s, k, n), None);
    }
  }

  lemma GuardedRollback(s: Store, log: seq<Disk>, disks: seq<Disk>, f: Flight)
    requires Guarded(s, log, f) && (f.made.Some? ==> f.made.value.root !in s.pins)
    requires Keep(disks, log, s.disk.index, s.disk.files.Keys - f.wrote)
    ensures Guarded(DroppedAll(s, f.wrote), disks, f)
  {
    hide Shielded, Outlasting, DroppedAll, Keep;
    if f.whole {
      RollbackShields(s, f.s0.pins, f.wrote, f.made);
      RollbackOutlasts(disks, log, f.disks, s, f.s0.pins, f.wrote, f.made);
    }
  }

  lemma GuardedRelease(s: Store, disks: seq<Disk>, f: Flight)
    requires Guarded(s, disks, f)
    ensures Guarded(s.(pending := map[]), disks, f)
  {
    hide Shielded, Outlasting;
    if f.whole {
      ReleaseShields(s, f.s0.pins, f.wrote, f.made);
      OutlastOn(disks, f.disks, f.s0.pins, s, s.(pending := map[]), f.made);
    }
  }

  lemma GuardedEntry(s: Store, log: seq<Disk>, rec: Record, ok: bool, f: Flight)
    requires Guarded(s, log, f) && f.made.None? && rec.root !in f.s0.pins
    ensures var t := Entered(s, rec, ok);
            && Guarded(t, log + [t.disk], f.(made := Some(rec)))
            && (!ok ==> Guarded(s, log + [t.disk], f))
  {
    hide Shielded, Outlasting;
    if f.whole {
      EntryShields(s, rec, ok, f.s0.pins, f.wrote);
      EntryOutlasts(log, f.disks, s, rec, ok, f.s0.pins, f.wrote);
    }
  }

  lemma GuardedTakeBack(s: Store, disks: seq<Disk>, root: Key, f: Flight)
    requires Guarded(s, disks, f)
    ensures Guarded(TakenBack(s, root), disks, f)
  {
    hide Shielded, Outlasting;
    if f.whole {
      TakeBackShields(s, root, f.s0.pins, f.wrote, f.made);
      OutlastOn(disks, f.disks, f.s0.pins, s, TakenBack(s, root), f.made);
    }
  }

  lemma GuardedAnyway(s: Store, disks: seq<Disk>, f: Flight, named: bool)
    requires Guarded(s, disks, f)
    ensures Guarded(s, disks, f.(named := named))
  {
  }

  lemma GuardedLog(s: Store, disks: seq<Disk>, f: Flight)
    requires Guarded(s, disks, f)
    ensures f.whole ==> Outlasting(disks, f.disks, f.s0.pins, s, f.made)
  {
  }

  // -------------------------------------------------------------- where a pin stands

  lemma OnTrackParts(c: Rules, p: Plan, n: nat, f: Flight, wrote: seq<Key>, pinBytes: nat)
    requires OnTrack(c, p, n, f, wrote, pinBytes)
    ensures n <= |p.wants| && f.trace == Timeline(f.s0, p, n) && Tallied(wrote, f.wrote, p.wants, n)
    ensures pinBytes == Weighed(f.s0, p, n) && Passed(c, f.s0, p, n) == n
  {
  }

  lemma OnTrackStart(c: Rules, p: Plan, f: Flight)
    requires f.trace == Timeline(f.s0, p, 0) && f.wrote == {}
    ensures OnTrack(c, p, 0, f, [], 0)
  {
    hide Timeline, Tallied;
    TalliedNone(p.wants);
  }

  /** A held object is passed by. */
  lemma OnTrackHeld(c: Rules, p: Plan, n: nat, f: Flight, wrote: seq<Key>, pinBytes: nat, g: Flight)
    requires n < |p.wants| && OnTrack(c, p, n, f, wrote, pinBytes) && Refusal(c, f.s0, p, n).None?
    requires g == f.(trace := Seen(f.s0, p, n)) && p.wants[n] in After(f.s0, g.trace).objects
    ensures OnTrack(c, p, n + 1, g, wrote, pinBytes + After(f.s0, g.trace).objects[p.wants[n]])
  {
    hide After, Timeline, Purges, Tallied, Refusal;
    TimelineUnfold(f.s0, p, n);
    TalliedOn(wrote, f.wrote, p.wants, n);
    PassesOn(c, f.s0, p, n);
  }

  /** A missing object is written and claimed. */
  lemma OnTrackNew(c: Rules, p: Plan, n: nat, f: Flight, wrote: seq<Key>, pinBytes: nat, body: Bytes, g: Flight)
    requires n < |p.wants| && NoDuplicates(p.wants) && OnTrack(c, p, n, f, wrote, pinBytes)
    requires p.wants[n] !in After(f.s0, Seen(f.s0, p, n)).objects && BodyOf(p, n) == Some(body)
    requires Refusal(c, f.s0, p, n).None?
    requires g == f.(trace := g.trace, wrote := f.wrote + {p.wants[n]})
    requires g.trace == Seen(f.s0, p, n) + Purges(p.env.during(4 * n + 2)) + Purges(p.env.during(4 * n + 3))
                        + [Put(p.wants[n], body)] + Purges(p.env.during(4 * n + 4)) + [Own(p.wants[n], |body|)]
    ensures OnTrack(c, p, n + 1, g, wrote + [p.wants[n]], pinBytes + |body|)
  {
    hide After, Timeline, Purges, Tallied, NoDuplicates, Refusal;
    TimelineUnfold(f.s0, p, n);
    TalliedParts(wrote, f.wrote, p.wants, n);
    TalliedMore(wrote, f.wrote, p.wants, n);
    PassesOn(c, f.s0, p, n);
  }

  /** The written keys are those of the keys. */
  ghost predicate Listed(wrote: seq<Key>, keys: set<Key>) {
    forall k :: k in wrote <==> k in keys
  }

  /** The written keys, each once, are those of the keys and among the first wants. */
  ghost predicate Tallied(wrote: seq<Key>, keys: set<Key>, wants: seq<Key>, n: nat) {
    n <= |wants| && NoDuplicates(wrote) && Listed(wrote, keys) && forall k :: k in keys ==> Early(wants, k, n)
  }

  ghost predicate Early(wants: seq<Key>, k: Key, n: nat)
    requires n <= |wants|
  {
    k in wants[..n]
  }

  lemma TalliedNone(wants: seq<Key>)
    ensures Tallied([], {}, wants, 0)
  {
  }

  lemma TalliedParts(wrote: seq<Key>, keys: set<Key>, wants: seq<Key>, n: nat)
    requires Tallied(wrote, keys, wants, n) && NoDuplicates(wants)
    ensures NoDuplicates(wrote) && Listed(wrote, keys) && forall k :: k in keys ==> k in wants
    ensures n < |wants| ==> wants[n] !in keys && wants[n] !in wants[..n]
  {
  }

  lemma TalliedMore(wrote: seq<Key>, keys: set<Key>, wants: seq<Key>, n: nat)
    requires n < |wants| && Tallied(wrote, keys, wants, n) && wants[n] !in keys
    ensures n + 1 <= |wants| && Tallied(wrote + [wants[n]], keys + {wants[n]}, wants, n + 1)
  {
    var more := wrote + [wants[n]];
    assert wants[..n + 1] == wants[..n] + [wants[n]];
    assert forall k :: k in more <==> k in wrote || k == wants[n];
    assert wants[n] !in wrote;
  }

  lemma TalliedOn(wrote: seq<Key>, keys: set<Key>, wants: seq<Key>, n: nat)
    requires n < |wants|
    ensures Tallied(wrote, keys, wants, n) ==> Tallied(wrote, keys, wants, n + 1)
  {
    assert wants[..n + 1] == wants[..n] + [wants[n]];
  }
}
