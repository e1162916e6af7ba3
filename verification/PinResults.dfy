/**
 What a pin guarantees (tunnel/pubcache/pin.go), over every schedule of quarantines: exactly
 when everything ends up named, the record complete, its files in place and the pin back
 after a restart; and what holds when no quarantine runs.
 */
module PinResults {
  import opened Basics
  import opened Manifest
  import opened Totals
  import opened PinModel
  import opened PinInterleavings
  import opened PinPlan
  import opened PinCrash

  // ----------------------------------------------------------- what happens is orderly

  lemma {:induction false} OrderlyPurges(s: Store, es: seq<Inside>, bads: seq<Bad>)
    requires Orderly(s, es)
    ensures Orderly(s, es + Purges(bads))
    ensures After(s, es + Purges(bads)).objects.Keys <= After(s, es).objects.Keys
    decreases |bads|
  {
    hide After, QuarantinedAll;
    AfterPurges(s, es, bads);
    QuarantineRun(After(s, es), bads);
    if |bads| == 0 {
      assert es + Purges(bads) == es;
    } else {
      var n := |bads| - 1;
      var init := es + Purges(bads[..n]);
      OrderlyPurges(s, es, bads[..n]);
      assert Purges(bads) == Purges(bads[..n]) + [Purge(bads[n])];
      assert es + Purges(bads) == init + [Purge(bads[n])];
      OrderlyOne(s, init, Purge(bads[n]));
    }
  }

  lemma OrderlyOne(s: Store, es: seq<Inside>, e: Inside)
    requires Orderly(s, es)
    requires !e.Purge? ==> e.key !in After(s, es).objects
    requires e.Own? ==> !NeverPut(es, e.key)
    ensures Orderly(s, es + [e])
  {
    hide After;
    assert (es + [e])[..|es|] == es;
  }

  lemma WasPut(es: seq<Inside>, more: seq<Inside>, k: Key, body: Bytes)
    ensures !NeverPut(es + [Put(k, body)] + more, k)
  {
    assert Puts((es + [Put(k, body)] + more)[|es|], k);
  }

  lemma {:induction false} TimelineOrderly(s: Store, p: Plan, n: nat)
    requires n <= |p.wants|
    ensures Orderly(s, Timeline(s, p, n))
    decreases n
  {
    hide After, Orderly, Purges;
    if n == 0 {
      PurgesAreOrderly(s, p.env.during(0));
    } else {
      var i := n - 1;
      TimelineOrderly(s, p, i);
      TimelineUnfold(s, p, i);
      var seen := Seen(s, p, i);
      SeenUnfold(s, p, i);
      OrderlyPurges(s, Timeline(s, p, i), p.env.during(4 * i + 1));
      var k := p.wants[i];
      if k !in After(s, seen).objects && BodyOf(p, i).Some? {
        StagingOrderly(s, seen, k, BodyOf(p, i).value, p.env.during(4 * i + 2), p.env.during(4 * i + 3), p.env.during(4 * i + 4));
      }
    }
  }

  /** An object that is not held is written and then claimed, with quarantines in between. */
  lemma StagingOrderly(s: Store, es: seq<Inside>, k: Key, body: Bytes, a: seq<Bad>, b: seq<Bad>, d: seq<Bad>)
    requires Orderly(s, es) && k !in After(s, es).objects
    ensures Orderly(s, es + Purges(a) + Purges(b) + [Put(k, body)] + Purges(d) + [Own(k, |body|)])
  {
    hide After, Orderly, Purges, NeverPut;
    OrderlyPurges(s, es, a);
    OrderlyPurges(s, es + Purges(a), b);
    var asked := es + Purges(a) + Purges(b);
    OrderlyOne(s, asked, Put(k, body));
    AfterOne(s, asked, Put(k, body));
    OrderlyPurges(s, asked + [Put(k, body)], d);
    WasPut(asked, Purges(d), k, body);
    OrderlyOne(s, asked + [Put(k, body)] + Purges(d), Own(k, |body|));
  }

  lemma FlightOrderly(s: Store, p: Plan)
    ensures Orderly(s, Flown(s, p))
  {
    hide After, Orderly, Purges, Timeline;
    TimelineOrderly(s, p, |p.wants|);
    FlownUnfold(s, p);
    OrderlyPurges(s, Timeline(s, p, |p.wants|), p.env.during(4 * |p.wants| + 1));
  }

  lemma HaltOrderly(c: Rules, s: Store, p: Plan, i: nat)
    requires i < |p.wants|
    ensures Orderly(s, Halted(c, s, p, i))
  {
    hide After, Orderly, Purges, Timeline, Screened;
    TimelineOrderly(s, p, i);
    OrderlyPurges(s, Timeline(s, p, i), p.env.during(4 * i + 1));
    var seen := Seen(s, p, i);
    OrderlyPurges(s, seen, p.env.during(4 * i + 2));
    OrderlyPurges(s, seen + Purges(p.env.during(4 * i + 2)), p.env.during(4 * i + 3));
    OrderlyPurges(s, seen + Purges(p.env.during(4 * i + 2)) + Purges(p.env.during(4 * i + 3)), p.env.during(4 * i + 4));
  }

  /** The books balance, and everything is named, whatever has happened. */
  lemma {:induction false} AfterKeeps(s: Store, es: seq<Inside>)
    requires Orderly(s, es) && Accounted(s)
    ensures Accounted(After(s, es)) && (AllNamed(s) ==> AllNamed(After(s, es)))
  {
    hide Quarantined, Accounted, AllNamed, NeverPut;
    if |es| > 0 {
      var n := |es| - 1;
      AfterKeeps(s, es[..n]);
      var t := After(s, es[..n]);
      match es[n]
      case Put(k, body) => DiskIrrelevant(t, FileWritten(t, k, body).disk);
      case Own(k, size) => ClaimKeeps(t, k, size);
      case Purge(bad) => QuarantineKeeps(t, bad);
    }
  }

  /** Nothing that happens on the way puts a new pin in the books or the index. */
  lemma {:induction false} StillUnpinned(s: Store, es: seq<Inside>, r: Key)
    requires r !in s.pins && r !in IndexedPins(s.disk)
    ensures r !in After(s, es).pins && r !in IndexedPins(After(s, es).disk)
  {
    hide Quarantined;
    if |es| > 0 {
      var n := |es| - 1;
      StillUnpinned(s, es[..n], r);
      if es[n].Purge? {
        PurgedDisk(After(s, es[..n]), es[n].bad);
      }
    }
  }

  // ------------------------------------------------------------------ what is answered

  /**
   Why a pin stops at an object, in the numbers: it is there; or it cannot be had; or its
   bytes do not verify; or they are over the cap on an object, or take the pin or the store
   over its own; or they cannot be written. In this order.
   */
  lemma RefusalMeans(c: Rules, s: Store, p: Plan, i: nat)
    requires i < |p.wants|
    ensures var held := p.wants[i] in After(s, Seen(s, p, i)).objects;
            var stored := After(s, Seen(s, p, i) + Purges(p.env.during(4 * i + 2))).bytes;
            var sent := if i == 0 then Some(p.rootBody) else p.env.fetch(p.wants[i]);
            if held then Refusal(c, s, p, i).None?
            else if sent.None? then Refusal(c, s, p, i) == Some(Fetch)
            else if !c.gate.accepts(p.wants[i], sent.value) then Refusal(c, s, p, i) == Some(Unverified)
            else if c.maxObjBytes > 0 && |sent.value| > c.maxObjBytes then Refusal(c, s, p, i) == Some(Budget)
            else if c.maxPinBytes > 0 && Weighed(s, p, i) + |sent.value| > c.maxPinBytes then
              Refusal(c, s, p, i) == Some(Budget)
            else if c.maxBytes > 0 && stored + |sent.value| > c.maxBytes then Refusal(c, s, p, i) == Some(Budget)
            else if !p.env.writeOk(p.wants[i]) then Refusal(c, s, p, i) == Some(DiskFailed)
            else Refusal(c, s, p, i).None?
  {
    hide After, Purges, Weighed, Seen;
  }

  /**
   A pin is answered with the record there already; refused when there are as many pins as
   may be; when the root cannot be had; when it is a manifest whose chunks do not verify; for
   the first object it stops at; when the index cannot be written; and otherwise done.
   */
  lemma PinAnswers(c: Rules, s: Store, root: Key, owner: string, env: Env)
    ensures var r := Ending(c, s, root, owner, env).0;
            if root in s.pins then r == Done(s.pins[root])
            else if c.maxPins > 0 && |s.pins| >= c.maxPins then r == Refused(Budget)
            else if env.fetch(root).None? then r == Refused(Fetch)
            else if root.kind == PubManifest && c.gate.chunks(root, env.fetch(root).value).None? then r == Refused(Unverified)
            else
              var p := PlanFor(c.gate, root, env);
              if exists i :: 0 <= i < |p.wants| && Refusal(c, s, p, i).Some?
              then exists i :: 0 <= i < |p.wants| && StopsAt(c, s, p, i) && r == Refused(Refusal(c, s, p, i).value)
              else if !env.indexOk then r == Refused(DiskFailed)
              else
                && r.Done? && r.rec.root == root && r.rec.owner == owner && r.rec.createdAt == env.now
                && r.rec.objects == ObjectsOf(c.gate, root, env.fetch(root).value)
  {
    hide Refusal, Settled, Withdrawn, GivenUp, QuarantinedAll, Flown, Halted, ObjectsOf, Weighed, After, Entered;
    if Begins(c, s, root, env) {
      var p := PlanFor(c.gate, root, env);
      PassedMeans(c, s, p, |p.wants|);
      var m := Passed(c, s, p, |p.wants|);
      hide Passed;
      if m < |p.wants| {
        assert StopsAt(c, s, p, m);
      }
    }
  }

  /** Object i is the first that is refused. */
  ghost predicate StopsAt(c: Rules, s: Store, p: Plan, i: nat)
    requires i < |p.wants|
  {
    Refusal(c, s, p, i).Some? && forall j :: 0 <= j < i ==> Refusal(c, s, p, j).None?
  }

  /** Every object that a done pin wrote verified, and was within every cap when it was written. */
  lemma DoneFits(c: Rules, s: Store, root: Key, owner: string, env: Env, i: nat)
    requires root !in s.pins && Ending(c, s, root, owner, env).0.Done?
    requires env.fetch(root).Some? && i < |PlanFor(c.gate, root, env).wants|
    requires var p := PlanFor(c.gate, root, env); p.wants[i] !in After(s, Seen(s, p, i)).objects
    ensures var p := PlanFor(c.gate, root, env);
            var stored := After(s, Seen(s, p, i) + Purges(env.during(4 * i + 2))).bytes;
            && BodyOf(p, i).Some? && c.gate.accepts(p.wants[i], BodyOf(p, i).value)
            && (c.maxObjBytes > 0 ==> |BodyOf(p, i).value| <= c.maxObjBytes)
            && (c.maxPinBytes > 0 ==> Weighed(s, p, i) + |BodyOf(p, i).value| <= c.maxPinBytes)
            && (c.maxBytes > 0 ==> stored + |BodyOf(p, i).value| <= c.maxBytes)
  {
    hide Refusal, Settled, Withdrawn, GivenUp, QuarantinedAll, Flown, Halted, ObjectsOf, Weighed, After, Entered, Seen;
    DoneMeans(c, s, root, owner, env);
    var p := PlanFor(c.gate, root, env);
    PassedMeans(c, s, p, |p.wants|);
    hide Passed, Ending, PlanFor, Purges;
    RefusalMeans(c, s, p, i);
  }

  // -------------------------------------------------------------------------- naming

  /**
   When a pin whose record was entered over e leaves everything named. Committed: each object
   it claimed and the window left is named by a pin the window left. Given up: a quarantine
   runs after the rollback, or the window touches the record, or each object the record
   names, found present, is named by another pin the window left.
   */
  ghost predicate StaysNamed(e: Store, rec: Record, env: Env) {
    if env.indexOk then
      forall k :: k in e.pending && k in e.objects && k !in Keys(env.window) ==>
                    StillNamed(Entered(e, rec, true), k, env.window)
    else
      || env.undo != []
      || Touches(rec, env.window)
      || forall k :: k in rec.objects && k in e.objects && k !in e.pending ==> StillNamed(e, k, env.window)
  }

  /** Everything ends up named exactly when the record is not entered or stays so. */
  lemma PinNaming(c: Rules, s: Store, root: Key, owner: string, env: Env)
    requires Accounted(s) && AllNamed(s)
    ensures AllNamed(Ending(c, s, root, owner, env).1) <==>
              (Enters(c, s, root, env) ==>
                 var p := PlanFor(c.gate, root, env);
                 StaysNamed(AtEntry(s, p), RecordOf(s, p, root, owner), env))
  {
    hide Accounted, AllNamed, After, QuarantinedAll, Entered, GivenUp, Withdrawn, StaysNamed;
    hide Refusal, Passed, ObjectsOf, Weighed, Halted, Flown;
    if root in s.pins || (c.maxPins > 0 && |s.pins| >= c.maxPins) {
    } else if !Begins(c, s, root, env) {
      QuarantineAllKeeps(s, env.during(0));
    } else {
      var p := PlanFor(c.gate, root, env);
      var i := Passed(c, s, p, |p.wants|);
      if i < |p.wants| {
        HaltOrderly(c, s, p, i);
        AfterKeeps(s, Halted(c, s, p, i));
        NamedParts(After(s, Halted(c, s, p, i)));
        GivenUpNamed(After(s, Halted(c, s, p, i)), env.undo);
      } else {
        FlightOrderly(s, p);
        AfterKeeps(s, Flown(s, p));
        PinsAfter(s, Flown(s, p));
        NamingOverEntry(AtEntry(s, p), RecordOf(s, p, root, owner), env);
      }
    }
  }

  lemma NamedParts(s: Store)
    requires AllNamed(s)
    ensures s.objects.Keys - s.pending.Keys <= Referenced(s.pins)
  {
  }

  lemma NamingOverEntry(e: Store, rec: Record, env: Env)
    requires Accounted(e) && AllNamed(e) && rec.root !in e.pins
    ensures AllNamed(if env.indexOk then Settled(e, rec, env.window) else Withdrawn(e, rec, env.window, env.undo))
            <==> StaysNamed(e, rec, env)
  {
    hide Accounted, AllNamed, QuarantinedAll, Entered, Withdrawn, StillNamed, Touches, Keys;
    if env.indexOk {
      CommitNaming(e, rec, true, env.window);
    } else {
      WithdrawNaming(e, rec, env.window, env.undo);
    }
  }

  // -------------------------------------------------------- completeness and durability

  /** The record is entered and its index written. */
  ghost predicate Commits(c: Rules, s: Store, root: Key, env: Env) {
    Enters(c, s, root, env) && env.indexOk
  }

  /** A pin not held before is done exactly when it commits, and the record is the one entered. */
  lemma DoneMeans(c: Rules, s: Store, root: Key, owner: string, env: Env)
    requires root !in s.pins
    ensures Ending(c, s, root, owner, env).0.Done? <==> Commits(c, s, root, env)
    ensures Commits(c, s, root, env) ==>
              var p := PlanFor(c.gate, root, env);
              Ending(c, s, root, owner, env) == (Done(RecordOf(s, p, root, owner)),
                                                 Settled(AtEntry(s, p), RecordOf(s, p, root, owner), env.window))
  {
    hide Refusal, Settled, Withdrawn, GivenUp, QuarantinedAll, Flown, Halted, ObjectsOf, Weighed, After, Entered;
  }

  lemma WantsSomething(gate: Gate, root: Key, env: Env)
    requires env.fetch(root).Some?
    ensures |PlanFor(gate, root, env).wants| > 0
  {
    NoDuplicateWants(gate, root, env.fetch(root).value);
  }

  /**
   The books have every object of a committed record exactly when the window leaves it alone
   and each was held when it was entered.
   */
  lemma PinCompleteness(c: Rules, s: Store, root: Key, owner: string, env: Env)
    requires Commits(c, s, root, env) && s.pending == map[]
    ensures var p := PlanFor(c.gate, root, env);
            var rec := RecordOf(s, p, root, owner);
            CompleteIn(rec, Ending(c, s, root, owner, env).1.objects.Keys)
            <==> !Touches(rec, env.window) && forall k :: k in rec.objects ==> HeldAfter(s, Flown(s, p), k)
  {
    hide After, Entered, QuarantinedAll, Touches, HeldAfter, Flown, ObjectsOf, Weighed;
    DoneMeans(c, s, root, owner, env);
    WantsSomething(c.gate, root, env);
    var p := PlanFor(c.gate, root, env);
    var e, rec := AtEntry(s, p), RecordOf(s, p, root, owner);
    PinsAfter(s, Flown(s, p));
    CommittedCompleteExactly(e, rec, true, env.window);
    forall k | k in rec.objects
      ensures k in e.objects <==> HeldAfter(s, Flown(s, p), k)
    {
      HeldExactly(s, Flown(s, p), k);
    }
  }

  /** No quarantine in the window is of an object the record names, and all their files were in place before. */
  ghost predicate StaysFiled(s: Store, es: seq<Inside>, rec: Record, window: seq<Bad>) {
    !Touches(rec, window) && forall k :: k in rec.objects ==> FiledAfter(s, es, k)
  }

  /**
   A pin that is done is durable, its files in place and a restart bringing it back as it
   is, exactly when the window leaves it alone, no quarantine was of an object since it was
   written, and each object found present had its file and none that reclaimed it ran.
   */
  lemma PinDurability(c: Rules, s: Store, root: Key, owner: string, env: Env)
    requires Commits(c, s, root, env)
    ensures var p := PlanFor(c.gate, root, env);
            var rec, disk := RecordOf(s, p, root, owner), Ending(c, s, root, owner, env).1.disk;
            && (CompleteIn(rec, disk.files.Keys) <==> StaysFiled(s, Flown(s, p), rec, env.window))
            && (root in Recovered(disk).pins <==> StaysFiled(s, Flown(s, p), rec, env.window))
            && (root in Recovered(disk).pins ==> Recovered(disk).pins[root] == rec)
  {
    hide After, Entered, QuarantinedAll, Touches, FiledAfter, Flown, ObjectsOf, Weighed, Recovered, Orderly;
    DoneMeans(c, s, root, owner, env);
    WantsSomething(c.gate, root, env);
    var p := PlanFor(c.gate, root, env);
    var es, e, rec := Flown(s, p), AtEntry(s, p), RecordOf(s, p, root, owner);
    PinsAfter(s, es);
    FlightOrderly(s, p);
    CommittedOnDiskExactly(e, rec, true, env.window);
    CommittedIsRecovered(e, rec, env.window);
    forall k | k in rec.objects
      ensures k in e.disk.files <==> FiledAfter(s, es, k)
    {
      FiledExactly(s, es, k);
    }
  }

  /** A pin that is refused comes back after a restart exactly when its record was entered and left behind. */
  lemma RefusedPinReturns(c: Rules, s: Store, root: Key, owner: string, env: Env)
    requires root !in s.pins && root !in IndexedPins(s.disk) && Ending(c, s, root, owner, env).0.Refused?
    ensures root in Recovered(Ending(c, s, root, owner, env).1.disk).pins <==>
              && Enters(c, s, root, env)
              && var p := PlanFor(c.gate, root, env);
                 LeftBehind(AtEntry(s, p), RecordOf(s, p, root, owner), env.window, env.undo)
  {
    hide After, Entered, QuarantinedAll, LeftBehind, Flown, Halted, ObjectsOf, Weighed, Recovered, Withdrawn, Refusal, Passed;
    if c.maxPins > 0 && |s.pins| >= c.maxPins {
      OnlyIndexed(s.disk, root);
    } else if !Begins(c, s, root, env) {
      StillUnpinned(s, Purges(env.during(0)), root);
      AllPurges(s, env.during(0));
      OnlyIndexed(QuarantinedAll(s, env.during(0)).disk, root);
    } else {
      var p := PlanFor(c.gate, root, env);
      var i := Passed(c, s, p, |p.wants|);
      if i < |p.wants| {
        StillUnpinned(s, Halted(c, s, p, i), root);
        UnpinnedGivenUp(After(s, Halted(c, s, p, i)), env.undo, root);
      } else {
        StillUnpinned(s, Flown(s, p), root);
        WithdrawnIsRecovered(AtEntry(s, p), RecordOf(s, p, root, owner), env.window, env.undo);
      }
    }
  }

  lemma OnlyIndexed(d: Disk, r: Key)
    requires r !in IndexedPins(d)
    ensures r !in Recovered(d).pins
  {
  }

  lemma UnpinnedGivenUp(t: Store, undo: seq<Bad>, r: Key)
    requires r !in t.pins && r !in IndexedPins(t.disk)
    ensures r !in Recovered(GivenUp(t, undo).disk).pins
  {
    hide QuarantinedAll, Recovered, After, Total;
    var u := DroppedAll(t, t.pending.Keys);
    StillUnpinned(u, Purges(undo), r);
    AllPurges(u, undo);
    OnlyIndexed(GivenUp(t, undo).disk, r);
  }

  // ------------------------------------------------------------------ the other pins

  /** The quarantines that ran, in order. */
  ghost function BadsRun(c: Rules, s: Store, root: Key, env: Env): seq<Bad> {
    if root in s.pins || (c.maxPins > 0 && |s.pins| >= c.maxPins) then []
    else if !Begins(c, s, root, env) then env.during(0)
    else
      var p := PlanFor(c.gate, root, env);
      var i := Passed(c, s, p, |p.wants|);
      if i < |p.wants| then BadsOf(Halted(c, s, p, i)) + env.undo
      else BadsOf(Flown(s, p)) + env.window + (if env.indexOk then [] else env.undo)
  }

  /** A pin leaves every other pin as it was, but for those that a quarantine touched. */
  lemma OtherPins(c: Rules, s: Store, root: Key, owner: string, env: Env, r: Key)
    requires r in s.pins
    ensures var t := Ending(c, s, root, owner, env).1;
            && (r in t.pins <==> !Touches(s.pins[r], BadsRun(c, s, root, env)))
            && (r in t.pins ==> t.pins[r] == s.pins[r])
  {
    hide After, QuarantinedAll, Flown, Halted, ObjectsOf, Weighed, Refusal, Passed, Touches, BadsOf, Entered;
    if root in s.pins || (c.maxPins > 0 && |s.pins| >= c.maxPins) {
      TouchesSplit([]);
    } else if !Begins(c, s, root, env) {
      QuarantineRun(s, env.during(0));
    } else {
      var p := PlanFor(c.gate, root, env);
      var i := Passed(c, s, p, |p.wants|);
      if i < |p.wants| {
        var es := Halted(c, s, p, i);
        PinsAfter(s, es);
        GivenUpPins(After(s, es), env.undo);
        TouchesBoth(s.pins[r], BadsOf(es), env.undo);
      } else {
        var es, rec := Flown(s, p), RecordOf(s, p, root, owner);
        PinsAfter(s, es);
        var e := After(s, es);
        EntryPins(e, rec, env.indexOk);
        QuarantineRun(Entered(e, rec, env.indexOk), env.window);
        TouchesBoth(s.pins[r], BadsOf(es), env.window);
        TouchesBoth(s.pins[r], BadsOf(es) + env.window, if env.indexOk then [] else env.undo);
        TouchesSplit([]);
        if !env.indexOk {
          GivenUpPins(TakenBack(QuarantinedAll(Entered(e, rec, false), env.window), root), env.undo);
        }
      }
    }
  }

  lemma EntryPins(e: Store, rec: Record, ok: bool)
    ensures Entered(e, rec, ok).pins == e.pins[rec.root := rec]
  {
  }

  lemma GivenUpPins(t: Store, undo: seq<Bad>)
    ensures var v := GivenUp(t, undo);
            && (forall r :: r in v.pins <==> r in t.pins && !Touches(t.pins[r], undo))
            && (forall r :: r in v.pins ==> v.pins[r] == t.pins[r])
  {
    hide QuarantinedAll, Touches, Total;
    QuarantineRun(DroppedAll(t, t.pending.Keys), undo);
  }

  /** A restart at any of the disks on the way brings back every pin that no quarantine touched. */
  lemma CrashLosesTouchedOnly(c: Rules, s: Store, root: Key, owner: string, env: Env,
                              disks: seq<Disk>, before: seq<Disk>, d: Disk, r: Key)
    requires Outlasting(disks, before, s.pins, Ending(c, s, root, owner, env).1, Making(c, s, root, owner, env))
    requires d in disks && d !in before && r in s.pins && !Touches(s.pins[r], BadsRun(c, s, root, env))
    ensures r in Recovered(d).pins && Recovered(d).pins[r] == s.pins[r]
  {
    hide Recovered, Lasts, Ending, BadsRun, Touches, Making;
    OtherPins(c, s, root, owner, env, r);
    LastsIsRecovered(d, s.pins[r], r);
  }

  /** And at any whose index has it, the new pin, if it is done and durable. */
  lemma CrashAfterCommit(c: Rules, s: Store, root: Key, owner: string, env: Env, disks: seq<Disk>, before: seq<Disk>, d: Disk)
    requires Outlasting(disks, before, s.pins, Ending(c, s, root, owner, env).1, Making(c, s, root, owner, env))
    requires Commits(c, s, root, env) && StaysFiled(s, Flown(s, PlanFor(c.gate, root, env)),
                                                    RecordOf(s, PlanFor(c.gate, root, env), root, owner), env.window)
    requires d in disks && d !in before && root in IndexedPins(d)
    ensures root in Recovered(d).pins
            && Recovered(d).pins[root] == RecordOf(s, PlanFor(c.gate, root, env), root, owner)
  {
    hide After, Flown, ObjectsOf, Weighed, Recovered, QuarantinedAll, Touches, FiledAfter, Entered, Passed;
    PinDurability(c, s, root, owner, env);
    DoneMeans(c, s, root, owner, env);
    var p := PlanFor(c.gate, root, env);
    var e, rec := AtEntry(s, p), RecordOf(s, p, root, owner);
    var t := Ending(c, s, root, owner, env).1;
    EntryPins(e, rec, true);
    QuarantineRun(Entered(e, rec, true), env.window);
    assert root in t.pins;
    assert Outlives(d, s.pins, t, Some(rec));
    CompleteInMore(rec, t.disk.files.Keys, d.files.Keys);
    LastsIsRecovered(d, rec, root);
  }
}
