/**
 What other operations of the pin store (tunnel/pubcache/pin.go) may do to it while one does
 not hold the lock: the locked steps, and what any run of them keeps.
 */
module PinOthers {
  import opened Basics
  import opened Totals
  import opened PinModel
  import opened PinInterleavings
  import opened PinPlan
  import opened PinResults

  /** The books balance and the budgets hold. */
  ghost predicate Fits(c: Rules, s: Store) {
    Accounted(s) && WithinBytes(s, c.maxBytes) && WithinPins(s, c.maxPins)
  }

  /**
   The books still balance, the budgets hold, there is no new wrong mark, and every file is
   one that was there or bytes that verify.
   */
  ghost predicate Meanwhile(c: Rules, s: Store, t: Store) {
    && (Fits(c, s) ==> Fits(c, t))
    && (MarksRight(c.gate, s) ==> MarksRight(c.gate, t))
    && forall k :: k in t.disk.files ==>
                     (k in s.disk.files && t.disk.files[k] == s.disk.files[k]) || c.gate.accepts(k, t.disk.files[k])
  }

  lemma MeanwhileOn(c: Rules, s: Store, t: Store, u: Store)
    requires Meanwhile(c, s, t) && Meanwhile(c, t, u)
    ensures Meanwhile(c, s, u)
  {
    hide Fits, MarksRight;
  }

  lemma MeanwhileNothing(c: Rules, s: Store)
    ensures Meanwhile(c, s, s)
  {
    hide Fits, MarksRight;
  }

  // ------------------------------------------------------------------ the locked steps

  /** A step some operation takes under the lock, or the unlocked write of an object file. */
  datatype Step =
    | Inner(event: Inside)
    | Enter(rec: Record, indexOk: bool)
    | Remove(root: Key)
    | Rollback(keys: set<Key>)
    | Release(pending: map<Key, nat>)
    | Unpin(root: Key, indexOk: bool)
    | Mark(key: Key)

  ghost function Stepped(s: Store, step: Step): Store {
    match step
    case Inner(event) => Then(s, event)
    case Enter(rec, indexOk) => Entered(s, rec, indexOk)
    case Remove(root) => TakenBack(s, root)
    case Rollback(keys) => DroppedAll(s, keys)
    case Release(pending) => s.(pending := pending)
    case Unpin(root, indexOk) => IndexWritten(Reclaimed(s.(pins := s.pins - {root})), indexOk)
    case Mark(key) => Marked(s, key)
  }

  /** What the operations make sure of before: the gate, the budgets, room for a pin. */
  ghost predicate May(c: Rules, s: Store, step: Step) {
    match step
    case Inner(Put(key, body)) => c.gate.accepts(key, body)
    case Inner(Own(key, size)) =>
      && key !in s.objects && (c.maxBytes > 0 ==> s.bytes + size <= c.maxBytes)
      && (key in s.disk.files ==> c.gate.accepts(key, s.disk.files[key]))
    case Enter(rec, _) => c.maxPins > 0 ==> |s.pins| < c.maxPins
    case Mark(key) => key in s.disk.files ==> c.gate.accepts(key, s.disk.files[key])
    case _ => true
  }

  lemma StepMeanwhile(c: Rules, s: Store, step: Step)
    requires May(c, s, step)
    ensures Meanwhile(c, s, Stepped(s, step))
  {
    hide Meanwhile, Then, Entered, TakenBack, DroppedAll, IndexWritten, Reclaimed, Marked;
    match step
    case Inner(event) => InnerMeanwhile(c, s, event);
    case Enter(rec, indexOk) => EntryMeanwhile(c, s, rec, indexOk);
    case Remove(root) => RemovalMeanwhile(c, s, root);
    case Rollback(keys) => RollbackMeanwhile(c, s, keys);
    case Release(pending) => ReleaseMeanwhile(c, s, pending);
    case Unpin(root, indexOk) => UnpinMeanwhile(c, s, root, indexOk);
    case Mark(key) => MarkMeanwhileOn(c, s, key);
  }

  lemma InnerMeanwhile(c: Rules, s: Store, event: Inside)
    requires May(c, s, Inner(event))
    ensures Meanwhile(c, s, Then(s, event))
  {
    hide Meanwhile, FileWritten, Claimed, Quarantined;
    match event
    case Put(key, body) => PutMeanwhile(c, s, key, body);
    case Own(key, size) => OwnMeanwhile(c, s, key, size);
    case Purge(bad) => PurgeMeanwhile(c, s, bad);
  }

  lemma PutMeanwhile(c: Rules, s: Store, key: Key, body: Bytes)
    requires c.gate.accepts(key, body)
    ensures Meanwhile(c, s, FileWritten(s, key, body))
  {
    hide Fits, MarksRight;
    PutFits(c, s, key, body);
    if MarksRight(c.gate, s) {
      PutMarks(c.gate, s, key, body);
    }
  }

  lemma OwnMeanwhile(c: Rules, s: Store, key: Key, size: nat)
    requires key !in s.objects && (c.maxBytes > 0 ==> s.bytes + size <= c.maxBytes)
    requires key in s.disk.files ==> c.gate.accepts(key, s.disk.files[key])
    ensures Meanwhile(c, s, Claimed(s, key, size))
  {
    hide Fits, MarksRight;
    if Fits(c, s) {
      ClaimFits(c, s, key, size);
    }
    if MarksRight(c.gate, s) {
      ClaimMarks(c.gate, s, key, size);
    }
  }

  lemma PurgeMeanwhile(c: Rules, s: Store, bad: Bad)
    ensures Meanwhile(c, s, Quarantined(s, bad))
  {
    hide Fits, MarksRight, Quarantined;
    if Fits(c, s) {
      QuarantineFits(c, s, bad);
    }
    if MarksRight(c.gate, s) {
      QuarantineMarks(c.gate, s, bad);
    }
    var t := Quarantined(s, bad);
    forall k
      ensures k in t.disk.files ==> k in s.disk.files && t.disk.files[k] == s.disk.files[k]
    {
      QuarantineFiles(s, bad, k);
    }
  }

  lemma RollbackMeanwhile(c: Rules, s: Store, keys: set<Key>)
    ensures Meanwhile(c, s, DroppedAll(s, keys))
  {
    hide Fits, MarksRight, Total;
    if Fits(c, s) {
      DropFits(c, s, keys);
    }
    if MarksRight(c.gate, s) {
      DroppedMarks(c.gate, s, keys);
    }
  }

  lemma MarkMeanwhileOn(c: Rules, s: Store, key: Key)
    requires key in s.disk.files ==> c.gate.accepts(key, s.disk.files[key])
    ensures Meanwhile(c, s, Marked(s, key))
  {
    hide Fits, MarksRight;
    MarkFits(c, s, key);
    MarkRight(c.gate, s, key);
  }

  lemma EntryMeanwhile(c: Rules, s: Store, rec: Record, ok: bool)
    requires c.maxPins > 0 ==> |s.pins| < c.maxPins
    ensures Meanwhile(c, s, Entered(s, rec, ok))
  {
  }

  lemma RemovalMeanwhile(c: Rules, s: Store, root: Key)
    ensures Meanwhile(c, s, TakenBack(s, root))
  {
    SubmapSize(s.pins - {root}, s.pins);
  }

  lemma ReleaseMeanwhile(c: Rules, s: Store, pending: map<Key, nat>)
    ensures Meanwhile(c, s, s.(pending := pending))
  {
  }

  lemma UnpinMeanwhile(c: Rules, s: Store, root: Key, ok: bool)
    ensures Meanwhile(c, s, IndexWritten(Reclaimed(s.(pins := s.pins - {root})), ok))
  {
    hide Total, Fits, MarksRight, Live;
    var p := s.(pins := s.pins - {root});
    var gone := p.objects.Keys - Live(p);
    RemovalMeanwhile(c, s, root);
    if Fits(c, s) {
      DropFits(c, p, gone);
    }
    if MarksRight(c.gate, s) {
      DroppedMarks(c.gate, p, gone);
    }
    WrittenMeanwhile(c, DroppedAll(p, gone), ok);
  }

  lemma WrittenMeanwhile(c: Rules, s: Store, ok: bool)
    ensures Fits(c, IndexWritten(s, ok)) <==> Fits(c, s)
    ensures MarksRight(c.gate, IndexWritten(s, ok)) <==> MarksRight(c.gate, s)
  {
  }

  lemma PutFits(c: Rules, s: Store, k: Key, body: Bytes)
    ensures Fits(c, FileWritten(s, k, body)) <==> Fits(c, s)
  {
  }

  lemma MarkRight(gate: Gate, s: Store, k: Key)
    requires k in s.disk.files ==> gate.accepts(k, s.disk.files[k])
    ensures MarksRight(gate, s) ==> MarksRight(gate, Marked(s, k))
  {
  }

  /** Any run of steps that the operations may take. */
  ghost function Run(s: Store, steps: seq<Step>): Store
    decreases |steps|
  {
    if |steps| == 0 then s else Run(Stepped(s, steps[0]), steps[1..])
  }

  ghost predicate MayAll(c: Rules, s: Store, steps: seq<Step>)
    decreases |steps|
  {
    |steps| > 0 ==> May(c, s, steps[0]) && MayAll(c, Stepped(s, steps[0]), steps[1..])
  }

  /** Whatever the operations do between two moments, that is all that changes. */
  lemma {:induction false} RunMeanwhile(c: Rules, s: Store, steps: seq<Step>)
    requires MayAll(c, s, steps)
    ensures Meanwhile(c, s, Run(s, steps))
    decreases |steps|
  {
    hide Meanwhile, Stepped, May;
    if |steps| == 0 {
      MeanwhileNothing(c, s);
    } else {
      StepMeanwhile(c, s, steps[0]);
      RunMeanwhile(c, Stepped(s, steps[0]), steps[1..]);
      MeanwhileOn(c, s, Stepped(s, steps[0]), Run(s, steps));
    }
  }

  // ------------------------------------------------------------- a pin is such a run

  /** Everything a pin does until its record is entered it may do. */
  ghost predicate Allowed(c: Rules, s: Store, es: seq<Inside>) {
    forall i :: 0 <= i < |es| ==> May(c, After(s, es[..i]), Inner(es[i]))
  }

  lemma AllowedOne(c: Rules, s: Store, es: seq<Inside>, e: Inside)
    requires Allowed(c, s, es) && May(c, After(s, es), Inner(e))
    ensures Allowed(c, s, es + [e])
  {
    hide After, May;
    var more := es + [e];
    forall i | 0 <= i < |more|
      ensures May(c, After(s, more[..i]), Inner(more[i]))
    {
      assert more[..i] == es[..i];
    }
  }

  lemma {:induction false} AllowedPurges(c: Rules, s: Store, es: seq<Inside>, bads: seq<Bad>)
    requires Allowed(c, s, es)
    ensures Allowed(c, s, es + Purges(bads))
    decreases |bads|
  {
    hide After, Allowed;
    if |bads| == 0 {
      assert es + Purges(bads) == es;
    } else {
      var n := |bads| - 1;
      AllowedPurges(c, s, es, bads[..n]);
      assert Purges(bads) == Purges(bads[..n]) + [Purge(bads[n])];
      assert es + Purges(bads) == es + Purges(bads[..n]) + [Purge(bads[n])];
      AllowedOne(c, s, es + Purges(bads[..n]), Purge(bads[n]));
    }
  }

  /** Quarantines only take: bytes go down, objects and files away. */
  lemma PurgesOnlyTake(c: Rules, s: Store, es: seq<Inside>, bads: seq<Bad>, k: Key)
    requires Accounted(After(s, es))
    ensures var t, u := After(s, es), After(s, es + Purges(bads));
            && Accounted(u) && u.bytes <= t.bytes && (k in u.objects ==> k in t.objects)
            && (k in u.disk.files ==> k in t.disk.files && u.disk.files[k] == t.disk.files[k])
  {
    hide After, QuarantinedAll, Accounted;
    AfterPurges(s, es, bads);
    QuarantineAllKeeps(After(s, es), bads);
    FilesOnlyGo(After(s, es), bads, k);
  }

  /** Staging an object that was screened is allowed. */
  lemma StagingAllowed(c: Rules, s: Store, es: seq<Inside>, k: Key, body: Bytes, pinBytes: nat, a: seq<Bad>, b: seq<Bad>,
                       d: seq<Bad>)
    requires Allowed(c, s, es) && Accounted(After(s, es)) && k !in After(s, es).objects
    requires Screen(c, k, body, pinBytes, After(s, es + Purges(a)).bytes).None?
    ensures Allowed(c, s, es + Purges(a) + Purges(b) + [Put(k, body)] + Purges(d) + [Own(k, |body|)])
  {
    hide After, Allowed, Accounted, Screen;
    var x := es + Purges(a);
    var y := x + Purges(b);
    var z := y + [Put(k, body)];
    var w := z + Purges(d);
    AllowedPurges(c, s, es, a);
    PurgesOnlyTake(c, s, es, a, k);
    AllowedPurges(c, s, x, b);
    PurgesOnlyTake(c, s, x, b, k);
    AllowedOne(c, s, y, Put(k, body));
    AfterOne(s, y, Put(k, body));
    PutAccounted(After(s, y), k, body);
    AllowedPurges(c, s, z, d);
    PurgesOnlyTake(c, s, z, d, k);
    AllowedOne(c, s, w, Own(k, |body|));
  }

  lemma PutAccounted(s: Store, k: Key, body: Bytes)
    ensures Accounted(FileWritten(s, k, body)) <==> Accounted(s)
  {
  }

  /** So the store at every moment of a pin's staging is one that others may meet. */
  lemma {:induction false} TimelineAllowed(c: Rules, s: Store, p: Plan, n: nat)
    requires n <= |p.wants| && Passed(c, s, p, n) == n && Accounted(s)
    ensures Allowed(c, s, Timeline(s, p, n))
    decreases n
  {
    hide After, Allowed, Purges, Accounted, Weighed, Refusal, Orderly, Screen;
    NothingAllowed(c, s);
    if n == 0 {
      AllowedPurges(c, s, [], p.env.during(0));
      TimelineStart(s, p);
    } else {
      var i := n - 1;
      PassedMeans(c, s, p, n);
      TimelineAllowed(c, s, p, i);
      TimelineUnfold(s, p, i);
      SeenUnfold(s, p, i);
      var seen, k := Seen(s, p, i), p.wants[i];
      AllowedPurges(c, s, Timeline(s, p, i), p.env.during(4 * i + 1));
      if k !in After(s, seen).objects {
        TimelineOrderly(s, p, i);
        OrderlyPurges(s, Timeline(s, p, i), p.env.during(4 * i + 1));
        AfterKeeps(s, seen);
        PassedIsScreened(c, s, p, i);
        StagingAllowed(c, s, seen, k, BodyOf(p, i).value, Weighed(s, p, i),
                       p.env.during(4 * i + 2), p.env.during(4 * i + 3), p.env.during(4 * i + 4));
      }
    }
  }

  /** A missing object that is passed has a body that fits. */
  lemma PassedIsScreened(c: Rules, s: Store, p: Plan, i: nat)
    requires i < |p.wants| && Refusal(c, s, p, i).None? && p.wants[i] !in After(s, Seen(s, p, i)).objects
    ensures BodyOf(p, i).Some?
    ensures Screen(c, p.wants[i], BodyOf(p, i).value, Weighed(s, p, i),
                   After(s, Seen(s, p, i) + Purges(p.env.during(4 * i + 2))).bytes).None?
  {
    hide After, Purges, Weighed, Screen, Seen;
  }

  lemma NothingAllowed(c: Rules, s: Store)
    ensures Allowed(c, s, [])
  {
  }

  // ------------------------------------------------------------------ reading meanwhile

  /** With the marks right when the object is looked up, what is served verifies. */
  lemma ReadMeanwhile(c: Rules, s: Store, met: Store, k: Key)
    requires Meanwhile(c, s, met)
    ensures var body := Served(c.gate, s, met, k);
            MarksRight(c.gate, s) && body.Some? ==> c.gate.accepts(k, body.value)
  {
  }

  /** A mark set late, on bytes that verify, is right even if the object has gone since. */
  lemma MarkMeanwhile(c: Rules, met: Store, later: Store, k: Key)
    requires Meanwhile(c, met, later) && k in met.disk.files && c.gate.accepts(k, met.disk.files[k])
    ensures MarksRight(c.gate, later) ==> MarksRight(c.gate, Marked(later, k))
  {
  }

  // --------------------------------------------------------------- books and budgets

  /** The object marked as hashed. */
  ghost function Marked(s: Store, k: Key): Store {
    s.(verified := s.verified + {k})
  }

  lemma MarkFits(c: Rules, s: Store, k: Key)
    ensures Fits(c, Marked(s, k)) <==> Fits(c, s)
  {
  }

  lemma QuarantineFits(c: Rules, s: Store, bad: Bad)
    requires Fits(c, s)
    ensures Fits(c, Quarantined(s, bad)) && AllNamed(Quarantined(s, bad))
  {
    hide Accounted, AllNamed, Quarantined;
    QuarantineKeeps(s, bad);
    SubmapSize(Quarantined(s, bad).pins, s.pins);
  }

  lemma {:induction false} QuarantineAllFits(c: Rules, s: Store, bads: seq<Bad>)
    requires Fits(c, s)
    ensures var t := QuarantinedAll(s, bads);
            && Fits(c, t) && (|bads| > 0 || AllNamed(s) ==> AllNamed(t))
            && t.pending == s.pending && t.pins.Keys <= s.pins.Keys && (forall r :: r in t.pins ==> t.pins[r] == s.pins[r])
  {
    hide Accounted, AllNamed, QuarantinedAll;
    QuarantineAllKeeps(s, bads);
    SubmapSize(QuarantinedAll(s, bads).pins, s.pins);
  }

  lemma UnpinFits(c: Rules, s: Store, root: Key, indexOk: bool)
    requires Fits(c, s) && s.pending == map[]
    ensures Fits(c, Unpinned(s, root, indexOk)) && Unpinned(s, root, indexOk).pending == map[]
  {
    hide Accounted, AllNamed, Total;
    UnpinKeeps(s, root, indexOk);
    SubmapSize(s.pins - {root}, s.pins);
  }

  lemma ClaimFits(c: Rules, s: Store, k: Key, n: nat)
    requires Fits(c, s) && k !in s.objects && (c.maxBytes > 0 ==> s.bytes + n <= c.maxBytes)
    ensures Fits(c, Claimed(s, k, n))
    ensures AllNamed(s) ==> AllNamed(Claimed(s, k, n))
  {
    hide Accounted, AllNamed;
    ClaimKeeps(s, k, n);
  }

  /** Rolling back keeps the books; what is left is named or claimed. */
  lemma DropFits(c: Rules, s: Store, keys: set<Key>)
    requires Fits(c, s)
    ensures Fits(c, DroppedAll(s, keys))
    ensures AllNamed(s) ==> AllNamed(DroppedAll(s, keys))
  {
    DroppedAccounted(s, keys);
  }
}
