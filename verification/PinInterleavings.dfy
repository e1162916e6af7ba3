/**
 What quarantines running inside a pin do to the objects it names (tunnel/pubcache/pin.go):
 those it wrote and claimed, and those it found present and so did not claim.
 */
module PinInterleavings {
  import opened Basics
  import opened Manifest
  import opened Totals
  import opened PinModel

  /** What happens while a pin is in flight: it writes a file, claims an object, or a quarantine runs. */
  datatype Inside = Put(key: Key, body: Bytes) | Own(key: Key, size: nat) | Purge(bad: Bad)

  ghost function Then(s: Store, e: Inside): Store {
    match e
    case Put(key, body) => FileWritten(s, key, body)
    case Own(key, size) => Claimed(s, key, size)
    case Purge(bad) => Quarantined(s, bad)
  }

  ghost function After(s: Store, es: seq<Inside>): Store {
    if |es| == 0 then s else Then(After(s, es[..|es| - 1]), es[|es| - 1])
  }

  ghost function Purges(bads: seq<Bad>): (es: seq<Inside>)
    ensures |es| == |bads| && forall i :: 0 <= i < |es| ==> es[i] == Purge(bads[i])
  {
    seq(|bads|, i requires 0 <= i < |bads| => Purge(bads[i]))
  }

  /** The quarantines among the events, in order. */
  ghost function BadsOf(es: seq<Inside>): seq<Bad> {
    if |es| == 0 then []
    else
      var n := |es| - 1;
      if es[n].Purge? then BadsOf(es[..n]) + [es[n].bad] else BadsOf(es[..n])
  }

  lemma AfterOne(s: Store, es: seq<Inside>, e: Inside)
    ensures After(s, es + [e]) == Then(After(s, es), e)
  {
    assert (es + [e])[..|es|] == es;
  }

  lemma {:induction false} AfterPurges(s: Store, es: seq<Inside>, bads: seq<Bad>)
    ensures After(s, es + Purges(bads)) == QuarantinedAll(After(s, es), bads)
    decreases |bads|
  {
    hide After, Quarantined;
    if |bads| == 0 {
      assert es + Purges(bads) == es;
    } else {
      var first, rest := Purge(bads[0]), bads[1..];
      assert es + Purges(bads) == (es + [first]) + Purges(rest);
      AfterPurges(s, es + [first], rest);
      AfterOne(s, es, first);
    }
  }

  // --------------------------------------------------------------- what is still held

  /** Some pin names the object and none of the quarantines touches that pin. */
  ghost predicate StillNamed(s: Store, k: Key, bads: seq<Bad>) {
    exists r :: r in s.pins && k in s.pins[r].objects && !Touches(s.pins[r], bads)
  }

  /** The event claims the object. */
  predicate Owns(e: Inside, k: Key) {
    e.Own? && e.key == k
  }

  ghost predicate NeverOwned(es: seq<Inside>, k: Key) {
    forall i :: 0 <= i < |es| ==> !Owns(es[i], k)
  }

  /** The object was claimed, and no quarantine since was of it. */
  ghost predicate OwnedSince(es: seq<Inside>, k: Key) {
    |es| > 0
    && (Owns(es[|es| - 1], k) || (OwnedSince(es[..|es| - 1], k) && !Spoils(es[|es| - 1], k)))
  }

  predicate Spoils(e: Inside, k: Key) {
    e.Purge? && e.bad.key == k
  }

  /**
   An object claimed on the way is held unless quarantined since; one that was not is held
   if it was at the start and no quarantine ran, or none was of it and some pin naming it
   was untouched.
   */
  ghost predicate HeldAfter(s: Store, es: seq<Inside>, k: Key) {
    if NeverOwned(es, k)
    then k in s.objects && (|BadsOf(es)| == 0 || (k !in Keys(BadsOf(es)) && StillNamed(s, k, BadsOf(es))))
    else OwnedSince(es, k)
  }

  /** One event, as the pins, the claims and one object see it. */
  lemma ThenParts(s: Store, e: Inside, k: Key)
    ensures var t := Then(s, e);
            && (k in t.pending <==> k in s.pending || Owns(e, k))
            && (e.Put? ==> t.pins == s.pins && (k in t.objects <==> k in s.objects)
                           && (k in t.disk.files <==> k in s.disk.files || e.key == k))
            && (e.Own? ==> t.pins == s.pins && (k in t.objects <==> k in s.objects || e.key == k) && t.disk == s.disk)
            && (e.Purge? ==>
                && (forall r :: r in t.pins <==> r in s.pins && e.bad.key !in s.pins[r].objects)
                && (forall r :: r in t.pins ==> t.pins[r] == s.pins[r])
                && (k in t.objects <==> k in s.objects && k != e.bad.key && (k in s.pending || k in Referenced(t.pins)))
                && (k in t.disk.files <==>
                    k in s.disk.files && k != e.bad.key && (k in s.objects ==> k in s.pending || k in Referenced(t.pins))))
  {
    hide Total;
  }

  lemma TouchesSnoc(bads: seq<Bad>, bad: Bad)
    ensures Keys(bads + [bad]) == Keys(bads) + {bad.key}
    ensures forall rec: Record :: Touches(rec, bads + [bad]) <==> Touches(rec, bads) || bad.key in rec.objects
  {
    var more := bads + [bad];
    assert forall b :: b in more <==> b in bads || b == bad;
    assert more[|bads|] == bad;
    forall rec: Record
      ensures Touches(rec, more) <==> Touches(rec, bads) || bad.key in rec.objects
    {
      assert bad.key in Keys(more);
    }
  }

  /** After any events the pins are those of the start that no quarantine touched. */
  lemma {:induction false} PinsAfter(s: Store, es: seq<Inside>)
    ensures var t := After(s, es);
            && (forall r :: r in t.pins <==> r in s.pins && !Touches(s.pins[r], BadsOf(es)))
            && (forall r :: r in t.pins ==> t.pins[r] == s.pins[r])
  {
    hide Then, Touches, Keys;
    if |es| == 0 {
      TouchesSplit([]);
    } else {
      var n := |es| - 1;
      PinsAfter(s, es[..n]);
      ThenParts(After(s, es[..n]), es[n], Key(Chunk, seq(33, _ => 0)));
      if es[n].Purge? {
        TouchesSnoc(BadsOf(es[..n]), es[n].bad);
      }
    }
  }

  lemma ReferencedAfter(s: Store, es: seq<Inside>, k: Key)
    ensures k in Referenced(After(s, es).pins) <==> StillNamed(s, k, BadsOf(es))
  {
    hide After, Touches, BadsOf;
    PinsAfter(s, es);
    var t := After(s, es);
    if k in Referenced(t.pins) {
      var r :| r in t.pins && k in t.pins[r].objects;
      assert r in s.pins && k in s.pins[r].objects && !Touches(s.pins[r], BadsOf(es));
    }
    if StillNamed(s, k, BadsOf(es)) {
      var r :| r in s.pins && k in s.pins[r].objects && !Touches(s.pins[r], BadsOf(es));
      assert r in t.pins && k in t.pins[r].objects;
    }
  }

  lemma {:induction false} PendingAfter(s: Store, es: seq<Inside>, k: Key)
    ensures k in After(s, es).pending <==> k in s.pending || !NeverOwned(es, k)
  {
    hide Then;
    if |es| > 0 {
      var n := |es| - 1;
      PendingAfter(s, es[..n], k);
      ThenParts(After(s, es[..n]), es[n], k);
      if !NeverOwned(es[..n], k) {
        var i :| 0 <= i < n && Owns(es[..n][i], k);
        assert Owns(es[i], k);
      }
      if Owns(es[n], k) {
        assert !NeverOwned(es, k);
      }
    }
  }

  lemma NeverSnoc(es: seq<Inside>, k: Key)
    requires |es| > 0
    ensures NeverOwned(es, k) <==> NeverOwned(es[..|es| - 1], k) && !Owns(es[|es| - 1], k)
  {
    var n := |es| - 1;
    if NeverOwned(es[..n], k) && !Owns(es[n], k) {
      forall i | 0 <= i < |es|
        ensures !Owns(es[i], k)
      {
        if i < n {
          assert es[i] == es[..n][i];
        }
      }
    }
    if NeverOwned(es, k) {
      forall i | 0 <= i < n
        ensures !Owns(es[..n][i], k)
      {
        assert es[i] == es[..n][i];
      }
    }
  }

  lemma {:induction false} OwnedWasOwned(es: seq<Inside>, k: Key)
    requires OwnedSince(es, k)
    ensures !NeverOwned(es, k)
  {
    NeverSnoc(es, k);
    if !Owns(es[|es| - 1], k) {
      OwnedWasOwned(es[..|es| - 1], k);
    }
  }

  /** Over every interleaving inside a pin, exactly which objects are held at the end. */
  lemma {:induction false} HeldExactly(s: Store, es: seq<Inside>, k: Key)
    requires k !in s.pending
    ensures k in After(s, es).objects <==> HeldAfter(s, es, k)
  {
    hide Then, Keys, StillNamed, Touches, NeverOwned, Referenced;
    if |es| == 0 {
      NeverNothing(k);
    } else {
      var n := |es| - 1;
      var init, e := es[..n], es[n];
      HeldExactly(s, init, k);
      ThenParts(After(s, init), e, k);
      PendingAfter(s, init, k);
      NeverSnoc(es, k);
      if OwnedSince(init, k) {
        OwnedWasOwned(init, k);
      }
      if e.Purge? {
        TouchesSnoc(BadsOf(init), e.bad);
        ReferencedAfter(s, es, k);
        StillNamedLess(s, k, BadsOf(init), e.bad);
        NoneIsBad(k);
      }
    }
  }

  // ------------------------------------------------------------- whose file is in place

  /** The event writes the object's file. */
  predicate Puts(e: Inside, k: Key) {
    e.Put? && e.key == k
  }

  ghost predicate NeverPut(es: seq<Inside>, k: Key) {
    forall i :: 0 <= i < |es| ==> !Puts(es[i], k)
  }

  /** The file was written, and no quarantine since was of the object. */
  ghost predicate PutSince(es: seq<Inside>, k: Key) {
    |es| > 0
    && (Puts(es[|es| - 1], k) || (PutSince(es[..|es| - 1], k) && !Spoils(es[|es| - 1], k)))
  }

  /** Only objects that are not held are written or claimed, and none is claimed unwritten. */
  ghost predicate Orderly(s: Store, es: seq<Inside>) {
    |es| > 0 ==>
      var n := |es| - 1;
      && Orderly(s, es[..n])
      && (!es[n].Purge? ==> es[n].key !in After(s, es[..n]).objects)
      && (es[n].Own? ==> !NeverPut(es[..n], es[n].key))
  }

  /**
   A file written on the way is in place unless its object was quarantined since. One that
   was not is if it was there at the start, no quarantine was of the object, and none
   reclaimed it: it is not held, or claimed, or some pin naming it was untouched.
   */
  ghost predicate FiledAfter(s: Store, es: seq<Inside>, k: Key) {
    if NeverPut(es, k)
    then
      && k in s.disk.files && k !in Keys(BadsOf(es))
      && (|BadsOf(es)| > 0 && k in s.objects ==> k in s.pending || StillNamed(s, k, BadsOf(es)))
    else PutSince(es, k)
  }

  lemma NeverPutSnoc(es: seq<Inside>, k: Key)
    requires |es| > 0
    ensures NeverPut(es, k) <==> NeverPut(es[..|es| - 1], k) && !Puts(es[|es| - 1], k)
  {
    var n := |es| - 1;
    assert forall i :: 0 <= i < n ==> es[i] == es[..n][i];
    if NeverPut(es[..n], k) && !Puts(es[n], k) {
      assert forall i :: 0 <= i < |es| ==> if i < n then !Puts(es[..n][i], k) else i == n;
    }
  }

  lemma {:induction false} UnputIsUnowned(s: Store, es: seq<Inside>, k: Key)
    requires Orderly(s, es) && NeverPut(es, k)
    ensures NeverOwned(es, k)
  {
    hide After;
    if |es| > 0 {
      NeverPutSnoc(es, k);
      NeverSnoc(es, k);
      UnputIsUnowned(s, es[..|es| - 1], k);
    }
  }

  /** An object written on the way and held is claimed. */
  lemma {:induction false} PutAndHeldIsClaimed(s: Store, es: seq<Inside>, k: Key)
    requires Orderly(s, es) && !NeverPut(es, k) && k in After(s, es).objects
    ensures k in After(s, es).pending
  {
    hide Then;
    var n := |es| - 1;
    ThenParts(After(s, es[..n]), es[n], k);
    NeverPutSnoc(es, k);
    if !Puts(es[n], k) && !Owns(es[n], k) {
      PutAndHeldIsClaimed(s, es[..n], k);
    }
  }

  /** Over every orderly interleaving, exactly which files are in place at the end. */
  lemma {:induction false} FiledExactly(s: Store, es: seq<Inside>, k: Key)
    requires Orderly(s, es)
    ensures k in After(s, es).disk.files <==> FiledAfter(s, es, k)
  {
    hide Then, Keys, StillNamed, Touches, NeverPut, NeverOwned, Referenced, HeldAfter;
    if |es| == 0 {
      NothingPut(k);
      NoneIsBad(k);
    } else {
      var n := |es| - 1;
      var init, e := es[..n], es[n];
      FiledExactly(s, init, k);
      ThenParts(After(s, init), e, k);
      NeverPutSnoc(es, k);
      if e.Purge? {
        FiledAfterPurge(s, es, k);
      }
    }
  }

  lemma FiledAfterPurge(s: Store, es: seq<Inside>, k: Key)
    requires |es| > 0 && es[|es| - 1].Purge? && Orderly(s, es)
    requires k in After(s, es[..|es| - 1]).disk.files <==> FiledAfter(s, es[..|es| - 1], k)
    ensures k in After(s, es).disk.files <==> FiledAfter(s, es, k)
  {
    hide Then, Keys, StillNamed, Touches, NeverPut, NeverOwned, Referenced, OwnedSince;
    var n := |es| - 1;
    var init, e := es[..n], es[n];
    ThenParts(After(s, init), e, k);
    NeverPutSnoc(es, k);
    PendingAfter(s, init, k);
    ReferencedAfter(s, es, k);
    TouchesSnoc(BadsOf(init), e.bad);
    StillNamedLess(s, k, BadsOf(init), e.bad);
    NoneIsBad(k);
    if NeverPut(init, k) {
      UnputIsUnowned(s, init, k);
      if k !in s.pending {
        HeldExactly(s, init, k);
      }
    } else if k in After(s, init).objects {
      PutAndHeldIsClaimed(s, init, k);
    }
  }

  lemma NothingPut(k: Key)
    ensures NeverPut([], k)
  {
  }

  lemma NeverNothing(k: Key)
    ensures NeverOwned([], k)
  {
  }

  lemma StillNamedLess(s: Store, k: Key, bads: seq<Bad>, bad: Bad)
    ensures StillNamed(s, k, bads + [bad]) ==> StillNamed(s, k, bads)
  {
    hide Touches;
    TouchesSnoc(bads, bad);
  }

  // ------------------------------------------------------------- the end of the flight

  /** The record entered, and the index written if that works. */
  ghost function Entered(e: Store, rec: Record, ok: bool): Store {
    IndexWritten(e.(pins := e.pins[rec.root := rec]), ok)
  }

  lemma {:induction false} BadsOfPurges(bads: seq<Bad>)
    ensures BadsOf(Purges(bads)) == bads
    decreases |bads|
  {
    if |bads| > 0 {
      var n := |bads| - 1;
      assert Purges(bads)[..n] == Purges(bads[..n]);
      BadsOfPurges(bads[..n]);
      assert bads == bads[..n] + [bads[n]];
    }
  }

  lemma AllPurges(s: Store, bads: seq<Bad>)
    ensures After(s, Purges(bads)) == QuarantinedAll(s, bads) && BadsOf(Purges(bads)) == bads
  {
    hide QuarantinedAll;
    assert [] + Purges(bads) == Purges(bads);
    AfterPurges(s, [], bads);
    BadsOfPurges(bads);
  }

  /** A run of quarantines keeps an object it is not of, if that is claimed or still named. */
  lemma PurgesKeep(s: Store, bads: seq<Bad>, k: Key)
    requires k in s.objects && k !in s.pending
    ensures k in QuarantinedAll(s, bads).objects
            <==> |bads| == 0 || (k !in Keys(bads) && StillNamed(s, k, bads))
  {
    hide QuarantinedAll, StillNamed, Keys, BadsOf, After;
    AllPurges(s, bads);
    HeldExactly(s, Purges(bads), k);
    assert NeverOwned(Purges(bads), k);
  }

  lemma EnteredNames(e: Store, rec: Record, ok: bool, k: Key, bads: seq<Bad>)
    requires rec.root !in e.pins
    ensures StillNamed(Entered(e, rec, ok), k, bads) <==> StillNamed(e, k, bads) || (k in rec.objects && !Touches(rec, bads))
  {
    hide Touches;
    var t := Entered(e, rec, ok);
    if StillNamed(e, k, bads) {
      var r :| r in e.pins && k in e.pins[r].objects && !Touches(e.pins[r], bads);
      assert r in t.pins && t.pins[r] == e.pins[r];
    }
    if k in rec.objects && !Touches(rec, bads) {
      assert rec.root in t.pins && t.pins[rec.root] == rec;
    }
  }

  lemma UntouchedIsNotBad(rec: Record, bads: seq<Bad>, k: Key)
    requires k in rec.objects && k in Keys(bads)
    ensures Touches(rec, bads)
  {
  }

  lemma NoneIsBad(k: Key)
    ensures k !in Keys([])
  {
  }

  /** A committed record is complete exactly when it was when entered and the window does not touch it. */
  lemma CommittedCompleteExactly(e: Store, rec: Record, ok: bool, window: seq<Bad>)
    requires rec.root !in e.pins
    ensures CompleteIn(rec, QuarantinedAll(Entered(e, rec, ok), window).objects.Keys)
            <==> CompleteIn(rec, e.objects.Keys) && !Touches(rec, window)
  {
    hide QuarantinedAll, StillNamed, Keys, Touches;
    var s := Entered(e, rec, ok);
    var t := QuarantinedAll(s, window);
    QuarantineRun(s, window);
    if Touches(rec, window) {
      var k := TouchedIn(rec, window);
      TouchedIsGone(s, window, k);
    } else {
      forall k | k in rec.objects && k in e.objects
        ensures k in t.objects
      {
        if k in Keys(window) {
          UntouchedIsNotBad(rec, window, k);
        }
        if k !in s.pending {
          PurgesKeep(s, window, k);
          EnteredNames(e, rec, ok, k, window);
        }
      }
    }
  }

  ghost function TouchedIn(rec: Record, bads: seq<Bad>): (k: Key)
    requires Touches(rec, bads)
    ensures k in rec.objects && k in Keys(bads)
  {
    var k :| k in rec.objects && k in Keys(bads);
    k
  }

  lemma TouchedIsGone(s: Store, bads: seq<Bad>, k: Key)
    requires k in Keys(bads)
    ensures k !in QuarantinedAll(s, bads).objects
  {
    hide QuarantinedAll, StillNamed, Keys;
    QuarantineRun(s, bads);
    if k in s.objects && k !in s.pending {
      PurgesKeep(s, bads, k);
      if |bads| == 0 {
        NoneIsBad(k);
      }
    }
  }

  lemma ReferencedAfterAll(s: Store, bads: seq<Bad>, k: Key)
    ensures k in Referenced(QuarantinedAll(s, bads).pins) <==> StillNamed(s, k, bads)
  {
    hide QuarantinedAll, Touches, After, BadsOf, Referenced, StillNamed;
    AllPurges(s, bads);
    ReferencedAfter(s, Purges(bads), k);
  }

  /**
   After a commit: an object nothing names is left exactly when one the pin claimed is held,
   not quarantined in the window, and named by no pin the window left.
   */
  lemma CommitNaming(e: Store, rec: Record, ok: bool, window: seq<Bad>)
    requires Accounted(e) && AllNamed(e) && rec.root !in e.pins
    ensures AllNamed(QuarantinedAll(Entered(e, rec, ok), window).(pending := map[]))
            <==> forall k :: k in e.pending && k in e.objects && k !in Keys(window) ==>
                               StillNamed(Entered(e, rec, ok), k, window)
  {
    hide QuarantinedAll, StillNamed, Keys, Touches, Accounted;
    var s := Entered(e, rec, ok);
    EnteredKeeps(e, rec, ok);
    var t := QuarantinedAll(s, window);
    QuarantineAllKeeps(s, window);
    QuarantineRun(s, window);
    forall k
      ensures k in Referenced(t.pins) <==> StillNamed(s, k, window)
    {
      ReferencedAfterAll(s, window, k);
    }
  }

  lemma EnteredKeeps(e: Store, rec: Record, ok: bool)
    requires rec.root !in e.pins
    ensures Accounted(e) ==> Accounted(Entered(e, rec, ok))
    ensures AllNamed(e) ==> AllNamed(Entered(e, rec, ok))
  {
    var t := Entered(e, rec, ok);
    forall k | k in Referenced(e.pins)
      ensures k in Referenced(t.pins)
    {
      var r :| r in e.pins && k in e.pins[r].objects;
      assert r in t.pins && t.pins[r] == e.pins[r];
    }
  }

  /** The record taken out of the books again. */
  ghost function TakenBack(t: Store, root: Key): Store {
    t.(pins := t.pins - {root})
  }

  /** What a pin claimed rolled back, quarantines, and the claims released. */
  ghost function GivenUp(t: Store, undo: seq<Bad>): Store {
    QuarantinedAll(DroppedAll(t, t.pending.Keys), undo).(pending := map[])
  }

  /** A pin given up after its record was entered over e and the index write failed. */
  ghost function Withdrawn(e: Store, rec: Record, window: seq<Bad>, undo: seq<Bad>): Store {
    GivenUp(TakenBack(QuarantinedAll(Entered(e, rec, false), window), rec.root), undo)
  }

  /** After the rollback nothing claimed is held, so quarantines leave everything held named. */
  lemma GivenUpNamed(t: Store, undo: seq<Bad>)
    requires Accounted(t) && (undo == [] ==> t.objects.Keys - t.pending.Keys <= Referenced(t.pins))
    ensures AllNamed(GivenUp(t, undo))
  {
    hide QuarantinedAll, Accounted, Referenced, Total;
    DroppedAccounted(t, t.pending.Keys);
    var u := DroppedAll(t, t.pending.Keys);
    QuarantineAllKeeps(u, undo);
    NoBads(u);
  }

  lemma NoBads(s: Store)
    ensures QuarantinedAll(s, []) == s
  {
  }

  /**
   After a failed index write: an object nothing names is left exactly when no quarantine
   follows the rollback, the window did not touch the record, and some object it names,
   found present and still held, is named by no other pin the window left.
   */
  lemma WithdrawNaming(e: Store, rec: Record, window: seq<Bad>, undo: seq<Bad>)
    requires Accounted(e) && AllNamed(e) && rec.root !in e.pins
    ensures AllNamed(Withdrawn(e, rec, window, undo))
            <==> undo != [] || Touches(rec, window)
                 || forall k :: k in rec.objects && k in e.objects && k !in e.pending ==> StillNamed(e, k, window)
  {
    hide QuarantinedAll, StillNamed, Keys, Touches, Accounted, Total, Referenced;
    var s := Entered(e, rec, false);
    EnteredKeeps(e, rec, false);
    var t := QuarantinedAll(s, window);
    QuarantineAllKeeps(s, window);
    QuarantineRun(s, window);
    var u := TakenBack(t, rec.root);
    forall k | k in t.objects && k !in e.pending
      ensures k in Referenced(u.pins) <==> StillNamed(e, k, window)
      ensures (k in rec.objects && !Touches(rec, window)) || StillNamed(e, k, window)
    {
      NamedWithout(e, rec, window, k);
      ReferencedAfterAll(s, window, k);
      EnteredNames(e, rec, false, k, window);
    }
    if !Touches(rec, window) {
      forall k | k in rec.objects && k in e.objects && k !in e.pending
        ensures k in t.objects
      {
        if k in Keys(window) {
          UntouchedIsNotBad(rec, window, k);
        }
        PurgesKeep(s, window, k);
        EnteredNames(e, rec, false, k, window);
      }
    }
    TakenBackAccounted(t, rec.root);
    if undo == [] {
      NoBads(DroppedAll(u, u.pending.Keys));
    } else {
      GivenUpNamed(u, undo);
    }
  }

  lemma TakenBackAccounted(t: Store, root: Key)
    ensures Accounted(TakenBack(t, root)) <==> Accounted(t)
  {
  }

  /** Without the record's own root, what the window leaves named is what the other pins still name. */
  lemma NamedWithout(e: Store, rec: Record, window: seq<Bad>, k: Key)
    requires rec.root !in e.pins
    ensures k in Referenced(QuarantinedAll(Entered(e, rec, false), window).pins - {rec.root}) <==> StillNamed(e, k, window)
  {
    hide QuarantinedAll, Touches;
    var s := Entered(e, rec, false);
    QuarantineRun(s, window);
    var left := QuarantinedAll(s, window).pins - {rec.root};
    if k in Referenced(left) {
      var r :| r in left && k in left[r].objects;
      assert r in e.pins && k in e.pins[r].objects && !Touches(e.pins[r], window);
    }
    if StillNamed(e, k, window) {
      var r :| r in e.pins && k in e.pins[r].objects && !Touches(e.pins[r], window);
      assert r in left && k in left[r].objects;
    }
  }

  // --------------------------------------------------- what a restart brings back

  lemma {:induction false} PurgesAreOrderly(s: Store, bads: seq<Bad>)
    ensures Orderly(s, Purges(bads))
    decreases |bads|
  {
    hide After;
    if |bads| > 0 {
      var n := |bads| - 1;
      assert Purges(bads)[..n] == Purges(bads[..n]);
      PurgesAreOrderly(s, bads[..n]);
    }
  }

  /** A run of quarantines leaves a file in place unless it is of the object or reclaims it. */
  lemma PurgesFile(s: Store, bads: seq<Bad>, k: Key)
    ensures k in QuarantinedAll(s, bads).disk.files
            <==> k in s.disk.files && k !in Keys(bads)
                 && (|bads| > 0 && k in s.objects ==> k in s.pending || StillNamed(s, k, bads))
  {
    hide QuarantinedAll, StillNamed, Keys, BadsOf, After, Orderly;
    AllPurges(s, bads);
    PurgesAreOrderly(s, bads);
    FiledExactly(s, Purges(bads), k);
    assert NeverPut(Purges(bads), k);
  }

  /** The files of a committed record are in place exactly when they were when it was entered and the window does not touch it. */
  lemma CommittedOnDiskExactly(e: Store, rec: Record, ok: bool, window: seq<Bad>)
    requires rec.root !in e.pins
    ensures CompleteIn(rec, QuarantinedAll(Entered(e, rec, ok), window).disk.files.Keys)
            <==> CompleteIn(rec, e.disk.files.Keys) && !Touches(rec, window)
  {
    hide QuarantinedAll, StillNamed, Keys, Touches;
    var s := Entered(e, rec, ok);
    var t := QuarantinedAll(s, window);
    forall k | k in rec.objects
      ensures k in t.disk.files ==> k in e.disk.files && k !in Keys(window)
      ensures k in e.disk.files && !Touches(rec, window) ==> k in t.disk.files
    {
      PurgesFile(s, window, k);
      EnteredNames(e, rec, ok, k, window);
      if k in Keys(window) {
        UntouchedIsNotBad(rec, window, k);
      }
    }
    if Touches(rec, window) {
      var k := TouchedIn(rec, window);
    }
  }

  /** What the index says of a root after some quarantines: what it said, or what the books say. */
  lemma {:induction false} IndexAfter(s: Store, bads: seq<Bad>, r: Key)
    ensures var t := QuarantinedAll(s, bads);
            if exists b :: b in bads && b.indexOk
            then r in IndexedPins(t.disk) ==> r in s.pins && IndexedPins(t.disk)[r] == s.pins[r]
            else t.disk.index == s.disk.index
    ensures var t := QuarantinedAll(s, bads);
            r in t.pins && (exists b :: b in bads && b.indexOk) ==> r in IndexedPins(t.disk) && IndexedPins(t.disk)[r] == s.pins[r]
    decreases |bads|
  {
    hide Quarantined, Touches;
    if |bads| > 0 {
      var rest := bads[1..];
      assert bads == [bads[0]] + rest;
      var u := Quarantined(s, bads[0]);
      IndexOnce(s, bads[0]);
      IndexAfter(u, rest, r);
      QuarantineRun(u, rest);
      QuarantineOnce(s, bads[0]);
    }
  }

  lemma IndexOnce(s: Store, bad: Bad)
    ensures var t := Quarantined(s, bad);
            t.disk.index == if bad.indexOk then Some(t.pins) else s.disk.index
  {
    hide Total;
  }

  /** A committed record is brought back by a restart exactly when its files are in place. */
  lemma CommittedIsRecovered(e: Store, rec: Record, window: seq<Bad>)
    requires rec.root !in e.pins
    ensures var d := QuarantinedAll(Entered(e, rec, true), window).disk;
            && (rec.root in Recovered(d).pins <==> CompleteIn(rec, d.files.Keys))
            && (rec.root in Recovered(d).pins ==> Recovered(d).pins[rec.root] == rec)
  {
    hide QuarantinedAll, Touches, CompleteIn;
    var s := Entered(e, rec, true);
    IndexAfter(s, window, rec.root);
    QuarantineRun(s, window);
    CommittedOnDiskExactly(e, rec, true, window);
  }

  /**
   A record whose index write failed is nevertheless in the last index, and all its files
   in place: the window wrote the index, nothing has since, no quarantine was of an object
   it names, and all of those were found present and are not reclaimed after the rollback.
   */
  ghost predicate LeftBehind(e: Store, rec: Record, window: seq<Bad>, undo: seq<Bad>) {
    && |rec.objects| > 0
    && (exists b :: b in window && b.indexOk) && (forall b :: b in undo ==> !b.indexOk)
    && !Touches(rec, window) && !Touches(rec, undo)
    && forall k :: k in rec.objects ==>
                     && k in e.disk.files && k !in e.pending
                     && (undo != [] && k in e.objects ==> StillNamed(e, k, window + undo))
  }

  lemma TouchesBoth(rec: Record, a: seq<Bad>, b: seq<Bad>)
    ensures Touches(rec, a + b) <==> Touches(rec, a) || Touches(rec, b)
  {
    assert forall x :: x in a + b <==> x in a || x in b;
    assert Keys(a + b) == Keys(a) + Keys(b);
  }

  /** The pins that a window and then the taking out of the record leave. */
  lemma LeftAfterWindow(e: Store, rec: Record, window: seq<Bad>, k: Key, undo: seq<Bad>)
    requires rec.root !in e.pins
    ensures StillNamed(TakenBack(QuarantinedAll(Entered(e, rec, false), window), rec.root), k, undo)
            <==> StillNamed(e, k, window + undo)
  {
    hide QuarantinedAll, Touches;
    var s := Entered(e, rec, false);
    QuarantineRun(s, window);
    var u := TakenBack(QuarantinedAll(s, window), rec.root);
    forall r: Record
      ensures Touches(r, window + undo) <==> Touches(r, window) || Touches(r, undo)
    {
      TouchesBoth(r, window, undo);
    }
    if StillNamed(u, k, undo) {
      var r :| r in u.pins && k in u.pins[r].objects && !Touches(u.pins[r], undo);
      assert r in e.pins && e.pins[r] == u.pins[r];
    }
    if StillNamed(e, k, window + undo) {
      var r :| r in e.pins && k in e.pins[r].objects && !Touches(e.pins[r], window + undo);
      assert r in u.pins && e.pins[r] == u.pins[r];
    }
  }

  /** Where an object's file is after a pin that named it was given up. */
  lemma WithdrawnFile(e: Store, rec: Record, window: seq<Bad>, undo: seq<Bad>, k: Key)
    requires rec.root !in e.pins && k in rec.objects && !Touches(rec, window) && !Touches(rec, undo)
    ensures k in Withdrawn(e, rec, window, undo).disk.files
            <==> k in e.disk.files && k !in e.pending
                 && (undo != [] && k in e.objects ==> StillNamed(e, k, window + undo))
  {
    hide QuarantinedAll, StillNamed, Keys, Touches, Total;
    var s := Entered(e, rec, false);
    var t := QuarantinedAll(s, window);
    var u := TakenBack(t, rec.root);
    var v := DroppedAll(u, u.pending.Keys);
    QuarantineRun(s, window);
    PurgesFile(s, window, k);
    EnteredNames(e, rec, false, k, window);
    if k in Keys(window) {
      UntouchedIsNotBad(rec, window, k);
    }
    if k in Keys(undo) {
      UntouchedIsNotBad(rec, undo, k);
    }
    PurgesFile(v, undo, k);
    LeftAfterWindow(e, rec, window, k, undo);
    SameNames(v, u, k, undo);
    if k in e.objects && k !in e.pending {
      PurgesKeep(s, window, k);
    }
  }

  lemma SameNames(s: Store, t: Store, k: Key, bads: seq<Bad>)
    requires s.pins == t.pins
    ensures StillNamed(s, k, bads) <==> StillNamed(t, k, bads)
  {
  }

  /** A refused pin is brought back by a restart exactly when it was left behind. */
  lemma WithdrawnIsRecovered(e: Store, rec: Record, window: seq<Bad>, undo: seq<Bad>)
    requires rec.root !in e.pins && rec.root !in IndexedPins(e.disk)
    ensures rec.root in Recovered(Withdrawn(e, rec, window, undo).disk).pins <==> LeftBehind(e, rec, window, undo)
  {
    hide QuarantinedAll, StillNamed, Keys, Touches, Total, CompleteIn;
    var s := Entered(e, rec, false);
    var t := QuarantinedAll(s, window);
    var u := TakenBack(t, rec.root);
    var v := DroppedAll(u, u.pending.Keys);
    var w := Withdrawn(e, rec, window, undo);
    QuarantineRun(s, window);
    IndexAfter(s, window, rec.root);
    IndexAfter(v, undo, rec.root);
    assert w.disk == QuarantinedAll(v, undo).disk;
    if Touches(rec, window) || Touches(rec, undo) {
      var k := if Touches(rec, window) then TouchedIn(rec, window) else TouchedIn(rec, undo);
      PurgesFile(s, window, k);
      PurgesFile(v, undo, k);
      CompleteMeans(rec, w.disk.files.Keys);
    } else {
      forall k | k in rec.objects
        ensures k in w.disk.files <==> k in e.disk.files && k !in e.pending
                                       && (undo != [] && k in e.objects ==> StillNamed(e, k, window + undo))
      {
        WithdrawnFile(e, rec, window, undo, k);
      }
      CompleteMeans(rec, w.disk.files.Keys);
    }
  }

  lemma CompleteMeans(rec: Record, keys: set<Key>)
    ensures CompleteIn(rec, keys) <==> |rec.objects| > 0 && forall k :: k in rec.objects ==> k in keys
  {
  }
}
