/**
 Crashing on the way (tunnel/pubcache/pin.go): which disks an operation passes through, and
 which pins a restart at any one of them brings back.
 */
module PinCrash {
  import opened Basics
  import opened Totals
  import opened PinModel
  import opened PinInterleavings

  /** Every disk seen is an earlier one or has this index and at least these files. */
  ghost predicate Keep(disks: seq<Disk>, before: seq<Disk>, index: Option<map<Key, Record>>, files: set<Key>) {
    forall d :: d in disks ==> d in before || (d.index == index && files <= d.files.Keys)
  }

  lemma ReclaimedDisk(s: Store)
    ensures var d := Reclaimed(s).disk;
            d.index == s.disk.index && d.files.Keys == s.disk.files.Keys - (s.objects.Keys - Live(s))
  {
    hide Total;
  }

  /** The disks a quarantine leaves between its steps: only the object and unreferenced ones are removed. */
  ghost predicate QuarantineDisks(disks: seq<Disk>, before: seq<Disk>, s: Store, k: Key) {
    forall d :: d in disks ==> d in before || QuarantineDisk(d, s, k)
  }

  ghost predicate QuarantineDisk(d: Disk, s: Store, k: Key) {
    var live := Referenced(PinsWithout(s.pins, k)) + s.pending.Keys;
    && (d.index == s.disk.index || d.index == Some(PinsWithout(s.pins, k)))
    && s.disk.files.Keys - {k} - (s.objects.Keys - live) <= d.files.Keys
  }

  lemma ThoseDisks(mid: seq<Disk>, last: Disk, first: seq<Disk>, before: seq<Disk>, s: Store, dropped: Store, k: Key)
    requires dropped == Dropped(s.(pins := PinsWithout(s.pins, k)), k) && first == before + [dropped.disk]
    requires Keep(mid, first, s.disk.index, dropped.disk.files.Keys - (dropped.objects.Keys - Live(dropped)))
    requires last.index == s.disk.index || last.index == Some(PinsWithout(s.pins, k))
    requires last.files.Keys == dropped.disk.files.Keys - (dropped.objects.Keys - Live(dropped))
    ensures QuarantineDisks(mid + [last], before, s, k)
  {
    hide Referenced, PinsWithout;
    forall d | d in mid + [last] && d !in before
      ensures QuarantineDisk(d, s, k)
    {
      assert d in mid || d == last;
    }
  }

  /** Between any two of its disk steps a crash endangers only the pins that need the object. */
  lemma QuarantineSafe(disks: seq<Disk>, before: seq<Disk>, s: Store, k: Key)
    requires Complete(s) && OnDisk(s) && Synced(s) && QuarantineDisks(disks, before, s, k)
    ensures SafeSteps(disks, before, s.pins, Dependents(s.pins, k))
  {
    hide Complete, OnDisk, Synced, Survives;
    forall d | d in disks && d !in before
      ensures Survives(d, s.pins, Dependents(s.pins, k))
    {
      QuarantineSurvives(s, k, d);
    }
  }

  /** Every new disk is one at which a crash loses none of the pins outside except. */
  ghost predicate SafeSteps(disks: seq<Disk>, before: seq<Disk>, pins: map<Key, Record>, except: set<Key>) {
    forall d :: d in disks ==> d in before || Survives(d, pins, except)
  }

  lemma UnpinSafe(disks: seq<Disk>, mid: seq<Disk>, before: seq<Disk>, s: Store, root: Key, indexOk: bool)
    requires Healthy(s)
    requires Keep(mid, before, s.disk.index, s.disk.files.Keys - (s.objects.Keys - Live(s.(pins := s.pins - {root}))))
    requires disks == mid + [Unpinned(s, root, indexOk).disk]
    ensures SafeSteps(disks, before, s.pins, {root})
  {
    hide Total, Survives;
    forall d | d in disks && d !in before
      ensures Survives(d, s.pins, {root})
    {
      if d == Unpinned(s, root, true).disk {
        UnpinnedSurvives(s, root);
      } else {
        UnpinSurvives(s, root, d);
      }
    }
  }

  // --------------------------------------------------------------- while a pin is in flight

  /** A restart at d brings the pin back as it was. */
  ghost predicate Lasts(d: Disk, rec: Record, root: Key) {
    root in IndexedPins(d) && IndexedPins(d)[root] == rec && CompleteIn(rec, d.files.Keys)
  }

  lemma LastsIsRecovered(d: Disk, rec: Record, root: Key)
    ensures Lasts(d, rec, root) <==> root in Recovered(d).pins && Recovered(d).pins[root] == rec
  {
  }

  /** Each is a pin of the start, or the one being made. */
  ghost predicate Known(pins: map<Key, Record>, was: map<Key, Record>, made: Option<Record>) {
    forall r :: r in pins ==> (r in was && was[r] == pins[r]) || (made == Some(pins[r]) && r == pins[r].root)
  }

  /**
   Pins of the start that are still there are whole, in the books and on disk, and none of
   what was written since is theirs; the books and the index have no unknown pins.
   */
  ghost predicate Shielded(s: Store, was: map<Key, Record>, wrote: set<Key>, made: Option<Record>) {
    && (made.Some? ==> made.value.root !in was)
    && Known(s.pins, was, made) && Known(IndexedPins(s.disk), was, made)
    && (forall r :: r in was && r in s.pins ==>
                      && Lasts(s.disk, was[r], r) && CompleteIn(was[r], s.objects.Keys)
                      && forall k :: k in was[r].objects ==> k !in wrote)
  }

  /**
   At d a restart brings back every pin of the start that s still has, and knows no others
   but the one being made; and if that is still there, all the files s has are on d.
   */
  ghost predicate Outlives(d: Disk, was: map<Key, Record>, s: Store, made: Option<Record>) {
    && (forall r :: r in was && r in s.pins ==> Lasts(d, was[r], r))
    && Known(IndexedPins(d), was, made)
    && (made.Some? && made.value.root in s.pins && made.value.root in IndexedPins(d) ==> s.disk.files.Keys <= d.files.Keys)
  }

  /** So it is at every new disk. */
  ghost predicate Outlasting(disks: seq<Disk>, before: seq<Disk>, was: map<Key, Record>, s: Store, made: Option<Record>) {
    forall d :: d in disks ==> d in before || Outlives(d, was, s, made)
  }

  lemma HealthyIsShielded(s: Store)
    requires Healthy(s)
    ensures Shielded(s, s.pins, {}, None)
  {
    forall r | r in s.pins
      ensures Lasts(s.disk, s.pins[r], r)
    {
      CompleteInMore(s.pins[r], s.objects.Keys, s.disk.files.Keys);
    }
  }

  /** With fewer pins, and fewer files if the pin being made is there, there is less to outlast. */
  lemma OutlastOn(disks: seq<Disk>, before: seq<Disk>, was: map<Key, Record>, s: Store, t: Store, made: Option<Record>)
    requires Outlasting(disks, before, was, s, made) && t.pins.Keys <= s.pins.Keys
    requires made.Some? && made.value.root in t.pins ==> t.disk.files.Keys <= s.disk.files.Keys
    ensures Outlasting(disks, before, was, t, made)
  {
  }

  lemma OutlastOne(disks: seq<Disk>, before: seq<Disk>, was: map<Key, Record>, s: Store, wrote: set<Key>,
                   made: Option<Record>)
    requires Outlasting(disks, before, was, s, made) && Shielded(s, was, wrote, made)
    ensures Outlasting(disks + [s.disk], before, was, s, made)
  {
  }

  lemma PurgedDisk(s: Store, bad: Bad)
    ensures var t := Quarantined(s, bad);
            && t.disk.index == (if bad.indexOk then Some(t.pins) else s.disk.index)
            && t.disk.files.Keys == s.disk.files.Keys - {bad.key} - (s.objects.Keys - Referenced(t.pins) - s.pending.Keys)
            && t.pins == PinsWithout(s.pins, bad.key)
            && t.objects.Keys == s.objects.Keys - {bad.key} - (s.objects.Keys - Referenced(t.pins) - s.pending.Keys)
  {
    hide Total;
  }

  /** A quarantine endangers no pin that does not need its object. */
  lemma PurgeShields(s: Store, bad: Bad, was: map<Key, Record>, wrote: set<Key>, made: Option<Record>)
    requires Shielded(s, was, wrote, made)
    ensures Shielded(Quarantined(s, bad), was, wrote, made)
  {
    hide Quarantined;
    PurgedDisk(s, bad);
    var t := Quarantined(s, bad);
    forall r | r in was && r in t.pins
      ensures Lasts(t.disk, was[r], r) && CompleteIn(was[r], t.objects.Keys)
    {
      PinOfPins(s, was, wrote, made, t.pins, r);
      forall k | k in was[r].objects
        ensures k in t.disk.files && k in t.objects
      {
        assert k in s.disk.files.Keys && k in s.objects.Keys && k != bad.key;
      }
    }
  }

  /** A shielded pin among some that are left: named by them, whole. */
  lemma PinOfPins(s: Store, was: map<Key, Record>, wrote: set<Key>, made: Option<Record>, left: map<Key, Record>, r: Key)
    requires Shielded(s, was, wrote, made) && r in was && r in left && r in s.pins && left[r] == s.pins[r]
    ensures s.pins[r] == was[r] && Lasts(s.disk, was[r], r) && CompleteIn(was[r], s.objects.Keys)
    ensures forall k :: k in was[r].objects ==> k in Referenced(left) && k in s.disk.files && k in s.objects && k !in wrote
  {
    assert left[r] == was[r];
  }

  lemma PurgeOutlasts(disks: seq<Disk>, mid: seq<Disk>, before: seq<Disk>, s: Store, bad: Bad,
                      was: map<Key, Record>, wrote: set<Key>, made: Option<Record>)
    requires Shielded(s, was, wrote, made) && Outlasting(mid, before, was, s, made)
    requires QuarantineDisks(disks, mid, s, bad.key)
    ensures Outlasting(disks, before, was, Quarantined(s, bad), made)
  {
    hide Quarantined;
    PurgedDisk(s, bad);
    var t := Quarantined(s, bad);
    forall d | d in disks && d !in before
      ensures Outlives(d, was, t, made)
    {
      if d !in mid {
        forall r | r in was && r in t.pins
          ensures Lasts(d, was[r], r)
        {
          PinOfPins(s, was, wrote, made, t.pins, r);
          forall k | k in was[r].objects
            ensures k in d.files
          {
            assert k in s.disk.files.Keys - {bad.key} - (s.objects.Keys - (Referenced(t.pins) + s.pending.Keys));
          }
        }
        assert t.disk.files.Keys == s.disk.files.Keys - {bad.key} - (s.objects.Keys - (Referenced(t.pins) + s.pending.Keys));
      }
    }
  }

  lemma PutShields(s: Store, k: Key, body: Bytes, was: map<Key, Record>, wrote: set<Key>)
    requires Shielded(s, was, wrote, None)
    ensures Shielded(FileWritten(s, k, body), was, wrote, None)
  {
    var t := FileWritten(s, k, body);
    forall r | r in was && r in t.pins
      ensures Lasts(t.disk, was[r], r)
    {
      assert Lasts(s.disk, was[r], r);
      CompleteInMore(was[r], s.disk.files.Keys, t.disk.files.Keys);
    }
  }

  lemma ClaimShields(s: Store, k: Key, n: nat, was: map<Key, Record>, wrote: set<Key>, made: Option<Record>)
    requires Shielded(s, was, wrote, made) && k !in s.objects
    ensures Shielded(Claimed(s, k, n), was, wrote + {k}, made)
  {
  }

  lemma EntryShields(s: Store, rec: Record, ok: bool, was: map<Key, Record>, wrote: set<Key>)
    requires Shielded(s, was, wrote, None) && rec.root !in was
    ensures Shielded(Entered(s, rec, ok), was, wrote, Some(rec))
  {
  }

  lemma EntryOutlasts(disks: seq<Disk>, before: seq<Disk>, s: Store, rec: Record, ok: bool, was: map<Key, Record>,
                      wrote: set<Key>)
    requires Shielded(s, was, wrote, None) && rec.root !in was && Outlasting(disks, before, was, s, None)
    ensures Outlasting(disks + [Entered(s, rec, ok).disk], before, was, Entered(s, rec, ok), Some(rec))
    ensures !ok ==> Outlasting(disks + [s.disk], before, was, s, None)
  {
    EntryShields(s, rec, ok, was, wrote);
  }

  lemma TakeBackShields(s: Store, root: Key, was: map<Key, Record>, wrote: set<Key>, made: Option<Record>)
    requires Shielded(s, was, wrote, made)
    ensures Shielded(TakenBack(s, root), was, wrote, made)
  {
  }

  lemma RollbackShields(s: Store, was: map<Key, Record>, wrote: set<Key>, made: Option<Record>)
    requires Shielded(s, was, wrote, made)
    ensures Shielded(DroppedAll(s, wrote), was, wrote, made)
  {
    hide Total;
  }

  lemma RollbackOutlasts(disks: seq<Disk>, mid: seq<Disk>, before: seq<Disk>, s: Store, was: map<Key, Record>,
                         wrote: set<Key>,
                         made: Option<Record>)
    requires Shielded(s, was, wrote, made) && Outlasting(mid, before, was, s, made)
    requires made.Some? ==> made.value.root !in s.pins
    requires Keep(disks, mid, s.disk.index, s.disk.files.Keys - wrote)
    ensures Outlasting(disks, before, was, DroppedAll(s, wrote), made)
  {
    hide Total;
    var t := DroppedAll(s, wrote);
    forall d | d in disks && d !in before
      ensures Outlives(d, was, t, made)
    {
      if d !in mid {
        assert forall r :: r in was && r in s.pins ==> forall k :: k in was[r].objects ==> k in s.disk.files && k !in wrote;
      }
    }
  }

  lemma ReleaseShields(s: Store, was: map<Key, Record>, wrote: set<Key>, made: Option<Record>)
    requires Shielded(s, was, wrote, made)
    ensures Shielded(s.(pending := map[]), was, wrote, made)
  {
  }
}
