/**
 The pin store's state (tunnel/pubcache/pin.go) as a value, what its locked steps do
 to it, and which properties those steps keep. PinStore runs them.
 */
module PinModel {
  import opened Basics
  import opened Manifest
  import opened Totals

  /** A "kind:addr" store key. */
  datatype Key = Key(kind: Kind, addr: Address)

  datatype Record = Record(root: Key, owner: string, objects: seq<Key>, bytes: nat, createdAt: int)

  /** The verification an object must pass, and the chunk list a verified manifest names. */
  datatype Gate = Gate(accepts: (Key, Bytes) -> bool, chunks: (Key, Bytes) -> Option<seq<Address>>)

  /** The gate of the addressing rules. */
  function AddressGate(h: Hash): Gate {
    Gate(
      (k: Key, b: Bytes) => Verify(h, k.kind, k.addr, b).Ok?,
      (k: Key, b: Bytes) =>
        match VerifiedChunks(h, k.addr, b)
        case Ok(chunks) => Some(chunks)
        case Err(_) => None)
  }

  /** A manifest passes when its chunks verify, and then has those; anything else when its address is its hash. */
  lemma GateMeans(h: Hash, k: Key, body: Bytes)
    ensures AddressGate(h).accepts(k, body) <==>
              if k.kind == PubManifest then VerifiedChunks(h, k.addr, body).Ok? else k.addr == [0x1e] + h(body)
    ensures AddressGate(h).chunks(k, body) ==
            if VerifiedChunks(h, k.addr, body).Ok? then Some(VerifiedChunks(h, k.addr, body).value) else None
  {
    hide VerifiedChunks;
  }

  /** The object files and the index file; each changes in one atomic step. */
  datatype Disk = Disk(files: map<Key, Bytes>, index: Option<map<Key, Record>>)

  datatype Store = Store(
    pins: map<Key, Record>,
    objects: map<Key, nat>,
    verified: set<Key>,
    pending: map<Key, nat>,
    bytes: int,
    disk: Disk)

  // ------------------------------------------------------------------- what must hold

  /** bytes is the sum of distinct held object sizes. */
  ghost predicate Accounted(s: Store) {
    s.bytes == Total(s.objects)
  }

  /** Neither the books nor the naming of objects looks at the disk. */
  lemma DiskIrrelevant(s: Store, d: Disk)
    ensures Accounted(s.(disk := d)) <==> Accounted(s)
    ensures AllNamed(s.(disk := d)) <==> AllNamed(s)
  {
  }

  ghost predicate WithinBytes(s: Store, maxBytes: int) {
    maxBytes > 0 ==> s.bytes <= maxBytes
  }

  ghost predicate WithinPins(s: Store, maxPins: int) {
    maxPins > 0 ==> |s.pins| <= maxPins
  }

  /** Every object some pin names. */
  ghost function Referenced(pins: map<Key, Record>): set<Key> {
    set r, k | r in pins && k in pins[r].objects :: k
  }

  ghost function Live(s: Store): set<Key> {
    Referenced(s.pins) + s.pending.Keys
  }

  /** Every held object is named by a pin or claimed by the operation in flight. */
  ghost predicate AllNamed(s: Store) {
    s.objects.Keys <= Live(s)
  }

  /** A record all of whose objects are in keys. */
  ghost predicate CompleteIn(rec: Record, keys: set<Key>) {
    |rec.objects| > 0 && forall k :: k in rec.objects ==> k in keys
  }

  /** Every pin's objects are held. */
  ghost predicate Complete(s: Store) {
    forall r :: r in s.pins ==> CompleteIn(s.pins[r], s.objects.Keys)
  }

  /** Every held object is on disk at its recorded size. */
  ghost predicate OnDisk(s: Store) {
    forall k :: k in s.objects ==> k in s.disk.files && |s.disk.files[k]| == s.objects[k]
  }

  ghost function IndexedPins(d: Disk): map<Key, Record> {
    if d.index.None? then map[] else d.index.value
  }

  ghost predicate Synced(s: Store) {
    IndexedPins(s.disk) == s.pins
  }

  /** The state between operations when nothing has gone wrong. */
  ghost predicate Healthy(s: Store) {
    Accounted(s) && AllNamed(s) && Complete(s) && OnDisk(s) && Synced(s) && s.pending == map[]
  }

  /** A held object marked as hashed, if its file is there, is filed under bytes that verify. */
  ghost predicate MarksRight(gate: Gate, s: Store) {
    forall k :: k in s.verified && k in s.objects && k in s.disk.files ==> gate.accepts(k, s.disk.files[k])
  }

  // ------------------------------------------------------------------ the locked steps

  /** One object and its file dropped, and its bytes given back. */
  ghost function Dropped(s: Store, k: Key): Store {
    s.(objects := s.objects - {k},
       verified := if k in s.objects then s.verified - {k} else s.verified,
       bytes := if k in s.objects then s.bytes - s.objects[k] else s.bytes,
       disk := s.disk.(files := s.disk.files - {k}))
  }

  /** Every object of keys dropped. */
  ghost function DroppedAll(s: Store, keys: set<Key>): Store {
    s.(objects := s.objects - keys,
       verified := s.verified - (keys * s.objects.Keys),
       bytes := s.bytes - (Total(s.objects) - Total(s.objects - keys)),
       disk := s.disk.(files := s.disk.files - keys))
  }

  lemma DropOneMore(s: Store, keys: set<Key>, k: Key)
    requires k !in keys
    ensures Dropped(DroppedAll(s, keys), k) == DroppedAll(s, keys + {k})
  {
    hide Total;
    assert s.objects - keys - {k} == s.objects - (keys + {k});
    assert s.disk.files - keys - {k} == s.disk.files - (keys + {k});
    TotalWithout(s.objects - keys, k);
  }

  lemma DroppedNone(s: Store)
    ensures DroppedAll(s, {}) == s
  {
    assert s.objects - {} == s.objects && s.disk.files - {} == s.disk.files;
  }

  /** Dropping objects keeps the books balanced and only frees bytes. */
  lemma DroppedAccounted(s: Store, keys: set<Key>)
    requires Accounted(s)
    ensures Accounted(DroppedAll(s, keys)) && DroppedAll(s, keys).bytes <= s.bytes
  {
    TotalPart(s.objects, keys);
  }

  /** Objects that no pin names and no operation claims are dropped. */
  ghost function Reclaimed(s: Store): Store {
    DroppedAll(s, s.objects.Keys - Live(s))
  }

  lemma ReclaimedNamed(s: Store)
    ensures AllNamed(Reclaimed(s))
    ensures Reclaimed(s).objects.Keys == s.objects.Keys * Live(s)
  {
  }

  ghost function IndexWritten(s: Store, ok: bool): Store {
    if ok then s.(disk := s.disk.(index := Some(s.pins))) else s
  }

  /** Pins that do not depend on a bad object. */
  ghost function PinsWithout(pins: map<Key, Record>, bad: Key): map<Key, Record> {
    map r | r in pins && bad !in pins[r].objects :: pins[r]
  }

  /** A bad object, and whether persisting the reduced index works. */
  datatype Bad = Bad(key: Key, indexOk: bool)

  ghost function Quarantined(s: Store, bad: Bad): Store {
    IndexWritten(Reclaimed(Dropped(s.(pins := PinsWithout(s.pins, bad.key)), bad.key)), bad.indexOk)
  }

  /**
   Quarantine, field by field: the pins that name the bad object go; of the objects, and of
   the held objects' files and marks, stays what is not the bad one and is claimed or named
   by a pin that stays; nothing else changes but the index, if it can be written.
   */
  lemma QuarantineMeans(s: Store, bad: Bad)
    ensures var t := Quarantined(s, bad);
            && (forall r :: r in t.pins <==> r in s.pins && bad.key !in s.pins[r].objects)
            && (forall r :: r in t.pins ==> t.pins[r] == s.pins[r])
            && (forall k :: k in t.objects <==>
                              && k in s.objects && k != bad.key
                              && (k in s.pending || exists r :: r in t.pins && k in t.pins[r].objects))
            && (forall k :: k in t.objects ==> t.objects[k] == s.objects[k])
            && (forall k :: k in t.verified <==> k in s.verified && (k in s.objects ==> k in t.objects))
            && (forall k :: k in t.disk.files <==>
                              k in s.disk.files && k != bad.key && (k in s.objects ==> k in t.objects))
            && (forall k :: k in t.disk.files ==> t.disk.files[k] == s.disk.files[k])
            && t.pending == s.pending && t.disk.index == (if bad.indexOk then Some(t.pins) else s.disk.index)
            && t.bytes - Total(t.objects) == s.bytes - Total(s.objects)
  {
    hide Total;
    TotalWithout(s.objects, bad.key);
  }

  ghost function QuarantinedAll(s: Store, bads: seq<Bad>): Store
    decreases |bads|
  {
    if |bads| == 0 then s else QuarantinedAll(Quarantined(s, bads[0]), bads[1..])
  }

  /** Quarantine keeps the books, frees only, names everything, and leaves pending alone. */
  lemma QuarantineKeeps(s: Store, bad: Bad)
    requires Accounted(s)
    ensures var t := Quarantined(s, bad);
            && Accounted(t) && t.bytes <= s.bytes && AllNamed(t) && t.pending == s.pending
            && t.objects.Keys <= s.objects.Keys && t.pins.Keys <= s.pins.Keys
            && (forall r :: r in t.pins ==> t.pins[r] == s.pins[r])
  {
    hide Total;
    var p := s.(pins := PinsWithout(s.pins, bad.key));
    var d := Dropped(p, bad.key);
    TotalWithout(s.objects, bad.key);
    DroppedAccounted(d, d.objects.Keys - Live(d));
    ReclaimedNamed(d);
  }

  lemma {:induction false} QuarantineAllKeeps(s: Store, bads: seq<Bad>)
    requires Accounted(s)
    ensures var t := QuarantinedAll(s, bads);
            && Accounted(t) && t.bytes <= s.bytes && t.pending == s.pending
            && (|bads| > 0 || AllNamed(s) ==> AllNamed(t))
            && t.objects.Keys <= s.objects.Keys && t.pins.Keys <= s.pins.Keys
            && (forall r :: r in t.pins ==> t.pins[r] == s.pins[r])
    decreases |bads|
  {
    hide Quarantined, AllNamed, Accounted;
    if |bads| > 0 {
      QuarantineKeeps(s, bads[0]);
      QuarantineAllKeeps(Quarantined(s, bads[0]), bads[1..]);
    }
  }

  /** On a healthy store quarantine leaves a healthy store: only the pins that needed the object go. */
  lemma QuarantineHealthy(s: Store, bad: Bad)
    requires Healthy(s) && bad.indexOk
    ensures Healthy(Quarantined(s, bad))
    ensures Quarantined(s, bad).pins == PinsWithout(s.pins, bad.key)
  {
    QuarantineKeeps(s, bad);
    var p := s.(pins := PinsWithout(s.pins, bad.key));
    ReclaimedNamed(Dropped(p, bad.key));
  }

  /** A pin taken away, its unshared objects reclaimed, the index rewritten. */
  ghost function Unpinned(s: Store, root: Key, indexOk: bool): Store {
    IndexWritten(Reclaimed(s.(pins := s.pins - {root})), indexOk)
  }

  /** Unpinning, field by field: the pin goes, and what is neither claimed nor named by another. */
  lemma UnpinMeans(s: Store, root: Key, indexOk: bool)
    ensures var t := Unpinned(s, root, indexOk);
            && (forall r :: r in t.pins <==> r in s.pins && r != root)
            && (forall r :: r in t.pins ==> t.pins[r] == s.pins[r])
            && (forall k :: k in t.objects <==>
                              k in s.objects && (k in s.pending || exists r :: r in t.pins && k in t.pins[r].objects))
            && (forall k :: k in t.objects ==> t.objects[k] == s.objects[k])
            && (forall k :: k in t.verified <==> k in s.verified && (k in s.objects ==> k in t.objects))
            && (forall k :: k in t.disk.files <==> k in s.disk.files && (k in s.objects ==> k in t.objects))
            && (forall k :: k in t.disk.files ==> t.disk.files[k] == s.disk.files[k])
            && t.pending == s.pending && t.disk.index == (if indexOk then Some(t.pins) else s.disk.index)
            && t.bytes - Total(t.objects) == s.bytes - Total(s.objects)
  {
    hide Total;
  }

  /** Unpinning keeps the books and frees exactly what no remaining pin names. */
  lemma UnpinKeeps(s: Store, root: Key, indexOk: bool)
    requires Accounted(s) && s.pending == map[]
    ensures var t := Unpinned(s, root, indexOk);
            && Accounted(t) && t.bytes <= s.bytes && AllNamed(t)
            && t.objects.Keys == s.objects.Keys * Referenced(s.pins - {root})
    ensures Healthy(s) && indexOk ==> Healthy(Unpinned(s, root, indexOk))
  {
    hide Total;
    var p := s.(pins := s.pins - {root});
    DroppedAccounted(p, p.objects.Keys - Live(p));
    ReclaimedNamed(p);
  }

  // -------------------------------------------------------------------- crash recovery

  /** Every indexed pin outside except has all its files. */
  ghost predicate AllComplete(d: Disk, except: set<Key>) {
    forall r :: r in IndexedPins(d) && r !in except ==> CompleteIn(IndexedPins(d)[r], d.files.Keys)
  }

  /** The indexed pins among roots that have all their files. */
  ghost function CompletePins(d: Disk, roots: set<Key>): map<Key, Record> {
    map r | r in roots && r in IndexedPins(d) && CompleteIn(IndexedPins(d)[r], d.files.Keys) :: IndexedPins(d)[r]
  }

  /** The sizes of the files that pins name. */
  ghost function HeldBy(d: Disk, pins: map<Key, Record>): map<Key, nat> {
    map k | k in Referenced(pins) && k in d.files :: |d.files[k]|
  }

  /** What load makes of a disk: complete pins, their objects, and no other files. */
  ghost function Recovered(d: Disk): Store {
    var pins := CompletePins(d, IndexedPins(d).Keys);
    var objects := HeldBy(d, pins);
    Store(pins, objects, {}, map[], Total(objects),
          Disk(map k | k in d.files && k in objects :: d.files[k], if d.index.None? then None else Some(pins)))
  }

  /** Whatever the disk holds, load ends in a healthy store whose files are exactly its objects. */
  lemma RecoveredHealthy(d: Disk)
    ensures Healthy(Recovered(d))
    ensures Recovered(d).disk.files.Keys == Recovered(d).objects.Keys == Referenced(Recovered(d).pins)
  {
    hide Total;
    var t := Recovered(d);
    forall r | r in t.pins
      ensures CompleteIn(t.pins[r], t.objects.Keys)
    {
      assert CompleteIn(t.pins[r], d.files.Keys);
      assert forall k :: k in t.pins[r].objects ==> k in Referenced(t.pins);
    }
  }

  /** A pin whose files are all there survives the crash unchanged; nothing else appears. */
  lemma RecoveredPins(d: Disk, except: set<Key>)
    requires AllComplete(d, except)
    ensures IndexedPins(d).Keys - except <= Recovered(d).pins.Keys <= IndexedPins(d).Keys
    ensures forall r :: r in Recovered(d).pins ==> Recovered(d).pins[r] == IndexedPins(d)[r]
  {
  }

  /** Restarting a healthy store loses nothing but the memory of what was hashed. */
  lemma RestartIsLossless(s: Store)
    requires Healthy(s)
    ensures var t := Recovered(s.disk);
            t.pins == s.pins && t.objects == s.objects && t.bytes == s.bytes
  {
    hide Total;
    var t := Recovered(s.disk);
    forall r | r in s.pins
      ensures CompleteIn(s.pins[r], s.disk.files.Keys)
    {
      assert CompleteIn(s.pins[r], s.objects.Keys);
    }
    assert t.pins == s.pins;
    forall k | k in Referenced(s.pins)
      ensures k in s.objects
    {
      var r :| r in s.pins && k in s.pins[r].objects;
      assert CompleteIn(s.pins[r], s.objects.Keys);
    }
    assert t.objects == s.objects;
  }

  // ---------------------------------------------------- objects staged for a new pin

  ghost function SizesOf(bodies: map<Key, Bytes>): map<Key, nat> {
    map k | k in bodies :: |bodies[k]|
  }

  /** One claim on each key. */
  ghost function Claims(keys: set<Key>): map<Key, nat> {
    map k | k in keys :: 1
  }

  /** A store with a pin's new objects written and claimed, but no record yet. */
  ghost function Staged(s: Store, bodies: map<Key, Bytes>): Store {
    s.(objects := s.objects + SizesOf(bodies),
       verified := s.verified + bodies.Keys,
       pending := Claims(bodies.Keys),
       bytes := s.bytes + Total(SizesOf(bodies)),
       disk := s.disk.(files := s.disk.files + bodies))
  }

  ghost function Committed(s: Store, rec: Record, bodies: map<Key, Bytes>): Store {
    var t := Staged(s, bodies);
    IndexWritten(t.(pins := t.pins[rec.root := rec]), true)
  }

  /** An object entered in the books and claimed. */
  ghost function Claimed(s: Store, k: Key, n: nat): Store {
    s.(objects := s.objects[k := n],
       verified := s.verified + {k},
       pending := s.pending[k := (if k in s.pending then s.pending[k] else 0) + 1],
       bytes := s.bytes + n)
  }

  lemma ClaimKeeps(s: Store, k: Key, n: nat)
    requires Accounted(s) && k !in s.objects
    ensures Accounted(Claimed(s, k, n))
    ensures AllNamed(s) ==> AllNamed(Claimed(s, k, n))
  {
    TotalAdd(s.objects, k, n);
  }

  ghost function FileWritten(s: Store, k: Key, body: Bytes): Store {
    s.(disk := s.disk.(files := s.disk.files[k := body]))
  }

  lemma StageOneMore(s: Store, bodies: map<Key, Bytes>, k: Key, body: Bytes)
    requires k !in bodies && k !in s.objects
    ensures Staged(s, bodies[k := body]) == Claimed(FileWritten(Staged(s, bodies), k, body), k, |body|)
    ensures Claims(bodies[k := body].Keys) == Claims(bodies.Keys)[k := 1]
  {
    hide Total, SizesOf, Claims;
    SizesOfMore(bodies, k, body);
    TotalAdd(SizesOf(bodies), k, |body|);
    UnionUpdate(s.objects, SizesOf(bodies), k, |body|);
    UnionUpdate(s.disk.files, bodies, k, body);
    assert s.verified + (bodies.Keys + {k}) == s.verified + bodies.Keys + {k};
  }

  lemma SizesOfMore(bodies: map<Key, Bytes>, k: Key, body: Bytes)
    ensures SizesOf(bodies[k := body]) == SizesOf(bodies)[k := |body|]
    ensures SizesOf(bodies).Keys == bodies.Keys && Claims(bodies.Keys).Keys == bodies.Keys
    ensures bodies[k := body].Keys == bodies.Keys + {k}
    ensures Claims(bodies[k := body].Keys) == Claims(bodies.Keys)[k := 1]
  {
  }

  lemma StageNothing(s: Store)
    requires s.pending == map[]
    ensures Staged(s, map[]) == s
  {
    var none: map<Key, Bytes> := map[];
    assert SizesOf(none) == map[];
    assert s.objects + SizesOf(none) == s.objects && s.disk.files + none == s.disk.files;
    assert Claims(none.Keys) == s.pending;
  }

  ghost function Keys(bads: seq<Bad>): set<Key> {
    set b | b in bads :: b.key
  }

  ghost predicate Touches(rec: Record, bads: seq<Bad>) {
    exists k :: k in rec.objects && k in Keys(bads)
  }

  lemma TouchesSplit(bads: seq<Bad>)
    ensures |bads| == 0 ==> Keys(bads) == {} && forall rec: Record :: !Touches(rec, bads)
    ensures |bads| > 0 ==>
              && Keys(bads) == {bads[0].key} + Keys(bads[1..])
              && forall rec: Record :: Touches(rec, bads) <==> bads[0].key in rec.objects || Touches(rec, bads[1..])
  {
    if |bads| > 0 {
      assert bads == [bads[0]] + bads[1..];
      assert bads[0].key in Keys(bads);
    }
  }

  /** A run of quarantines drops exactly the pins they touch, and no claimed object they do not name. */
  lemma {:induction false} QuarantineRun(s: Store, bads: seq<Bad>)
    ensures var t := QuarantinedAll(s, bads);
            && (forall r :: r in t.pins <==> r in s.pins && !Touches(s.pins[r], bads))
            && (forall r :: r in t.pins ==> t.pins[r] == s.pins[r])
            && (forall k :: k in s.pending && k in s.objects ==> (k in t.objects <==> k !in Keys(bads)))
            && t.pending == s.pending && t.objects.Keys <= s.objects.Keys
    decreases |bads|
  {
    hide Quarantined, Keys, Touches;
    TouchesSplit(bads);
    if |bads| > 0 {
      QuarantineOnce(s, bads[0]);
      QuarantineRun(Quarantined(s, bads[0]), bads[1..]);
    }
  }

  lemma QuarantineOnce(s: Store, bad: Bad)
    ensures var t := Quarantined(s, bad);
            && (forall r :: r in t.pins <==> r in s.pins && bad.key !in s.pins[r].objects)
            && (forall r :: r in t.pins ==> t.pins[r] == s.pins[r])
            && (forall k :: k in s.pending && k in s.objects ==> (k in t.objects <==> k != bad.key))
            && t.pending == s.pending && t.objects.Keys <= s.objects.Keys
  {
    hide Total;
  }

  lemma StagedAccounted(s: Store, bodies: map<Key, Bytes>)
    requires Accounted(s) && bodies.Keys !! s.objects.Keys
    ensures Accounted(Staged(s, bodies))
  {
    TotalDisjoint(s.objects, SizesOf(bodies));
  }

  lemma CommittedAccounted(s: Store, rec: Record, bodies: map<Key, Bytes>)
    requires Accounted(s) && AllNamed(s) && s.pending == map[]
    requires bodies.Keys !! s.objects.Keys && rec.root !in s.pins
    ensures Accounted(Committed(s, rec, bodies)) && AllNamed(Committed(s, rec, bodies))
  {
    hide Total;
    StagedAccounted(s, bodies);
    var c := Committed(s, rec, bodies);
    forall k | k in s.objects
      ensures k in Live(c)
    {
      if k in Referenced(s.pins) {
        var r :| r in s.pins && k in s.pins[r].objects;
        assert r in c.pins && c.pins[r] == s.pins[r];
      }
    }
  }

  /** Giving up a pin puts back everything it touched. */
  lemma RolledBack(s: Store, bodies: map<Key, Bytes>)
    requires s.pending == map[] && bodies.Keys !! s.objects.Keys
    ensures DroppedAll(Staged(s, bodies), bodies.Keys).(pending := map[]) ==
            s.(verified := s.verified - bodies.Keys, disk := s.disk.(files := s.disk.files - bodies.Keys))
  {
    hide Total;
    var t := Staged(s, bodies);
    assert t.objects - bodies.Keys == s.objects;
    assert t.disk.files - bodies.Keys == s.disk.files - bodies.Keys;
    TotalDisjoint(s.objects, SizesOf(bodies));
    assert t.verified - (bodies.Keys * t.objects.Keys) == s.verified - bodies.Keys;
  }

  lemma RolledBackHealthy(s: Store, bodies: map<Key, Bytes>)
    requires Healthy(s) && bodies.Keys !! s.objects.Keys
    ensures Healthy(s.(verified := s.verified - bodies.Keys, disk := s.disk.(files := s.disk.files - bodies.Keys)))
  {
    hide Total;
  }

  /** A commit, field by field: the record, in the index too, and the new objects, their sizes, marks and files. */
  lemma CommittedMeans(s: Store, rec: Record, bodies: map<Key, Bytes>)
    requires bodies.Keys !! s.objects.Keys
    ensures var t := Committed(s, rec, bodies);
            && t.pins == s.pins[rec.root := rec] && t.disk.index == Some(t.pins)
            && (forall k :: k in t.objects <==> k in s.objects || k in bodies)
            && (forall k :: k in s.objects ==> t.objects[k] == s.objects[k])
            && (forall k :: k in bodies ==> t.objects[k] == |bodies[k]|)
            && (forall k :: k in t.verified <==> k in s.verified || k in bodies)
            && t.disk.files == s.disk.files + bodies
            && t.bytes - Total(t.objects) == s.bytes - Total(s.objects)
  {
    hide Total;
    TotalDisjoint(s.objects, SizesOf(bodies));
  }

  /** A committed pin leaves a healthy store. */
  lemma CommittedHealthy(s: Store, rec: Record, bodies: map<Key, Bytes>)
    requires Healthy(s) && rec.root !in s.pins && bodies.Keys !! s.objects.Keys
    requires forall k :: k in bodies ==> k in rec.objects
    requires CompleteIn(rec, s.objects.Keys + bodies.Keys)
    ensures Healthy(Committed(s, rec, bodies).(pending := map[]))
  {
    hide Total, Committed, Accounted, AllNamed, Complete, OnDisk, Synced, CompleteIn;
    CommittedAccounted(s, rec, bodies);
    CommittedNamed(s, rec, bodies);
    CommittedComplete(s, rec, bodies);
    CommittedOnDisk(s, rec, bodies);
    PendingIrrelevant(Committed(s, rec, bodies));
  }

  lemma PendingIrrelevant(s: Store)
    ensures Accounted(s.(pending := map[])) <==> Accounted(s)
  {
  }

  lemma CommittedOnDisk(s: Store, rec: Record, bodies: map<Key, Bytes>)
    requires OnDisk(s) && bodies.Keys !! s.objects.Keys
    ensures OnDisk(Committed(s, rec, bodies).(pending := map[]))
    ensures Synced(Committed(s, rec, bodies).(pending := map[]))
  {
    hide Total;
  }

  lemma CommittedComplete(s: Store, rec: Record, bodies: map<Key, Bytes>)
    requires Complete(s) && CompleteIn(rec, s.objects.Keys + bodies.Keys)
    ensures Complete(Committed(s, rec, bodies))
    ensures Complete(Committed(s, rec, bodies).(pending := map[]))
  {
    hide Total, CompleteIn;
    var t := Committed(s, rec, bodies);
    assert t.objects.Keys == s.objects.Keys + bodies.Keys;
    forall r | r in t.pins
      ensures CompleteIn(t.pins[r], t.objects.Keys)
    {
      if r != rec.root {
        CompleteInMore(s.pins[r], s.objects.Keys, t.objects.Keys);
      }
    }
  }

  lemma CompleteInMore(rec: Record, a: set<Key>, b: set<Key>)
    requires CompleteIn(rec, a) && a <= b
    ensures CompleteIn(rec, b)
  {
  }

  lemma CommittedNamed(s: Store, rec: Record, bodies: map<Key, Bytes>)
    requires AllNamed(s) && s.pending == map[] && rec.root !in s.pins
    requires forall k :: k in bodies ==> k in rec.objects
    ensures AllNamed(Committed(s, rec, bodies).(pending := map[]))
  {
    hide Total;
    var t := Committed(s, rec, bodies).(pending := map[]);
    forall k | k in t.objects
      ensures k in Referenced(t.pins)
    {
      if k in bodies {
        assert rec.root in t.pins && k in t.pins[rec.root].objects;
      } else {
        var r :| r in s.pins && k in s.pins[r].objects;
        assert r in t.pins && t.pins[r] == s.pins[r];
      }
    }
  }

  /** A crash at d loses none of the pins outside except. */
  ghost predicate Survives(d: Disk, pins: map<Key, Record>, except: set<Key>) {
    && AllComplete(d, except)
    && forall r :: r in pins && r !in except ==> r in IndexedPins(d) && IndexedPins(d)[r] == pins[r]
  }

  /** Load after a crash at such a disk brings back every one of those pins, complete. */
  lemma SurvivorsAreRecovered(d: Disk, pins: map<Key, Record>, except: set<Key>)
    requires Survives(d, pins, except)
    ensures forall r :: r in pins && r !in except ==> r in Recovered(d).pins && Recovered(d).pins[r] == pins[r]
    ensures Healthy(Recovered(d)) && Recovered(d).disk.files.Keys == Recovered(d).objects.Keys
  {
    RecoveredPins(d, except);
    RecoveredHealthy(d);
  }

  /** So do they on the disk of a healthy store that has more pins. */
  lemma HealthySurvives(s: Store, pins: map<Key, Record>)
    requires Healthy(s) && forall r :: r in pins ==> r in s.pins && s.pins[r] == pins[r]
    ensures Survives(s.disk, pins, {})
  {
    forall r | r in s.pins
      ensures CompleteIn(s.pins[r], s.disk.files.Keys)
    {
      CompleteInMore(s.pins[r], s.objects.Keys, s.disk.files.Keys);
    }
  }

  // ------------------------------------------------------------------ what is served

  /** The bytes served for a key looked up in s and read in t: hashed, unless marked as hashed before. */
  ghost function Served(gate: Gate, s: Store, t: Store, k: Key): Option<Bytes> {
    if k in s.objects && k in t.disk.files && (k in s.verified || gate.accepts(k, t.disk.files[k]))
    then Some(t.disk.files[k])
    else None
  }

  /** A held object whose file is there is served when it is marked or verifies, and in no other case. */
  lemma ServedMeans(gate: Gate, s: Store, t: Store, k: Key)
    ensures Served(gate, s, t, k).Some? <==>
              k in s.objects && k in t.disk.files && (k in s.verified || gate.accepts(k, t.disk.files[k]))
    ensures Served(gate, s, t, k).Some? ==> Served(gate, s, t, k).value == t.disk.files[k]
  {
  }

  /** Whatever is served verifies exactly while every mark is right. */
  lemma ServedVerifies(gate: Gate, s: Store)
    ensures MarksRight(gate, s) <==>
              forall k :: Served(gate, s, s, k).Some? ==> gate.accepts(k, Served(gate, s, s, k).value)
  {
    if !MarksRight(gate, s) {
      var k :| k in s.verified && k in s.objects && k in s.disk.files && !gate.accepts(k, s.disk.files[k]);
      assert Served(gate, s, s, k) == Some(s.disk.files[k]);
    }
  }

  /** A file changes behind the store's back. */
  ghost function Rotted(s: Store, k: Key, bytes: Bytes): Store {
    s.(disk := s.disk.(files := s.disk.files[k := bytes]))
  }

  /** Rot does harm exactly when it reaches an object already marked and the new bytes do not verify. */
  lemma RotHarms(gate: Gate, s: Store, k: Key, bytes: Bytes)
    requires MarksRight(gate, s)
    ensures MarksRight(gate, Rotted(s, k, bytes)) <==> !(k in s.verified && k in s.objects) || gate.accepts(k, bytes)
  {
    var t := Rotted(s, k, bytes);
    assert k in t.disk.files && t.disk.files[k] == bytes;
  }

  /** Then they are served, unhashed; before the first read they would have been caught. */
  lemma RotIsServed(gate: Gate, s: Store, k: Key, bytes: Bytes)
    requires k in s.objects && !gate.accepts(k, bytes)
    ensures Served(gate, Rotted(s, k, bytes), Rotted(s, k, bytes), k) == if k in s.verified then Some(bytes) else None
  {
  }

  /** Dropping objects leaves no wrong mark. */
  lemma DroppedMarks(gate: Gate, s: Store, keys: set<Key>)
    requires MarksRight(gate, s)
    ensures MarksRight(gate, DroppedAll(s, keys))
  {
    hide Total;
  }

  lemma QuarantineMarks(gate: Gate, s: Store, bad: Bad)
    requires MarksRight(gate, s)
    ensures MarksRight(gate, Quarantined(s, bad))
  {
    hide Total, Live;
    var d := Dropped(s.(pins := PinsWithout(s.pins, bad.key)), bad.key);
    assert MarksRight(gate, d);
    DroppedMarks(gate, d, d.objects.Keys - Live(d));
  }

  lemma {:induction false} QuarantineAllMarks(gate: Gate, s: Store, bads: seq<Bad>)
    requires MarksRight(gate, s)
    ensures MarksRight(gate, QuarantinedAll(s, bads))
    decreases |bads|
  {
    hide Quarantined, MarksRight;
    if |bads| > 0 {
      QuarantineMarks(gate, s, bads[0]);
      QuarantineAllMarks(gate, Quarantined(s, bads[0]), bads[1..]);
    }
  }

  /** Quarantines remove files and change none. */
  lemma {:induction false} FilesOnlyGo(s: Store, bads: seq<Bad>, k: Key)
    ensures var t := QuarantinedAll(s, bads); k in t.disk.files ==> k in s.disk.files && t.disk.files[k] == s.disk.files[k]
    decreases |bads|
  {
    if |bads| > 0 {
      QuarantineFiles(s, bads[0], k);
      hide Quarantined;
      FilesOnlyGo(Quarantined(s, bads[0]), bads[1..], k);
    }
  }

  lemma QuarantineFiles(s: Store, bad: Bad, k: Key)
    ensures var t := Quarantined(s, bad); k in t.disk.files ==> k in s.disk.files && t.disk.files[k] == s.disk.files[k]
  {
    hide Total;
  }

  lemma UnpinMarks(gate: Gate, s: Store, root: Key, indexOk: bool)
    requires MarksRight(gate, s)
    ensures MarksRight(gate, Unpinned(s, root, indexOk))
  {
    hide Total, Live;
    var p := s.(pins := s.pins - {root});
    assert MarksRight(gate, p);
    DroppedMarks(gate, p, p.objects.Keys - Live(p));
  }

  /** A verified object written, and claimed while its file, if still there, is those bytes. */
  lemma PutMarks(gate: Gate, s: Store, k: Key, body: Bytes)
    requires MarksRight(gate, s) && gate.accepts(k, body)
    ensures MarksRight(gate, FileWritten(s, k, body))
  {
  }

  lemma ClaimMarks(gate: Gate, s: Store, k: Key, n: nat)
    requires MarksRight(gate, s) && (k in s.disk.files ==> gate.accepts(k, s.disk.files[k]))
    ensures MarksRight(gate, Claimed(s, k, n))
  {
  }

  /** The pins and the claims do not bear on the marks. */
  lemma MarksIrrelevant(gate: Gate, s: Store, pins: map<Key, Record>, pending: map<Key, nat>, ok: bool)
    ensures MarksRight(gate, IndexWritten(s.(pins := pins, pending := pending), ok)) <==> MarksRight(gate, s)
  {
  }

  // ----------------------------------------------------------------- crashing on the way

  /** A pin being removed aside, no crash during unpin loses a pin. */
  lemma UnpinSurvives(s: Store, root: Key, d: Disk)
    requires Healthy(s) && d.index == s.disk.index
    requires s.disk.files.Keys - (s.objects.Keys - Referenced(s.pins - {root})) <= d.files.Keys
    ensures Survives(d, s.pins, {root})
  {
    forall r | r in s.pins && r != root
      ensures CompleteIn(s.pins[r], d.files.Keys)
    {
      assert CompleteIn(s.pins[r], s.objects.Keys);
      assert r in s.pins - {root} && (s.pins - {root})[r] == s.pins[r];
      assert forall k :: k in s.pins[r].objects ==> k in Referenced(s.pins - {root});
    }
  }

  /** The pins that depend on an object. */
  ghost function Dependents(pins: map<Key, Record>, k: Key): set<Key> {
    set r | r in pins && k in pins[r].objects
  }

  /** A quarantine of k, between any two of its disk steps, endangers only the pins that depend on k. */
  lemma QuarantineSurvives(s: Store, k: Key, d: Disk)
    requires Complete(s) && OnDisk(s) && Synced(s)
    requires d.index == s.disk.index || d.index == Some(PinsWithout(s.pins, k))
    requires var live := Referenced(PinsWithout(s.pins, k)) + s.pending.Keys;
             s.disk.files.Keys - {k} - (s.objects.Keys - live) <= d.files.Keys
    ensures Survives(d, s.pins, Dependents(s.pins, k))
  {
    forall r | r in s.pins && r !in Dependents(s.pins, k)
      ensures CompleteIn(s.pins[r], d.files.Keys)
    {
      assert CompleteIn(s.pins[r], s.objects.Keys);
      var kept := PinsWithout(s.pins, k);
      assert r in kept && kept[r] == s.pins[r];
      assert forall x :: x in s.pins[r].objects ==> x in Referenced(kept) && x != k;
    }
    forall r | r in IndexedPins(d) && r !in Dependents(s.pins, k)
      ensures r in s.pins && IndexedPins(d)[r] == s.pins[r]
    {
    }
  }

  lemma UnpinnedSurvives(s: Store, root: Key)
    requires Healthy(s)
    ensures Survives(Unpinned(s, root, true).disk, s.pins, {root})
  {
    hide Total, CompleteIn;
    UnpinKeeps(s, root, true);
    var t := Unpinned(s, root, true);
    HealthySurvives(t, t.pins);
  }
}
