/**
 Reading the pin index back (tunnel/pubcache/pin.go): an index file that need not be one the
 store wrote, with records that repeat a root, name no object, or name what is not an object.
 */
module PinLoad {
  import opened Basics
  import opened Totals
  import opened PinModel

  /** A record as parsed; a name that is not a kind and a canonical address is None. */
  datatype Entry =
    | Blank
    | Entry(root: Key, owner: string, objects: seq<Option<Key>>, bytes: nat, createdAt: int)

  /** What is found where the index is kept; Garbled when it cannot be read, parsed, or is of another version. */
  datatype IndexFile = Missing | Garbled | Entries(entries: seq<Entry>)

  type Files = map<Key, Bytes>

  /** The names, if all are well formed. */
  ghost function Named(names: seq<Option<Key>>): Option<seq<Key>> {
    if exists i :: 0 <= i < |names| && names[i].None? then None
    else Some(seq(|names|, i requires 0 <= i < |names| => names[i].value))
  }

  /** The pin an entry stands for, if it is one: it names objects, all well formed and with their files. */
  ghost function Whole(files: Files, e: Entry): Option<Record> {
    if e.Blank? || |e.objects| == 0 || Named(e.objects).None? then None
    else
      var keys := Named(e.objects).value;
      if forall k :: k in keys ==> k in files then Some(Record(e.root, e.owner, keys, e.bytes, e.createdAt)) else None
  }

  /** Each whole entry makes a pin, in place of an earlier one of the same root. */
  ghost function LoadedPins(files: Files, entries: seq<Entry>): map<Key, Record> {
    if |entries| == 0 then map[]
    else
      var n := |entries| - 1;
      var rec := Whole(files, entries[n]);
      var pins := LoadedPins(files, entries[..n]);
      if rec.Some? then pins[rec.value.root := rec.value] else pins
  }

  /** A map extended by the file sizes of the listed keys. */
  ghost function WithSizes(files: Files, objects: map<Key, nat>, keys: seq<Key>): map<Key, nat> {
    map k | k in objects.Keys + (set j | j in keys) && (k in objects || k in files)
      :: if k in objects then objects[k] else |files[k]|
  }

  /** And holds its objects. */
  ghost function LoadedObjects(files: Files, entries: seq<Entry>): map<Key, nat> {
    if |entries| == 0 then map[]
    else
      var n := |entries| - 1;
      var rec := Whole(files, entries[n]);
      var objects := LoadedObjects(files, entries[..n]);
      if rec.Some? then WithSizes(files, objects, rec.value.objects) else objects
  }

  /** What load makes of files and an index: its pins, their objects, and no other files. */
  ghost function Loaded(files: Files, entries: seq<Entry>): Store {
    var pins, objects := LoadedPins(files, entries), LoadedObjects(files, entries);
    Store(pins, objects, {}, map[], Total(objects),
          Disk(map k | k in files && k in objects :: files[k], Some(pins)))
  }

  // ------------------------------------------------------------------- what is loaded

  /** Some whole entry names the object. */
  ghost predicate Mentioned(files: Files, entries: seq<Entry>, k: Key) {
    exists i :: 0 <= i < |entries| && Mentions(files, entries[i], k)
  }

  ghost predicate Mentions(files: Files, e: Entry, k: Key) {
    Whole(files, e).Some? && k in Whole(files, e).value.objects
  }

  lemma MentionedSnoc(files: Files, entries: seq<Entry>, k: Key)
    requires |entries| > 0
    ensures var n := |entries| - 1;
            Mentioned(files, entries, k) <==> Mentioned(files, entries[..n], k) || Mentions(files, entries[n], k)
  {
    hide Mentions;
    var n := |entries| - 1;
    assert forall i :: 0 <= i < n ==> entries[i] == entries[..n][i];
  }

  lemma WholeFiled(files: Files, e: Entry)
    ensures Whole(files, e).Some? ==> CompleteIn(Whole(files, e).value, files.Keys)
  {
  }

  /** The objects held are those that whole entries name, at their files' sizes. */
  lemma {:induction false} ObjectsAreMentioned(files: Files, entries: seq<Entry>, k: Key)
    ensures k in LoadedObjects(files, entries) <==> Mentioned(files, entries, k)
    ensures k in LoadedObjects(files, entries) ==> k in files && LoadedObjects(files, entries)[k] == |files[k]|
  {
    hide Whole;
    if |entries| > 0 {
      var n := |entries| - 1;
      ObjectsAreMentioned(files, entries[..n], k);
      MentionedSnoc(files, entries, k);
      WholeFiled(files, entries[n]);
    }
  }

  /** Every pin is a whole entry's. */
  lemma {:induction false} PinsAreEntries(files: Files, entries: seq<Entry>, r: Key)
    requires r in LoadedPins(files, entries)
    ensures var rec := LoadedPins(files, entries)[r];
            rec.root == r && CompleteIn(rec, files.Keys) && exists i :: 0 <= i < |entries| && Whole(files, entries[i]) == Some(rec)
  {
    var n := |entries| - 1;
    WholeFiled(files, entries[n]);
    hide Whole;
    if Whole(files, entries[n]).Some? && Whole(files, entries[n]).value.root == r {
      assert Whole(files, entries[n]) == Some(LoadedPins(files, entries)[r]);
    } else {
      PinsAreEntries(files, entries[..n], r);
      var i :| 0 <= i < n && Whole(files, entries[..n][i]) == Some(LoadedPins(files, entries)[r]);
      assert entries[i] == entries[..n][i];
    }
  }

  lemma PinsAreMentioned(files: Files, entries: seq<Entry>, k: Key)
    requires k in Referenced(LoadedPins(files, entries))
    ensures Mentioned(files, entries, k)
  {
    hide Whole, LoadedPins;
    var pins := LoadedPins(files, entries);
    var r :| r in pins && k in pins[r].objects;
    PinsAreEntries(files, entries, r);
    var i :| 0 <= i < |entries| && Whole(files, entries[i]) == Some(pins[r]);
    assert Mentions(files, entries[i], k);
  }

  /**
   Whatever the index says, the pins loaded are whole, on disk, and in the new index, and the
   bytes add up. The store is healthy exactly when every object a whole entry names is named
   by a pin: none is left over from an entry that a later one of the same root replaced.
   */
  lemma LoadedHealthy(files: Files, entries: seq<Entry>)
    ensures var t := Loaded(files, entries);
            && Accounted(t) && Complete(t) && OnDisk(t) && Synced(t) && t.pending == map[] && t.verified == {}
            && (Healthy(t) <==> forall k :: Mentioned(files, entries, k) ==> k in Referenced(LoadedPins(files, entries)))
  {
    hide Total, LoadedPins, LoadedObjects, Whole, Mentioned, Referenced;
    var t := Loaded(files, entries);
    forall k
      ensures k in t.objects <==> Mentioned(files, entries, k)
      ensures k in t.objects ==> k in files && t.objects[k] == |files[k]|
    {
      ObjectsAreMentioned(files, entries, k);
    }
    forall r | r in t.pins
      ensures CompleteIn(t.pins[r], t.objects.Keys)
    {
      PinsAreEntries(files, entries, r);
      forall k | k in t.pins[r].objects
        ensures k in t.objects
      {
        NamedByPin(t.pins, r, k);
        PinsAreMentioned(files, entries, k);
      }
    }
  }

  lemma NamedByPin(pins: map<Key, Record>, r: Key, k: Key)
    requires r in pins && k in pins[r].objects
    ensures k in Referenced(pins)
  {
  }

  /** An index with two records of one root leaves the first one's object held, and named by nothing. */
  lemma RepeatedRootLeaks(r: Key, x: Key, y: Key, a: Bytes, b: Bytes)
    requires x != y
    ensures var files := map[x := a, y := b];
            var entries := [Entry(r, "", [Some(x)], |a|, 0), Entry(r, "", [Some(y)], |b|, 0)];
            var t := Loaded(files, entries);
            x in t.objects && t.pins.Keys == {r} && t.pins[r].objects == [y] && !Healthy(t)
  {
    hide Whole, LoadedPins, LoadedObjects, Healthy;
    var files := map[x := a, y := b];
    var first, second := Entry(r, "", [Some(x)], |a|, 0), Entry(r, "", [Some(y)], |b|, 0);
    var entries := [first, second];
    WholeMeans(files, first, [x]);
    WholeMeans(files, second, [y]);
    assert entries[..1] == [first] && entries[..1][..0] == [];
    LoadedNothing(files, entries[..1][..0]);
    LoadedUnfold(files, entries[..1]);
    LoadedUnfold(files, entries);
    var newer := Record(r, "", [y], |b|, 0);
    var pins := LoadedPins(files, entries);
    assert pins == map[r := newer];
    assert [x][0] == x && Mentions(files, entries[0], x);
    assert x !in Referenced(pins);
    LoadedHealthy(files, entries);
    ObjectsAreMentioned(files, entries, x);
  }

  // ------------------------------------------------------------- an index of its own

  /** The entry the store writes for a pin. */
  ghost function Written(root: Key, rec: Record): Entry {
    Entry(root, rec.owner, seq(|rec.objects|, i requires 0 <= i < |rec.objects| => Some(rec.objects[i])), rec.bytes, rec.createdAt)
  }

  /** The entries are those of some pins, each once, in any order. */
  ghost predicate Renders(entries: seq<Entry>, pins: map<Key, Record>) {
    && (forall r :: r in pins ==> pins[r].root == r)
    && (forall i :: 0 <= i < |entries| ==>
                      entries[i].Entry? && entries[i].root in pins && entries[i] == Written(entries[i].root, pins[entries[i].root]))
    && (forall i, j :: 0 <= i < j < |entries| ==> entries[i].root != entries[j].root)
    && (forall r :: r in pins ==> exists i :: 0 <= i < |entries| && entries[i].root == r)
  }

  lemma WrittenWhole(files: Files, rec: Record)
    ensures Whole(files, Written(rec.root, rec)) == if CompleteIn(rec, files.Keys) then Some(rec) else None
  {
    var e := Written(rec.root, rec);
    assert Named(e.objects) == Some(rec.objects) by {
      assert forall i :: 0 <= i < |e.objects| ==> e.objects[i] == Some(rec.objects[i]);
      assert seq(|e.objects|, i requires 0 <= i < |e.objects| => e.objects[i].value) == rec.objects;
    }
  }

  /** The roots of the first entries. */
  ghost function Roots(entries: seq<Entry>): set<Key> {
    set i | 0 <= i < |entries| && entries[i].Entry? :: entries[i].root
  }

  /** From an index of its own the store loads the complete pins, and just their objects. */
  lemma {:induction false} OwnPins(files: Files, entries: seq<Entry>, pins: map<Key, Record>, n: nat)
    requires Renders(entries, pins) && n <= |entries|
    ensures LoadedPins(files, entries[..n]) == CompletePins(Disk(files, Some(pins)), Roots(entries[..n]))
    decreases n
  {
    hide Whole, CompleteIn, LoadedPins, CompletePins, Roots, Renders, Written;
    if n == 0 {
      LoadedNothing(files, entries[..0]);
      NoRoots(files, pins, entries[..0]);
    } else {
      var i := n - 1;
      OwnPins(files, entries, pins, i);
      var e := entries[i];
      assert entries[..n][..i] == entries[..i] && entries[..n][i] == e;
      RenderedAt(entries, pins, i);
      WrittenWhole(files, pins[e.root]);
      RootsSnoc(entries, pins, i);
      CompleteOneMore(Disk(files, Some(pins)), Roots(entries[..i]), e.root);
      LoadedUnfold(files, entries[..n]);
    }
  }

  lemma NoRoots(files: Files, pins: map<Key, Record>, entries: seq<Entry>)
    requires |entries| == 0
    ensures CompletePins(Disk(files, Some(pins)), Roots(entries)) == map[]
  {
  }

  lemma RenderedAt(entries: seq<Entry>, pins: map<Key, Record>, i: nat)
    requires Renders(entries, pins) && i < |entries|
    ensures entries[i].Entry? && entries[i].root in pins && pins[entries[i].root].root == entries[i].root
    ensures entries[i] == Written(entries[i].root, pins[entries[i].root])
  {
  }

  lemma RootsSnoc(entries: seq<Entry>, pins: map<Key, Record>, i: nat)
    requires Renders(entries, pins) && i < |entries|
    ensures Roots(entries[..i + 1]) == Roots(entries[..i]) + {entries[i].root} && entries[i].root !in Roots(entries[..i])
  {
    assert forall j :: 0 <= j < i ==> entries[..i + 1][j] == entries[..i][j] == entries[j];
    assert entries[..i + 1][i] == entries[i];
  }

  lemma CompleteOneMore(d: Disk, done: set<Key>, root: Key)
    requires root !in done && root in IndexedPins(d)
    ensures CompletePins(d, done + {root}) ==
            if CompleteIn(IndexedPins(d)[root], d.files.Keys)
            then CompletePins(d, done)[root := IndexedPins(d)[root]]
            else CompletePins(d, done)
  {
  }

  lemma OwnObjects(files: Files, entries: seq<Entry>, pins: map<Key, Record>, k: Key)
    requires Renders(entries, pins)
    ensures Mentioned(files, entries, k) ==> k in Referenced(CompletePins(Disk(files, Some(pins)), pins.Keys))
  {
    if Mentioned(files, entries, k) {
      var i :| 0 <= i < |entries| && Mentions(files, entries[i], k);
      var r := entries[i].root;
      WrittenWhole(files, pins[r]);
      hide Whole;
      NamedByPin(CompletePins(Disk(files, Some(pins)), pins.Keys), r, k);
    }
  }

  /** So a restart recovers what the index and the files hold. */
  lemma OwnIndexIsRecovered(files: Files, entries: seq<Entry>, pins: map<Key, Record>)
    requires Renders(entries, pins)
    ensures Loaded(files, entries) == Recovered(Disk(files, Some(pins)))
  {
    hide Whole, Total;
    var d := Disk(files, Some(pins));
    OwnPins(files, entries, pins, |entries|);
    assert entries[..|entries|] == entries;
    var t, u := Loaded(files, entries), Recovered(d);
    assert t.pins == u.pins;
    hide LoadedPins, LoadedObjects, CompletePins, Mentioned, Renders;
    forall k
      ensures k in t.objects <==> k in u.objects
      ensures k in t.objects ==> t.objects[k] == u.objects[k]
    {
      ObjectsAreMentioned(files, entries, k);
      OwnObjects(files, entries, pins, k);
      if k in Referenced(t.pins) {
        PinsAreMentioned(files, entries, k);
      }
    }
    assert t.objects == u.objects;
  }

  // --------------------------------------------------------------- crashing meanwhile

  /** With some files gone that no whole entry names, the same is loaded again. */
  lemma {:induction false} LoadedAgain(files: Files, left: Files, entries: seq<Entry>, n: nat)
    requires left.Keys <= files.Keys && (forall k :: k in left ==> left[k] == files[k])
    requires LoadedObjects(files, entries).Keys <= left.Keys && n <= |entries|
    ensures LoadedPins(left, entries[..n]) == LoadedPins(files, entries[..n])
    ensures LoadedObjects(left, entries[..n]) == LoadedObjects(files, entries[..n])
    decreases n
  {
    hide LoadedPins, LoadedObjects, Whole, WithSizes;
    var first := entries[..n];
    if n == 0 {
      LoadedNothing(left, first);
      LoadedNothing(files, first);
    } else {
      var i := n - 1;
      LoadedAgain(files, left, entries, i);
      assert first[..i] == entries[..i] && first[i] == entries[i];
      WholeAgain(files, left, entries, i);
      LoadedUnfold(files, first);
      LoadedUnfold(left, first);
      if Whole(files, entries[i]).Some? {
        SizesAgain(files, left, LoadedObjects(files, entries[..i]), Whole(files, entries[i]).value.objects);
      }
    }
  }

  lemma LoadedNothing(files: Files, entries: seq<Entry>)
    requires |entries| == 0
    ensures LoadedPins(files, entries) == map[] && LoadedObjects(files, entries) == map[]
  {
  }

  lemma LoadedUnfold(files: Files, entries: seq<Entry>)
    requires |entries| > 0
    ensures var n := |entries| - 1;
            var rec, pins, objects :=
              Whole(files, entries[n]), LoadedPins(files, entries[..n]), LoadedObjects(files, entries[..n]);
            && LoadedPins(files, entries) == (if rec.Some? then pins[rec.value.root := rec.value] else pins)
            && LoadedObjects(files, entries) == (if rec.Some? then WithSizes(files, objects, rec.value.objects) else objects)
  {
  }

  lemma WholeAgain(files: Files, left: Files, entries: seq<Entry>, i: nat)
    requires left.Keys <= files.Keys && LoadedObjects(files, entries).Keys <= left.Keys && i < |entries|
    ensures Whole(left, entries[i]) == Whole(files, entries[i])
    ensures Whole(files, entries[i]).Some? ==> forall k :: k in Whole(files, entries[i]).value.objects ==> k in left
  {
    if Whole(files, entries[i]).Some? {
      var rec := Whole(files, entries[i]).value;
      forall k | k in rec.objects
        ensures k in left
      {
        assert Mentions(files, entries[i], k);
        ObjectsAreMentioned(files, entries, k);
      }
    }
  }

  lemma SizesAgain(files: Files, left: Files, objects: map<Key, nat>, keys: seq<Key>)
    requires left.Keys <= files.Keys && (forall k :: k in left ==> left[k] == files[k]) && forall k :: k in keys ==> k in left
    ensures WithSizes(left, objects, keys) == WithSizes(files, objects, keys)
  {
  }

  /** Some files that objects do not name are gone. */
  ghost predicate SweptTo(left: Files, files: Files, objects: map<Key, nat>) {
    files.Keys * objects.Keys <= left.Keys <= files.Keys && forall k :: k in left ==> left[k] == files[k]
  }

  lemma SweptMeans(left: Files, files: Files, objects: map<Key, nat>)
    ensures SweptTo(left, files, objects) <==>
              files.Keys * objects.Keys <= left.Keys <= files.Keys && forall k :: k in left ==> left[k] == files[k]
  {
  }

  /** A restart that is cut short by another loads the same then. */
  lemma LoadIsSteady(files: Files, left: Files, entries: seq<Entry>)
    requires SweptTo(left, files, LoadedObjects(files, entries))
    ensures Loaded(left, entries) == Loaded(files, entries)
  {
    hide LoadedPins, LoadedObjects, Total;
    forall k | k in LoadedObjects(files, entries)
      ensures k in left
    {
      ObjectsAreMentioned(files, entries, k);
    }
    LoadedAgain(files, left, entries, |entries|);
    assert entries[..|entries|] == entries;
  }

  lemma NothingIndexed(files: Files)
    ensures Recovered(Disk(files, None)) == Store(map[], map[], {}, map[], 0, Disk(map[], None))
  {
    var t := Recovered(Disk(files, None));
    assert t.pins == map[];
    assert t.objects == map[];
    NoTotal();
  }

  lemma NoTotal()
    ensures var none: map<Key, nat> := map[]; Total(none) == 0
  {
  }

  // ----------------------------------------------------------------- one entry at a time

  lemma WithNone(files: Files, objects: map<Key, nat>)
    ensures WithSizes(files, objects, []) == objects
  {
  }

  lemma WithOneMore(files: Files, objects: map<Key, nat>, keys: seq<Key>, k: Key)
    requires k in files
    ensures var w := WithSizes(files, objects, keys);
            WithSizes(files, objects, keys + [k]) == if k in w then w else w[k := |files[k]|]
  {
  }

  lemma WholeMeans(files: Files, e: Entry, keys: seq<Key>)
    requires e.Entry? && |keys| == |e.objects| > 0
    requires forall i :: 0 <= i < |keys| ==> e.objects[i] == Some(keys[i]) && keys[i] in files
    ensures Whole(files, e) == Some(Record(e.root, e.owner, keys, e.bytes, e.createdAt))
  {
    assert seq(|e.objects|, i requires 0 <= i < |e.objects| => e.objects[i].value) == keys;
  }

  lemma NotWhole(files: Files, e: Entry, i: nat)
    requires e.Entry? && i < |e.objects| && (e.objects[i].None? || e.objects[i].value !in files)
    ensures Whole(files, e).None?
  {
    if Named(e.objects).Some? {
      assert e.objects[i].Some? && Named(e.objects).value[i] == e.objects[i].value;
    }
  }
}
