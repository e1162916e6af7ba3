/** Verification of objects against the address they were fetched by (tunnel/pubcache/verify.go). */
module Manifest {
  import opened Basics
  import opened TreeHash
  import opened ChunkTree
  import opened RangeProof
  import opened Cbor
  import opened CborParse
  import CborGrammar
  import ProofCodec

  const KEY_ID: nat := 1
  const KEY_SIZE: nat := 2
  const KEY_CHUNK_SZ: nat := 3
  const KEY_CHUNKS: nat := 4
  const KEY_FORBIDDEN: nat := 5
  const KEY_SUITE: nat := 6
  const EXTENSION_FLOOR: nat := 64

  // -------------------------------------------------------------------- one field

  /** A field typed as an unsigned integer below limit, and nothing else in its span. */
  function RequireUintField(val: Bytes, limit: nat): Result<nat> {
    var hd :- ReadHead(val);
    if hd.major != MAJOR_UINT then Err(MalformedObject)
    else if hd.n != |val| then Err(MalformedObject)
    else if hd.arg >= limit then Err(MalformedObject)
    else Ok(hd.arg)
  }

  lemma RequireUintFieldExact(val: Bytes, limit: nat, v: nat)
    requires limit <= UINT64_RANGE
    ensures RequireUintField(val, limit) == Ok(v) <==> v < limit && val == EncodeHead(MAJOR_UINT, v)
  {
    hide ReadHead, EncodeHead;
    if RequireUintField(val, limit) == Ok(v) {
      ReadHeadSound(val);
      assert val[..|val|] == val;
    }
    if v < limit && val == EncodeHead(MAJOR_UINT, v) {
      ReadHeadAppend(MAJOR_UINT, v, []);
      assert val + [] == val;
    }
  }

  /** The id field: exactly one 33-byte string, of any prefix. */
  function ReadId(val: Bytes): Result<Address> {
    var hd :- ReadHead(val);
    if hd.major != MAJOR_BYTES || hd.arg != 33 || |val| != hd.n + 33 then Err(MalformedObject)
    else Ok(val[hd.n..])
  }

  lemma ReadIdExact(val: Bytes, a: Address)
    ensures ReadId(val) == Ok(a) <==> val == RenderAddress(a)
  {
    hide ReadHead, EncodeHead;
    if ReadId(val) == Ok(a) {
      ReadHeadSound(val);
      var n := ReadHead(val).value.n;
      assert val == val[..n] + val[n..];
    }
    if val == RenderAddress(a) {
      ReadHeadAppend(MAJOR_BYTES, 33, a);
      assert val[|EncodeHead(MAJOR_BYTES, 33)|..] == a;
    }
  }

  // ------------------------------------------------------------------- all fields

  datatype Fields = Fields(id: Option<Address>, chunks: Option<seq<Address>>, size: bool, chunkSz: bool, suite: bool)

  const NO_FIELDS := Fields(None, None, false, false, false)

  /** One pass of the field loop. */
  function TakeField(f: Fields, e: Entry): Result<Fields> {
    if e.key == KEY_FORBIDDEN then Err(ManifestKeyPresent)
    else if e.key == KEY_ID then
      var a :- ReadId(e.val);
      Ok(f.(id := Some(a)))
    else if e.key == KEY_CHUNKS then
      var chunks :- ParseAddresses(e.val);
      Ok(f.(chunks := Some(chunks)))
    else if e.key == KEY_SIZE then
      var _ :- RequireUintField(e.val, UINT64_RANGE);
      Ok(f.(size := true))
    else if e.key == KEY_CHUNK_SZ then
      var _ :- RequireUintField(e.val, 0x1_0000_0000);
      Ok(f.(chunkSz := true))
    else if e.key == KEY_SUITE then Ok(f.(suite := true))
    else if e.key < EXTENSION_FLOOR then Err(MalformedObject)
    else Ok(f)
  }

  function TakeFields(es: seq<Entry>): Result<Fields> {
    if |es| == 0 then Ok(NO_FIELDS)
    else
      var f :- TakeFields(es[..|es| - 1]);
      TakeField(f, es[|es| - 1])
  }

  /** The chunk list of a manifest that roots and names itself at want. */
  function VerifiedChunks(h: Hash, want: Address, body: Bytes): Result<seq<Address>> {
    var es :- ParseMap(body);
    var f :- TakeFields(es);
    if f.id.None? || f.chunks.None? || !f.size || !f.chunkSz || !f.suite then Err(MalformedObject)
    else if |f.chunks.value| == 0 then Err(MalformedObject)  // unreachable, see ChunksNeverEmpty
    else if AddressOf(TreeRoot(h, f.chunks.value)) != want then Err(AddrMismatch)
    else if f.id.value != want then Err(AddrMismatch)
    else Ok(f.chunks.value)
  }

  /** A parsed chunk list always has at least one chunk. */
  lemma {:induction false} ChunksNeverEmpty(es: seq<Entry>)
    requires TakeFields(es).Ok?
    ensures TakeFields(es).value.chunks.Some? ==> |TakeFields(es).value.chunks.value| > 0
    decreases |es|
  {
    hide ReadId, RequireUintField, ParseAddresses;
    if |es| > 0 {
      ChunksNeverEmpty(es[..|es| - 1]);
      var e := es[|es| - 1];
      if ParseAddresses(e.val).Ok? {
        ParseAddressesExact(e.val, ParseAddresses(e.val).value);
      }
    }
  }

  method VerifiedManifestChunks(h: Hash, want: Address, body: Bytes) returns (r: Result<seq<Address>>)
    ensures r == VerifiedChunks(h, want, body)
  {
    hide ParseMap, ParseAddresses, ReadId, RequireUintField, TreeRoot;
    var entries := ParseUintKeyedMap(body);
    if entries.Err? {
      return Err(entries.error);
    }
    var es := entries.value;
    var f := NO_FIELDS;
    var i := 0;
    while i < |es|
      invariant 0 <= i <= |es|
      invariant TakeFields(es[..i]) == Ok(f)
    {
      assert es[..i + 1][..i] == es[..i];
      var next := TakeField(f, es[i]);
      if next.Err? {
        TakeFieldsStops(es, i + 1);
        return Err(next.error);
      }
      f := next.value;
      i := i + 1;
    }
    assert es[..i] == es;
    ChunksNeverEmpty(es);
    if f.id.None? || f.chunks.None? || !f.size || !f.chunkSz || !f.suite {
      return Err(MalformedObject);
    }
    var chunks := f.chunks.value;
    var root := ManifestRoot(h, chunks);
    if root != want {
      return Err(AddrMismatch);
    }
    if f.id.value != want {
      return Err(AddrMismatch);
    }
    return Ok(chunks);
  }

  /** The first error ends the loop. */
  lemma {:induction false} TakeFieldsStops(es: seq<Entry>, i: nat)
    requires i <= |es| && TakeFields(es[..i]).Err?
    ensures TakeFields(es) == TakeFields(es[..i])
    decreases |es|
  {
    if i == |es| {
      assert es[..i] == es;
    } else {
      var init := es[..|es| - 1];
      assert init[..i] == es[..i];
      TakeFieldsStops(init, i);
    }
  }

  // --------------------------------------------- what verification means, declaratively

  /** A field the format allows. */
  ghost predicate AllowedField(e: Entry) {
    || (e.key == KEY_ID && exists a :: e.val == RenderAddress(a))
    || (e.key == KEY_SIZE && exists v :: 0 <= v < UINT64_RANGE && e.val == EncodeHead(MAJOR_UINT, v))
    || (e.key == KEY_CHUNK_SZ && exists v :: 0 <= v < 0x1_0000_0000 && e.val == EncodeHead(MAJOR_UINT, v))
    || (e.key == KEY_CHUNKS && exists chunks :: RendersAddresses(e.val, chunks))
    || e.key == KEY_SUITE
    || e.key >= EXTENSION_FLOOR
  }

  /** The value carried for a key. */
  function FieldOf(es: seq<Entry>, key: nat): Option<Bytes> {
    if |es| == 0 then None
    else if es[|es| - 1].key == key then Some(es[|es| - 1].val)
    else FieldOf(es[..|es| - 1], key)
  }

  /** A manifest, as rendered, for chunks at address want. */
  ghost predicate IsManifest(h: Hash, want: Address, body: Bytes, chunks: seq<Address>) {
    exists es :: Renders(body, es) && HasFields(h, want, es, chunks)
  }

  ghost predicate HasFields(h: Hash, want: Address, es: seq<Entry>, chunks: seq<Address>) {
    && (forall e :: e in es ==> AllowedField(e))
    && FieldOf(es, KEY_ID) == Some(RenderAddress(want))
    && FieldOf(es, KEY_CHUNKS).Some? && RendersAddresses(FieldOf(es, KEY_CHUNKS).value, chunks)
    && FieldOf(es, KEY_SIZE).Some? && FieldOf(es, KEY_CHUNK_SZ).Some? && FieldOf(es, KEY_SUITE).Some?
    && AddressOf(TreeRoot(h, chunks)) == want
  }

  lemma TakeFieldExact(f: Fields, e: Entry)
    ensures TakeField(f, e).Ok? <==> AllowedField(e)
    ensures TakeField(f, e).Ok? && e.key == KEY_ID ==>
              exists a :: e.val == RenderAddress(a) && TakeField(f, e).value == f.(id := Some(a))
    ensures TakeField(f, e).Ok? && e.key == KEY_CHUNKS ==>
              exists c :: RendersAddresses(e.val, c) && TakeField(f, e).value == f.(chunks := Some(c))
  {
    hide ReadId, RequireUintField, ParseAddresses, RendersAddresses, EncodeHead, RenderAddress;
    var limit := if e.key == KEY_CHUNK_SZ then 0x1_0000_0000 else UINT64_RANGE;
    if e.key == KEY_ID {
      forall a {
        ReadIdExact(e.val, a);
      }
      if ReadId(e.val).Ok? {
        var a := ReadId(e.val).value;
        assert e.val == RenderAddress(a);
      }
    } else if e.key == KEY_CHUNKS {
      forall c {
        ParseAddressesExact(e.val, c);
      }
      if ParseAddresses(e.val).Ok? {
        var c := ParseAddresses(e.val).value;
        assert RendersAddresses(e.val, c);
      }
    } else if e.key == KEY_SIZE || e.key == KEY_CHUNK_SZ {
      forall v: nat {
        RequireUintFieldExact(e.val, limit, v);
      }
      if RequireUintField(e.val, limit).Ok? {
        var v := RequireUintField(e.val, limit).value;
        assert e.val == EncodeHead(MAJOR_UINT, v);
      }
    }
  }

  lemma {:induction false} TakeFieldsExact(es: seq<Entry>)
    ensures TakeFields(es).Ok? <==> forall e :: e in es ==> AllowedField(e)
    ensures TakeFields(es).Ok? ==> Reflects(TakeFields(es).value, es)
    decreases |es|
  {
    hide AllowedField, TakeField, RendersAddresses, RenderAddress;
    if |es| > 0 {
      var init, last := es[..|es| - 1], es[|es| - 1];
      TakeFieldsExact(init);
      assert es == init + [last];
      if TakeFields(init).Ok? {
        var f := TakeFields(init).value;
        TakeFieldExact(f, last);
        if TakeField(f, last).Ok? {
          ReflectsStep(f, init, last);
        }
      }
    }
  }

  /** The collected flags and values are those of the entries. */
  ghost predicate Reflects(f: Fields, es: seq<Entry>) {
    && (f.id.Some? <==> FieldOf(es, KEY_ID).Some?)
    && (f.id.Some? ==> FieldOf(es, KEY_ID).value == RenderAddress(f.id.value))
    && (f.chunks.Some? <==> FieldOf(es, KEY_CHUNKS).Some?)
    && (f.chunks.Some? ==> RendersAddresses(FieldOf(es, KEY_CHUNKS).value, f.chunks.value))
    && (f.size <==> FieldOf(es, KEY_SIZE).Some?)
    && (f.chunkSz <==> FieldOf(es, KEY_CHUNK_SZ).Some?)
    && (f.suite <==> FieldOf(es, KEY_SUITE).Some?)
  }

  lemma ReflectsStep(f: Fields, init: seq<Entry>, e: Entry)
    requires Reflects(f, init) && TakeField(f, e).Ok?
    ensures Reflects(TakeField(f, e).value, init + [e])
  {
    hide AllowedField, RendersAddresses, RenderAddress, ReadId, ParseAddresses, RequireUintField;
    var es := init + [e];
    assert es[..|es| - 1] == init;
    TakeFieldExact(f, e);
  }

  lemma RenderAddressInjective(a: Address, b: Address)
    requires RenderAddress(a) == RenderAddress(b)
    ensures a == b
  {
    ReadIdExact(RenderAddress(a), a);
    ReadIdExact(RenderAddress(a), b);
  }

  /** Verification accepts exactly the renderings of manifests that root at want. */
  lemma VerifiedChunksExact(h: Hash, want: Address, body: Bytes, chunks: seq<Address>)
    ensures VerifiedChunks(h, want, body) == Ok(chunks) <==> IsManifest(h, want, body, chunks)
  {
    hide ParseMap, Renders, TakeFields, RendersAddresses, RenderAddress, AllowedField, FieldOf, TreeRoot;
    if VerifiedChunks(h, want, body) == Ok(chunks) {
      var es := ParseMap(body).value;
      ParseMapExact(body, es);
      TakeFieldsExact(es);
      assert Renders(body, es) && HasFields(h, want, es, chunks);
    }
    if IsManifest(h, want, body, chunks) {
      var es :| Renders(body, es) && HasFields(h, want, es, chunks);
      ParseMapExact(body, es);
      TakeFieldsExact(es);
      var f := TakeFields(es).value;
      RenderAddressInjective(f.id.value, want);
      var v := FieldOf(es, KEY_CHUNKS).value;
      ParseAddressesExact(v, chunks);
      ParseAddressesExact(v, f.chunks.value);
      assert |chunks| > 0 by {
        ChunksNeverEmpty(es);
      }
    }
  }

  // ------------------------------------------------------------------------ the gate

  datatype Kind = Announce | PubManifest | Chunk

  /** The only licence to store or serve bytes under an address. */
  function Verify(h: Hash, kind: Kind, want: Address, body: Bytes): Result<()> {
    match kind
    case PubManifest =>
      var _ :- VerifiedChunks(h, want, body);
      Ok(())
    case _ => if HashBytes(h, body) == want then Ok(()) else Err(AddrMismatch)
  }

  /** Two bodies that pass the gate for one hashed address are equal, or collide. */
  lemma AddressFixesBytes(h: Hash, kind: Kind, want: Address, body: Bytes, body': Bytes)
    requires kind != PubManifest && Verify(h, kind, want, body).Ok? && Verify(h, kind, want, body').Ok?
    ensures body == body' || Collides(h, body, body')
  {
    assert HashBytes(h, body)[1..] == h(body) && HashBytes(h, body')[1..] == h(body');
  }

  // ------------------------------------------------------------------------- binding

  /** The string hashed at the top of the tree over chunks. */
  function TopPreimage(h: Hash, chunks: seq<Address>): Bytes
    requires |chunks| > 0
  {
    if |chunks| == 1 then LeafPreimage(chunks[0])
    else
      var k := SplitPoint(|chunks|);
      NodePreimage(TreeRoot(h, chunks[..k]), TreeRoot(h, chunks[k..]))
  }

  /** The first place, top down, where the trees over two lists hash different strings. */
  function FirstDifference(h: Hash, a: seq<Address>, b: seq<Address>): (Bytes, Bytes)
    requires |a| > 0 && |b| > 0
    decreases |a|
  {
    var p, q := TopPreimage(h, a), TopPreimage(h, b);
    if p != q || |a| == 1 || |b| == 1 then (p, q)
    else
      var k, m := SplitPoint(|a|), SplitPoint(|b|);
      if a[..k] != b[..m] then FirstDifference(h, a[..k], b[..m]) else FirstDifference(h, a[k..], b[m..])
  }

  lemma TopPreimageHashes(h: Hash, chunks: seq<Address>)
    requires |chunks| > 0
    ensures h(TopPreimage(h, chunks)) == TreeRoot(h, chunks)
    ensures TopPreimage(h, chunks) in TreePreimages(h, chunks)
  {
    if |chunks| > 1 {
      TreeRootSplit(h, chunks, SplitPoint(|chunks|));
    }
  }

  /** Different lists with one root: the first difference is a collision inside the two trees. */
  lemma {:induction false} FirstDifferenceCollides(h: Hash, a: seq<Address>, b: seq<Address>)
    requires |a| > 0 && |b| > 0 && a != b && TreeRoot(h, a) == TreeRoot(h, b)
    ensures var (p, q) := FirstDifference(h, a, b);
            Collides(h, p, q) && p in TreePreimages(h, a) && q in TreePreimages(h, b)
    decreases |a|
  {
    hide TreeRoot, LeafPreimage, NodePreimage;
    TopPreimageHashes(h, a);
    TopPreimageHashes(h, b);
    var p, q := TopPreimage(h, a), TopPreimage(h, b);
    if p == q {
      SameTop(h, a, b);
      var k, m := SplitPoint(|a|), SplitPoint(|b|);
      if a[..k] != b[..m] {
        FirstDifferenceCollides(h, a[..k], b[..m]);
      } else {
        assert a == a[..k] + a[k..] && b == b[..m] + b[m..];
        FirstDifferenceCollides(h, a[k..], b[m..]);
      }
    }
  }

  /** Equal top strings of different lists: both are inner nodes with equal halves. */
  lemma SameTop(h: Hash, a: seq<Address>, b: seq<Address>)
    requires |a| > 0 && |b| > 0 && a != b && TopPreimage(h, a) == TopPreimage(h, b)
    ensures |a| > 1 && |b| > 1
    ensures var k, m := SplitPoint(|a|), SplitPoint(|b|);
            TreeRoot(h, a[..k]) == TreeRoot(h, b[..m]) && TreeRoot(h, a[k..]) == TreeRoot(h, b[m..])
  {
    hide TreeRoot, LeafPreimage, NodePreimage;
    var zero: Digest := seq(32, _ => 0);
    if |a| == 1 && |b| == 1 {
      assert a == [a[0]] && b == [b[0]];
      PreimagesApart(a[0], b[0], zero, zero, zero, zero);
    } else if |a| == 1 {
      var m := SplitPoint(|b|);
      PreimagesApart(a[0], a[0], TreeRoot(h, b[..m]), TreeRoot(h, b[m..]), zero, zero);
    } else if |b| == 1 {
      var k := SplitPoint(|a|);
      PreimagesApart(b[0], b[0], TreeRoot(h, a[..k]), TreeRoot(h, a[k..]), zero, zero);
    } else {
      var k, m := SplitPoint(|a|), SplitPoint(|b|);
      PreimagesApart(a[0], b[0], TreeRoot(h, a[..k]), TreeRoot(h, a[k..]), TreeRoot(h, b[..m]), TreeRoot(h, b[m..]));
    }
  }

  /** An address fixes the ordered chunk list of every manifest verified for it, or a collision is in hand. */
  lemma AddressFixesChunks(h: Hash, want: Address, body: Bytes, body': Bytes, a: seq<Address>, b: seq<Address>)
    returns (p: Bytes, q: Bytes)
    requires VerifiedChunks(h, want, body) == Ok(a) && VerifiedChunks(h, want, body') == Ok(b)
    ensures a == b || (Collides(h, p, q) && p in TreePreimages(h, a) && q in TreePreimages(h, b))
  {
    hide ParseMap, TakeFields, TreeRoot;
    p, q := FirstDifference(h, a, b).0, FirstDifference(h, a, b).1;
    if a != b {
      assert AddressOf(TreeRoot(h, a))[1..] == TreeRoot(h, a) && AddressOf(TreeRoot(h, b))[1..] == TreeRoot(h, b);
      FirstDifferenceCollides(h, a, b);
    }
  }

  // ------------------------------------------------------------- bytes are not fixed

  /** A manifest for chunks that states the given size. */
  function SampleEntries(want: Address, chunks: seq<Address>, size: nat): seq<Entry>
    requires size < UINT64_RANGE && |chunks| <= MAX_ITEMS
  {
    [Entry(KEY_ID, RenderAddress(want)), Entry(KEY_SIZE, EncodeHead(MAJOR_UINT, size)),
     Entry(KEY_CHUNK_SZ, [0]), Entry(KEY_CHUNKS, EncodeHead(MAJOR_ARRAY, |chunks|) + RenderAddresses(chunks)),
     Entry(KEY_SUITE, [0])]
  }

  lemma SampleFields(h: Hash, chunks: seq<Address>, size: nat)
    requires size < UINT64_RANGE && 0 < |chunks| <= MAX_ITEMS && forall a :: a in chunks ==> Supported(a)
    ensures var want := AddressOf(TreeRoot(h, chunks));
            HasFields(h, want, SampleEntries(want, chunks, size), chunks)
  {
    hide TreeRoot, RenderAddress, RenderAddresses;
    var want := AddressOf(TreeRoot(h, chunks));
    var es := SampleEntries(want, chunks, size);
    assert EncodeHead(MAJOR_UINT, 0) == [0];
    var id, sz, cz, ch, su := es[0], es[1], es[2], es[3], es[4];
    assert RendersAddresses(ch.val, chunks);
    assert AllowedField(id) && AllowedField(sz) && AllowedField(cz) && AllowedField(ch) && AllowedField(su);
    hide AllowedField, RendersAddresses, EncodeHead;
    assert es[..4] == [id, sz, cz, ch] && es[..4][..3] == [id, sz, cz];
    assert [id, sz, cz][..2] == [id, sz] && [id, sz][..1] == [id];
    FieldOfSnoc([], id);
    FieldOfSnoc([id], sz);
    FieldOfSnoc([id, sz], cz);
    FieldOfSnoc([id, sz, cz], ch);
    FieldOfSnoc([id, sz, cz, ch], su);
    assert [] + [id] == [id] && [id] + [sz] == [id, sz] && [id, sz] + [cz] == [id, sz, cz];
    assert [id, sz, cz] + [ch] == [id, sz, cz, ch] && [id, sz, cz, ch] + [su] == es;
  }

  lemma FieldOfSnoc(es: seq<Entry>, e: Entry)
    ensures forall k :: FieldOf(es + [e], k) == if e.key == k then Some(e.val) else FieldOf(es, k)
  {
    assert (es + [e])[..|es|] == es;
  }

  /** Each value of the sample is one data item of the grammar. */
  lemma SampleValues(want: Address, chunks: seq<Address>, size: nat)
    requires size < UINT64_RANGE && 0 < |chunks| <= MAX_ITEMS
    ensures forall e :: e in SampleEntries(want, chunks, size) ==> ValidEntry(e)
  {
    hide SkipValue, RenderAddresses;
    assert EncodeHead(MAJOR_UINT, 0) == [0];
    hide EncodeHead;
    FillsSpan(CborGrammar.Atom(0, size));
    FillsSpan(CborGrammar.Atom(0, 0));
    FillsSpan(CborGrammar.Text(2, want));
    var items := seq(|chunks|, i requires 0 <= i < |chunks| => CborGrammar.Text(2, chunks[i]));
    AddressesAsItems(chunks, items);
    FillsSpan(CborGrammar.Group(4, |chunks|, items));
  }

  lemma FillsSpan(i: CborGrammar.Item)
    requires CborGrammar.Scannable(i, 1)
    ensures SkipValue(CborGrammar.Encode(i), 1) == Ok(|CborGrammar.Encode(i)|)
  {
    CborGrammar.ScanAccepts(i, [], 1);
    assert CborGrammar.Encode(i) + [] == CborGrammar.Encode(i);
  }

  lemma {:induction false} AddressesAsItems(chunks: seq<Address>, items: seq<CborGrammar.Item>)
    requires |items| == |chunks| && forall i :: 0 <= i < |items| ==> items[i] == CborGrammar.Text(2, chunks[i])
    ensures CborGrammar.EncodeAll(items) == RenderAddresses(chunks)
    decreases |chunks|
  {
    hide EncodeHead;
    if |chunks| > 0 {
      AddressesAsItems(chunks[1..], items[1..]);
    }
  }

  /** For every stated size there is a manifest of the same chunks at the same address, with other bytes. */
  lemma AddressLeavesSizeOpen(h: Hash, chunks: seq<Address>, size: nat, size': nat)
    returns (body: Bytes, body': Bytes)
    requires size < UINT64_RANGE && size' < UINT64_RANGE && size != size'
    requires 0 < |chunks| <= MAX_ITEMS && forall a :: a in chunks ==> Supported(a)
    ensures body != body'
    ensures var want := AddressOf(TreeRoot(h, chunks));
            VerifiedChunks(h, want, body) == VerifiedChunks(h, want, body') == Ok(chunks)
  {
    hide TreeRoot, VerifiedChunks, EncodeHead;
    var want := AddressOf(TreeRoot(h, chunks));
    body := SampleBody(h, chunks, size);
    body' := SampleBody(h, chunks, size');
    if body == body' {
      var es, es' := SampleEntries(want, chunks, size), SampleEntries(want, chunks, size');
      ParseMapExact(body, es);
      ParseMapExact(body, es');
      assert es[1].val == es'[1].val;
      RequireUintFieldExact(es[1].val, UINT64_RANGE, size);
      RequireUintFieldExact(es[1].val, UINT64_RANGE, size');
    }
  }

  lemma SampleBody(h: Hash, chunks: seq<Address>, size: nat) returns (body: Bytes)
    requires size < UINT64_RANGE && 0 < |chunks| <= MAX_ITEMS && forall a :: a in chunks ==> Supported(a)
    ensures var want := AddressOf(TreeRoot(h, chunks));
            VerifiedChunks(h, want, body) == Ok(chunks) && Renders(body, SampleEntries(want, chunks, size))
  {
    hide TreeRoot, VerifiedChunks, EncodeHead, ValidEntry, RenderEntries, RenderAddresses, HasFields;
    var want := AddressOf(TreeRoot(h, chunks));
    var es := SampleEntries(want, chunks, size);
    SampleValues(want, chunks, size);
    SampleFields(h, chunks, size);
    InOrder(es);
    body := EncodeHead(MAJOR_MAP, |es|) + RenderEntries(es);
    VerifiedChunksExact(h, want, body, chunks);
  }

  /** Five valid entries with increasing keys are valid entries. */
  lemma InOrder(es: seq<Entry>)
    requires |es| == 5 && forall e :: e in es ==> ValidEntry(e)
    requires es[0].key < es[1].key < es[2].key < es[3].key < es[4].key
    ensures ValidEntries(es, true, 0)
  {
    hide ValidEntry;
    assert ValidEntries(es[4..], false, es[3].key);
    assert es[3..][1..] == es[4..] && ValidEntries(es[3..], false, es[2].key);
    assert es[2..][1..] == es[3..] && ValidEntries(es[2..], false, es[1].key);
    assert es[1..][1..] == es[2..] && ValidEntries(es[1..], false, es[0].key);
  }

  // --------------------------------------------------------------- serving a proof

  /**
   End to end: from any verified manifest and any index in range, the encoded proof
   has at most 20 siblings, decodes to itself, and is accepted with the real chunk.
   */
  lemma ServedProofIsAccepted(h: Hash, want: Address, body: Bytes, chunks: seq<Address>, index: nat, chunk: Bytes)
    requires VerifiedChunks(h, want, body) == Ok(chunks)
    requires index < |chunks| && chunks[index] == HashBytes(h, chunk)
    ensures var path := HonestPath(h, chunks, index);
            && index < MAX_ITEMS && |path| <= 20
            && ProofCodec.ReadProof(ProofCodec.RenderProof(ProofCodec.Proof(index, path)))
               == Ok(ProofCodec.Proof(index, path))
            && Accepts(h, want, |chunks|, index, chunk, path)
  {
    hide TreeRoot, VerifiedChunks, HonestPath, Accepts, ProofCodec.ReadProof, ProofCodec.RenderProof, Pow2;
    VerifiedChunksExact(h, want, body, chunks);
    TwentyLevels();
    PowersApart(20, 40);
    HonestPathBound(h, chunks, index, 20);
    HonestAccepted(h, chunks, index, chunk);
    var proof := ProofCodec.Proof(index, HonestPath(h, chunks, index));
    ProofCodec.ReadProofExact(ProofCodec.RenderProof(proof), proof);
  }
}
