/**
 The formats byte for byte and their limits as numbers (tunnel/pubcache/cbor.go, proof.go and
 verify.go), stated apart from the definitions that the other modules reason with.
 */
module WireBytes {
  import opened Basics
  import opened TreeHash
  import opened ChunkTree
  import opened RangeProof
  import opened Cbor
  import opened CborParse
  import opened ProofCodec
  import opened Manifest

  // ---------------------------------------------------------------------- the scanner

  /** Arrays of one item inside each other, around a zero. */
  function Nested(levels: nat): (b: Bytes)
    ensures |b| == levels + 1
  {
    if levels == 0 then [0x00] else [0x81] + Nested(levels - 1)
  }

  /** What may be nested in what the scanner meets at a depth: up to depth 16 and no further. */
  lemma {:induction false} DepthLimit(levels: nat, depth: nat)
    ensures SkipValue(Nested(levels), depth) == if depth + levels <= 16 then Ok(levels + 1) else Err(MalformedObject)
    decreases levels
  {
    var b := Nested(levels);
    if depth <= 16 {
      ByFirstByte(b, depth);
      hide SkipValue, Nested;
      if levels > 0 {
        assert b[0] == 0x81 && b[1..] == Nested(levels - 1) by {
          NestedUnfold(levels);
        }
        DepthLimit(levels - 1, depth + 1);
      } else {
        assert b[0] == 0 by {
          NestedUnfold(levels);
        }
      }
    }
  }

  lemma NestedUnfold(levels: nat)
    ensures Nested(levels) == if levels == 0 then [0x00] else [0x81] + Nested(levels - 1)
  {
  }

  function Zeros(n: nat): (b: Bytes)
    ensures |b| == n
  {
    if n == 0 then [] else [0x00] + Zeros(n - 1)
  }

  lemma {:induction false} ZerosSkipped(n: nat, depth: nat)
    requires depth <= 16
    ensures SkipItems(Zeros(n), n, depth) == Ok(n)
  {
    SkipItemsUnfold(Zeros(n), n, depth);
    if n > 0 {
      ByFirstByte(Zeros(n), depth);
      hide SkipValue, SkipItems;
      assert Zeros(n)[1..] == Zeros(n - 1);
      ZerosSkipped(n - 1, depth);
    }
  }

  /** An array may have 2^20 items and no more; a map that many keys and values together. */
  lemma ItemLimit(n: nat)
    requires n < 0x8000_0000_0000_0000
    ensures SkipValue(EncodeHead(4, n) + Zeros(n), 1).Ok? <==> n <= 0x10_0000
    ensures SkipValue(EncodeHead(5, n) + Zeros(2 * n), 1).Ok? <==> n <= 0x8_0000
  {
    hide SkipValue, SkipItems, EncodeHead, ReadHead, Zeros;
    var b, c := EncodeHead(4, n) + Zeros(n), EncodeHead(5, n) + Zeros(2 * n);
    ReadHeadAppend(4, n, Zeros(n));
    ReadHeadAppend(5, n, Zeros(2 * n));
    SkipValueUnfold(b, 1);
    SkipValueUnfold(c, 1);
    assert b[|EncodeHead(4, n)|..] == Zeros(n) && c[|EncodeHead(5, n)|..] == Zeros(2 * n);
    ZerosSkipped(n, 2);
    ZerosSkipped(2 * n, 2);
  }

  /** The length of an item, or its items, told from its first byte. */
  lemma ByFirstByte(b: Bytes, depth: nat)
    requires |b| > 0 && depth <= 16
    ensures b[0] <= 0x17 || 0x20 <= b[0] <= 0x37 || 0xe0 <= b[0] <= 0xf7 || b[0] == 0x80 || b[0] == 0xa0 ==>
              SkipValue(b, depth) == Ok(1)
    ensures 0x40 <= b[0] <= 0x57 || 0x60 <= b[0] <= 0x77 ==>
              SkipValue(b, depth) == if b[0] % 0x20 < |b| then Ok(1 + b[0] % 0x20) else Err(MalformedObject)
    ensures b[0] == 0x81 || 0xc0 <= b[0] <= 0xd7 ==>
              var one := SkipValue(b[1..], depth + 1);
              SkipValue(b, depth) == if one.Ok? then Ok(1 + one.value) else one
    ensures b[0] == 0x82 || b[0] == 0xa1 ==>
              var one := SkipValue(b[1..], depth + 1);
              SkipValue(b, depth) == if one.Err? then one
                                     else
                                       var two := SkipValue(b[1 + one.value..], depth + 1);
                                       if two.Ok? then Ok(1 + one.value + two.value) else two
    ensures b[0] == 0xf8 ==> SkipValue(b, depth) == if |b| >= 2 && b[1] >= 24 then Ok(2) else Err(MalformedObject)
    ensures b[0] % 0x20 >= 0x1c ==> SkipValue(b, depth) == Err(MalformedObject)
  {
    hide SkipValue, SkipItems, FromBigEndian;
    SkipValueUnfold(b, depth);
    if b[0] == 0x81 || b[0] == 0x82 || b[0] == 0xa1 {
      SomeItems(b, depth + 1);
    } else if b[0] == 0x80 || b[0] == 0xa0 {
      SkipItemsUnfold(b[1..], 0, depth + 1);
    }
  }

  /** The first one or two items after a head of one byte. */
  lemma SomeItems(b: Bytes, depth: nat)
    requires |b| > 0
    ensures SkipItems(b[1..], 1, depth) == SkipValue(b[1..], depth)
    ensures var one := SkipValue(b[1..], depth);
            SkipItems(b[1..], 2, depth) == if one.Err? then one
                                           else
                                             var two := SkipValue(b[1 + one.value..], depth);
                                             if two.Ok? then Ok(one.value + two.value) else two
  {
    hide SkipValue, SkipItems;
    var c := b[1..];
    SkipItemsUnfold(c, 1, depth);
    SkipItemsUnfold(c, 2, depth);
    if SkipValue(c, depth).Ok? {
      var m := SkipValue(c, depth).value;
      assert c[m..] == b[1 + m..];
      SkipItemsUnfold(c[m..], 0, depth);
      SkipItemsUnfold(c[m..], 1, depth);
      if SkipValue(c[m..], depth).Ok? {
        SkipItemsUnfold(c[m..][SkipValue(c[m..], depth).value..], 0, depth);
      }
    }
  }

  // ------------------------------------------------------------------ maps and arrays

  /** A map of two small keys parses exactly when they increase. */
  lemma TwoEntries(k: byte, v: byte, l: byte, w: byte)
    requires k < 24 && v < 24 && l < 24 && w < 24
    ensures ParseMap([0xa2, k, v, l, w]) == if k < l then Ok([Entry(k, [v]), Entry(l, [w])]) else Err(MalformedObject)
  {
    hide SkipValue, ReadEntries, ReadEntry;
    var b: Bytes := [0xa2, k, v, l, w];
    var c := b[1..];
    assert ReadHead(b) == Ok(Head(5, 2, 1));
    assert c[2..] == [l, w] && c[2..][2..] == [];
    SmallEntry(c, true, 0);
    SmallEntry(c[2..], false, k);
    ReadEntriesUnfold(c, 2, true, 0);
    ReadEntriesUnfold(c[2..], 1, false, k);
    ReadEntriesUnfold([], 0, false, l);
    assert [Entry(l, [w])] + [] == [Entry(l, [w])];
    assert [Entry(k, [v])] + [Entry(l, [w])] == [Entry(k, [v]), Entry(l, [w])];
  }

  lemma SmallEntry(c: Bytes, first: bool, prev: nat)
    requires |c| >= 2 && c[0] < 24 && c[1] < 24
    ensures ReadEntry(c, first, prev) == if first || c[0] > prev then Ok((Entry(c[0], [c[1]]), 2)) else Err(MalformedObject)
  {
    hide SkipValue;
    ByFirstByte(c[1..], 1);
    assert ReadHead(c) == Ok(Head(0, c[0], 1)) && c[1..][0] == c[1];
    hide ReadHead;
    assert SkipValue(c[1..], 1) == Ok(1) && c[1..2] == [c[1]];
  }

  /** A list of one address, which must be of the supported suite; an empty list is refused. */
  lemma OneAddress(a: Address)
    ensures ParseAddresses([0x81, 0x58, 0x21] + a) == if a[0] == 0x1e then Ok([a]) else Err(BadAddr)
    ensures ParseAddresses([0x80]) == Err(MalformedObject)
  {
    hide ReadAddresses;
    var b: Bytes := [0x81, 0x58, 0x21] + a;
    var c := b[1..];
    assert c == [0x58, 0x21] + a && c[2..35] == a && c[35..] == [];
    assert ReadHead(c) == Ok(Head(2, 33, 2));
    assert ReadAddress(c) == if a[0] == 0x1e then Ok((a, 35)) else Err(BadAddr);
    assert ReadHead(b) == Ok(Head(4, 1, 1)) && ReadHead([0x80]) == Ok(Head(4, 0, 1));
    ReadAddressesUnfold(c, 1);
    ReadAddressesUnfold(c[35..], 0);
    assert [a] + [] == [a];
  }

  // --------------------------------------------------------------------------- proofs

  /** A proof with two siblings, and its limits. */
  lemma TwoSiblings(index: nat, x: Digest, y: Digest)
    requires index < 24
    ensures RenderProof(Proof(index, [x, y])) == [0x82, index, 0x82, 0x58, 0x20] + x + [0x58, 0x20] + y
  {
    var p := [x, y];
    assert p[1..] == [y] && [y][1..] == [];
    assert RenderPath([]) == [];
    assert RenderPath([y]) == RenderDigest(y) + [];
    assert RenderPath(p) == RenderDigest(x) + RenderPath([y]);
    assert RenderDigest(x) == [0x58, 0x20] + x && RenderDigest(y) == [0x58, 0x20] + y;
    assert EncodeHead(MAJOR_UINT, index) == [index] && EncodeHead(MAJOR_ARRAY, 2) == [0x82];
  }

  /** A single chunk is accepted with no sibling; a chunk of two with the other's leaf digest, on its own side. */
  lemma PairAccepted(h: Hash, root: Address, nChunks: nat, index: int, chunk: Bytes, path: seq<Digest>)
    requires 1 <= nChunks <= 2
    ensures var tag: Bytes := [0x44, 0x4d, 0x54, 0x41, 0x50, 0x2d, 0x50, 0x55, 0x42, 0x2d, 0x76,
                               0x30, 0x2f, 0x6d, 0x61, 0x6e, 0x69, 0x66, 0x65, 0x73, 0x74, 0x00];
            var leaf := h(tag + [0x00] + [0x1e] + h(chunk));
            Accepts(h, root, nChunks, index, chunk, path) <==>
              if nChunks == 1 then index == 0 && path == [] && root == [0x1e] + leaf
              else
                && |path| == 1
                && ((index == 0 && root == [0x1e] + h(tag + [0x01] + leaf + path[0]))
                    || (index == 1 && root == [0x1e] + h(tag + [0x01] + path[0] + leaf)))
  {
    var a := HashBytes(h, chunk);
    TagBytes(a);
    hide LeafPreimage, NodePreimage, FoldUp;
    var tag: Bytes := [0x44, 0x4d, 0x54, 0x41, 0x50, 0x2d, 0x50, 0x55, 0x42, 0x2d, 0x76,
                       0x30, 0x2f, 0x6d, 0x61, 0x6e, 0x69, 0x66, 0x65, 0x73, 0x74, 0x00];
    assert tag + [0x00] + a == tag + [0x00] + [0x1e] + h(chunk);
    if 0 <= index < nChunks {
      assert VerifierSides(1, index) == VerifierSides(1, index / 2) == [];
      assert nChunks == 2 ==> VerifierSides(2, index) == [if index == 0 then Left else Right];
      FoldUpNothing(NodeOf(h), MerkleLeaf(h, a));
      if |path| == 1 {
        FoldUpNothing(NodeOf(h), Combine(NodeOf(h), MerkleLeaf(h, a), if index == 0 then Left else Right, path[0]));
        FoldUpUnfold(NodeOf(h), MerkleLeaf(h, a), if index == 0 then Left else Right, [], path);
        assert [if index == 0 then Left else Right] + [] == [if index == 0 then Left else Right] && path[1..] == [];
      }
    }
  }

  lemma TagBytes(a: Address)
    ensures var tag: Bytes := [0x44, 0x4d, 0x54, 0x41, 0x50, 0x2d, 0x50, 0x55, 0x42, 0x2d, 0x76,
                               0x30, 0x2f, 0x6d, 0x61, 0x6e, 0x69, 0x66, 0x65, 0x73, 0x74, 0x00];
            && LeafPreimage(a) == tag + [0x00] + a
            && forall l: Digest, r: Digest :: NodePreimage(l, r) == tag + [0x01] + l + r
  {
  }

  // ------------------------------------------------------------------------ manifests

  /** What each field of a manifest must be, by its key's number. */
  lemma FieldRules(f: Fields, e: Entry)
    ensures var r := TakeField(f, e);
            if e.key == 5 then r == Err(ManifestKeyPresent)
            else if e.key == 1 then
              r == if |e.val| == 35 && e.val[..2] == [0x58, 0x21] then Ok(f.(id := Some(e.val[2..]))) else Err(MalformedObject)
            else if e.key == 2 then
              r == if exists v: nat :: v < 0x1_0000_0000_0000_0000 && e.val == EncodeHead(0, v) then Ok(f.(size := true))
                   else Err(MalformedObject)
            else if e.key == 3 then
              r == if exists v: nat :: v < 0x1_0000_0000 && e.val == EncodeHead(0, v) then Ok(f.(chunkSz := true))
                   else Err(MalformedObject)
            else if e.key == 4 then
              r == match ParseAddresses(e.val) case Ok(chunks) => Ok(f.(chunks := Some(chunks))) case Err(x) => Err(x)
            else if e.key == 6 then r == Ok(f.(suite := true))
            else if e.key < 64 then r == Err(MalformedObject)
            else r == Ok(f)
  {
    hide ReadId, RequireUintField, ParseAddresses, EncodeHead;
    if e.key == 1 {
      IdBytes(e.val);
    } else if e.key == 2 || e.key == 3 {
      UintBytes(e.val, if e.key == 2 then 0x1_0000_0000_0000_0000 else 0x1_0000_0000);
    }
  }

  lemma IdBytes(val: Bytes)
    ensures ReadId(val) == if |val| == 35 && val[..2] == [0x58, 0x21] then Ok(val[2..]) else Err(MalformedObject)
  {
    hide ReadHead;
    if ReadId(val).Ok? {
      ReadIdExact(val, ReadId(val).value);
    }
    if |val| == 35 && val[..2] == [0x58, 0x21] {
      assert val == val[..2] + val[2..];
      ReadIdExact(val, val[2..]);
    }
    OneHeadError(val);
  }

  lemma UintBytes(val: Bytes, limit: nat)
    requires limit <= UINT64_RANGE
    ensures RequireUintField(val, limit).Ok? <==> exists v: nat :: v < limit && val == EncodeHead(0, v)
    ensures RequireUintField(val, limit).Err? ==> RequireUintField(val, limit).error == MalformedObject
  {
    hide ReadHead, EncodeHead;
    OneHeadError(val);
    forall v: nat {
      RequireUintFieldExact(val, limit, v);
    }
  }

  lemma OneHeadError(b: Bytes)
    ensures ReadHead(b).Err? ==> ReadHead(b).error == MalformedObject
  {
  }

  ghost predicate Has(es: seq<Entry>, k: nat) {
    exists e :: e in es && e.key == k
  }

  /** A verified manifest has the five fields and no other below 64, and names and roots at the address wanted. */
  lemma VerifiedFields(h: Hash, want: Address, body: Bytes)
    requires VerifiedChunks(h, want, body).Ok?
    ensures ParseMap(body).Ok?
    ensures var es, chunks := ParseMap(body).value, VerifiedChunks(h, want, body).value;
            && Has(es, 1) && Has(es, 2) && Has(es, 3) && Has(es, 4) && Has(es, 6)
            && (forall e :: e in es ==> e.key in {1, 2, 3, 4, 6} || e.key >= 64)
            && (exists e :: e in es && e.key == 1 && e.val == [0x58, 0x21] + want)
            && (exists e :: e in es && e.key == 4 && ParseAddresses(e.val) == Ok(chunks))
            && |chunks| > 0 && want == AddressOf(TreeRoot(h, chunks))
  {
    hide ParseMap, ParseAddresses, TakeFields, TreeRoot, Renders, RendersAddresses;
    var es, chunks := ParseMap(body).value, VerifiedChunks(h, want, body).value;
    TakeFieldsExact(es);
    ChunksNeverEmpty(es);
    Carried(es, 1);
    Carried(es, 2);
    Carried(es, 3);
    Carried(es, 4);
    Carried(es, 6);
    hide FieldOf, RenderAddress;
    assert RenderAddress(want) == [0x58, 0x21] + want by {
      RenderedAddress(want);
    }
    ParseAddressesExact(FieldOf(es, KEY_CHUNKS).value, chunks);
  }

  /** A map whose fields are all as they must be is refused for the address, or, if a field is missing, as malformed. */
  lemma RefusedFor(h: Hash, want: Address, body: Bytes)
    requires ParseMap(body).Ok? && TakeFields(ParseMap(body).value).Ok? && VerifiedChunks(h, want, body).Err?
    ensures var es := ParseMap(body).value;
            VerifiedChunks(h, want, body).error ==
            if Has(es, 1) && Has(es, 2) && Has(es, 3) && Has(es, 4) && Has(es, 6) then AddrMismatch else MalformedObject
  {
    hide ParseMap, ParseAddresses, TakeFields, TreeRoot, RendersAddresses, RenderAddress;
    var es := ParseMap(body).value;
    TakeFieldsExact(es);
    ChunksNeverEmpty(es);
    HasIsCarried(es, 1);
    HasIsCarried(es, 2);
    HasIsCarried(es, 3);
    HasIsCarried(es, 4);
    HasIsCarried(es, 6);
    hide Has, FieldOf;
  }

  lemma {:induction false} HasIsCarried(es: seq<Entry>, k: nat)
    ensures Has(es, k) <==> FieldOf(es, k).Some?
    decreases |es|
  {
    if |es| > 0 {
      var n := |es| - 1;
      HasIsCarried(es[..n], k);
      assert es == es[..n] + [es[n]];
    }
  }

  lemma RenderedAddress(a: Address)
    ensures RenderAddress(a) == [0x58, 0x21] + a
  {
  }

  lemma {:induction false} Carried(es: seq<Entry>, k: nat)
    requires FieldOf(es, k).Some?
    ensures exists e :: e in es && e.key == k && e.val == FieldOf(es, k).value
    decreases |es|
  {
    var n := |es| - 1;
    assert es[n] in es;
    if es[n].key != k {
      Carried(es[..n], k);
      var e :| e in es[..n] && e.key == k && e.val == FieldOf(es[..n], k).value;
      assert e in es;
    }
  }

  /** Bytes are licensed under the address that is the hash of them; a manifest under the one its chunks root at. */
  lemma LicenceMeans(h: Hash, kind: Kind, want: Address, body: Bytes)
    ensures kind != PubManifest ==>
              Verify(h, kind, want, body) == if want == [0x1e] + h(body) then Ok(()) else Err(AddrMismatch)
    ensures kind == PubManifest ==> (Verify(h, kind, want, body).Ok? <==> VerifiedChunks(h, want, body).Ok?)
    ensures kind == PubManifest && VerifiedChunks(h, want, body).Err? ==>
              Verify(h, kind, want, body) == Err(VerifiedChunks(h, want, body).error)
  {
    hide VerifiedChunks;
  }
}
