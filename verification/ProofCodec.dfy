/** The wire form of a range proof: [index, [siblings]] (tunnel/pubcache/proof.go). */
module ProofCodec {
  import opened Basics
  import opened Cbor
  import opened CborParse

  datatype Proof = Proof(index: nat, path: seq<Digest>)

  /** What the decoder lets through. */
  predicate InBounds(p: Proof) {
    p.index <= MAX_ITEMS && |p.path| <= MAX_PROOF_PATH
  }

  function RenderDigest(d: Digest): (b: Bytes)
    ensures |b| == 34
  {
    EncodeHead(MAJOR_BYTES, 32) + d
  }

  function RenderPath(path: seq<Digest>): Bytes {
    if |path| == 0 then [] else RenderDigest(path[0]) + RenderPath(path[1..])
  }

  function RenderProof(p: Proof): Bytes
    requires p.index < UINT64_RANGE && |p.path| < UINT64_RANGE
  {
    [0x82] + (EncodeHead(MAJOR_UINT, p.index) + (EncodeHead(MAJOR_ARRAY, |p.path|) + RenderPath(p.path)))
  }

  method EncodeChunkProof(index: nat, path: seq<Digest>) returns (out: Bytes)
    requires index < UINT64_RANGE && |path| < UINT64_RANGE
    ensures out == RenderProof(Proof(index, path))
  {
    hide EncodeHead;
    out := [0x82];
    out := out + EncodeHead(MAJOR_UINT, index);
    out := out + EncodeHead(MAJOR_ARRAY, |path|);
    ghost var start := out;
    var i := 0;
    while i < |path|
      invariant 0 <= i <= |path|
      invariant start + RenderPath(path) == out + RenderPath(path[i..])
    {
      var h := path[i];
      assert path[i..][0] == h && path[i..][1..] == path[i + 1..];
      assert out + (RenderDigest(h) + RenderPath(path[i + 1..])) == out + RenderDigest(h) + RenderPath(path[i + 1..]);
      out := out + EncodeHead(MAJOR_BYTES, |h|) + h;
      i := i + 1;
    }
    assert out + RenderPath(path[i..]) == out;
    assert start + RenderPath(path) == RenderProof(Proof(index, path));
  }

  // ---------------------------------------------------------------------- decoding

  function ReadDigest(b: Bytes): (r: Result<(Digest, nat)>)
    ensures r.Ok? ==> r.value.1 <= |b|
  {
    var hd :- ReadHead(b);
    ReadHeadSound(b);
    if hd.major != MAJOR_BYTES || hd.arg != 32 then Err(MalformedObject)
    else if |b| - hd.n < 32 then Err(MalformedObject)
    else Ok((b[hd.n..hd.n + 32], hd.n + 32))
  }

  function ReadPath(b: Bytes, count: nat): Result<seq<Digest>> {
    if count == 0 then
      if |b| == 0 then Ok([]) else Err(MalformedObject)
    else
      var d :- ReadDigest(b);
      var rest :- ReadPath(b[d.1..], count - 1);
      Ok([d.0] + rest)
  }

  function ReadBody(b: Bytes): Result<Proof> {
    var idx :- ReadHead(b);
    ReadHeadSound(b);
    if idx.major != MAJOR_UINT then Err(MalformedObject)
    else if idx.arg > MAX_ITEMS then Err(MalformedObject)
    else
      var c := b[idx.n..];
      var cnt :- ReadHead(c);
      ReadHeadSound(c);
      if cnt.major != MAJOR_ARRAY then Err(MalformedObject)
      else if cnt.arg > MAX_PROOF_PATH then Err(MalformedObject)
      else
        var path :- ReadPath(c[cnt.n..], cnt.arg);
        Ok(Proof(idx.arg, path))
  }

  function ReadProof(b: Bytes): Result<Proof> {
    var hd :- ReadHead(b);
    ReadHeadSound(b);
    if hd.major != MAJOR_ARRAY || hd.arg != 2 then Err(MalformedObject) else ReadBody(b[hd.n..])
  }

  lemma ReadPathUnfold(b: Bytes, count: nat)
    ensures ReadPath(b, count) ==
            if count == 0 then if |b| == 0 then Ok([]) else Err(MalformedObject)
            else if ReadDigest(b).Err? then Err(ReadDigest(b).error)
            else
              var (d, n) := ReadDigest(b).value;
              Prepended([d], ReadPath(b[n..], count - 1))
  {
    hide ReadDigest;
  }

  method DecodeChunkProof(b: Bytes) returns (r: Result<Proof>)
    ensures r == ReadProof(b)
  {
    hide ReadHead, ReadPath, StartsWith;
    var h0 := ReadHead(b);
    if h0.Err? {
      return Err(h0.error);
    }
    HeadFits(b);
    if h0.value.major != MAJOR_ARRAY || h0.value.arg != 2 {
      return Err(MalformedObject);
    }
    var off := h0.value.n;
    var h1 := ReadHead(b[off..]);
    if h1.Err? {
      return Err(h1.error);
    }
    HeadFits(b[off..]);
    var idx := h1.value.arg;
    if h1.value.major != MAJOR_UINT {
      return Err(MalformedObject);
    }
    if idx > MAX_ITEMS {
      return Err(MalformedObject);
    }
    SliceSlice(b, off, h1.value.n, h1.value.n);
    off := off + h1.value.n;
    var h2 := ReadHead(b[off..]);
    if h2.Err? {
      return Err(h2.error);
    }
    HeadFits(b[off..]);
    var count := h2.value.arg;
    if h2.value.major != MAJOR_ARRAY {
      return Err(MalformedObject);
    }
    if count > MAX_PROOF_PATH {
      return Err(MalformedObject);
    }
    SliceSlice(b, off, h2.value.n, h2.value.n);
    off := off + h2.value.n;
    ghost var all := ReadPath(b[off..], count);
    assert ReadProof(b) == if all.Ok? then Ok(Proof(idx, all.value)) else Err(all.error);
    PrependNothing(all);
    var path: seq<Digest> := [];
    var i := 0;
    while i < count
      invariant 0 <= i <= count && 0 <= off <= |b|
      invariant all == Prepended(path, ReadPath(b[off..], count - i))
    {
      ReadPathUnfold(b[off..], count - i);
      var he := ReadHead(b[off..]);
      if he.Err? {
        return Err(he.error);
      }
      HeadFits(b[off..]);
      if he.value.major != MAJOR_BYTES || he.value.arg != 32 {
        return Err(MalformedObject);
      }
      var en := he.value.n;
      off := off + en;
      if |b| - off < 32 {
        return Err(MalformedObject);
      }
      var h: Digest := b[off..off + 32];
      SliceSlice(b, off - en, en, en + 32);
      PrependTwice(path, h, ReadPath(b[off + 32..], count - i - 1));
      path := path + [h];
      off := off + 32;
      i := i + 1;
    }
    ReadPathUnfold(b[off..], 0);
    if off != |b| {
      return Err(MalformedObject);
    }
    assert path + [] == path;
    return Ok(Proof(idx, path));
  }

  // ------------------------------------------------------------------- exactness

  lemma ReadDigestExact(b: Bytes, d: Digest, n: nat)
    ensures ReadDigest(b) == Ok((d, n)) <==> n == 34 <= |b| && b[..n] == RenderDigest(d)
  {
    hide ReadHead;
    if ReadDigest(b) == Ok((d, n)) {
      var hd := ReadHead(b).value;
      ReadHeadSound(b);
      assert b[..n] == b[..hd.n] + b[hd.n..n];
    }
    if n == 34 <= |b| && b[..n] == RenderDigest(d) {
      assert b[..2] == RenderDigest(d)[..2] == EncodeHead(MAJOR_BYTES, 32);
      ReadHeadComplete(b, Head(MAJOR_BYTES, 32, 2));
      assert b[2..34] == b[..34][2..] == d;
    }
  }

  lemma {:induction false} ReadPathSound(b: Bytes, count: nat)
    requires ReadPath(b, count).Ok?
    ensures |ReadPath(b, count).value| == count && RenderPath(ReadPath(b, count).value) == b
    decreases count
  {
    hide ReadDigest, ReadPath, RenderDigest;
    ReadPathUnfold(b, count);
    if count > 0 {
      var path := ReadPath(b, count).value;
      var (d, n) := ReadDigest(b).value;
      ReadDigestExact(b, d, n);
      ReadPathSound(b[n..], count - 1);
      assert path[1..] == ReadPath(b[n..], count - 1).value;
      assert b == b[..n] + b[n..];
    }
  }

  lemma {:induction false} ReadPathComplete(path: seq<Digest>)
    ensures ReadPath(RenderPath(path), |path|) == Ok(path)
    decreases |path|
  {
    hide ReadDigest, ReadPath, RenderDigest;
    var b := RenderPath(path);
    ReadPathUnfold(b, |path|);
    if |path| > 0 {
      assert b[..34] == RenderDigest(path[0]) && b[34..] == RenderPath(path[1..]);
      ReadDigestExact(b, path[0], 34);
      ReadPathComplete(path[1..]);
      assert path == [path[0]] + path[1..];
    }
  }

  lemma ReadBodyExact(b: Bytes, p: Proof)
    ensures ReadBody(b) == Ok(p) <==>
            InBounds(p) && b == EncodeHead(MAJOR_UINT, p.index) + (EncodeHead(MAJOR_ARRAY, |p.path|) + RenderPath(p.path))
  {
    hide ReadHead, EncodeHead, ReadPath, RenderPath;
    if ReadBody(b) == Ok(p) {
      var idx := ReadHead(b).value;
      ReadHeadSound(b);
      var c := b[idx.n..];
      var cnt := ReadHead(c).value;
      ReadHeadSound(c);
      ReadPathSound(c[cnt.n..], cnt.arg);
      assert b == b[..idx.n] + c && c == c[..cnt.n] + c[cnt.n..];
    }
    if InBounds(p) {
      var x := EncodeHead(MAJOR_UINT, p.index);
      var y := EncodeHead(MAJOR_ARRAY, |p.path|);
      var z := RenderPath(p.path);
      if b == x + (y + z) {
        ReadHeadAppend(MAJOR_UINT, p.index, y + z);
        ReadHeadAppend(MAJOR_ARRAY, |p.path|, z);
        assert b[|x|..] == y + z && (y + z)[|y|..] == z;
        ReadPathComplete(p.path);
      }
    }
  }

  /** Decoding inverts encoding, and nothing but an encoding is decoded. */
  lemma ReadProofExact(b: Bytes, p: Proof)
    ensures ReadProof(b) == Ok(p) <==> p.index <= 0x10_0000 && |p.path| <= 40 && b == RenderProof(p)
  {
    hide ReadHead, ReadBody, RenderPath;
    assert EncodeHead(MAJOR_ARRAY, 2) == [0x82];
    if ReadProof(b) == Ok(p) {
      var hd := ReadHead(b).value;
      ReadHeadSound(b);
      ReadBodyExact(b[hd.n..], p);
      assert b == b[..hd.n] + b[hd.n..];
    }
    if InBounds(p) && b == RenderProof(p) {
      ReadHeadAppend(MAJOR_ARRAY, 2, b[1..]);
      assert b == [0x82] + b[1..];
      ReadBodyExact(b[1..], p);
    }
  }
}
