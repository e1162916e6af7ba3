/**
 The browser client's copy of the chunk tree and proof codec (client/src/chunkProof.ts),
 with JavaScript's number conversions written out, and where it agrees with the node.
 */
module ClientProof {
  import opened Basics
  import opened TreeHash
  import opened ChunkTree
  import opened RangeProof
  import opened Cbor
  import opened CborParse
  import opened ProofCodec

  // ------------------------------------------------------------------ JavaScript numbers

  /** The spacing of doubles around v: 1 below 2^53, then doubling. */
  function Ulp(v: nat): (u: nat)
    ensures u >= 1
    ensures v >= 0x20_0000_0000_0000 ==> u * 0x10_0000_0000_0000 <= v
  {
    if v < 0x20_0000_0000_0000 then 1 else 2 * Ulp(v / 2)
  }

  /** Number(v): round to the nearest double, ties to even. */
  function ToNumber(v: nat): nat {
    var u := Ulp(v);
    var q, rem := v / u, v % u;
    if 2 * rem < u || (2 * rem == u && q % 2 == 0) then q * u else (q + 1) * u
  }

  /** The integers a JavaScript number can hold. */
  predicate IsNumber(v: nat) {
    v % Ulp(v) == 0
  }

  /** Rounding never brings a number of more than 32 bits back below 2^32. */
  lemma ToNumberStaysLarge(v: nat)
    requires v >= 0x1_0000_0000
    ensures ToNumber(v) >= 0x1_0000_0000
  {
    var u := Ulp(v);
    var q := v / u;
    assert q * u + v % u == v;
    assert (q + 1) * u == q * u + u;
    assert v % u < u;
  }

  /** The 32-bit signed value a bitwise operator sees. */
  function ToInt32(n: nat): int {
    var m := n % 0x1_0000_0000;
    if m >= 0x8000_0000 then m - 0x1_0000_0000 else m
  }

  /** cur ^ 1 as JavaScript computes it. */
  function Xor1(cur: nat): int {
    var c := ToInt32(cur);
    if c % 2 == 0 then c + 1 else c - 1
  }

  /** cur ^ 1 is one more or one less, as cur is even or odd, read as a signed number of 32 bits. */
  lemma XorMeans(cur: nat) returns (wraps: nat)
    ensures -0x8000_0000 <= Xor1(cur) < 0x8000_0000
    ensures Xor1(cur) == (if cur % 2 == 0 then cur + 1 else cur - 1) - 0x1_0000_0000 * wraps
  {
    var q, m := cur / 0x1_0000_0000, cur % 0x1_0000_0000;
    SameParity(cur, q, m);
    wraps := if m >= 0x8000_0000 then q + 1 else q;
    SameParity(m, if m >= 0x8000_0000 then 1 else 0, ToInt32(cur));
  }

  lemma SameParity(v: int, q: int, m: int)
    requires v == 0x1_0000_0000 * q + m
    ensures v % 2 == m % 2
  {
    var t := m / 2;
    assert m == 2 * t + m % 2;
    assert v == 2 * (0x8000_0000 * q + t) + m % 2;
  }

  /** Doubles are one apart below 2^53, two apart below 2^54, and so on. */
  lemma {:induction false} UlpMeans(v: nat, e: nat)
    requires e > 0 ==> 0x10_0000_0000_0000 * Pow2(e) <= v
    requires v < 0x20_0000_0000_0000 * Pow2(e)
    ensures Ulp(v) == Pow2(e)
    decreases e
  {
    if e > 0 {
      assert Pow2(e) == 2 * Pow2(e - 1) >= 2;
      UlpMeans(v / 2, e - 1);
    }
  }

  /** A number is rounded to a multiple of the spacing that is no further off than half of it, and at a tie even. */
  lemma ToNumberMeans(v: nat) returns (k: nat)
    ensures ToNumber(v) == k * Ulp(v)
    ensures 2 * ToNumber(v) <= 2 * v + Ulp(v) && 2 * v <= 2 * ToNumber(v) + Ulp(v)
    ensures 2 * ToNumber(v) == 2 * v + Ulp(v) || 2 * v == 2 * ToNumber(v) + Ulp(v) ==> k % 2 == 0
  {
    var u := Ulp(v);
    var q := v / u;
    assert q * u + v % u == v;
    assert (q + 1) * u == q * u + u;
    k := if ToNumber(v) == q * u then q else q + 1;
  }

  // ---------------------------------------------------------------------------- heads

  function ReadHeadAt(b: Bytes, off: nat): (r: Result<Head>) {
    if off >= |b| then Err(MalformedObject)
    else
      var major, ai := b[off] / 32, b[off] % 32;
      if ai < 24 then Ok(Head(major, ai, 1))
      else if ai == 24 then
        if off + 2 > |b| then Err(MalformedObject)
        else if b[off + 1] < 24 then Err(MalformedObject)
        else Ok(Head(major, b[off + 1], 2))
      else if ai == 25 then
        if off + 3 > |b| then Err(MalformedObject)
        else
          var v := 0x100 * (b[off + 1] as int) + b[off + 2];
          if v <= 0xff then Err(MalformedObject) else Ok(Head(major, v, 3))
      else if ai == 26 then
        if off + 5 > |b| then Err(MalformedObject)
        else
          var v := 0x100_0000 * (b[off + 1] as int) + 0x1_0000 * (b[off + 2] as int) + 0x100 * (b[off + 3] as int) + b[off + 4];
          if v <= 0xffff then Err(MalformedObject) else Ok(Head(major, v, 5))
      else if ai == 27 then
        if off + 9 > |b| then Err(MalformedObject)
        else
          var v := FromBigEndian(b[off + 1..off + 9]);
          if v <= 0xffff_ffff then Err(MalformedObject) else Ok(Head(major, ToNumber(v), 9))
      else Err(MalformedObject)
  }

  /** The two readers agree, up to the rounding of arguments beyond 32 bits. */
  ghost predicate SameHead(node: Result<Head>, client: Result<Head>) {
    match (node, client)
    case (Ok(x), Ok(y)) =>
      && x.major == y.major && x.n == y.n
      && (x.arg == y.arg || (x.arg >= 0x1_0000_0000 && y.arg >= 0x1_0000_0000))
    case (Err(_), Err(_)) => true
    case _ => false
  }

  lemma BigEndianShort(b: Bytes)
    ensures |b| == 2 ==> FromBigEndian(b) == 0x100 * (b[0] as int) + b[1]
    ensures |b| == 4 ==> FromBigEndian(b) == 0x100_0000 * (b[0] as int) + 0x1_0000 * (b[1] as int) + 0x100 * (b[2] as int) + b[3]
  {
    if |b| == 2 {
      assert FromBigEndian(b[..1]) == b[0];
    } else if |b| == 4 {
      assert b[..3][..2] == b[..2] && b[..2][..1] == b[..1];
      assert FromBigEndian(b[..1]) == b[0];
      assert FromBigEndian(b[..2]) == 0x100 * (b[0] as int) + b[1];
      assert FromBigEndian(b[..3]) == 0x1_0000 * (b[0] as int) + 0x100 * (b[1] as int) + b[2];
    }
  }

  lemma HeadsAgree(b: Bytes, off: nat)
    requires off <= |b|
    ensures SameHead(ReadHead(b[off..]), ReadHeadAt(b, off))
  {
    hide FromBigEndian, ToNumber;
    var c := b[off..];
    if off < |b| {
      var ai := b[off] % 32;
      if ai == 25 && |c| >= 3 {
        BigEndianShort(c[1..3]);
      } else if ai == 26 && |c| >= 5 {
        BigEndianShort(c[1..5]);
      } else if ai == 27 && |c| >= 9 {
        SliceSlice(b, off, 1, 9);
        var v := FromBigEndian(c[1..9]);
        if v > 0xffff_ffff {
          ToNumberStaysLarge(v);
        }
      }
    }
  }

  // --------------------------------------------------------------------------- decoding

  /** The client's decoder returns what the node's decoder returns, on every byte string. */
  method DecodeProof(b: Bytes) returns (r: Result<Proof>)
    ensures r == ReadProof(b)
  {
    hide ReadHead, ReadHeadAt, ReadPath, StartsWith;
    HeadsAgree(b, 0);
    assert b[0..] == b;
    var h0 := ReadHeadAt(b, 0);
    if h0.Err? {
      HeadErrors(b, 0);
      return Err(h0.error);
    }
    HeadFits(b);
    if h0.value.major != MAJOR_ARRAY || h0.value.arg != 2 {
      return Err(MalformedObject);
    }
    var off := h0.value.n;
    HeadsAgree(b, off);
    var h1 := ReadHeadAt(b, off);
    if h1.Err? {
      HeadErrors(b, off);
      return Err(h1.error);
    }
    HeadFits(b[off..]);
    var idx := h1.value.arg;
    if h1.value.major != MAJOR_UINT {
      return Err(MalformedObject);
    }
    if idx > MAX_ITEMS {
      return Err(MalformedObject);
    }
    SliceSlice(b, off, h1.value.n, h1.value.n);
    off := off + h1.value.n;
    HeadsAgree(b, off);
    var h2 := ReadHeadAt(b, off);
    if h2.Err? {
      HeadErrors(b, off);
      return Err(h2.error);
    }
    HeadFits(b[off..]);
    var count := h2.value.arg;
    if h2.value.major != MAJOR_ARRAY {
      return Err(MalformedObject);
    }
    if count > MAX_PROOF_PATH {
      return Err(MalformedObject);
    }
    SliceSlice(b, off, h2.value.n, h2.value.n);
    off := off + h2.value.n;
    ghost var all := ReadPath(b[off..], count);
    assert ReadProof(b) == if all.Ok? then Ok(Proof(idx, all.value)) else Err(all.error);
    PrependNothing(all);
    var path: seq<Digest> := [];
    var i := 0;
    while i < count
      invariant 0 <= i <= count && 0 <= off <= |b|
      invariant all == Prepended(path, ReadPath(b[off..], count - i))
    {
      ReadPathUnfold(b[off..], count - i);
      HeadsAgree(b, off);
      var he := ReadHeadAt(b, off);
      if he.Err? {
        HeadErrors(b, off);
        return Err(he.error);
      }
      HeadFits(b[off..]);
      if he.value.major != MAJOR_BYTES || he.value.arg != 32 {
        return Err(MalformedObject);
      }
      var en := he.value.n;
      off := off + en;
      if |b| - off < 32 {
        return Err(MalformedObject);
      }
      var h: Digest := b[off..off + 32];
      SliceSlice(b, off - en, en, en + 32);
      PrependTwice(path, h, ReadPath(b[off + 32..], count - i - 1));
      path := path + [h];
      off := off + 32;
      i := i + 1;
    }
    ReadPathUnfold(b[off..], 0);
    if off != |b| {
      return Err(MalformedObject);
    }
    assert path + [] == path;
    return Ok(Proof(idx, path));
  }

  /** Both head readers know a single error. */
  lemma HeadErrors(b: Bytes, off: nat)
    requires off <= |b|
    ensures ReadHead(b[off..]).Err? ==> ReadHead(b[off..]).error == MalformedObject
    ensures ReadHeadAt(b, off).Err? ==> ReadHeadAt(b, off).error == MalformedObject
  {
  }

  // --------------------------------------------------------------------------- encoding

  /** pushHead: the widest form has four bytes, taken modulo 2^32. */
  function PushHead(major: nat, v: nat): Bytes
    requires major < 8
  {
    var m := 32 * major;
    if v < 24 then [m + v]
    else if v <= 0xff then [m + 24, v]
    else if v <= 0xffff then [m + 25, v / 0x100, v % 0x100]
    else [m + 26, v / 0x100_0000 % 0x100, v / 0x1_0000 % 0x100, v / 0x100 % 0x100, v % 0x100]
  }

  /** The encoders agree on a head exactly below 2^32. */
  lemma HeadEncodersAgree(major: nat, v: nat)
    requires major < 8 && v < UINT64_RANGE
    ensures PushHead(major, v) == EncodeHead(major, v) <==> v < 0x1_0000_0000
  {
    ToBigEndianShort(v);
  }

  lemma ToBigEndianShort(v: nat)
    ensures ToBigEndian(v, 2) == [v / 0x100 % 0x100, v % 0x100]
    ensures ToBigEndian(v, 4) == [v / 0x100_0000 % 0x100, v / 0x1_0000 % 0x100, v / 0x100 % 0x100, v % 0x100]
  {
    var a, b, c := v / 0x100, v / 0x1_0000, v / 0x100_0000;
    assert a / 0x100 == b && b / 0x100 == c;
    assert ToBigEndian(c, 1) == [c % 0x100] && ToBigEndian(a, 1) == [a % 0x100];
    assert ToBigEndian(b, 2) == [c % 0x100, b % 0x100];
    assert ToBigEndian(a, 3) == [c % 0x100, b % 0x100, a % 0x100];
  }

  /** The client's rendering of a proof is the node's exactly below index 2^32. */
  method EncodeProof(index: nat, path: seq<Digest>) returns (out: Bytes)
    requires index < UINT64_RANGE && |path| < 0x1_0000_0000
    ensures out == RenderProof(Proof(index, path)) <==> index < 0x1_0000_0000
  {
    hide EncodeHead, PushHead, RenderDigest, ToBigEndian;
    HeadEncodersAgree(MAJOR_UINT, index);
    HeadEncodersAgree(MAJOR_ARRAY, |path|);
    HeadEncodersAgree(MAJOR_BYTES, 32);
    HeadLengths(MAJOR_UINT, index);
    out := [0x82];
    out := out + PushHead(MAJOR_UINT, index);
    out := out + PushHead(MAJOR_ARRAY, |path|);
    ghost var start := out;
    var i := 0;
    while i < |path|
      invariant 0 <= i <= |path|
      invariant start + RenderPath(path) == out + RenderPath(path[i..])
    {
      var h := path[i];
      assert path[i..][0] == h && path[i..][1..] == path[i + 1..];
      DigestBytes(h);
      assert out + (RenderDigest(h) + RenderPath(path[i + 1..])) == out + RenderDigest(h) + RenderPath(path[i + 1..]);
      out := out + PushHead(MAJOR_BYTES, |h|) + h;
      i := i + 1;
    }
    assert out + RenderPath(path[i..]) == out;
    ghost var rest := EncodeHead(MAJOR_ARRAY, |path|) + RenderPath(path);
    assert out == [0x82] + (PushHead(MAJOR_UINT, index) + rest);
    assert RenderProof(Proof(index, path)) == [0x82] + (EncodeHead(MAJOR_UINT, index) + rest);
    assert |out| == 1 + |PushHead(MAJOR_UINT, index)| + |rest|;
  }

  lemma DigestBytes(d: Digest)
    ensures RenderDigest(d) == EncodeHead(MAJOR_BYTES, 32) + d
  {
  }

  lemma HeadLengths(major: nat, v: nat)
    requires major < 8 && v < UINT64_RANGE
    ensures v >= 0x1_0000_0000 ==> |PushHead(major, v)| == 5 && |EncodeHead(major, v)| == 9
  {
  }

  // --------------------------------------------------------------------------- the root

  /** toAddr: 33 bytes with the supported prefix. */
  predicate IsAddress(b: Bytes) {
    |b| == 33 && b[0] == HASH_PREFIX
  }

  /** The leaves over a list of addresses; anything else is refused. */
  method LeafLevel(h: Hash, chunks: seq<Bytes>) returns (r: Result<seq<Digest>>)
    ensures r.Ok? <==> forall i :: 0 <= i < |chunks| ==> IsAddress(chunks[i])
    ensures r.Ok? ==> r.value == Leaves(h, chunks)
  {
    var level: seq<Digest> := [];
    var i := 0;
    while i < |chunks|
      invariant 0 <= i <= |chunks| && |level| == i
      invariant forall j :: 0 <= j < i ==> IsAddress(chunks[j])
      invariant forall j :: 0 <= j < i ==> level[j] == MerkleLeaf(h, chunks[j])
    {
      if !IsAddress(chunks[i]) {
        return Err(MalformedObject);
      }
      level := level + [MerkleLeaf(h, chunks[i])];
      i := i + 1;
    }
    ghost var addrs: seq<Address> := chunks;
    assert level == Leaves(h, addrs);
    return Ok(level);
  }

  function Defined(path: seq<Digest>): (cells: seq<Option<Digest>>)
    ensures |cells| == |path| && forall i :: 0 <= i < |path| ==> cells[i] == Some(path[i])
  {
    seq(|path|, i requires 0 <= i < |path| => Some(path[i]))
  }

  /**
   The client's own path builder. An array cell read outside its bounds is undefined, here
   None; the path is the node's exactly when the index stays below 2^31.
   */
  method BuildProof(h: Hash, chunks: seq<Bytes>, index: int) returns (r: Result<seq<Option<Digest>>>)
    requires |chunks| < 0x1_0000_0000
    ensures r.Ok? <==> 0 <= index < |chunks| && forall i :: 0 <= i < |chunks| ==> IsAddress(chunks[i])
    ensures r.Ok? ==> (r.value == Defined(HonestPath(h, chunks, index)) <==> index < 0x8000_0000)
  {
    hide LevelPath, Reduce, RfcPath, NodeOf, Leaves, Xor1;
    if |chunks| == 0 || index < 0 || index >= |chunks| {
      return Err(ProofRange);
    }
    var leaf := LeafLevel(h, chunks);
    if leaf.Err? {
      return Err(leaf.error);
    }
    var level := leaf.value;
    ghost var node, leaves := NodeOf(h), level;
    var path: seq<Option<Digest>> := [];
    ghost var clean: seq<Digest> := [];
    var cur := index;
    while |level| > 1
      invariant 0 <= cur < |level| && cur <= index
      invariant index >= 0x8000_0000 && |path| == 0 ==> level == leaves && cur == index
      invariant index < 0x8000_0000 ==> path == Defined(clean)
      invariant index < 0x8000_0000 ==> LevelPath(node, leaves, index) == clean + LevelPath(node, level, cur)
      invariant index >= 0x8000_0000 && |path| > 0 ==> path[0] == None
      decreases |level|
    {
      LevelPathUnfold(node, level, cur);
      SmallXor(cur);
      if Sibling(cur) < |level| {
        PathSnoc(clean, level[Sibling(cur)], LevelPath(node, Reduce(node, level), cur / 2));
      }
      var sib := Xor1(cur);
      if sib < |level| {
        path := path + [if 0 <= sib then Some(level[sib]) else None];
        clean := clean + (if 0 <= sib then [level[sib]] else []);
      }
      cur := cur / 2;
      level := ReduceLevel(h, level);
    }
    LevelPathUnfold(node, level, cur);
    LevelPathIsRfcPath(node, leaves, index);
    return Ok(path);
  }

  lemma PathSnoc(done: seq<Digest>, x: Digest, rest: seq<Digest>)
    ensures done + ([x] + rest) == done + [x] + rest
    ensures Defined(done + [x]) == Defined(done) + [Some(x)]
  {
  }

  lemma SmallXor(cur: nat)
    ensures cur < 0x8000_0000 ==> Xor1(cur) == Sibling(cur)
    ensures 0x8000_0000 <= cur < 0x1_0000_0000 ==> Xor1(cur) < 0
  {
  }

  /** The client folds levels; the node keeps a stack of subtrees; the root is the same. */
  method ManifestRoot(h: Hash, chunks: seq<Bytes>) returns (r: Result<Address>)
    ensures r.Ok? <==> |chunks| > 0 && forall i :: 0 <= i < |chunks| ==> IsAddress(chunks[i])
    ensures r.Ok? ==> r.value == AddressOf(TreeRoot(h, chunks))
  {
    hide LevelRoot, Mth, Reduce, NodeOf;
    if |chunks| == 0 {
      return Err(MalformedObject);
    }
    var leaf := LeafLevel(h, chunks);
    if leaf.Err? {
      return Err(leaf.error);
    }
    var level := leaf.value;
    ghost var node, leaves := NodeOf(h), level;
    while |level| > 1
      invariant |level| > 0 && LevelRoot(node, level) == LevelRoot(node, leaves)
      decreases |level|
    {
      LevelRootUnfold(node, level);
      level := ReduceLevel(h, level);
    }
    LevelRootUnfold(node, level);
    LevelRootIsMth(node, leaves);
    return Ok(AddressOf(level[0]));
  }

  lemma LevelRootUnfold(node: (Digest, Digest) -> Digest, level: seq<Digest>)
    requires |level| > 0
    ensures LevelRoot(node, level) == if |level| == 1 then level[0] else LevelRoot(node, Reduce(node, level))
  {
  }

  // ------------------------------------------------------------------------ the verifier

  /** The side taken at one level, with the sibling index computed in 32 bits. */
  function ClientSideOf(width: nat, cur: nat): seq<Side> {
    if Xor1(cur) < width then [if cur % 2 == 0 then Left else Right] else []
  }

  /** The next level's width: width + 1 is rounded to a number, and halving it is exact. */
  function Halved(width: nat): nat {
    ToNumber(width + 1) / 2
  }

  lemma HalvedShrinks(width: nat)
    requires width > 1
    ensures Halved(width) < width
  {
    var v := width + 1;
    var u := Ulp(v);
    var q := v / u;
    assert q * u + v % u == v;
    assert (q + 1) * u == q * u + u;
    if v < 0x20_0000_0000_0000 {
      assert u == 1;
    } else {
      assert u * 0x10_0000_0000_0000 <= v;
    }
    assert ToNumber(v) <= v + u;
  }

  function ClientSides(width: nat, cur: nat): seq<Side>
    decreases width
  {
    if width <= 1 then []
    else
      HalvedShrinks(width);
      ClientSideOf(width, cur) + ClientSides(Halved(width), cur / 2)
  }

  predicate ClientAccepts(h: Hash, root: Address, nChunks: int, index: int, chunk: Bytes, path: seq<Digest>) {
    && 0 <= index < nChunks
    && |path| <= MAX_PROOF_PATH
    && |path| == |ClientSides(nChunks, index)|
    && AddressOf(FoldUp(NodeOf(h), MerkleLeaf(h, HashBytes(h, chunk)), ClientSides(nChunks, index), path)) == root
  }

  /** Some level promotes the node at a position of 2^31 or more. */
  predicate HighPromotion(width: nat, cur: nat)
    requires cur < width
    decreases width
  {
    width > 1 && ((cur >= 0x8000_0000 && cur % 2 == 0 && cur == width - 1) || HighPromotion((width + 1) / 2, cur / 2))
  }

  lemma OneSideAgrees(width: nat, cur: nat)
    requires cur < width
    ensures if cur >= 0x8000_0000 && cur % 2 == 0 && cur == width - 1
            then |ClientSideOf(width, cur)| == 1 && |SideOf(width, cur)| == 0
            else ClientSideOf(width, cur) == SideOf(width, cur)
  {
  }

  /** Below 2^53 widths are exact. */
  lemma SmallHalvesExact(width: nat)
    requires width < 0x20_0000_0000_0000
    ensures Halved(width) == (width + 1) / 2
  {
    if width + 1 == 0x20_0000_0000_0000 {
      assert Ulp(width + 1) == 2 * Ulp(0x10_0000_0000_0000) == 2;
    }
  }

  /** Between 2^53 and 2^54 a number is even, and one more is a tie, rounded up when half of it is odd. */
  lemma TiedHalves(width: nat)
    requires 0x20_0000_0000_0000 <= width < 0x40_0000_0000_0000 && IsNumber(width)
    ensures width % 2 == 0 && Halved(width) == width / 2 + (width / 2) % 2
  {
    assert Ulp(width / 2) == 1 && Ulp((width + 1) / 2) == 1;
    assert Ulp(width) == 2 && Ulp(width + 1) == 2;
  }

  lemma DoubledUlp(v: nat)
    requires v >= 0x40_0000_0000_0000
    ensures Ulp(v) == 2 * Ulp(v / 2) && Ulp(v / 2) >= 2
  {
    assert Ulp(v / 2) == 2 * Ulp(v / 2 / 2);
  }

  /** From 2^54 on one more is lost in the rounding. */
  lemma LostHalves(width: nat)
    requires width >= 0x40_0000_0000_0000 && IsNumber(width)
    ensures width % 2 == 0 && Halved(width) == width / 2 && IsNumber(width / 2)
  {
    hide Ulp;
    DoubledUlp(width);
    DoubledUlp(width + 1);
    var half := Ulp(width / 2);
    var u, k := 2 * half, width / (2 * half);
    assert width == k * u;
    QuotientIs(width / 2, half, k, 0);
    QuotientIs(width + 1, u, k, 1);
    hide IsNumber, ToNumber;
    Doubling(width, k, half);
    RoundsDown(width + 1, u, k);
  }

  lemma Doubling(v: nat, k: nat, half: nat)
    requires v == k * (2 * half)
    ensures v == 2 * (k * half) && v % 2 == 0 && v / 2 == k * half
  {
  }

  lemma RoundsDown(v: nat, u: nat, k: nat)
    requires Ulp(v) == u >= 4 && v / u == k && v % u == 1
    ensures ToNumber(v) == k * u
  {
    hide Ulp;
  }

  lemma {:induction false} Scaled(a: nat, b: nat, u: nat)
    requires a < b
    ensures a * u + u <= b * u
    decreases b
  {
    assert b * u == (b - 1) * u + u;
    if a + 1 < b {
      Scaled(a, b - 1, u);
    }
  }

  lemma QuotientIs(v: nat, u: nat, k: nat, r: nat)
    requires r < u && v == k * u + r
    ensures v / u == k && v % u == r
  {
    var q := v / u;
    assert v == q * u + v % u;
    if q < k {
      Scaled(q, k, u);
    } else if k < q {
      Scaled(k, q, u);
    }
  }

  /**
   At a tie the client's next width is one too large and even, so it gives the last node
   a sibling where the node promotes it; the width after that is right again.
   */
  lemma TiedLevel(a: nat, cur: nat)
    requires 0x10_0000_0000_0000 <= a < 0x20_0000_0000_0000 && a % 2 == 1 && cur < a
    ensures ClientSides(a + 1, cur) == ClientSideOf(a + 1, cur) + ClientSides((a + 1) / 2, cur / 2)
    ensures if cur == a - 1 then |ClientSideOf(a + 1, cur)| == 1 && |SideOf(a, cur)| == 0
            else ClientSideOf(a + 1, cur) == SideOf(a, cur)
  {
    hide ClientSides, ClientSideOf, SideOf, Halved;
    ClientSidesUnfold(a + 1, cur);
    TiedNext(a);
    TiedSide(a, cur);
  }

  lemma TiedNext(a: nat)
    requires 0x10_0000_0000_0000 <= a < 0x20_0000_0000_0000 && a % 2 == 1
    ensures Halved(a + 1) == (a + 1) / 2
  {
    hide Halved, Ulp, IsNumber;
    if a + 1 < 0x20_0000_0000_0000 {
      SmallHalvesExact(a + 1);
    } else {
      SmallIsNumber(a + 1);
      TiedHalves(a + 1);
    }
  }

  lemma TiedSide(a: nat, cur: nat)
    requires a % 2 == 1 && cur < a
    ensures if cur == a - 1 then |ClientSideOf(a + 1, cur)| == 1 && |SideOf(a, cur)| == 0
            else ClientSideOf(a + 1, cur) == SideOf(a, cur)
  {
    hide Xor1;
    XorAtMost(cur);
  }

  lemma XorAtMost(cur: nat)
    ensures Xor1(cur) <= cur + 1
    ensures cur % 2 == 1 ==> Xor1(cur) < cur
  {
  }

  /** Sides are taken as the tree has them, or, at a high promotion, too many are. */
  ghost predicate Agrees(client: seq<Side>, tree: seq<Side>, high: bool) {
    |client| >= |tree| && if high then |client| > |tree| else client == tree
  }

  lemma StepAgrees(width: nat, n: nat, cur: nat, rest: seq<Side>)
    requires cur < width && width > 1 && n == (width + 1) / 2
    requires Agrees(rest, LevelSides(n, cur / 2), HighPromotion(n, cur / 2))
    ensures Agrees(ClientSideOf(width, cur) + rest, LevelSides(width, cur), HighPromotion(width, cur))
  {
    hide ClientSideOf, SideOf;
    OneSideAgrees(width, cur);
  }

  /**
   For every count a JavaScript number can hold, rounded widths included, the client takes
   the sides of the tree exactly when no node at position 2^31 or beyond is promoted.
   */
  lemma {:induction false} SidesAgree(width: nat, cur: nat)
    requires cur < width && IsNumber(width)
    ensures Agrees(ClientSides(width, cur), LevelSides(width, cur), HighPromotion(width, cur))
    decreases width
  {
    hide ClientSideOf, Halved, Ulp, IsNumber, ClientSides, Agrees;
    ClientSidesUnfold(width, cur);
    if width == 1 {
      assert Agrees([], [], false) by {
        NothingAgrees();
      }
    } else if width < 0x20_0000_0000_0000 {
      SmallHalvesExact(width);
      SmallIsNumber((width + 1) / 2);
      SidesAgree((width + 1) / 2, cur / 2);
      StepAgrees(width, (width + 1) / 2, cur, ClientSides(Halved(width), cur / 2));
    } else if width >= 0x40_0000_0000_0000 {
      LostHalves(width);
      SidesAgree(width / 2, cur / 2);
      StepAgrees(width, width / 2, cur, ClientSides(Halved(width), cur / 2));
    } else {
      TiedHalves(width);
      var a := width / 2;
      if a % 2 == 0 {
        SmallIsNumber(a);
        SidesAgree(a, cur / 2);
        StepAgrees(width, a, cur, ClientSides(Halved(width), cur / 2));
      } else {
        SmallIsNumber((a + 1) / 2);
        SidesAgree((a + 1) / 2, cur / 2 / 2);
        TieAgrees(width, a, cur);
      }
    }
  }

  lemma NothingAgrees()
    ensures Agrees([], [], false)
  {
  }

  /** Across a tie: agreement two levels up carries down. */
  lemma TieAgrees(width: nat, a: nat, cur: nat)
    requires cur < width == 2 * a && a % 2 == 1 && 0x10_0000_0000_0000 <= a < 0x20_0000_0000_0000
    requires var n, up := (a + 1) / 2, cur / 2 / 2; Agrees(ClientSides(n, up), LevelSides(n, up), HighPromotion(n, up))
    ensures Agrees(ClientSideOf(width, cur) + ClientSides(a + 1, cur / 2), LevelSides(width, cur), HighPromotion(width, cur))
  {
    hide ClientSideOf, SideOf, ClientSides, LevelSides, HighPromotion;
    OneSideAgrees(width, cur);
    TiedLevel(a, cur / 2);
    AfterTie(width, a, cur);
  }

  lemma SmallIsNumber(v: nat)
    requires v <= 0x20_0000_0000_0000
    ensures IsNumber(v)
  {
    if v == 0x20_0000_0000_0000 {
      assert Ulp(v) == 2 * Ulp(v / 2) == 2;
    }
  }

  lemma AfterTie(width: nat, a: nat, cur: nat)
    requires cur < width == 2 * a && a % 2 == 1 && a > 0x8000_0000
    ensures LevelSides(width, cur) == SideOf(width, cur) + (SideOf(a, cur / 2) + LevelSides((a + 1) / 2, cur / 2 / 2))
    ensures HighPromotion(width, cur) <==> cur / 2 == a - 1 || HighPromotion((a + 1) / 2, cur / 2 / 2)
  {
    hide SideOf;
    assert (width + 1) / 2 == a;
    assert LevelSides(a, cur / 2) == SideOf(a, cur / 2) + LevelSides((a + 1) / 2, cur / 2 / 2);
    assert HighPromotion(a, cur / 2) <==> cur / 2 == a - 1 || HighPromotion((a + 1) / 2, cur / 2 / 2);
  }

  /** Below 2^31 nothing is lost in 32 bits. */
  lemma {:induction false} LowIndexIsSafe(width: nat, cur: nat)
    requires cur < width && cur < 0x8000_0000
    ensures !HighPromotion(width, cur)
    decreases width
  {
    if width > 1 {
      LowIndexIsSafe((width + 1) / 2, cur / 2);
    }
  }

  /**
   The client and the node verify the same proofs for a given count and index exactly
   when no level promotes a node at position 2^31 or more, or the path is longer than
   either accepts.
   */
  lemma VerifiersAgree(h: Hash, nChunks: int, index: int)
    requires 0 <= index < nChunks < INT64_HALF && IsNumber(nChunks)
    ensures (forall root: Address, chunk: Bytes, path: seq<Digest> ::
               ClientAccepts(h, root, nChunks, index, chunk, path) <==> Accepts(h, root, nChunks, index, chunk, path))
            <==> !HighPromotion(nChunks, index) || |LevelSides(nChunks, index)| > MAX_PROOF_PATH
  {
    hide ClientSides, LevelSides, HighPromotion, VerifierSides, FoldUp, Accepts, ClientAccepts;
    if HighPromotion(nChunks, index) && |LevelSides(nChunks, index)| <= MAX_PROOF_PATH {
      var root, path := Parting(h, nChunks, index);
    } else {
      forall root: Address, chunk: Bytes, path: seq<Digest>
        ensures ClientAccepts(h, root, nChunks, index, chunk, path) <==> Accepts(h, root, nChunks, index, chunk, path)
      {
        Together(h, root, nChunks, index, chunk, path);
      }
    }
  }

  /** The largest 64-bit count is no JavaScript number. */
  lemma NumberBelowMax(v: nat)
    requires v < INT64_HALF && IsNumber(v)
    ensures v < INT64_HALF - 1
  {
    if v >= 0x40_0000_0000_0000 {
      LostHalves(v);
    }
  }

  lemma Together(h: Hash, root: Address, nChunks: int, index: int, chunk: Bytes, path: seq<Digest>)
    requires 0 <= index < nChunks < INT64_HALF && IsNumber(nChunks)
    requires !HighPromotion(nChunks, index) || |LevelSides(nChunks, index)| > MAX_PROOF_PATH
    ensures ClientAccepts(h, root, nChunks, index, chunk, path) <==> Accepts(h, root, nChunks, index, chunk, path)
  {
    hide ClientSides, LevelSides, HighPromotion, VerifierSides, FoldUp;
    SidesAgree(nChunks, index);
    NumberBelowMax(nChunks);
    WidthsExact(nChunks, index);
  }

  /** Where a high node is promoted, a claim the node accepts and the client rejects. */
  lemma Parting(h: Hash, nChunks: int, index: int) returns (root: Address, path: seq<Digest>)
    requires 0 <= index < nChunks < INT64_HALF && IsNumber(nChunks)
    requires HighPromotion(nChunks, index) && |LevelSides(nChunks, index)| <= MAX_PROOF_PATH
    ensures Accepts(h, root, nChunks, index, [], path) && !ClientAccepts(h, root, nChunks, index, [], path)
  {
    hide ClientSides, LevelSides, HighPromotion, VerifierSides, FoldUp;
    SidesAgree(nChunks, index);
    NumberBelowMax(nChunks);
    WidthsExact(nChunks, index);
    var sides := LevelSides(nChunks, index);
    path := seq(|sides|, _ => seq(32, _ => 0));
    root := AddressOf(FoldUp(NodeOf(h), MerkleLeaf(h, HashBytes(h, [])), sides, path));
  }

  lemma HighAtOnce(width: nat, cur: nat)
    requires 0x8000_0000 <= cur == width - 1 && cur % 2 == 0
    ensures HighPromotion(width, cur)
  {
  }

  /** They do part: at 2^31 + 1 chunks the last chunk's own index is read as negative. */
  lemma VerifiersPart(h: Hash) returns (root: Address, path: seq<Digest>)
    ensures Accepts(h, root, 0x8000_0001, 0x8000_0000, [], path)
    ensures !ClientAccepts(h, root, 0x8000_0001, 0x8000_0000, [], path)
  {
    hide HighPromotion, LevelSides, Pow2, Accepts, ClientAccepts, IsNumber;
    HighAtOnce(0x8000_0001, 0x8000_0000);
    FortyLevels();
    LevelSidesBound(0x8000_0001, 0x8000_0000, MAX_PROOF_PATH);
    SmallIsNumber(0x8000_0001);
    root, path := Parting(h, 0x8000_0001, 0x8000_0000);
  }

  method VerifyProof(h: Hash, root: Bytes, nChunks: int, index: int, chunk: Bytes, path: seq<Bytes>)
    returns (r: Result<()>)
    ensures r.Ok? <==>
              && IsAddress(root) && (forall i :: 0 <= i < |path| ==> |path[i]| == 32)
              && ClientAccepts(h, root, nChunks, index, chunk, path)
    ensures |path| > 40 || |root| != 33 || root[0] != 0x1e ==> r.Err?
  {
    if !IsAddress(root) {
      return Err(MalformedObject);
    }
    if nChunks <= 0 {
      return Err(ProofRange);
    }
    if index < 0 || index >= nChunks {
      return Err(ProofRange);
    }
    if |path| > MAX_PROOF_PATH {
      return Err(ProofInvalid);
    }
    var i := 0;
    while i < |path|
      invariant 0 <= i <= |path|
      invariant forall j :: 0 <= j < i ==> |path[j]| == 32
    {
      if |path[i]| != 32 {
        return Err(ProofInvalid);
      }
      i := i + 1;
    }
    var digests: seq<Digest> := path;
    r := FoldAndCompare(h, root, nChunks, index, chunk, digests);
  }

  /** The fold of the verifier, after its argument checks. */
  method FoldAndCompare(h: Hash, root: Address, nChunks: nat, index: nat, chunk: Bytes, path: seq<Digest>)
    returns (r: Result<()>)
    requires index < nChunks && |path| <= MAX_PROOF_PATH
    ensures r.Ok? <==> ClientAccepts(h, root, nChunks, index, chunk, path)
  {
    hide ClientSides, FoldUp, NodeOf, Xor1, Halved;
    var node: Digest := MerkleLeaf(h, HashBytes(h, chunk));
    ghost var leaf, sides := node, ClientSides(nChunks, index);
    var cur, levelLen, used := index, nChunks, 0;
    while levelLen > 1
      invariant 0 <= cur && 0 <= levelLen && 0 <= used <= |path|
      invariant |ClientSides(levelLen, cur)| == |sides| - used
      invariant |path| == |sides| ==>
                  FoldUp(NodeOf(h), leaf, sides, path) == FoldUp(NodeOf(h), node, ClientSides(levelLen, cur), path[used..])
      decreases levelLen
    {
      ClientSidesUnfold(levelLen, cur);
      HalvedShrinks(levelLen);
      ghost var next := ClientSides(Halved(levelLen), cur / 2);
      var sib := Xor1(cur);
      if sib < levelLen {
        if used >= |path| {
          return Err(ProofInvalid);
        }
        var s := path[used];
        if |path| == |sides| {
          FoldUpUnfold(NodeOf(h), node, if cur % 2 == 0 then Left else Right, next, path[used..]);
          assert path[used..][1..] == path[used + 1..];
        }
        used := used + 1;
        if cur % 2 == 0 {
          node := NodeOf(h)(node, s);
        } else {
          node := NodeOf(h)(s, node);
        }
      }
      cur := cur / 2;
      levelLen := Halved(levelLen);
    }
    ClientSidesUnfold(levelLen, cur);
    FoldUpNothing(NodeOf(h), node);
    if used != |path| {
      return Err(ProofInvalid);
    }
    if AddressOf(node) != root {
      return Err(ProofInvalid);
    }
    return Ok(());
  }

  lemma ClientSidesUnfold(width: nat, cur: nat)
    ensures ClientSides(width, cur) ==
            if width <= 1 then [] else ClientSideOf(width, cur) + ClientSides(Halved(width), cur / 2)
    ensures width > 1 && Xor1(cur) >= width ==> ClientSides(width, cur) == ClientSides(Halved(width), cur / 2)
  {
    hide Xor1, Halved;
  }

  /** The one-call path: decode, check the index asked for, verify. */
  method VerifyChunkResponse(h: Hash, root: Bytes, nChunks: int, index: int, chunk: Bytes, proof: Bytes)
    returns (r: Result<Bytes>)
    ensures r.Ok? <==> IsAddress(root) && Responds(h, root, nChunks, index, chunk, proof)
    ensures r.Ok? ==> r.value == chunk
  {
    var decoded := DecodeProof(proof);
    if decoded.Err? {
      return Err(decoded.error);
    }
    if decoded.value.index != index {
      return Err(ProofInvalid);
    }
    var ok := VerifyProof(h, root, nChunks, index, chunk, decoded.value.path);
    if ok.Err? {
      return Err(ok.error);
    }
    return Ok(chunk);
  }

  /** A served body that decodes to a proof for this index which the client accepts. */
  predicate Responds(h: Hash, root: Address, nChunks: int, index: int, chunk: Bytes, proof: Bytes) {
    && ReadProof(proof).Ok?
    && ReadProof(proof).value.index == index
    && ClientAccepts(h, root, nChunks, index, chunk, ReadProof(proof).value.path)
  }

  /**
   What a browser may conclude. For a root and count it trusts, an accepted response
   carries the chunk at the index it asked for and is, byte for byte, the honest
   response; or a collision is exhibited.
   */
  lemma ResponseIsHonest(h: Hash, chunks: seq<Address>, index: nat, chunk: Bytes, proof: Bytes)
    returns (o: Origin)
    requires index < |chunks| <= Pow2(20)
    requires Responds(h, AddressOf(TreeRoot(h, chunks)), |chunks|, index, chunk, proof)
    ensures o.Member? ==>
              && HashBytes(h, chunk) == chunks[index]
              && InBounds(Proof(index, HonestPath(h, chunks, index)))
              && proof == RenderProof(Proof(index, HonestPath(h, chunks, index)))
    ensures o.Collision? ==>
              && Collides(h, o.p, o.q) && o.p in TreePreimages(h, chunks)
              && o.q in FoldPreimages(h, HashBytes(h, chunk), ClientSides(|chunks|, index), ReadProof(proof).value.path)
  {
    hide TreeRoot, HonestPath, ReadProof, RenderProof, Pow2, LevelSides, ClientSides, FoldUp, HighPromotion, VerifierSides;
    hide TreePreimages, FoldPreimages;
    TwentyLevels();
    LowIndexIsSafe(|chunks|, index);
    SmallIsNumber(|chunks|);
    SidesAgree(|chunks|, index);
    SmallWidthsExact(|chunks|, index);
    o := AcceptedAtIndex(h, chunks, index, chunk, ReadProof(proof).value.path);
    ReadProofExact(proof, ReadProof(proof).value);
  }

  /** And the honest response carrying that chunk is accepted. */
  lemma HonestResponseAccepted(h: Hash, chunks: seq<Address>, index: nat, chunk: Bytes)
    requires index < |chunks| <= Pow2(20) && HashBytes(h, chunk) == chunks[index]
    ensures InBounds(Proof(index, HonestPath(h, chunks, index)))
    ensures Responds(h, AddressOf(TreeRoot(h, chunks)), |chunks|, index, chunk,
                     RenderProof(Proof(index, HonestPath(h, chunks, index))))
  {
    hide TreeRoot, HonestPath, ReadProof, RenderProof, Pow2, LevelSides, ClientSides, FoldUp, HighPromotion, VerifierSides;
    TwentyLevels();
    PowersApart(20, 40);
    HonestPathBound(h, chunks, index, 20);
    LowIndexIsSafe(|chunks|, index);
    SmallIsNumber(|chunks|);
    SidesAgree(|chunks|, index);
    SmallWidthsExact(|chunks|, index);
    var honest := Proof(index, HonestPath(h, chunks, index));
    HonestAccepted(h, chunks, index, chunk);
    ReadProofExact(RenderProof(honest), honest);
  }
}
