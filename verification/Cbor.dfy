/**
 The strict CBOR scanner of tunnel/pubcache/cbor.go: heads (section 3 of RFC 8949,
 minimal as in section 4.2.1) and the value skipper.
 */
module Cbor {
  import opened Basics

  const MAX_DEPTH: nat := 16
  const MAX_ITEMS: nat := 0x10_0000

  const MAJOR_UINT: nat := 0
  const MAJOR_BYTES: nat := 2
  const MAJOR_ARRAY: nat := 4
  const MAJOR_MAP: nat := 5

  // ------------------------------------------------------------ big-endian numbers

  function Pow256(n: nat): (p: nat)
    ensures p >= 1
  {
    if n == 0 then 1 else 256 * Pow256(n - 1)
  }

  function FromBigEndian(b: Bytes): (v: nat)
    ensures v < Pow256(|b|)
  {
    if |b| == 0 then 0 else 256 * FromBigEndian(b[..|b| - 1]) + b[|b| - 1]
  }

  function ToBigEndian(v: nat, n: nat): (b: Bytes)
    ensures |b| == n
  {
    if n == 0 then [] else ToBigEndian(v / 256, n - 1) + [v % 256]
  }

  lemma {:induction false} BigEndianRoundTrip(v: nat, n: nat)
    requires v < Pow256(n)
    ensures FromBigEndian(ToBigEndian(v, n)) == v
    decreases n
  {
    if n > 0 {
      BigEndianRoundTrip(v / 256, n - 1);
      assert ToBigEndian(v, n)[..n - 1] == ToBigEndian(v / 256, n - 1);
    }
  }

  lemma {:induction false} BigEndianCanonical(b: Bytes)
    ensures ToBigEndian(FromBigEndian(b), |b|) == b
    decreases |b|
  {
    if |b| > 0 {
      var front, last := b[..|b| - 1], b[|b| - 1];
      BigEndianCanonical(front);
      OneDigit(FromBigEndian(front), last, |front|);
      hide ToBigEndian;
      assert b == front + [last];
    }
  }

  lemma OneDigit(v: nat, d: byte, n: nat)
    ensures ToBigEndian(256 * v + d, n + 1) == ToBigEndian(v, n) + [d]
  {
    assert (256 * v + d) / 256 == v && (256 * v + d) % 256 == d;
  }

  lemma Pow256Values()
    ensures Pow256(1) == 0x100 && Pow256(2) == 0x1_0000 && Pow256(4) == 0x1_0000_0000
    ensures Pow256(8) == UINT64_RANGE
  {
    assert Pow256(3) == 0x100_0000;
    assert Pow256(5) == 0x100_0000_0000;
    assert Pow256(6) == 0x1_0000_0000_0000;
    assert Pow256(7) == 0x100_0000_0000_0000;
  }

  // -------------------------------------------------------------------------- heads

  datatype Head = Head(major: nat, arg: nat, n: nat)

  /** Decodes one head; non-minimal, reserved and indefinite forms are errors. */
  function ReadHead(b: Bytes): (r: Result<Head>) {
    if |b| == 0 then Err(MalformedObject)
    else
      var major, ai := b[0] / 32, b[0] % 32;
      if ai < 24 then Ok(Head(major, ai, 1))
      else if ai == 24 then
        if |b| < 2 then Err(MalformedObject)
        else if b[1] < 24 then Err(MalformedObject)
        else Ok(Head(major, b[1], 2))
      else if ai == 25 then ReadWide(b, 2, 0xff)
      else if ai == 26 then ReadWide(b, 4, 0xffff)
      else if ai == 27 then ReadWide(b, 8, 0xffff_ffff)
      else Err(MalformedObject)
  }

  /** A head with a width-byte argument that must exceed every shorter form. */
  function ReadWide(b: Bytes, width: nat, above: nat): Result<Head>
    requires |b| > 0
  {
    if |b| < 1 + width then Err(MalformedObject)
    else
      var v := FromBigEndian(b[1..1 + width]);
      if v <= above then Err(MalformedObject) else Ok(Head(b[0] / 32, v, 1 + width))
  }

  /** The minimal head for a major type and argument. */
  function EncodeHead(major: nat, v: nat): (b: Bytes)
    requires major < 8 && v < UINT64_RANGE
    ensures 1 <= |b| <= 9
  {
    var m := 32 * major;
    if v < 24 then [m + v]
    else if v <= 0xff then [m + 24, v]
    else if v <= 0xffff then [m + 25] + ToBigEndian(v, 2)
    else if v <= 0xffff_ffff then [m + 26] + ToBigEndian(v, 4)
    else [m + 27] + ToBigEndian(v, 8)
  }

  /** The last two bytes of a number are its last two digits to the base of 256. */
  lemma LastTwo(v: nat, n: nat)
    ensures ToBigEndian(v, n + 2) == ToBigEndian(v / 0x1_0000, n) + [v / 0x100 % 0x100, v % 0x100]
  {
    assert v / 0x100 / 0x100 == v / 0x1_0000;
    assert ToBigEndian(v, n + 2) == ToBigEndian(v / 0x100, n + 1) + [v % 0x100];
    assert ToBigEndian(v / 0x100, n + 1) == ToBigEndian(v / 0x1_0000, n) + [v / 0x100 % 0x100];
  }

  lemma LastFour(v: nat, n: nat)
    ensures ToBigEndian(v, n + 4) ==
            ToBigEndian(v / 0x1_0000_0000, n) +
            [v / 0x100_0000 % 0x100, v / 0x1_0000 % 0x100, v / 0x100 % 0x100, v % 0x100]
  {
    hide ToBigEndian;
    LastTwo(v, n + 2);
    LastTwo(v / 0x1_0000, n);
  }

  lemma NoDigits(v: nat)
    ensures ToBigEndian(v, 0) == []
  {
  }

  lemma EightBytes(v: nat)
    requires v < 0x1_0000_0000_0000_0000
    ensures ToBigEndian(v, 8) ==
            [v / 0x100_0000_0000_0000, v / 0x1_0000_0000_0000 % 0x100,
             v / 0x100_0000_0000 % 0x100, v / 0x1_0000_0000 % 0x100, v / 0x100_0000 % 0x100,
             v / 0x1_0000 % 0x100, v / 0x100 % 0x100, v % 0x100]
  {
    hide ToBigEndian;
    var top := v / 0x1_0000_0000;
    LastFour(v, 4);
    LastFour(top, 0);
    NoDigits(top / 0x1_0000_0000);
    assert top / 0x100_0000 == v / 0x100_0000_0000_0000;
    assert top / 0x1_0000 == v / 0x1_0000_0000_0000;
    assert top / 0x100 == v / 0x100_0000_0000;
  }

  /** The head byte for byte: the major type in the top three bits, then the argument as short as it goes. */
  lemma HeadBytes(major: nat, v: nat)
    requires major < 8 && v < 0x1_0000_0000_0000_0000
    ensures EncodeHead(major, v) ==
            if v < 24 then [32 * major + v]
            else if v < 0x100 then [32 * major + 24, v]
            else if v < 0x1_0000 then [32 * major + 25, v / 0x100, v % 0x100]
            else if v < 0x1_0000_0000 then
              [32 * major + 26, v / 0x100_0000, v / 0x1_0000 % 0x100, v / 0x100 % 0x100, v % 0x100]
            else
              [32 * major + 27, v / 0x100_0000_0000_0000, v / 0x1_0000_0000_0000 % 0x100,
               v / 0x100_0000_0000 % 0x100, v / 0x1_0000_0000 % 0x100, v / 0x100_0000 % 0x100,
               v / 0x1_0000 % 0x100, v / 0x100 % 0x100, v % 0x100]
  {
    hide ToBigEndian;
    if 0x100 <= v < 0x1_0000 {
      LastTwo(v, 0);
      NoDigits(v / 0x1_0000);
    } else if 0x1_0000 <= v < 0x1_0000_0000 {
      LastFour(v, 0);
      NoDigits(v / 0x1_0000_0000);
    } else if 0x1_0000_0000 <= v {
      EightBytes(v);
    }
  }

  /** b starts with the minimal head hd. */
  ghost predicate StartsWith(b: Bytes, hd: Head) {
    && hd.major < 8 && hd.arg < UINT64_RANGE
    && hd.n == |EncodeHead(hd.major, hd.arg)| <= |b|
    && b[..hd.n] == EncodeHead(hd.major, hd.arg)
  }

  lemma ReadHeadSound(b: Bytes)
    requires ReadHead(b).Ok?
    ensures StartsWith(b, ReadHead(b).value)
  {
    hide Pow256, FromBigEndian, ToBigEndian;
    Pow256Values();
    var hd := ReadHead(b).value;
    assert b[0] == 32 * (b[0] / 32) + b[0] % 32;
    if hd.n > 2 {
      BigEndianCanonical(b[1..hd.n]);
      assert b[..hd.n] == [b[0]] + b[1..hd.n];
    }
  }

  lemma ReadHeadComplete(b: Bytes, hd: Head)
    requires StartsWith(b, hd)
    ensures ReadHead(b) == Ok(hd)
  {
    hide Pow256, FromBigEndian, ToBigEndian;
    Pow256Values();
    var e := EncodeHead(hd.major, hd.arg);
    assert forall i :: 0 <= i < hd.n ==> b[i] == e[i];
    if hd.n > 2 {
      BigEndianRoundTrip(hd.arg, hd.n - 1);
      assert b[1..hd.n] == e[1..hd.n] == ToBigEndian(hd.arg, hd.n - 1);
    }
  }

  /** A head decodes to exactly what its minimal encoding says, and only then. */
  lemma ReadHeadExact(b: Bytes, hd: Head)
    ensures ReadHead(b) == Ok(hd) <==> StartsWith(b, hd)
  {
    if ReadHead(b) == Ok(hd) {
      ReadHeadSound(b);
    }
    if StartsWith(b, hd) {
      ReadHeadComplete(b, hd);
    }
  }

  lemma ReadHeadAppend(major: nat, v: nat, rest: Bytes)
    requires major < 8 && v < UINT64_RANGE
    ensures ReadHead(EncodeHead(major, v) + rest) == Ok(Head(major, v, |EncodeHead(major, v)|))
  {
    var e := EncodeHead(major, v);
    assert (e + rest)[..|e|] == e;
    ReadHeadComplete(e + rest, Head(major, v, |e|));
  }

  // -------------------------------------------------------------------- skipValue

  /** The item count of a container; map arguments are doubled in 64 bits and wrap. */
  function ItemCount(major: nat, arg: nat): nat {
    if major == MAJOR_MAP then (2 * arg) % UINT64_RANGE else arg
  }

  function Remaining(depth: nat): nat {
    if depth > MAX_DEPTH then 0 else MAX_DEPTH + 1 - depth
  }

  /** The length of the data item b starts with. */
  function SkipValue(b: Bytes, depth: nat): (r: Result<nat>)
    ensures r.Ok? ==> 1 <= r.value <= |b|
    decreases Remaining(depth), 0, 0
  {
    if depth > MAX_DEPTH then Err(MalformedObject)
    else
      var hd :- ReadHead(b);
      ReadHeadSound(b);
      SkipBody(b, hd, depth)
  }

  /** The rest of an item once its head is known. */
  function SkipBody(b: Bytes, hd: Head, depth: nat): (r: Result<nat>)
    requires depth <= MAX_DEPTH && ReadHead(b) == Ok(hd) && 1 <= hd.n <= |b|
    ensures r.Ok? ==> 1 <= r.value <= |b|
    decreases Remaining(depth + 1), 2, 0
  {
    SimpleLength(b);
    if hd.major == MAJOR_UINT || hd.major == 1 then Ok(hd.n)
    else if hd.major == MAJOR_BYTES || hd.major == 3 then
      if hd.arg > |b| - hd.n then Err(MalformedObject) else Ok(hd.n + hd.arg)
    else if hd.major == MAJOR_ARRAY || hd.major == MAJOR_MAP then
      var items := ItemCount(hd.major, hd.arg);
      if items > MAX_ITEMS then Err(MalformedObject)
      else Shifted(hd.n, SkipItems(b[hd.n..], items, depth + 1))
    else if hd.major == 6 then
      Shifted(hd.n, SkipValue(b[hd.n..], depth + 1))
    else SkipSimple(b)
  }

  /** Simple values and floats: the length follows from the first byte. */
  function SkipSimple(b: Bytes): Result<nat>
    requires |b| > 0
  {
    var ai := b[0] % 32;
    if ai < 24 then Ok(1)
    else if ai == 24 then Ok(2)
    else if ai == 25 then Ok(3)
    else if ai == 26 then Ok(5)
    else if ai == 27 then Ok(9)
    else Err(MalformedObject)
  }

  lemma SimpleLength(b: Bytes)
    requires ReadHead(b).Ok?
    ensures SkipSimple(b) == Ok(ReadHead(b).value.n)
  {
  }

  /** The total length of the next items. */
  function SkipItems(b: Bytes, items: nat, depth: nat): (r: Result<nat>)
    ensures r.Ok? ==> items <= r.value <= |b|
    decreases Remaining(depth), 1, items
  {
    if items == 0 then Ok(0)
    else
      var m :- SkipValue(b, depth);
      var rest :- SkipItems(b[m..], items - 1, depth);
      Ok(m + rest)
  }

  /** A length counted from off bytes further back. */
  function Shifted(off: nat, r: Result<nat>): Result<nat> {
    if r.Ok? then Ok(off + r.value) else r
  }

  lemma SkipValueUnfold(b: Bytes, depth: nat)
    ensures ReadHead(b).Ok? ==> 1 <= ReadHead(b).value.n <= |b|
    ensures SkipValue(b, depth) ==
            if depth > MAX_DEPTH then Err(MalformedObject)
            else if ReadHead(b).Err? then Err(ReadHead(b).error)
            else SkipBody(b, ReadHead(b).value, depth)
  {
    hide ReadHead;
    if ReadHead(b).Ok? {
      ReadHeadSound(b);
    }
  }

  lemma SkipItemsUnfold(b: Bytes, items: nat, depth: nat)
    ensures SkipItems(b, items, depth) ==
            if items == 0 then Ok(0)
            else if SkipValue(b, depth).Err? then SkipValue(b, depth)
            else
              var m := SkipValue(b, depth).value;
              Shifted(m, SkipItems(b[m..], items - 1, depth))
  {
  }

  /** The skipper as it is run: recursive, with a loop over a container's items. */
  method ScanValue(b: Bytes, depth: nat) returns (r: Result<nat>)
    ensures r == SkipValue(b, depth)
    decreases Remaining(depth)
  {
    hide SkipValue, SkipItems, ReadHead;
    SkipValueUnfold(b, depth);
    if depth > MAX_DEPTH {
      return Err(MalformedObject);
    }
    var head := ReadHead(b);
    if head.Err? {
      return Err(head.error);
    }
    var Head(major, arg, n) := head.value;
    if major == MAJOR_UINT || major == 1 {
      return Ok(n);
    } else if major == MAJOR_BYTES || major == 3 {
      if arg > |b| - n {
        return Err(MalformedObject);
      }
      return Ok(n + arg);
    } else if major == MAJOR_ARRAY || major == MAJOR_MAP {
      var items := ItemCount(major, arg);
      if items > MAX_ITEMS {
        return Err(MalformedObject);
      }
      var off := n;
      var i := 0;
      while i < items
        invariant 0 <= i <= items && n <= off <= |b|
        invariant SkipValue(b, depth) == Shifted(off, SkipItems(b[off..], items - i, depth + 1))
      {
        SkipItemsUnfold(b[off..], items - i, depth + 1);
        var m := ScanValue(b[off..], depth + 1);
        if m.Err? {
          return Err(m.error);
        }
        assert b[off..][m.value..] == b[off + m.value..];
        off := off + m.value;
        i := i + 1;
      }
      SkipItemsUnfold(b[off..], 0, depth + 1);
      return Ok(off);
    } else if major == 6 {
      var m := ScanValue(b[n..], depth + 1);
      if m.Err? {
        return Err(m.error);
      }
      return Ok(n + m.value);
    } else {
      return SkipSimple(b);
    }
  }
}
