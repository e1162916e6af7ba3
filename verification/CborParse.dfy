/**
 The two container parsers of tunnel/pubcache/cbor.go, each shown to accept
 exactly the renderings of valid contents and to return those contents.
 */
module CborParse {
  import opened Basics
  import opened Cbor
  import CborGrammar

  // ---------------------------------------------------------- integer-keyed maps

  datatype Entry = Entry(key: nat, val: Bytes)

  /** One value that fills its span. */
  predicate ValidEntry(e: Entry) {
    e.key < UINT64_RANGE && SkipValue(e.val, 1) == Ok(|e.val|)
  }

  /** Keys strictly increase from above prev, unless the first entry is still open. */
  predicate ValidEntries(es: seq<Entry>, first: bool, prev: nat) {
    |es| == 0
    || (ValidEntry(es[0]) && (first || es[0].key > prev) && ValidEntries(es[1..], false, es[0].key))
  }

  function RenderEntry(e: Entry): Bytes
    requires e.key < UINT64_RANGE
  {
    EncodeHead(MAJOR_UINT, e.key) + e.val
  }

  function RenderEntries(es: seq<Entry>): Bytes
    requires forall e :: e in es ==> e.key < UINT64_RANGE
  {
    if |es| == 0 then [] else RenderEntry(es[0]) + RenderEntries(es[1..])
  }

  lemma {:induction false} ValidKeysInRange(es: seq<Entry>, first: bool, prev: nat)
    requires ValidEntries(es, first, prev)
    ensures forall e :: e in es ==> e.key < UINT64_RANGE
    decreases |es|
  {
    if |es| > 0 {
      ValidKeysInRange(es[1..], false, es[0].key);
      assert es == [es[0]] + es[1..];
    }
  }

  /** What a well-formed map with these entries looks like on the wire. */
  ghost predicate Renders(b: Bytes, es: seq<Entry>) {
    && |es| <= MAX_ITEMS
    && ValidEntries(es, true, 0)
    && (forall e :: e in es ==> e.key < UINT64_RANGE)
    && b == EncodeHead(MAJOR_MAP, |es|) + RenderEntries(es)
  }

  /** The entry at the front of b, with the bytes after it. */
  function ReadEntry(b: Bytes, first: bool, prev: nat): (r: Result<(Entry, nat)>)
    ensures r.Ok? ==> r.value.1 <= |b|
  {
    var hd :- ReadHead(b);
    ReadHeadSound(b);
    if hd.major != MAJOR_UINT then Err(MalformedObject)
    else if !first && hd.arg <= prev then Err(MalformedObject)
    else
      var vn :- SkipValue(b[hd.n..], 1);
      Ok((Entry(hd.arg, b[hd.n..hd.n + vn]), hd.n + vn))
  }

  function ReadEntries(b: Bytes, count: nat, first: bool, prev: nat): Result<seq<Entry>> {
    if count == 0 then
      if |b| == 0 then Ok([]) else Err(MalformedObject)
    else
      var e :- ReadEntry(b, first, prev);
      var rest :- ReadEntries(b[e.1..], count - 1, false, e.0.key);
      Ok([e.0] + rest)
  }

  function ParseMap(b: Bytes): Result<seq<Entry>> {
    var hd :- ReadHead(b);
    ReadHeadSound(b);
    if hd.major != MAJOR_MAP then Err(MalformedObject)
    else if hd.arg > MAX_ITEMS then Err(MalformedObject)
    else ReadEntries(b[hd.n..], hd.arg, true, 0)
  }

  /** A list prepended to a successful result. */
  function Prepended<T>(out: seq<T>, r: Result<seq<T>>): Result<seq<T>> {
    if r.Ok? then Ok(out + r.value) else r
  }

  lemma ReadEntriesUnfold(b: Bytes, count: nat, first: bool, prev: nat)
    ensures ReadEntries(b, count, first, prev) ==
            if count == 0 then if |b| == 0 then Ok([]) else Err(MalformedObject)
            else if ReadEntry(b, first, prev).Err? then Err(ReadEntry(b, first, prev).error)
            else
              var (e, n) := ReadEntry(b, first, prev).value;
              Prepended([e], ReadEntries(b[n..], count - 1, false, e.key))
  {
    hide ReadEntry;
  }

  lemma PrependTwice<T>(out: seq<T>, e: T, r: Result<seq<T>>)
    ensures Prepended(out, Prepended([e], r)) == Prepended(out + [e], r)
  {
    if r.Ok? {
      assert out + ([e] + r.value) == out + [e] + r.value;
    }
  }

  method ParseUintKeyedMap(b: Bytes) returns (r: Result<seq<Entry>>)
    ensures r == ParseMap(b)
  {
    hide ReadHead, SkipValue, ReadEntries, StartsWith;
    var head := ReadHead(b);
    if head.Err? {
      return Err(head.error);
    }
    var Head(major, arg, n) := head.value;
    HeadFits(b);
    if major != MAJOR_MAP {
      return Err(MalformedObject);
    }
    if arg > MAX_ITEMS {
      return Err(MalformedObject);
    }
    var out: seq<Entry> := [];
    var off := n;
    var prev := 0;
    var i := 0;
    PrependNothing(ParseMap(b));
    while i < arg
      invariant 0 <= i <= arg && n <= off <= |b|
      invariant ParseMap(b) == Prepended(out, ReadEntries(b[off..], arg - i, i == 0, prev))
    {
      ReadEntriesUnfold(b[off..], arg - i, i == 0, prev);
      var khead := ReadHead(b[off..]);
      if khead.Err? {
        return Err(khead.error);
      }
      var Head(kMajor, key, kn) := khead.value;
      HeadFits(b[off..]);
      if kMajor != MAJOR_UINT {
        return Err(MalformedObject);
      }
      if i > 0 && key <= prev {
        return Err(MalformedObject);
      }
      SliceSlice(b, off, kn, kn);
      var vn := ScanValue(b[off + kn..], 1);
      if vn.Err? {
        return Err(vn.error);
      }
      var entry := Entry(key, b[off + kn..off + kn + vn.value]);
      SliceSlice(b, off, kn, kn + vn.value);
      PrependTwice(out, entry, ReadEntries(b[off + kn + vn.value..], arg - i - 1, false, key));
      prev := key;
      out := out + [entry];
      off := off + kn + vn.value;
      i := i + 1;
    }
    ReadEntriesUnfold(b[off..], 0, arg == 0, prev);
    if off != |b| {
      return Err(MalformedObject);
    }
    assert out + [] == out;
    return Ok(out);
  }

  lemma PrependNothing<T>(r: Result<seq<T>>)
    ensures Prepended([], r) == r
  {
    if r.Ok? {
      assert [] + r.value == r.value;
    }
  }

  lemma HeadFits(b: Bytes)
    requires ReadHead(b).Ok?
    ensures 1 <= ReadHead(b).value.n <= |b|
  {
    ReadHeadSound(b);
  }

  /** An entry is read from b exactly when b starts with its rendering. */
  lemma ReadEntryExact(b: Bytes, first: bool, prev: nat, e: Entry, n: nat)
    ensures ReadEntry(b, first, prev) == Ok((e, n)) <==>
            && ValidEntry(e) && (first || e.key > prev)
            && n == |RenderEntry(e)| <= |b| && b[..n] == RenderEntry(e)
  {
    hide ReadHead, SkipValue, EncodeHead;
    if ReadEntry(b, first, prev) == Ok((e, n)) {
      var hd := ReadHead(b).value;
      ReadHeadSound(b);
      var vn := SkipValue(b[hd.n..], 1).value;
      assert e.val == b[hd.n..][..vn];
      CborGrammar.ScanIsLocal(b[hd.n..], e.val, 1, vn);
      assert b[..n] == b[..hd.n] + e.val;
    }
    if ValidEntry(e) && (first || e.key > prev) && n == |RenderEntry(e)| <= |b| && b[..n] == RenderEntry(e) {
      var kn := |EncodeHead(MAJOR_UINT, e.key)|;
      assert b[..kn] == RenderEntry(e)[..kn] == EncodeHead(MAJOR_UINT, e.key);
      ReadHeadComplete(b, Head(MAJOR_UINT, e.key, kn));
      assert b[kn..n] == e.val;
      assert b[kn..][..|e.val|] == e.val;
      CborGrammar.ScanIsLocal(e.val, b[kn..], 1, |e.val|);
    }
  }

  lemma {:induction false} ReadEntriesSound(b: Bytes, count: nat, first: bool, prev: nat)
    requires ReadEntries(b, count, first, prev).Ok?
    ensures var es := ReadEntries(b, count, first, prev).value;
            && |es| == count && ValidEntries(es, first, prev)
            && (forall e :: e in es ==> e.key < UINT64_RANGE) && RenderEntries(es) == b
    decreases count
  {
    hide ReadEntry, ReadEntries, RenderEntry, ValidEntry;
    ReadEntriesUnfold(b, count, first, prev);
    var es := ReadEntries(b, count, first, prev).value;
    if count > 0 {
      var (e, n) := ReadEntry(b, first, prev).value;
      ReadEntryExact(b, first, prev, e, n);
      ReadEntriesSound(b[n..], count - 1, false, e.key);
      assert es[1..] == ReadEntries(b[n..], count - 1, false, e.key).value;
      assert b == b[..n] + b[n..];
      ValidKeysInRange(es, first, prev);
    }
  }

  lemma {:induction false} ReadEntriesComplete(es: seq<Entry>, first: bool, prev: nat)
    requires ValidEntries(es, first, prev) && forall e :: e in es ==> e.key < UINT64_RANGE
    ensures ReadEntries(RenderEntries(es), |es|, first, prev) == Ok(es)
    decreases |es|
  {
    hide ReadEntry, ReadEntries, RenderEntry, ValidEntry;
    var b := RenderEntries(es);
    ReadEntriesUnfold(b, |es|, first, prev);
    if |es| > 0 {
      var n := |RenderEntry(es[0])|;
      assert b[..n] == RenderEntry(es[0]) && b[n..] == RenderEntries(es[1..]);
      ReadEntryExact(b, first, prev, es[0], n);
      ReadEntriesComplete(es[1..], false, es[0].key);
      assert es == [es[0]] + es[1..];
    }
  }

  /** Parsing is lossless and strict: it succeeds on exactly the renderings. */
  lemma ParseMapExact(b: Bytes, es: seq<Entry>)
    ensures ParseMap(b) == Ok(es) <==> Renders(b, es)
  {
    hide ReadHead, EncodeHead, ReadEntries, ValidEntries, RenderEntries;
    if ParseMap(b) == Ok(es) {
      ReadHeadSound(b);
      var hd := ReadHead(b).value;
      ReadEntriesSound(b[hd.n..], hd.arg, true, 0);
      assert b == b[..hd.n] + b[hd.n..];
    }
    if Renders(b, es) {
      var n := |EncodeHead(MAJOR_MAP, |es|)|;
      ReadHeadAppend(MAJOR_MAP, |es|, RenderEntries(es));
      assert b[n..] == RenderEntries(es);
      ReadEntriesComplete(es, true, 0);
    }
  }

  /** Keys are strictly increasing, hence distinct. */
  lemma {:induction false} KeysIncrease(es: seq<Entry>, first: bool, prev: nat, i: nat, j: nat)
    requires ValidEntries(es, first, prev) && i < j < |es|
    ensures es[i].key < es[j].key
    decreases |es|, j
  {
    hide ValidEntry;
    if i > 0 {
      KeysIncrease(es[1..], false, es[0].key, i - 1, j - 1);
    } else if j > 1 {
      KeysIncrease(es[1..], false, es[0].key, 0, j - 1);
    }
  }

  // ------------------------------------------------------------- arrays of addresses

  predicate Supported(a: Address) {
    a[0] == HASH_PREFIX
  }

  function RenderAddress(a: Address): (b: Bytes)
    ensures |b| == 35
  {
    EncodeHead(MAJOR_BYTES, 33) + a
  }

  function RenderAddresses(addrs: seq<Address>): Bytes {
    if |addrs| == 0 then [] else RenderAddress(addrs[0]) + RenderAddresses(addrs[1..])
  }

  /** A non-empty array of supported addresses, as rendered. */
  ghost predicate RendersAddresses(b: Bytes, addrs: seq<Address>) {
    && 0 < |addrs| <= MAX_ITEMS
    && (forall a :: a in addrs ==> Supported(a))
    && b == EncodeHead(MAJOR_ARRAY, |addrs|) + RenderAddresses(addrs)
  }

  function ReadAddress(b: Bytes): (r: Result<(Address, nat)>)
    ensures r.Ok? ==> r.value.1 <= |b|
  {
    var hd :- ReadHead(b);
    ReadHeadSound(b);
    if hd.major != MAJOR_BYTES then Err(MalformedObject)
    else if hd.arg != 33 || |b| - hd.n < 33 then Err(MalformedObject)
    else
      var a: Address := b[hd.n..hd.n + 33];
      if !Supported(a) then Err(BadAddr) else Ok((a, hd.n + 33))
  }

  function ReadAddresses(b: Bytes, count: nat): Result<seq<Address>> {
    if count == 0 then
      if |b| == 0 then Ok([]) else Err(MalformedObject)
    else
      var a :- ReadAddress(b);
      var rest :- ReadAddresses(b[a.1..], count - 1);
      Ok([a.0] + rest)
  }

  function ParseAddresses(b: Bytes): Result<seq<Address>> {
    var hd :- ReadHead(b);
    ReadHeadSound(b);
    if hd.major != MAJOR_ARRAY then Err(MalformedObject)
    else if hd.arg == 0 then Err(MalformedObject)
    else if hd.arg > MAX_ITEMS then Err(MalformedObject)
    else ReadAddresses(b[hd.n..], hd.arg)
  }

  lemma ReadAddressesUnfold(b: Bytes, count: nat)
    ensures ReadAddresses(b, count) ==
            if count == 0 then if |b| == 0 then Ok([]) else Err(MalformedObject)
            else if ReadAddress(b).Err? then Err(ReadAddress(b).error)
            else
              var (a, n) := ReadAddress(b).value;
              Prepended([a], ReadAddresses(b[n..], count - 1))
  {
    hide ReadAddress;
  }

  method ParseAddrArray(b: Bytes) returns (r: Result<seq<Address>>)
    ensures r == ParseAddresses(b)
  {
    hide ReadHead, ReadAddresses, StartsWith;
    var head := ReadHead(b);
    if head.Err? {
      return Err(head.error);
    }
    var Head(major, arg, n) := head.value;
    HeadFits(b);
    if major != MAJOR_ARRAY {
      return Err(MalformedObject);
    }
    if arg == 0 {
      return Err(MalformedObject);
    }
    if arg > MAX_ITEMS {
      return Err(MalformedObject);
    }
    var out: seq<Address> := [];
    var off := n;
    var i := 0;
    PrependNothing(ParseAddresses(b));
    while i < arg
      invariant 0 <= i <= arg && n <= off <= |b|
      invariant ParseAddresses(b) == Prepended(out, ReadAddresses(b[off..], arg - i))
    {
      ReadAddressesUnfold(b[off..], arg - i);
      var ehead := ReadHead(b[off..]);
      if ehead.Err? {
        return Err(ehead.error);
      }
      var Head(eMajor, eLen, en) := ehead.value;
      HeadFits(b[off..]);
      if eMajor != MAJOR_BYTES {
        return Err(MalformedObject);
      }
      off := off + en;
      if eLen != 33 || |b| - off < eLen {
        return Err(MalformedObject);
      }
      var a: Address := b[off..off + 33];
      SliceSlice(b, off - en, en, en + 33);
      if a[0] != HASH_PREFIX {
        return Err(BadAddr);
      }
      PrependTwice(out, a, ReadAddresses(b[off + 33..], arg - i - 1));
      out := out + [a];
      off := off + 33;
      i := i + 1;
    }
    ReadAddressesUnfold(b[off..], 0);
    if off != |b| {
      return Err(MalformedObject);
    }
    assert out + [] == out;
    return Ok(out);
  }

  lemma ReadAddressExact(b: Bytes, a: Address, n: nat)
    ensures ReadAddress(b) == Ok((a, n)) <==> Supported(a) && n == 35 <= |b| && b[..n] == RenderAddress(a)
  {
    hide ReadHead;
    if ReadAddress(b) == Ok((a, n)) {
      var hd := ReadHead(b).value;
      ReadHeadSound(b);
      assert b[..n] == b[..hd.n] + b[hd.n..n];
    }
    if Supported(a) && n == 35 <= |b| && b[..n] == RenderAddress(a) {
      assert b[..2] == RenderAddress(a)[..2] == EncodeHead(MAJOR_BYTES, 33);
      ReadHeadComplete(b, Head(MAJOR_BYTES, 33, 2));
      assert b[2..35] == b[..35][2..] == a;
    }
  }

  lemma {:induction false} ReadAddressesSound(b: Bytes, count: nat)
    requires ReadAddresses(b, count).Ok?
    ensures var addrs := ReadAddresses(b, count).value;
            |addrs| == count && (forall a :: a in addrs ==> Supported(a)) && RenderAddresses(addrs) == b
    decreases count
  {
    hide ReadAddress, ReadAddresses, RenderAddress, Supported;
    ReadAddressesUnfold(b, count);
    if count > 0 {
      var addrs := ReadAddresses(b, count).value;
      var (a, n) := ReadAddress(b).value;
      ReadAddressExact(b, a, n);
      ReadAddressesSound(b[n..], count - 1);
      assert addrs[1..] == ReadAddresses(b[n..], count - 1).value;
      assert b == b[..n] + b[n..];
    }
  }

  lemma {:induction false} ReadAddressesComplete(addrs: seq<Address>)
    requires forall a :: a in addrs ==> Supported(a)
    ensures ReadAddresses(RenderAddresses(addrs), |addrs|) == Ok(addrs)
    decreases |addrs|
  {
    hide ReadAddress, ReadAddresses, RenderAddress, Supported;
    var b := RenderAddresses(addrs);
    ReadAddressesUnfold(b, |addrs|);
    if |addrs| > 0 {
      assert b[..35] == RenderAddress(addrs[0]) && b[35..] == RenderAddresses(addrs[1..]);
      ReadAddressExact(b, addrs[0], 35);
      ReadAddressesComplete(addrs[1..]);
      assert addrs == [addrs[0]] + addrs[1..];
    }
  }

  /** The chunk list is read from exactly its rendering. */
  lemma ParseAddressesExact(b: Bytes, addrs: seq<Address>)
    ensures ParseAddresses(b) == Ok(addrs) <==> RendersAddresses(b, addrs)
  {
    hide ReadHead, EncodeHead, ReadAddresses, RenderAddresses, Supported;
    if ParseAddresses(b) == Ok(addrs) {
      ReadHeadSound(b);
      var hd := ReadHead(b).value;
      ReadAddressesSound(b[hd.n..], hd.arg);
      assert b == b[..hd.n] + b[hd.n..];
    }
    if RendersAddresses(b, addrs) {
      var n := |EncodeHead(MAJOR_ARRAY, |addrs|)|;
      ReadHeadAppend(MAJOR_ARRAY, |addrs|, RenderAddresses(addrs));
      assert b[n..] == RenderAddresses(addrs);
      ReadAddressesComplete(addrs);
    }
  }
}
