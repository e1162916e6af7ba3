/**
 A grammar of CBOR data items, independent of the scanner, and what the scanner's
 answers mean in terms of it. Map arguments of 2^63 and above wrap in the scanner, so the
 grammar keeps the claimed argument of a container apart from its items; and the scanner
 steps over reserved simple values, so the grammar has those too, as ill-formed items.
 */
module CborGrammar {
  import opened Basics
  import opened Cbor

  datatype Item =
    | Atom(major: nat, arg: nat)                       // integers, simple values, floats
    | Text(major: nat, payload: Bytes)                 // byte and text strings
    | Group(major: nat, arg: nat, items: seq<Item>)    // arrays and maps
    | Tagged(tag: nat, item: Item)

  /** Major types and 64-bit arguments are as the constructors say. */
  ghost predicate InRange(i: Item) {
    match i
    case Atom(major, arg) => (major == 0 || major == 1 || major == 7) && arg < UINT64_RANGE
    case Text(major, payload) => (major == 2 || major == 3) && |payload| < UINT64_RANGE
    case Group(major, arg, items) =>
      (major == 4 || major == 5) && arg < UINT64_RANGE && forall c :: c in items ==> InRange(c)
    case Tagged(tag, item) => tag < UINT64_RANGE && InRange(item)
  }

  /** Every container holds the number of items the scanner counts for its head. */
  ghost predicate ScanCounted(i: Item) {
    match i
    case Group(major, arg, items) =>
      |items| == ItemCount(major, arg) && forall c :: c in items ==> ScanCounted(c)
    case Tagged(_, item) => ScanCounted(item)
    case _ => true
  }

  /**
   Every container holds the number of items section 3 of RFC 8949 asks for, and no simple
   value is one of the two-byte forms section 3.3 reserves (0xf8 and a byte below 0x20).
   */
  ghost predicate WellFormed(i: Item) {
    match i
    case Group(major, arg, items) =>
      |items| == (if major == 5 then 2 * arg else arg) && forall c :: c in items ==> WellFormed(c)
    case Tagged(_, item) => WellFormed(item)
    case Atom(major, arg) => major == 7 ==> !ReservedSimple(arg)
    case Text(_, _) => true
  }

  predicate ReservedSimple(arg: nat) {
    24 <= arg < 32
  }

  /** Nesting and container sizes within the scanner's bounds. */
  ghost predicate Fits(i: Item, depth: nat) {
    && depth <= MAX_DEPTH
    && match i
       case Group(_, _, items) => |items| <= MAX_ITEMS && forall c :: c in items ==> Fits(c, depth + 1)
       case Tagged(_, item) => Fits(item, depth + 1)
       case _ => true
  }

  ghost predicate Scannable(i: Item, depth: nat) {
    InRange(i) && ScanCounted(i) && Fits(i, depth)
  }

  ghost function Encode(i: Item): (b: Bytes)
    requires InRange(i)
    ensures |b| >= 1
    decreases i, 1
  {
    match i
    case Atom(major, arg) => EncodeHead(major, arg)
    case Text(major, payload) => EncodeHead(major, |payload|) + payload
    case Group(major, arg, items) => EncodeHead(major, arg) + EncodeAll(items)
    case Tagged(tag, item) => EncodeHead(6, tag) + Encode(item)
  }

  ghost function EncodeAll(items: seq<Item>): (b: Bytes)
    requires forall c :: c in items ==> InRange(c)
    ensures |b| >= |items|
    decreases items, 0
  {
    if |items| == 0 then [] else Encode(items[0]) + EncodeAll(items[1..])
  }

  /** The head an item starts with. */
  ghost function HeadOf(i: Item): (hd: Head)
    requires InRange(i)
    ensures hd.major < 8 && hd.arg < UINT64_RANGE && hd.n == |EncodeHead(hd.major, hd.arg)|
  {
    match i
    case Atom(major, arg) => Head(major, arg, |EncodeHead(major, arg)|)
    case Text(major, payload) => Head(major, |payload|, |EncodeHead(major, |payload|)|)
    case Group(major, arg, _) => Head(major, arg, |EncodeHead(major, arg)|)
    case Tagged(tag, _) => Head(6, tag, |EncodeHead(6, tag)|)
  }

  /** What follows the head. */
  ghost function Tail(i: Item): Bytes
    requires InRange(i)
  {
    match i
    case Atom(_, _) => []
    case Text(_, payload) => payload
    case Group(_, _, items) => EncodeAll(items)
    case Tagged(_, item) => Encode(item)
  }

  lemma EncodeIsHeadTail(i: Item)
    requires InRange(i)
    ensures Encode(i) == EncodeHead(HeadOf(i).major, HeadOf(i).arg) + Tail(i)
  {
    hide EncodeHead;
  }

  lemma EncodeSplit(i: Item, rest: Bytes)
    requires InRange(i)
    ensures Encode(i) == EncodeHead(HeadOf(i).major, HeadOf(i).arg) + Tail(i)
    ensures |Encode(i)| == HeadOf(i).n + |Tail(i)|
    ensures (Encode(i) + rest)[HeadOf(i).n..] == Tail(i) + rest
    ensures ReadHead(Encode(i) + rest) == Ok(HeadOf(i))
  {
    hide EncodeHead, ReadHead, Encode, HeadOf, Tail;
    EncodeIsHeadTail(i);
    var head := EncodeHead(HeadOf(i).major, HeadOf(i).arg);
    assert Encode(i) + rest == head + (Tail(i) + rest);
    ReadHeadAppend(HeadOf(i).major, HeadOf(i).arg, Tail(i) + rest);
  }

  // ------------------------------------------------------------ scanner and grammar

  /** The scanner finds the end of every item within its bounds. */
  lemma {:induction false} ScanAccepts(i: Item, rest: Bytes, depth: nat)
    requires Scannable(i, depth)
    ensures SkipValue(Encode(i) + rest, depth) == Ok(|Encode(i)|)
    decreases i, 1
  {
    hide SkipValue, SkipItems, ReadHead, EncodeHead, Encode, EncodeAll;
    var b := Encode(i) + rest;
    EncodeSplit(i, rest);
    SkipValueUnfold(b, depth);
    match i {
      case Atom(major, arg) =>
        SimpleLength(b);
      case Text(major, payload) =>
      case Group(major, arg, items) =>
        ScanAcceptsAll(items, rest, depth + 1);
      case Tagged(tag, item) =>
        ScanAccepts(item, rest, depth + 1);
    }
  }

  lemma {:induction false} ScanAcceptsAll(items: seq<Item>, rest: Bytes, depth: nat)
    requires forall c :: c in items ==> InRange(c) && Scannable(c, depth)
    ensures SkipItems(EncodeAll(items) + rest, |items|, depth) == Ok(|EncodeAll(items)|)
    decreases items, 0
  {
    hide SkipValue, SkipItems, Encode;
    var b := EncodeAll(items) + rest;
    SkipItemsUnfold(b, |items|, depth);
    if |items| > 0 {
      var more := EncodeAll(items[1..]) + rest;
      assert b == Encode(items[0]) + more;
      ScanAccepts(items[0], more, depth);
      assert b[|Encode(items[0])|..] == more;
      ScanAcceptsAll(items[1..], rest, depth);
    }
  }

  /** Whatever the scanner steps over is one item of the grammar. */
  lemma {:induction false} ScanParses(b: Bytes, depth: nat) returns (i: Item)
    requires SkipValue(b, depth).Ok?
    ensures Scannable(i, depth) && Encode(i) == b[..SkipValue(b, depth).value]
    decreases Remaining(depth), 0, 0
  {
    hide SkipValue, SkipItems, ReadHead, EncodeHead, EncodeAll, Encode, StartsWith;
    SkipValueUnfold(b, depth);
    ReadHeadSound(b);
    HeadBounds(b);
    SimpleLength(b);
    var hd, n := ReadHead(b).value, SkipValue(b, depth).value;
    if hd.major == 2 || hd.major == 3 {
      i := Text(hd.major, b[hd.n..n]);
    } else if hd.major == 4 || hd.major == 5 {
      var items := ScanParsesAll(b[hd.n..], ItemCount(hd.major, hd.arg), depth + 1);
      i := Group(hd.major, hd.arg, items);
    } else if hd.major == 6 {
      var item := ScanParses(b[hd.n..], depth + 1);
      i := Tagged(hd.arg, item);
    } else {
      i := Atom(hd.major, hd.arg);
    }
    Reassembled(b, hd, n, i);
  }

  lemma HeadBounds(b: Bytes)
    requires ReadHead(b).Ok?
    ensures var hd := ReadHead(b).value;
            hd.major < 8 && hd.arg < UINT64_RANGE && hd.n == |EncodeHead(hd.major, hd.arg)| <= |b|
  {
    ReadHeadSound(b);
    hide ReadHead, EncodeHead;
  }

  /** An item whose head and tail are those of the input is the input up to its end. */
  lemma Reassembled(b: Bytes, hd: Head, n: nat, i: Item)
    requires InRange(i) && StartsWith(b, hd) && hd.n <= n <= |b|
    requires HeadOf(i) == hd && Tail(i) == b[hd.n..n]
    ensures Encode(i) == b[..n]
  {
    hide EncodeHead, Encode, HeadOf, Tail;
    EncodeIsHeadTail(i);
    assert b[..n] == b[..hd.n] + b[hd.n..n];
  }

  lemma {:induction false} ScanParsesAll(b: Bytes, count: nat, depth: nat) returns (items: seq<Item>)
    requires SkipItems(b, count, depth).Ok?
    ensures |items| == count && forall c :: c in items ==> InRange(c) && Scannable(c, depth)
    ensures EncodeAll(items) == b[..SkipItems(b, count, depth).value]
    decreases Remaining(depth), 1, count
  {
    hide SkipValue, SkipItems, Encode;
    SkipItemsUnfold(b, count, depth);
    if count == 0 {
      items := [];
    } else {
      var m := SkipValue(b, depth).value;
      var first := ScanParses(b, depth);
      var others := ScanParsesAll(b[m..], count - 1, depth);
      items := [first] + others;
      assert items[1..] == others;
      var n := SkipItems(b[m..], count - 1, depth).value;
      assert b[..m + n] == b[..m] + b[m..][..n];
    }
  }

  /** The scanner's answer depends only on the bytes it steps over. */
  lemma ScanIsLocal(b: Bytes, b': Bytes, depth: nat, n: nat)
    requires SkipValue(b, depth) == Ok(n) && n <= |b'| && b'[..n] == b[..n]
    ensures SkipValue(b', depth) == Ok(n)
  {
    hide SkipValue, Encode;
    var i := ScanParses(b, depth);
    assert b' == Encode(i) + b'[n..];
    ScanAccepts(i, b'[n..], depth);
  }

  /** No proper prefix of an item is an item. */
  lemma ScanIsPrefixFree(b: Bytes, depth: nat, m: nat)
    requires SkipValue(b, depth).Ok? && m < SkipValue(b, depth).value
    ensures SkipValue(b[..m], depth).Err?
  {
    if SkipValue(b[..m], depth).Ok? {
      var k := SkipValue(b[..m], depth).value;
      assert b[..k] == b[..m][..k];
      ScanIsLocal(b[..m], b, depth, k);
    }
  }

  // -------------------------------------------------------------------- uniqueness

  /** A byte string starts with at most one scan-counted item. */
  lemma {:induction false} EncodeUnique(i: Item, j: Item, r: Bytes, r': Bytes)
    requires InRange(i) && InRange(j) && ScanCounted(i) && ScanCounted(j)
    requires Encode(i) + r == Encode(j) + r'
    ensures i == j && r == r'
    decreases i, 1
  {
    hide EncodeHead, ReadHead, Encode, EncodeAll;
    EncodeSplit(i, r);
    EncodeSplit(j, r');
    assert Tail(i) + r == Tail(j) + r';
    match i {
      case Atom(_, _) =>
      case Text(_, p) =>
        assert p == (Tail(i) + r)[..|p|] && j.payload == (Tail(j) + r')[..|p|];
        assert r == (Tail(i) + r)[|p|..] && r' == (Tail(j) + r')[|p|..];
      case Group(_, _, items) =>
        EncodeAllUnique(items, j.items, r, r');
      case Tagged(_, item) =>
        EncodeUnique(item, j.item, r, r');
    }
  }

  lemma {:induction false} EncodeAllUnique(s: seq<Item>, t: seq<Item>, r: Bytes, r': Bytes)
    requires |s| == |t|
    requires forall c :: c in s ==> InRange(c) && ScanCounted(c)
    requires forall c :: c in t ==> InRange(c) && ScanCounted(c)
    requires EncodeAll(s) + r == EncodeAll(t) + r'
    ensures s == t && r == r'
    decreases s, 0
  {
    hide Encode, InRange, ScanCounted;
    if |s| == 0 {
      assert EncodeAll(s) + r == r && EncodeAll(t) + r' == r';
    } else {
      var x, y := EncodeAll(s[1..]) + r, EncodeAll(t[1..]) + r';
      assert EncodeAll(s) + r == Encode(s[0]) + x && EncodeAll(t) + r' == Encode(t[0]) + y;
      EncodeUnique(s[0], t[0], x, y);
      EncodeAllUnique(s[1..], t[1..], r, r');
    }
  }

  // ------------------------------------------------------ what the scanner lets through

  const HALF_RANGE: nat := 0x8000_0000_0000_0000

  /** No head the scan reaches is a map's whose argument wraps when doubled, or a reserved simple value's. */
  predicate HeadsFit(b: Bytes, depth: nat)
    requires SkipValue(b, depth).Ok?
    decreases Remaining(depth), 0, 0
  {
    SkipValueUnfold(b, depth);
    var hd := ReadHead(b).value;
    if hd.major == MAJOR_ARRAY || hd.major == MAJOR_MAP then
      && (hd.major == MAJOR_MAP ==> hd.arg < HALF_RANGE)
      && HeadsFitAll(b[hd.n..], ItemCount(hd.major, hd.arg), depth + 1)
    else if hd.major == 6 then HeadsFit(b[hd.n..], depth + 1)
    else hd.major == 7 ==> !ReservedSimple(hd.arg)
  }

  predicate HeadsFitAll(b: Bytes, items: nat, depth: nat)
    requires SkipItems(b, items, depth).Ok?
    decreases Remaining(depth), 1, items
  {
    items == 0
    || (HeadsFit(b, depth) && HeadsFitAll(b[SkipValue(b, depth).value..], items - 1, depth))
  }

  lemma {:induction false} FitIffWellFormed(i: Item, rest: Bytes, depth: nat)
    requires Scannable(i, depth) && SkipValue(Encode(i) + rest, depth).Ok?
    ensures HeadsFit(Encode(i) + rest, depth) <==> WellFormed(i)
    decreases i, 1
  {
    hide SkipValue, SkipItems, ReadHead, EncodeHead, Encode, EncodeAll, HeadsFitAll;
    EncodeSplit(i, rest);
    SkipValueUnfold(Encode(i) + rest, depth);
    match i {
      case Group(major, arg, items) =>
        ScanAcceptsAll(items, rest, depth + 1);
        FitAllIffWellFormed(items, rest, depth + 1);
      case Tagged(_, item) =>
        ScanAccepts(item, rest, depth + 1);
        FitIffWellFormed(item, rest, depth + 1);
      case _ =>
    }
  }

  lemma {:induction false} FitAllIffWellFormed(items: seq<Item>, rest: Bytes, depth: nat)
    requires forall c :: c in items ==> InRange(c) && Scannable(c, depth)
    requires SkipItems(EncodeAll(items) + rest, |items|, depth).Ok?
    ensures HeadsFitAll(EncodeAll(items) + rest, |items|, depth) <==> forall c :: c in items ==> WellFormed(c)
    decreases items, 0
  {
    hide SkipValue, SkipItems, Encode, HeadsFit;
    if |items| > 0 {
      var more := EncodeAll(items[1..]) + rest;
      var b := EncodeAll(items) + rest;
      assert b == Encode(items[0]) + more;
      ScanAccepts(items[0], more, depth);
      assert b[|Encode(items[0])|..] == more;
      ScanAcceptsAll(items[1..], rest, depth);
      FitIffWellFormed(items[0], more, depth);
      FitAllIffWellFormed(items[1..], rest, depth);
      assert items == [items[0]] + items[1..];
    }
  }

  /** Below 2^64 bytes no container of a well-counted item can wrap. */
  lemma {:induction false} ShortIsScanCounted(i: Item)
    requires InRange(i) && WellFormed(i) && |Encode(i)| < UINT64_RANGE
    ensures ScanCounted(i)
    decreases i, 1
  {
    hide EncodeHead;
    match i {
      case Group(major, arg, items) =>
        ShortAreScanCounted(items);
      case Tagged(_, item) =>
        ShortIsScanCounted(item);
      case _ =>
    }
  }

  lemma {:induction false} ShortAreScanCounted(items: seq<Item>)
    requires forall c :: c in items ==> InRange(c) && WellFormed(c)
    requires |EncodeAll(items)| < UINT64_RANGE
    ensures forall c :: c in items ==> ScanCounted(c)
    decreases items, 0
  {
    hide Encode, InRange, WellFormed, ScanCounted;
    if |items| > 0 {
      ShortIsScanCounted(items[0]);
      ShortAreScanCounted(items[1..]);
      assert items == [items[0]] + items[1..];
    }
  }

  /** b is one well-formed data item in the sense of section 3 of RFC 8949, its heads shortest. */
  ghost predicate OneDataItem(b: Bytes) {
    exists i :: InRange(i) && WellFormed(i) && Encode(i) == b
  }

  /**
   What is skipped is one well-formed data item exactly when no map argument reached wraps
   and no reserved simple value is reached.
   */
  lemma SkippedIsOneItem(b: Bytes, depth: nat)
    requires SkipValue(b, depth).Ok? && |b| < UINT64_RANGE
    ensures OneDataItem(b[..SkipValue(b, depth).value]) <==> HeadsFit(b, depth)
  {
    hide SkipValue, Encode, WellFormed, ScanCounted, InRange, HeadsFit;
    var n := SkipValue(b, depth).value;
    var parsed := ScanParses(b, depth);
    assert b == Encode(parsed) + b[n..];
    FitIffWellFormed(parsed, b[n..], depth);
    if OneDataItem(b[..n]) {
      var i :| InRange(i) && WellFormed(i) && Encode(i) == b[..n];
      ShortIsScanCounted(i);
      EncodeUnique(i, parsed, [], []);
    }
  }

  /** The claim does fail: a lone map head claiming 2^63 pairs is skipped as a whole item. */
  lemma WrappedMapIsSkipped()
    ensures var b := [0xbb, 0x80, 0, 0, 0, 0, 0, 0, 0];
            SkipValue(b, 0) == Ok(9) && !HeadsFit(b, 0) && !OneDataItem(b)
  {
    var b: Bytes := [0xbb, 0x80, 0, 0, 0, 0, 0, 0, 0];
    var i := Group(5, HALF_RANGE, []);
    assert EncodeHead(5, HALF_RANGE) == b by {
      HalfRangeBytes();
    }
    assert Encode(i) == b && Scannable(i, 0);
    ScanAccepts(i, [], 0);
    assert b + [] == b;
    FitIffWellFormed(i, [], 0);
    SkippedIsOneItem(b, 0);
    assert b[..9] == b;
  }

  /** So does every reserved simple value: each is skipped, and none is well-formed. */
  lemma ReservedSimpleIsSkipped(x: byte)
    requires ReservedSimple(x)
    ensures var b := [0xf8, x]; SkipValue(b, 0) == Ok(2) && !HeadsFit(b, 0) && !OneDataItem(b)
  {
    var b: Bytes := [0xf8, x];
    var i := Atom(7, x);
    assert EncodeHead(7, x) == b;
    assert Encode(i) == b && Scannable(i, 0);
    ScanAccepts(i, [], 0);
    assert b + [] == b;
    FitIffWellFormed(i, [], 0);
    SkippedIsOneItem(b, 0);
    assert b[..2] == b;
  }

  lemma HalfRangeBytes()
    ensures ToBigEndian(HALF_RANGE, 8) == [0x80, 0, 0, 0, 0, 0, 0, 0]
  {
    assert ToBigEndian(0x80, 1) == [0x80];
    assert ToBigEndian(0x8000, 2) == [0x80, 0];
    assert ToBigEndian(0x80_0000, 3) == [0x80, 0, 0];
    assert ToBigEndian(0x8000_0000, 4) == [0x80, 0, 0, 0];
    assert ToBigEndian(0x80_0000_0000, 5) == [0x80, 0, 0, 0, 0];
    assert ToBigEndian(0x8000_0000_0000, 6) == [0x80, 0, 0, 0, 0, 0];
    assert ToBigEndian(0x80_0000_0000_0000, 7) == [0x80, 0, 0, 0, 0, 0, 0];
  }
}
