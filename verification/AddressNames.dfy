/**
 The text form of a content address, unpadded base64url, its strict parser
 (tunnel/pubcache/addr.go), and the cache's keys (tunnel/pubcache/store.go).
 */
module AddressNames {
  import opened Basics
  import opened Manifest

  type Sextet = x: int | 0 <= x < 64

  const MAX_TEXT: nat := 64

  /** The base64url alphabet, section 5 of RFC 4648. */
  function Letter(x: Sextet): char {
    if x < 26 then 'A' + x as char
    else if x < 52 then 'a' + (x - 26) as char
    else if x < 62 then '0' + (x - 52) as char
    else if x == 62 then '-'
    else '_'
  }

  function Value(c: char): Option<Sextet> {
    if 'A' <= c <= 'Z' then Some((c - 'A') as int)
    else if 'a' <= c <= 'z' then Some((c - 'a') as int + 26)
    else if '0' <= c <= '9' then Some((c - '0') as int + 52)
    else if c == '-' then Some(62)
    else if c == '_' then Some(63)
    else None
  }

  lemma LetterValue(x: Sextet)
    ensures Value(Letter(x)) == Some(x)
    ensures Letter(x) != '\r' && Letter(x) != '\n' && Letter(x) != ':'
  {
  }

  function EncodeGroup(a: byte, b: byte, c: byte): (text: string)
    ensures |text| == 4
  {
    [Letter(a / 4), Letter(a % 4 * 16 + b / 16), Letter(b % 16 * 4 + c / 64), Letter(c % 64)]
  }

  /** Three bytes are four digits to the base of 64, most significant first, each written in the alphabet. */
  lemma GroupMeans(a: byte, b: byte, c: byte, v: Sextet, w: Sextet, x: Sextet, y: Sextet)
    requires 0x1_0000 * a + 0x100 * b + c == 0x4_0000 * v + 0x1000 * w + 0x40 * x + y
    ensures var digits := "ABCDEFGHIJKLMNOPQRSTUVWXYZabcdefghijklmnopqrstuvwxyz0123456789-_";
            EncodeGroup(a, b, c) == [digits[v], digits[w], digits[x], digits[y]]
  {
    LetterIsDigit(v);
    LetterIsDigit(w);
    LetterIsDigit(x);
    LetterIsDigit(y);
    hide Letter;
    assert v == a / 4 && w == a % 4 * 16 + b / 16 && x == b % 16 * 4 + c / 64 && y == c % 64;
  }

  lemma LetterIsDigit(x: Sextet)
    ensures var digits := "ABCDEFGHIJKLMNOPQRSTUVWXYZabcdefghijklmnopqrstuvwxyz0123456789-_"; Letter(x) == digits[x]
  {
    if x < 26 {
      assert forall i: Sextet :: i < 26 ==> Letter(i) == "ABCDEFGHIJKLMNOPQRSTUVWXYZ"[i];
    } else if x < 52 {
      assert forall i: Sextet :: i < 26 ==> Letter(i + 26) == "abcdefghijklmnopqrstuvwxyz"[i];
    } else {
      assert forall i: Sextet :: i < 10 ==> Letter(i + 52) == "0123456789"[i];
    }
  }

  /** Whole three-byte groups, which is all an address has. */
  function Encode(bs: Bytes): (text: string)
    requires |bs| % 3 == 0
    ensures |text| == |bs| / 3 * 4
  {
    if |bs| == 0 then "" else EncodeGroup(bs[0], bs[1], bs[2]) + Encode(bs[3..])
  }

  /** The library's decoder: line breaks skipped, a last partial group allowed, its spare bits ignored. */
  function Decode(text: string): Option<Bytes> {
    DecodeLetters(Significant(text))
  }

  function Significant(text: string): string {
    if |text| == 0 then ""
    else if text[0] == '\r' || text[0] == '\n' then Significant(text[1..])
    else [text[0]] + Significant(text[1..])
  }

  function JoinGroup(v: Sextet, w: Sextet, x: Sextet, y: Sextet): Bytes {
    [v * 4 + w / 16, w % 16 * 16 + x / 4, x % 4 * 64 + y]
  }

  function DecodeLetters(text: string): Option<Bytes> {
    if |text| == 0 then Some([])
    else if |text| == 1 || Value(text[0]).None? || Value(text[1]).None? then None
    else
      var v, w := Value(text[0]).value, Value(text[1]).value;
      if |text| == 2 then Some([v * 4 + w / 16])
      else if Value(text[2]).None? then None
      else
        var x := Value(text[2]).value;
        if |text| == 3 then Some([v * 4 + w / 16, w % 16 * 16 + x / 4])
        else if Value(text[3]).None? || DecodeLetters(text[4..]).None? then None
        else
          Some(JoinGroup(v, w, x, Value(text[3]).value) + DecodeLetters(text[4..]).value)
  }

  lemma GroupRoundTrip(a: byte, b: byte, c: byte)
    ensures JoinGroup(a / 4, a % 4 * 16 + b / 16, b % 16 * 4 + c / 64, c % 64) == [a, b, c]
  {
  }

  lemma {:induction false} EncodedIsSignificant(bs: Bytes)
    requires |bs| % 3 == 0
    ensures Significant(Encode(bs)) == Encode(bs)
    decreases |bs|
  {
    if |bs| > 0 {
      var rest := Encode(bs[3..]);
      var g := EncodeGroup(bs[0], bs[1], bs[2]);
      LetterValue(bs[0] / 4);
      LetterValue(bs[0] % 4 * 16 + bs[1] / 16);
      LetterValue(bs[1] % 16 * 4 + bs[2] / 64);
      LetterValue(bs[2] % 64);
      EncodedIsSignificant(bs[3..]);
      hide Letter, Encode, EncodeGroup;
      FourSignificant(g, rest);
      assert Encode(bs) == g + rest by {
        EncodeStep(bs);
      }
    }
  }

  lemma EncodeStep(bs: Bytes)
    requires |bs| % 3 == 0 && |bs| > 0
    ensures Encode(bs) == EncodeGroup(bs[0], bs[1], bs[2]) + Encode(bs[3..])
  {
  }

  lemma FourSignificant(g: string, rest: string)
    requires |g| == 4 && Significant(rest) == rest
    requires forall i :: 0 <= i < 4 ==> g[i] != '\r' && g[i] != '\n'
    ensures Significant(g + rest) == g + rest
  {
    var s := g + rest;
    assert s[4..] == rest;
    assert s[3..] == [g[3]] + rest;
    assert s[3..][1..] == rest;
    assert s[2..][1..] == s[3..];
    assert s[1..][1..] == s[2..];
    assert Significant(s[3..]) == s[3..];
    assert Significant(s[2..]) == s[2..];
    assert Significant(s[1..]) == s[1..];
  }

  lemma DecodeGroup(g: string, rest: string, v: Sextet, w: Sextet, x: Sextet, y: Sextet)
    requires |g| == 4 && DecodeLetters(rest).Some?
    requires Value(g[0]) == Some(v) && Value(g[1]) == Some(w) && Value(g[2]) == Some(x) && Value(g[3]) == Some(y)
    ensures DecodeLetters(g + rest) == Some(JoinGroup(v, w, x, y) + DecodeLetters(rest).value)
  {
    hide Value, JoinGroup;
    var text := g + rest;
    assert text[0] == g[0] && text[1] == g[1] && text[2] == g[2] && text[3] == g[3] && text[4..] == rest;
  }

  lemma {:induction false} LettersRoundTrip(bs: Bytes)
    requires |bs| % 3 == 0
    ensures DecodeLetters(Encode(bs)) == Some(bs)
    decreases |bs|
  {
    hide DecodeLetters, Value, Letter, JoinGroup;
    if |bs| == 0 {
      assert DecodeLetters("") == Some([]) by {
        DecodeNothing();
      }
    } else {
      var a, b, c := bs[0], bs[1], bs[2];
      LettersRoundTrip(bs[3..]);
      LetterValue(a / 4);
      LetterValue(a % 4 * 16 + b / 16);
      LetterValue(b % 16 * 4 + c / 64);
      LetterValue(c % 64);
      DecodeGroup(EncodeGroup(a, b, c), Encode(bs[3..]), a / 4, a % 4 * 16 + b / 16, b % 16 * 4 + c / 64, c % 64);
      GroupRoundTrip(a, b, c);
      assert bs == [a, b, c] + bs[3..];
    }
  }

  lemma DecodeNothing()
    ensures DecodeLetters("") == Some([])
  {
  }

  function Text(a: Address): (text: string)
    ensures |text| == 44
  {
    Encode(a)
  }

  function ParseAddr(s: string): Result<Address> {
    if s == "" || |s| > MAX_TEXT then Err(BadAddr)
    else
      match Decode(s)
      case None => Err(BadAddr)
      case Some(raw) =>
        if |raw| != 33 || raw[0] != HASH_PREFIX || Text(raw) != s then Err(BadAddr) else Ok(raw)
  }

  /** Every address has exactly one accepted spelling, and only this suite's addresses have one. */
  lemma ParseAddrExact(s: string, a: Address)
    ensures ParseAddr(s) == Ok(a) <==> s == Text(a) && a[0] == 0x1e
  {
    EncodedIsSignificant(a);
    LettersRoundTrip(a);
    hide Encode, DecodeLetters, Significant;
  }

  function KindName(kind: Kind): string {
    match kind
    case Announce => "announce"
    case PubManifest => "manifest"
    case Chunk => "chunk"
  }

  /** The cache key: the endpoint, then the address's text. */
  function CacheKey(kind: Kind, a: Address): string {
    KindName(kind) + ":" + Text(a)
  }

  /** The text of an address is its eleven groups, one after the other. */
  lemma {:induction false} TextIsGroups(bs: Bytes, i: nat)
    requires |bs| % 3 == 0 && 3 * i + 3 <= |bs|
    ensures Encode(bs)[4 * i..4 * i + 4] == EncodeGroup(bs[3 * i], bs[3 * i + 1], bs[3 * i + 2])
    decreases |bs|
  {
    hide EncodeGroup;
    if i > 0 {
      TextIsGroups(bs[3..], i - 1);
      SliceSlice(Encode(bs), 4, 4 * i - 4, 4 * i);
      assert Encode(bs)[4..] == Encode(bs[3..]);
    }
  }

  lemma CacheKeyMeans(a: Address)
    ensures CacheKey(Announce, a) == "announce:" + Text(a)
    ensures CacheKey(PubManifest, a) == "manifest:" + Text(a)
    ensures CacheKey(Chunk, a) == "chunk:" + Text(a)
  {
    hide Encode;
  }

  /** A key names one kind and one address, so no verification is reused under another rule. */
  lemma CacheKeyInjective(kind: Kind, a: Address, kind': Kind, a': Address)
    requires CacheKey(kind, a) == CacheKey(kind', a')
    ensures kind == kind' && a == a'
  {
    LettersRoundTrip(a);
    LettersRoundTrip(a');
    hide Encode, DecodeLetters;
    assert CacheKey(kind, a)[0] == KindName(kind)[0] && CacheKey(kind', a')[0] == KindName(kind')[0];
    assert kind == kind';
    var n := |KindName(kind)| + 1;
    assert CacheKey(kind, a)[n..] == Text(a) && CacheKey(kind', a')[n..] == Text(a');
  }
}
