/**
 The byte codecs under the invite links: UTF-8, lower-case hex and base64url
 without padding (section 5 of RFC 4648), each with its decoder.
 */
module Codecs {
  import opened Seqs

  // ---------------------------------------------------------------------
  // UTF-8
  // ---------------------------------------------------------------------

  predicate Scalar(n: int)
  {
    0 <= n < 0xD800 || 0xE000 <= n < 0x11_0000
  }

  function Utf8Char(c: char): (bs: seq<Byte>)
    ensures 1 <= |bs| <= 4
    ensures |bs| == 1 <==> c as int < 0x80
  {
    var n := c as int;
    if n < 0x80 then [n]
    else if n < 0x800 then [0xC0 + n / 64, 0x80 + n % 64]
    else if n < 0x1_0000 then [0xE0 + n / 4096, 0x80 + (n / 64) % 64, 0x80 + n % 64]
    else [0xF0 + n / 262144, 0x80 + (n / 4096) % 64, 0x80 + (n / 64) % 64, 0x80 + n % 64]
  }

  function Utf8(s: string): (bs: seq<Byte>)
  {
    if s == "" then [] else Utf8Char(s[0]) + Utf8(s[1..])
  }

  predicate Cont(b: Byte)
  {
    0x80 <= b < 0xC0
  }

  function Point2(a: nat, b: nat): int { (a - 0xC0) * 64 + (b - 0x80) }
  function Point3(a: nat, b: nat, c: nat): int { (a - 0xE0) * 4096 + (b - 0x80) * 64 + (c - 0x80) }
  function Point4(a: nat, b: nat, c: nat, d: nat): int
  {
    (a - 0xF0) * 262144 + (b - 0x80) * 4096 + (c - 0x80) * 64 + (d - 0x80)
  }

  /** One code point off the front, in shortest form, never a surrogate. */
  function DecodeChar(bs: seq<Byte>): (r: Option<(char, nat)>)
    ensures r.Some? ==> 0 < r.value.1 <= |bs|
  {
    if bs == [] then None
    else if bs[0] < 0x80 then Some((bs[0] as char, 1))
    else if 0xC0 <= bs[0] < 0xE0 then
      if |bs| < 2 || !Cont(bs[1]) then None
      else
        var n := Point2(bs[0], bs[1]);
        if 0x80 <= n then Some((n as char, 2)) else None
    else if 0xE0 <= bs[0] < 0xF0 then
      if |bs| < 3 || !Cont(bs[1]) || !Cont(bs[2]) then None
      else
        var n := Point3(bs[0], bs[1], bs[2]);
        if 0x800 <= n && Scalar(n) then Some((n as char, 3)) else None
    else if 0xF0 <= bs[0] < 0xF8 then
      if |bs| < 4 || !Cont(bs[1]) || !Cont(bs[2]) || !Cont(bs[3]) then None
      else
        var n := Point4(bs[0], bs[1], bs[2], bs[3]);
        if 0x1_0000 <= n && Scalar(n) then Some((n as char, 4)) else None
    else None
  }

  function FromUtf8(bs: seq<Byte>): (r: Option<string>)
  {
    if bs == [] then Some("")
    else match DecodeChar(bs)
      case None => None
      case Some((c, n)) =>
        (match FromUtf8(bs[n..]) case None => None case Some(rest) => Some([c] + rest))
  }

  lemma Digits3(n: nat)
    requires n < 0x1_0000
    ensures Point3(0xE0 + n / 4096, 0x80 + (n / 64) % 64, 0x80 + n % 64) == n
  {
    assert n / 4096 == (n / 64) / 64;
  }

  lemma Digits4(n: nat)
    requires n < 0x11_0000
    ensures Point4(0xF0 + n / 262144, 0x80 + (n / 4096) % 64, 0x80 + (n / 64) % 64, 0x80 + n % 64) == n
  {
    assert n / 4096 == (n / 64) / 64;
    assert n / 262144 == (n / 4096) / 64;
  }

  lemma DecodesChar(c: char, rest: seq<Byte>)
    ensures DecodeChar(Utf8Char(c) + rest) == Some((c, |Utf8Char(c)|))
  {
    var n := c as int;
    var bs := Utf8Char(c) + rest;
    if n < 0x80 {
    } else if n < 0x800 {
      assert bs[0] == 0xC0 + n / 64 && bs[1] == 0x80 + n % 64;
    } else if n < 0x1_0000 {
      assert bs[0] == 0xE0 + n / 4096 && bs[1] == 0x80 + (n / 64) % 64 && bs[2] == 0x80 + n % 64;
      Digits3(n);
    } else {
      assert bs[0] == 0xF0 + n / 262144 && bs[1] == 0x80 + (n / 4096) % 64;
      assert bs[2] == 0x80 + (n / 64) % 64 && bs[3] == 0x80 + n % 64;
      Digits4(n);
    }
  }

  lemma {:induction false} Utf8RoundTrip(s: string)
    ensures FromUtf8(Utf8(s)) == Some(s)
  {
    if s != "" {
      var bs := Utf8Char(s[0]) + Utf8(s[1..]);
      DecodesChar(s[0], Utf8(s[1..]));
      assert bs[|Utf8Char(s[0])|..] == Utf8(s[1..]);
      Utf8RoundTrip(s[1..]);
      assert [s[0]] + s[1..] == s;
    }
  }

  lemma Point2Back(a: Byte, b: Byte)
    requires 0xC0 <= a < 0xE0 && Cont(b)
    ensures var n := Point2(a, b); 0xC0 + n / 64 == a && 0x80 + n % 64 == b && n < 0x800
  {
  }

  lemma Point3Back(a: Byte, b: Byte, c: Byte)
    requires 0xE0 <= a < 0xF0 && Cont(b) && Cont(c)
    ensures var n := Point3(a, b, c); 0xE0 + n / 4096 == a && 0x80 + (n / 64) % 64 == b && 0x80 + n % 64 == c && n < 0x1_0000
  {
    var n := Point3(a, b, c);
    assert n / 64 == (a - 0xE0) * 64 + (b - 0x80);
    assert n / 4096 == (n / 64) / 64;
  }

  lemma Point4Back(a: Byte, b: Byte, c: Byte, d: Byte)
    requires 0xF0 <= a < 0xF8 && Cont(b) && Cont(c) && Cont(d)
    ensures var n := Point4(a, b, c, d);
            0xF0 + n / 262144 == a && 0x80 + (n / 4096) % 64 == b && 0x80 + (n / 64) % 64 == c && 0x80 + n % 64 == d
  {
    var n := Point4(a, b, c, d);
    assert n / 64 == (a - 0xF0) * 4096 + (b - 0x80) * 64 + (c - 0x80);
    assert n / 4096 == (n / 64) / 64 == (a - 0xF0) * 64 + (b - 0x80);
    assert n / 262144 == (n / 4096) / 64;
  }

  lemma EncodesDecoded(bs: seq<Byte>)
    requires DecodeChar(bs).Some?
    ensures var (c, n) := DecodeChar(bs).value; Utf8Char(c) == bs[..n]
  {
    var (c, n) := DecodeChar(bs).value;
    if n == 2 {
      Point2Back(bs[0], bs[1]);
      assert bs[..2] == [bs[0], bs[1]];
    } else if n == 3 {
      Point3Back(bs[0], bs[1], bs[2]);
      assert bs[..3] == [bs[0], bs[1], bs[2]];
    } else if n == 4 {
      Point4Back(bs[0], bs[1], bs[2], bs[3]);
      assert bs[..4] == [bs[0], bs[1], bs[2], bs[3]];
    }
  }

  lemma Utf8Cons(c: char, rest: string)
    ensures Utf8([c] + rest) == Utf8Char(c) + Utf8(rest)
  {
    assert ([c] + rest)[1..] == rest;
  }

  lemma FromUtf8Head(bs: seq<Byte>)
    requires bs != [] && FromUtf8(bs).Some?
    ensures DecodeChar(bs).Some? && FromUtf8(bs[DecodeChar(bs).value.1..]).Some?
    ensures FromUtf8(bs).value == [DecodeChar(bs).value.0] + FromUtf8(bs[DecodeChar(bs).value.1..]).value
  {
  }

  lemma Rejoin(bs: seq<Byte>, n: nat)
    requires n <= |bs|
    ensures bs[..n] + bs[n..] == bs
  {
  }

  /** The decoder is strict: what it accepts is the encoding of what it returns, and nothing else. */
  lemma {:induction false} Utf8Strict(bs: seq<Byte>)
    requires FromUtf8(bs).Some?
    ensures Utf8(FromUtf8(bs).value) == bs
  {
    if bs != [] {
      FromUtf8Head(bs);
      EncodesDecoded(bs);
      var c, n := DecodeChar(bs).value.0, DecodeChar(bs).value.1;
      Utf8Strict(bs[n..]);
      Utf8Cons(c, FromUtf8(bs[n..]).value);
      Rejoin(bs, n);
    }
  }

  predicate Ascii(s: string)
  {
    forall i :: 0 <= i < |s| ==> s[i] as int < 0x80
  }

  /** Bytes read as Latin-1 code units. */
  function Latin1(bs: seq<Byte>): (s: string)
    ensures |s| == |bs|
  {
    seq(|bs|, i requires 0 <= i < |bs| => bs[i] as char)
  }

  /** Reading UTF-8 bytes as Latin-1 gives the text back exactly for ASCII text. */
  lemma {:induction false} Latin1OfUtf8Iff(s: string)
    ensures |s| <= |Utf8(s)|
    ensures Latin1(Utf8(s)) == s <==> Ascii(s)
    ensures |s| == |Utf8(s)| <==> Ascii(s)
  {
    if s != "" {
      Latin1OfUtf8Iff(s[1..]);
      assert Ascii(s) <==> s[0] as int < 0x80 && Ascii(s[1..]);
      if Ascii(s) {
        assert Latin1(Utf8(s)) == [s[0]] + Latin1(Utf8(s[1..]));
      }
    }
  }

  // ---------------------------------------------------------------------
  // Hex
  // ---------------------------------------------------------------------

  function HexDigit(v: nat): (c: char)
    requires v < 16
    ensures c != '/'
  {
    if v < 10 then ('0' as int + v) as char else ('a' as int + (v - 10)) as char
  }

  function HexValue(c: char): (v: Option<nat>)
    ensures v.Some? ==> v.value < 16
  {
    if '0' <= c <= '9' then Some(c as int - '0' as int)
    else if 'a' <= c <= 'f' then Some(c as int - 'a' as int + 10)
    else if 'A' <= c <= 'F' then Some(c as int - 'A' as int + 10)
    else None
  }

  function Hex(bs: seq<Byte>): (s: string)
    ensures '/' !in s
  {
    if bs == [] then "" else [HexDigit(bs[0] / 16), HexDigit(bs[0] % 16)] + Hex(bs[1..])
  }

  function FromHex(s: string): (r: Option<seq<Byte>>)
  {
    if s == "" then Some([])
    else if |s| == 1 then None
    else match (HexValue(s[0]), HexValue(s[1]), FromHex(s[2..]))
      case (Some(h), Some(l), Some(rest)) => Some([h * 16 + l] + rest)
      case _ => None
  }

  lemma HexDigitRoundTrip(v: nat)
    requires v < 16
    ensures HexValue(HexDigit(v)) == Some(v)
  {
  }

  lemma FromHexCons(h: nat, l: nat, rest: string, bs: seq<Byte>)
    requires h < 16 && l < 16 && FromHex(rest) == Some(bs)
    ensures FromHex([HexDigit(h), HexDigit(l)] + rest) == Some([h * 16 + l] + bs)
  {
    HexDigitRoundTrip(h);
    HexDigitRoundTrip(l);
    assert ([HexDigit(h), HexDigit(l)] + rest)[2..] == rest;
  }

  lemma {:induction false} HexRoundTrip(bs: seq<Byte>)
    ensures FromHex(Hex(bs)) == Some(bs)
  {
    if bs != [] {
      HexRoundTrip(bs[1..]);
      FromHexCons(bs[0] / 16, bs[0] % 16, Hex(bs[1..]), bs[1..]);
      assert [bs[0]] + bs[1..] == bs;
    }
  }

  // ---------------------------------------------------------------------
  // Base 64
  // ---------------------------------------------------------------------

  type Six = v: nat | v < 64

  function Six1(a: nat, b: nat): int { (a % 4) * 16 + b / 16 }
  function Six2(b: nat, c: nat): int { (b % 16) * 4 + c / 64 }
  function Byte0(w: nat, x: nat): int { w * 4 + x / 16 }
  function Byte1(x: nat, y: nat): int { (x % 16) * 16 + y / 4 }
  function Byte2(y: nat, z: nat): int { (y % 4) * 64 + z }

  /** Three bytes become four six-bit values; a short tail becomes two or three. */
  function ToSixes(bs: seq<Byte>): (vs: seq<Six>)
  {
    if bs == [] then []
    else if |bs| == 1 then [bs[0] / 4, Six1(bs[0], 0)]
    else if |bs| == 2 then [bs[0] / 4, Six1(bs[0], bs[1]), Six2(bs[1], 0)]
    else [bs[0] / 4, Six1(bs[0], bs[1]), Six2(bs[1], bs[2]), bs[2] % 64] + ToSixes(bs[3..])
  }

  /** `strict` refuses left-over bits that are not zero; a browser discards them. */
  function FromSixes(vs: seq<Six>, strict: bool): (r: Option<seq<Byte>>)
  {
    if vs == [] then Some([])
    else if |vs| == 1 then None
    else if |vs| == 2 then
      if strict && vs[1] % 16 != 0 then None else Some([Byte0(vs[0], vs[1])])
    else if |vs| == 3 then
      if strict && vs[2] % 4 != 0 then None else Some([Byte0(vs[0], vs[1]), Byte1(vs[1], vs[2])])
    else match FromSixes(vs[4..], strict)
      case None => None
      case Some(rest) => Some([Byte0(vs[0], vs[1]), Byte1(vs[1], vs[2]), Byte2(vs[2], vs[3])] + rest)
  }

  lemma Triple(a: Byte, b: Byte, c: Byte)
    ensures Six1(a, b) < 64 && Six2(b, c) < 64
    ensures Byte0(a / 4, Six1(a, b)) == a && Byte1(Six1(a, b), Six2(b, c)) == b && Byte2(Six2(b, c), c % 64) == c
  {
  }

  lemma FromQuad(w: Six, x: Six, y: Six, z: Six, tail: seq<Six>, strict: bool, bs: seq<Byte>)
    requires FromSixes(tail, strict) == Some(bs)
    ensures FromSixes([w, x, y, z] + tail, strict) == Some([Byte0(w, x), Byte1(x, y), Byte2(y, z)] + bs)
  {
    assert ([w, x, y, z] + tail)[4..] == tail;
  }

  lemma TailBits(a: Byte)
    ensures Six1(a, 0) % 16 == 0 && Six2(a, 0) % 4 == 0
  {
  }

  lemma Single(a: Byte)
    ensures 0 <= Six1(a, 0) < 64 && Six1(a, 0) % 16 == 0 && Byte0(a / 4, Six1(a, 0)) == a
  {
    TailBits(a);
  }

  lemma FromPair(w: Six, x: Six, strict: bool)
    requires x % 16 == 0
    ensures FromSixes([w, x], strict) == Some([Byte0(w, x)])
  {
  }

  lemma Tail1(a: Byte, strict: bool)
    ensures FromSixes(ToSixes([a]), strict) == Some([a])
  {
    Single(a);
    FromPair(a / 4, Six1(a, 0), strict);
  }

  lemma Tail2(a: Byte, b: Byte, strict: bool)
    ensures FromSixes(ToSixes([a, b]), strict) == Some([a, b])
  {
    Triple(a, b, 0);
    TailBits(b);
    assert ToSixes([a, b]) == [a / 4, Six1(a, b), Six2(b, 0)];
  }

  lemma {:induction false} SixesRoundTrip(bs: seq<Byte>, strict: bool)
    ensures FromSixes(ToSixes(bs), strict) == Some(bs)
    decreases |bs|
  {
    if |bs| == 1 {
      Tail1(bs[0], strict);
      assert bs == [bs[0]];
    } else if |bs| == 2 {
      Tail2(bs[0], bs[1], strict);
      assert bs == [bs[0], bs[1]];
    } else if |bs| >= 3 {
      SixesRoundTrip(bs[3..], strict);
      Triple(bs[0], bs[1], bs[2]);
      FromQuad(bs[0] / 4, Six1(bs[0], bs[1]), Six2(bs[1], bs[2]), bs[2] % 64, ToSixes(bs[3..]), strict, bs[3..]);
      assert bs == [bs[0], bs[1], bs[2]] + bs[3..];
    }
  }

  lemma {:induction false} SixesLength(bs: seq<Byte>)
    ensures |ToSixes(bs)| % 4 != 1
    ensures bs != [] ==> ToSixes(bs) != []
  {
    if |bs| >= 3 {
      SixesLength(bs[3..]);
      assert |ToSixes(bs)| == 4 + |ToSixes(bs[3..])|;
    }
  }

  /** The URL-safe alphabet. */
  function Symbol(v: Six): (c: char)
  {
    if v < 26 then ('A' as int + v) as char
    else if v < 52 then ('a' as int + (v - 26)) as char
    else if v < 62 then ('0' as int + (v - 52)) as char
    else if v == 62 then '-' else '_'
  }

  function SymbolValue(c: char): (v: Option<Six>)
  {
    if 'A' <= c <= 'Z' then Some(c as int - 'A' as int)
    else if 'a' <= c <= 'z' then Some(c as int - 'a' as int + 26)
    else if '0' <= c <= '9' then Some(c as int - '0' as int + 52)
    else if c == '-' then Some(62) else if c == '_' then Some(63) else None
  }

  lemma SymbolRoundTrip(v: Six)
    ensures SymbolValue(Symbol(v)) == Some(v)
  {
  }

  function Symbols(vs: seq<Six>): (s: string)
    ensures |s| == |vs|
    ensures forall i :: 0 <= i < |s| ==> SymbolValue(s[i]).Some?
  {
    if vs == [] then "" else [Symbol(vs[0])] + Symbols(vs[1..])
  }

  function SymbolValues(s: string): (r: Option<seq<Six>>)
  {
    if s == "" then Some([])
    else match (SymbolValue(s[0]), SymbolValues(s[1..]))
      case (Some(v), Some(rest)) => Some([v] + rest)
      case _ => None
  }

  lemma {:induction false} SymbolsRoundTrip(vs: seq<Six>)
    ensures SymbolValues(Symbols(vs)) == Some(vs)
  {
    if vs != [] {
      SymbolRoundTrip(vs[0]);
      SymbolsRoundTrip(vs[1..]);
      assert Symbols(vs)[1..] == Symbols(vs[1..]);
      assert [vs[0]] + vs[1..] == vs;
    }
  }

  function Base64Url(bs: seq<Byte>): (s: string)
  {
    Symbols(ToSixes(bs))
  }

  /** The client's decoder: URL-safe alphabet, no padding, no stray bits. */
  function FromBase64Url(s: string): (r: Option<seq<Byte>>)
  {
    match SymbolValues(s) case None => None case Some(vs) => FromSixes(vs, true)
  }

  lemma Base64RoundTrip(bs: seq<Byte>)
    ensures FromBase64Url(Base64Url(bs)) == Some(bs)
  {
    SymbolsRoundTrip(ToSixes(bs));
    SixesRoundTrip(bs, true);
  }

  lemma {:induction false} SymbolsStrict(s: string)
    requires SymbolValues(s).Some?
    ensures Symbols(SymbolValues(s).value) == s
  {
    if s != "" {
      SymbolsStrict(s[1..]);
      var v, rest := SymbolValue(s[0]).value, SymbolValues(s[1..]).value;
      assert Symbol(v) == s[0];
      assert ([v] + rest)[1..] == rest;
      assert s == [s[0]] + s[1..];
    }
  }

  lemma TripleBack(w: Six, x: Six, y: Six, z: Six)
    ensures Byte0(w, x) < 256 && Byte1(x, y) < 256 && Byte2(y, z) < 256
    ensures Byte0(w, x) / 4 == w && Six1(Byte0(w, x), Byte1(x, y)) == x
    ensures Six2(Byte1(x, y), Byte2(y, z)) == y && Byte2(y, z) % 64 == z
  {
  }

  lemma ToQuad(w: Six, x: Six, y: Six, z: Six, bs: seq<Byte>)
    ensures Byte0(w, x) < 256 && Byte1(x, y) < 256 && Byte2(y, z) < 256
    ensures ToSixes([Byte0(w, x), Byte1(x, y), Byte2(y, z)] + bs) == [w, x, y, z] + ToSixes(bs)
  {
    TripleBack(w, x, y, z);
    var all := [Byte0(w, x), Byte1(x, y), Byte2(y, z)] + bs;
    assert all[3..] == bs;
  }

  lemma FromQuadHead(vs: seq<Six>)
    requires |vs| >= 4 && FromSixes(vs, true).Some?
    ensures FromSixes(vs[4..], true).Some?
    ensures Byte0(vs[0], vs[1]) < 256 && Byte1(vs[1], vs[2]) < 256 && Byte2(vs[2], vs[3]) < 256
    ensures FromSixes(vs, true).value
         == [Byte0(vs[0], vs[1]), Byte1(vs[1], vs[2]), Byte2(vs[2], vs[3])] + FromSixes(vs[4..], true).value
  {
    TripleBack(vs[0], vs[1], vs[2], vs[3]);
  }

  lemma PairBack(w: Six, x: Six)
    requires x % 16 == 0
    ensures Byte0(w, x) < 256 && Byte0(w, x) / 4 == w && Six1(Byte0(w, x), 0) == x
  {
  }

  lemma ToPair(w: Six, x: Six)
    requires x % 16 == 0
    ensures Byte0(w, x) < 256 && ToSixes([Byte0(w, x)]) == [w, x]
  {
    PairBack(w, x);
  }

  lemma TripletBack(w: Six, x: Six, y: Six)
    requires y % 4 == 0
    ensures Byte0(w, x) < 256 && Byte1(x, y) < 256
    ensures Byte0(w, x) / 4 == w && Six1(Byte0(w, x), Byte1(x, y)) == x && Six2(Byte1(x, y), 0) == y
  {
  }

  lemma ToTriplet(w: Six, x: Six, y: Six)
    requires y % 4 == 0
    ensures Byte0(w, x) < 256 && Byte1(x, y) < 256 && ToSixes([Byte0(w, x), Byte1(x, y)]) == [w, x, y]
  {
    TripletBack(w, x, y);
  }

  lemma StrictTail(vs: seq<Six>)
    requires |vs| < 4 && FromSixes(vs, true).Some?
    ensures ToSixes(FromSixes(vs, true).value) == vs
  {
    if |vs| == 2 {
      ToPair(vs[0], vs[1]);
      assert vs == [vs[0], vs[1]];
    } else if |vs| == 3 {
      ToTriplet(vs[0], vs[1], vs[2]);
      assert vs == [vs[0], vs[1], vs[2]];
    }
  }

  lemma QuadRejoin(vs: seq<Six>)
    requires |vs| >= 4
    ensures vs == [vs[0], vs[1], vs[2], vs[3]] + vs[4..]
  {
  }

  /** No stray bits are accepted. */
  lemma {:induction false} SixesStrict(vs: seq<Six>)
    requires FromSixes(vs, true).Some?
    ensures ToSixes(FromSixes(vs, true).value) == vs
  {
    if |vs| < 4 {
      StrictTail(vs);
    } else {
      FromQuadHead(vs);
      SixesStrict(vs[4..]);
      ToQuad(vs[0], vs[1], vs[2], vs[3], FromSixes(vs[4..], true).value);
      QuadRejoin(vs);
    }
  }

  /** The client's decoder accepts exactly the encodings: each byte string has one. */
  lemma Base64Strict(s: string)
    requires FromBase64Url(s).Some?
    ensures Base64Url(FromBase64Url(s).value) == s
  {
    SymbolsStrict(s);
    SixesStrict(SymbolValues(s).value);
  }

  // ---------------------------------------------------------------------
  // Known answers
  // ---------------------------------------------------------------------

  /** One, two, three and four bytes, as in section 7 of RFC 3629. */
  lemma Utf8Known()
    ensures Utf8Char('A') == [0x41] && Utf8Char('\U{00E9}') == [0xC3, 0xA9]
    ensures Utf8Char('\U{20AC}') == [0xE2, 0x82, 0xAC] && Utf8Char('\U{1F600}') == [0xF0, 0x9F, 0x98, 0x80]
  {
  }

  /** High digit first, in lower case. */
  lemma HexKnown()
    ensures forall v: nat :: v < 16 ==> HexDigit(v) == "0123456789abcdef"[v]
    ensures Hex([0xAB]) == "ab" && Hex([0x0F]) == "0f" && Hex([0xAB, 0x01]) == "ab01"
  {
    assert Hex([]) == "";
    assert Hex([0xAB]) == ['a', 'b'] + Hex([0xAB][1..]);
    assert Hex([0x01]) == ['0', '1'] + Hex([0x01][1..]);
    assert Hex([0x0F]) == ['0', 'f'] + Hex([0x0F][1..]);
    assert [0xAB, 0x01][1..] == [0x01];
  }

  /** The alphabet of table 2 of RFC 4648: capitals, small letters, digits, in order, then `-` and `_`. */
  lemma AlphabetKnown(v: Six)
    ensures Symbol(0) == 'A' && Symbol(25) == 'Z' && Symbol(26) == 'a' && Symbol(51) == 'z'
    ensures Symbol(52) == '0' && Symbol(61) == '9' && Symbol(62) == '-' && Symbol(63) == '_'
    ensures v + 1 < 62 && v !in {25, 51} ==> Symbol(v + 1) as int == Symbol(v) as int + 1
  {
  }

  /** The last four vectors of section 10 of RFC 4648, unpadded. */
  lemma Base64Known()
    ensures ToSixes([0x66]) == [25, 32] && ToSixes([0x66, 0x6F]) == [25, 38, 60]
    ensures ToSixes([0x66, 0x6F, 0x6F]) == [25, 38, 61, 47]
    ensures ToSixes([0x66, 0x6F, 0x6F, 0x62, 0x61, 0x72]) == [25, 38, 61, 47, 24, 38, 5, 50]
  {
    assert [0x66, 0x6F, 0x6F, 0x62, 0x61, 0x72][3..] == [0x62, 0x61, 0x72];
    assert [0x62, 0x61, 0x72][3..] == [] && [0x66, 0x6F, 0x6F][3..] == [];
  }
}
