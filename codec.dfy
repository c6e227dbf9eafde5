/** The browser built-ins `DataCompressor` is made of: UTF-8 (RFC 3629),
    `encodeURIComponent` / `decodeURIComponent` (percent-encoding of
    section 2.1 of RFC 3986, with the decoding rules of ECMA-262) and
    `btoa` / `atob` (base64, section 4 of RFC 4648, with the forgiving
    decoder of the HTML standard).  Each decoder is proved to undo its
    encoder. */
module Codec {
  import opened Base

  type Byte = b: int | 0 <= b < 256

  // ---------------------------------------------------------------------
  // UTF-8
  // ---------------------------------------------------------------------

  /** The UTF-8 bytes of one Unicode scalar value. */
  function Utf8(c: char): (r: seq<Byte>)
    ensures 1 <= |r| <= 4
  {
    var cp := c as int;
    if cp < 0x80 then [cp]
    else if cp < 0x800 then [0xC0 + cp / 64, 0x80 + cp % 64]
    else if cp < 0x10000 then [0xE0 + cp / 4096, 0x80 + (cp / 64) % 64, 0x80 + cp % 64]
    else [0xF0 + cp / 262144, 0x80 + (cp / 4096) % 64, 0x80 + (cp / 64) % 64, 0x80 + cp % 64]
  }

  /** Number of bytes `new Blob([s]).size` reports: the UTF-8 length. */
  function Utf8Size(s: string): (r: nat)
    ensures r >= |s|
  {
    if s == [] then 0 else |Utf8(s[0])| + Utf8Size(s[1..])
  }

  lemma {:induction false} Utf8SizeAppend(a: string, b: string)
    ensures Utf8Size(a + b) == Utf8Size(a) + Utf8Size(b)
  {
    if a == [] {
      assert a + b == b;
    } else {
      assert (a + b)[1..] == a[1..] + b;
      Utf8SizeAppend(a[1..], b);
    }
  }

  /** How many bytes a sequence led by `b` has; 0 when `b` cannot lead one
      (a continuation byte, or more than four leading one bits). */
  function SequenceLength(b: Byte): nat
  {
    if b < 0x80 then 1
    else if b < 0xC0 then 0
    else if b < 0xE0 then 2
    else if b < 0xF0 then 3
    else if b < 0xF8 then 4
    else 0
  }

  predicate IsContinuation(b: Byte) { 0x80 <= b < 0xC0 }

  /** The scalar value a lead byte and its continuation bytes encode, when
      they encode one validly (no overlong form, no surrogate, at most
      U+10FFFF). */
  function DecodeUtf8(lead: Byte, cont: seq<Byte>): Option<char>
    requires SequenceLength(lead) == |cont| + 1 >= 2
    requires forall i | 0 <= i < |cont| :: IsContinuation(cont[i])
  {
    var l: int := lead;
    var c0: int := cont[0];
    if |cont| == 1 then
      var v := (l - 0xC0) * 64 + (c0 - 0x80);
      if v < 0x80 then None else Some(v as char)
    else
      var c1: int := cont[1];
      if |cont| == 2 then
        var v := (l - 0xE0) * 4096 + (c0 - 0x80) * 64 + (c1 - 0x80);
        if v < 0x800 || (0xD800 <= v < 0xE000) then None else Some(v as char)
      else
        var c2: int := cont[2];
        var v := (l - 0xF0) * 262144 + (c0 - 0x80) * 4096 + (c1 - 0x80) * 64 + (c2 - 0x80);
        if v < 0x10000 || v >= 0x110000 then None else Some(v as char)
  }

  lemma TwoByteDecodes(c: char)
    requires 0x80 <= c as int < 0x800
    ensures var u := Utf8(c); |u| == 2 && DecodeUtf8(u[0], u[1..]) == Some(c)
  {
    var cp := c as int;
    assert cp == (cp / 64) * 64 + cp % 64;
  }

  lemma ThreeByteDecodes(c: char)
    requires 0x800 <= c as int < 0x10000
    ensures var u := Utf8(c); |u| == 3 && DecodeUtf8(u[0], u[1..]) == Some(c)
  {
    var cp := c as int;
    var q := cp / 64;
    assert cp == q * 64 + cp % 64;
    assert q == (q / 64) * 64 + q % 64;
    assert q / 64 == cp / 4096;
  }

  lemma FourByteDecodes(c: char)
    requires c as int >= 0x10000
    ensures var u := Utf8(c); |u| == 4 && DecodeUtf8(u[0], u[1..]) == Some(c)
  {
    var cp := c as int;
    var q := cp / 64;
    var q2 := q / 64;
    assert cp == q * 64 + cp % 64;
    assert q == q2 * 64 + q % 64;
    assert q2 == (q2 / 64) * 64 + q2 % 64;
    assert q2 == cp / 4096;
    assert q2 / 64 == cp / 262144;
  }

  lemma Utf8Decodes(c: char)
    ensures var u := Utf8(c);
      && SequenceLength(u[0]) == |u|
      && (forall i | 1 <= i < |u| :: IsContinuation(u[i]))
      && (|u| == 1 ==> u[0] == c as int)
      && (|u| > 1 ==> DecodeUtf8(u[0], u[1..]) == Some(c))
  {
    var cp := c as int;
    if cp < 0x80 {
    } else if cp < 0x800 {
      TwoByteDecodes(c);
    } else if cp < 0x10000 {
      ThreeByteDecodes(c);
    } else {
      FourByteDecodes(c);
    }
  }

  // ---------------------------------------------------------------------
  // Percent-encoding: encodeURIComponent / decodeURIComponent
  // ---------------------------------------------------------------------

  /** The characters `encodeURIComponent` leaves as they are. */
  predicate Unreserved(c: char)
  {
    ('A' <= c <= 'Z') || ('a' <= c <= 'z') || ('0' <= c <= '9') ||
    c == '-' || c == '_' || c == '.' || c == '!' || c == '~' || c == '*' || c == '\'' || c == '(' || c == ')'
  }

  function HexUpper(d: nat): (r: char)
    requires d < 16
    ensures r as int < 0x80
  {
    if d < 10 then ('0' as int + d) as char else ('A' as int + d - 10) as char
  }

  predicate IsHex(c: char) { ('0' <= c <= '9') || ('a' <= c <= 'f') || ('A' <= c <= 'F') }

  function HexValue(c: char): (r: nat)
    requires IsHex(c)
    ensures r < 16
  {
    if '0' <= c <= '9' then c as int - '0' as int
    else if 'a' <= c <= 'f' then c as int - 'a' as int + 10
    else c as int - 'A' as int + 10
  }

  function PercentBytes(bs: seq<Byte>): (r: string)
    ensures |r| == 3 * |bs|
    ensures forall i | 0 <= i < |r| :: r[i] as int < 0x80
  {
    if bs == [] then [] else ['%', HexUpper(bs[0] / 16), HexUpper(bs[0] % 16)] + PercentBytes(bs[1..])
  }

  function EncodeChar(c: char): (r: string)
    ensures forall i | 0 <= i < |r| :: r[i] as int < 0x80
  {
    if Unreserved(c) then [c] else PercentBytes(Utf8(c))
  }

  /** `encodeURIComponent(s)`; its output is ASCII. */
  function EncodeURIComponent(s: string): (r: string)
    ensures forall i | 0 <= i < |r| :: r[i] as int < 0x80
  {
    if s == [] then [] else EncodeChar(s[0]) + EncodeURIComponent(s[1..])
  }

  /** The byte written `%XX` at the front of `s`. */
  function ReadPercent(s: string): Option<Byte>
  {
    if |s| >= 3 && s[0] == '%' && IsHex(s[1]) && IsHex(s[2]) then Some(HexValue(s[1]) * 16 + HexValue(s[2]))
    else None
  }

  /** `n` continuation bytes written `%XX` each at the front of `s`. */
  function ReadContinuations(s: string, n: nat): (r: Option<seq<Byte>>)
    ensures r.Some? ==> |r.value| == n && 3 * n <= |s| && forall i | 0 <= i < n :: IsContinuation(r.value[i])
  {
    if n == 0 then Some([])
    else
      match ReadPercent(s)
      case None => None
      case Some(b) =>
        if !IsContinuation(b) then None
        else
          match ReadContinuations(s[3..], n - 1)
          case None => None
          case Some(bs) => Some([b] + bs)
  }

  /** `decodeURIComponent(s)`; `None` is the `URIError` it throws. */
  function DecodeURIComponent(s: string): Option<string>
    decreases |s|
  {
    if s == [] then Some([])
    else if s[0] != '%' then Prepend(s[0], DecodeURIComponent(s[1..]))
    else
      match ReadPercent(s)
      case None => None
      case Some(b) =>
        var n := SequenceLength(b);
        if n == 0 then None
        else if n == 1 then Prepend(b as char, DecodeURIComponent(s[3..]))
        else
          match ReadContinuations(s[3..], n - 1)
          case None => None
          case Some(cont) =>
            match DecodeUtf8(b, cont)
            case None => None
            case Some(c) => Prepend(c, DecodeURIComponent(s[3 + 3 * (n - 1)..]))
  }

  lemma HexUpperValue(d: nat)
    requires d < 16
    ensures IsHex(HexUpper(d)) && HexValue(HexUpper(d)) == d
  {
  }

  lemma ReadPercentByte(b: Byte, tail: string)
    ensures ReadPercent(PercentBytes([b]) + tail) == Some(b)
  {
    HexUpperValue(b / 16);
    HexUpperValue(b % 16);
  }

  lemma {:induction false} ReadContinuationsOf(bs: seq<Byte>, tail: string)
    requires forall i | 0 <= i < |bs| :: IsContinuation(bs[i])
    ensures ReadContinuations(PercentBytes(bs) + tail, |bs|) == Some(bs)
  {
    if bs != [] {
      var s := PercentBytes(bs) + tail;
      assert s == PercentBytes([bs[0]]) + (PercentBytes(bs[1..]) + tail);
      ReadPercentByte(bs[0], PercentBytes(bs[1..]) + tail);
      assert s[3..] == PercentBytes(bs[1..]) + tail;
      ReadContinuationsOf(bs[1..], tail);
      assert [bs[0]] + bs[1..] == bs;
    }
  }

  lemma UnreservedDecodes(c: char, tail: string)
    requires Unreserved(c)
    ensures DecodeURIComponent([c] + tail) == Prepend(c, DecodeURIComponent(tail))
  {
    assert ([c] + tail)[1..] == tail;
  }

  lemma AsciiDecodes(c: char, tail: string)
    requires c as int < 0x80
    ensures DecodeURIComponent(PercentBytes([c as int]) + tail) == Prepend(c, DecodeURIComponent(tail))
  {
    var s := PercentBytes([c as int]) + tail;
    ReadPercentByte(c as int, tail);
    assert s[3..] == tail;
  }

  /** The multi-byte branch of `decodeURIComponent`, taken once. */
  lemma DecodeSequenceStep(s: string, b: Byte, cont: seq<Byte>, c: char)
    requires ReadPercent(s) == Some(b) && SequenceLength(b) == |cont| + 1 >= 2
    requires ReadContinuations(s[3..], |cont|) == Some(cont)
    requires DecodeUtf8(b, cont) == Some(c)
    ensures DecodeURIComponent(s) == Prepend(c, DecodeURIComponent(s[3 + 3 * |cont|..]))
  {
  }

  /** A percent-encoded multi-byte sequence that decodes to `c` is read
      back as `c`. */
  lemma SequenceDecodes(u: seq<Byte>, c: char, tail: string)
    requires |u| >= 2 && SequenceLength(u[0]) == |u|
    requires forall i | 1 <= i < |u| :: IsContinuation(u[i])
    requires DecodeUtf8(u[0], u[1..]) == Some(c)
    ensures DecodeURIComponent(PercentBytes(u) + tail) == Prepend(c, DecodeURIComponent(tail))
  {
    var s := PercentBytes(u) + tail;
    var rest := PercentBytes(u[1..]) + tail;
    assert s == PercentBytes([u[0]]) + rest by {
      assert u == [u[0]] + u[1..];
    }
    assert ReadPercent(s) == Some(u[0]) by {
      ReadPercentByte(u[0], rest);
    }
    assert ReadContinuations(s[3..], |u| - 1) == Some(u[1..]) by {
      assert s[3..] == rest;
      ReadContinuationsOf(u[1..], tail);
    }
    assert s[3 + 3 * (|u| - 1)..] == tail;
    DecodeSequenceStep(s, u[0], u[1..], c);
  }

  lemma MultiByteDecodes(c: char, tail: string)
    requires c as int >= 0x80
    ensures DecodeURIComponent(PercentBytes(Utf8(c)) + tail) == Prepend(c, DecodeURIComponent(tail))
  {
    Utf8Decodes(c);
    SequenceDecodes(Utf8(c), c, tail);
  }

  lemma EncodeCharDecodes(c: char, tail: string)
    ensures DecodeURIComponent(EncodeChar(c) + tail) == Prepend(c, DecodeURIComponent(tail))
  {
    if Unreserved(c) {
      UnreservedDecodes(c, tail);
    } else if c as int < 0x80 {
      AsciiDecodes(c, tail);
    } else {
      MultiByteDecodes(c, tail);
    }
  }

  /** `decodeURIComponent(encodeURIComponent(s)) === s`. */
  lemma {:induction false} PercentRoundTrip(s: string)
    ensures DecodeURIComponent(EncodeURIComponent(s)) == Some(s)
  {
    if s != [] {
      PercentRoundTrip(s[1..]);
      EncodeCharDecodes(s[0], EncodeURIComponent(s[1..]));
      assert [s[0]] + s[1..] == s;
    }
  }

  // ---------------------------------------------------------------------
  // Base64: btoa / atob
  // ---------------------------------------------------------------------

  function B64Char(i: nat): char
    requires i < 64
  {
    if i < 26 then ('A' as int + i) as char
    else if i < 52 then ('a' as int + i - 26) as char
    else if i < 62 then ('0' as int + i - 52) as char
    else if i == 62 then '+'
    else '/'
  }

  predicate IsB64Char(c: char)
  {
    ('A' <= c <= 'Z') || ('a' <= c <= 'z') || ('0' <= c <= '9') || c == '+' || c == '/'
  }

  function B64Index(c: char): (r: nat)
    requires IsB64Char(c)
    ensures r < 64 && B64Char(r) == c
  {
    if 'A' <= c <= 'Z' then c as int - 'A' as int
    else if 'a' <= c <= 'z' then c as int - 'a' as int + 26
    else if '0' <= c <= '9' then c as int - '0' as int + 52
    else if c == '+' then 62
    else 63
  }

  lemma B64CharIndex(i: nat)
    requires i < 64
    ensures IsB64Char(B64Char(i)) && B64Index(B64Char(i)) == i
  {
  }

  /** Three bytes as four base64 digits. */
  function Encode3(b0: Byte, b1: Byte, b2: Byte): (r: seq<nat>)
    ensures |r| == 4 && forall i | 0 <= i < 4 :: r[i] < 64
  {
    [b0 / 4, (b0 % 4) * 16 + b1 / 16, (b1 % 16) * 4 + b2 / 64, b2 % 64]
  }

  /** Four base64 digits as three bytes. */
  function Decode4(x0: nat, x1: nat, x2: nat, x3: nat): (r: seq<Byte>)
    requires x0 < 64 && x1 < 64 && x2 < 64 && x3 < 64
    ensures |r| == 3
  {
    [x0 * 4 + x1 / 16, (x1 % 16) * 16 + x2 / 4, (x2 % 4) * 64 + x3]
  }

  /** The base64 digits of `bs`, without padding: four per three bytes,
      then two for a last single byte or three for a last pair (the
      missing bytes counting as zero). */
  function Sextets(bs: seq<Byte>): (r: seq<nat>)
    ensures forall i | 0 <= i < |r| :: r[i] < 64
    ensures |r| % 4 != 1
  {
    if |bs| == 0 then []
    else if |bs| == 1 then Encode3(bs[0], 0, 0)[..2]
    else if |bs| == 2 then Encode3(bs[0], bs[1], 0)[..3]
    else Encode3(bs[0], bs[1], bs[2]) + Sextets(bs[3..])
  }

  /** The bytes a run of base64 digits carries; a trailing group of two or
      three digits carries one or two bytes and its spare bits are dropped. */
  function SextetBytes(xs: seq<nat>): seq<Byte>
    requires forall i | 0 <= i < |xs| :: xs[i] < 64
    requires |xs| % 4 != 1
  {
    if |xs| == 0 then []
    else if |xs| == 2 then Decode4(xs[0], xs[1], 0, 0)[..1]
    else if |xs| == 3 then Decode4(xs[0], xs[1], xs[2], 0)[..2]
    else Decode4(xs[0], xs[1], xs[2], xs[3]) + SextetBytes(xs[4..])
  }

  lemma GroupRoundTrip(b0: Byte, b1: Byte, b2: Byte)
    ensures var x := Encode3(b0, b1, b2); Decode4(x[0], x[1], x[2], x[3]) == [b0, b1, b2]
  {
  }

  lemma {:induction false} SextetsRoundTrip(bs: seq<Byte>)
    ensures SextetBytes(Sextets(bs)) == bs
  {
    if |bs| == 1 {
      GroupRoundTrip(bs[0], 0, 0);
    } else if |bs| == 2 {
      GroupRoundTrip(bs[0], bs[1], 0);
    } else if |bs| >= 3 {
      var e := Encode3(bs[0], bs[1], bs[2]);
      var xs := Sextets(bs);
      assert xs[..4] == e && xs[4..] == Sextets(bs[3..]);
      GroupRoundTrip(bs[0], bs[1], bs[2]);
      SextetsRoundTrip(bs[3..]);
      assert bs == [bs[0], bs[1], bs[2]] + bs[3..];
    }
  }

  function CharsOf(xs: seq<nat>): (r: string)
    requires forall i | 0 <= i < |xs| :: xs[i] < 64
    ensures |r| == |xs| && forall i | 0 <= i < |r| :: IsB64Char(r[i]) && B64Index(r[i]) == xs[i]
  {
    seq(|xs|, i requires 0 <= i < |xs| => B64Char(xs[i]))
  }

  /** The bytes of a string whose characters are all below U+0100. */
  function Latin1Bytes(s: string): (r: seq<Byte>)
    requires forall i | 0 <= i < |s| :: s[i] as int < 256
    ensures |r| == |s|
  {
    seq(|s|, i requires 0 <= i < |s| => s[i] as int as Byte)
  }

  /** The characters standing for bytes. */
  function ByteChars(bs: seq<Byte>): (r: string)
    ensures |r| == |bs| && forall i | 0 <= i < |r| :: r[i] as int < 256
  {
    seq(|bs|, i requires 0 <= i < |bs| => bs[i] as char)
  }

  /** The `=` signs completing `n` base64 digits to a multiple of four. */
  function Padding(n: nat): string
  {
    if n % 4 == 2 then "==" else if n % 4 == 3 then "=" else ""
  }

  /** `btoa(s)`: `None` is the `InvalidCharacterError` thrown for a
      character above U+00FF. */
  function Btoa(s: string): (r: Option<string>)
    ensures r.Some? <==> forall i | 0 <= i < |s| :: s[i] as int < 256
  {
    if exists i | 0 <= i < |s| :: s[i] as int >= 256 then None
    else
      var xs := Sextets(Latin1Bytes(s));
      Some(CharsOf(xs) + Padding(|xs|))
  }

  /** The white space the forgiving base64 decoder removes. */
  predicate IsAsciiWs(c: char) { c == ' ' || c == '\t' || c == '\n' || c == '\r' || c == '\U{c}' }

  function RemoveWs(s: string): (r: string)
    ensures |r| <= |s|
    ensures forall i | 0 <= i < |r| :: !IsAsciiWs(r[i])
  {
    if s == [] then []
    else if IsAsciiWs(s[0]) then RemoveWs(s[1..])
    else [s[0]] + RemoveWs(s[1..])
  }

  /** Drops one or two trailing `=` from input whose length is a multiple
      of four. */
  function StripPadding(d: string): string
  {
    if |d| % 4 == 0 && |d| >= 2 && d[|d| - 2..] == "==" then d[..|d| - 2]
    else if |d| % 4 == 0 && |d| >= 1 && d[|d| - 1] == '=' then d[..|d| - 1]
    else d
  }

  function Indices(data: string): (r: seq<nat>)
    requires forall i | 0 <= i < |data| :: IsB64Char(data[i])
    ensures |r| == |data| && forall i | 0 <= i < |r| :: r[i] < 64
  {
    seq(|data|, i requires 0 <= i < |data| => B64Index(data[i]))
  }

  /** `atob(s)`: the forgiving base64 decode of the HTML standard; `None`
      is the `InvalidCharacterError` it throws.  Each output character
      stands for one byte. */
  function Atob(s: string): (r: Option<string>)
    ensures r.Some? ==> forall i | 0 <= i < |r.value| :: r.value[i] as int < 256
  {
    var data := StripPadding(RemoveWs(s));
    if |data| % 4 == 1 then None
    else if exists i | 0 <= i < |data| :: !IsB64Char(data[i]) then None
    else Some(ByteChars(SextetBytes(Indices(data))))
  }

  lemma {:induction false} RemoveWsNone(s: string)
    requires forall i | 0 <= i < |s| :: !IsAsciiWs(s[i])
    ensures RemoveWs(s) == s
  {
    if s != [] {
      RemoveWsNone(s[1..]);
      assert [s[0]] + s[1..] == s;
    }
  }

  lemma StripTwo(digits: string)
    requires |digits| % 4 == 2
    ensures StripPadding(digits + "==") == digits
  {
    var d := digits + "==";
    assert d[|d| - 2..] == "==";
    assert d[..|d| - 2] == digits;
  }

  lemma StripOne(digits: string)
    requires |digits| % 4 == 3 && IsB64Char(digits[|digits| - 1])
    ensures StripPadding(digits + "=") == digits
  {
    var d := digits + "=";
    assert d[|d| - 2] == digits[|digits| - 1];
    assert d[|d| - 2..] != "==";
    assert d[..|d| - 1] == digits;
  }

  lemma StripNone(digits: string)
    requires |digits| % 4 == 0 && (|digits| > 0 ==> IsB64Char(digits[|digits| - 1]))
    ensures StripPadding(digits) == digits
  {
    if |digits| > 0 {
      assert digits[|digits| - 2..] != "==" by {
        assert digits[|digits| - 2..][1] == digits[|digits| - 1];
      }
    }
  }

  lemma StripPaddingOf(digits: string)
    requires |digits| % 4 != 1
    requires forall i | 0 <= i < |digits| :: IsB64Char(digits[i])
    ensures StripPadding(digits + Padding(|digits|)) == digits
  {
    var n := |digits|;
    if n % 4 == 2 {
      StripTwo(digits);
    } else if n % 4 == 3 {
      StripOne(digits);
    } else {
      assert digits + Padding(n) == digits;
      StripNone(digits);
    }
  }

  /** `atob(btoa(s)) === s` for every string `btoa` accepts. */
  lemma Base64RoundTrip(s: string)
    requires forall i | 0 <= i < |s| :: s[i] as int < 256
    ensures Btoa(s).Some? && Atob(Btoa(s).value) == Some(s)
  {
    var bs := Latin1Bytes(s);
    var xs := Sextets(bs);
    var digits := CharsOf(xs);
    var enc := digits + Padding(|xs|);
    assert Btoa(s) == Some(enc);
    assert forall i | 0 <= i < |enc| :: !IsAsciiWs(enc[i]) by {
      forall i | 0 <= i < |enc| ensures !IsAsciiWs(enc[i]) {
        if i < |digits| { assert IsB64Char(digits[i]); }
      }
    }
    RemoveWsNone(enc);
    StripPaddingOf(digits);
    assert Indices(digits) == xs;
    SextetsRoundTrip(bs);
    assert ByteChars(bs) == s;
  }
}
