/** The browser built-ins the storage layer and the audio helper rely on,
    written out so that their round trips are proved rather than assumed:
    `btoa`/`atob` (Base64 of RFC 4648 section 4; `atob` is the WHATWG
    Infra "forgiving-base64 decode") and `encodeURIComponent` /
    `decodeURIComponent` (the functions of those names in ECMA-262, with
    their Encode and Decode operations, over the UTF-8 of RFC 3629). Strings are sequences of Unicode scalar values; a
    JavaScript string holding a lone surrogate has no counterpart here. */
module WebCodec {
  import opened Wrappers

  type byte = x: int | 0 <= x < 256
  type nibble = x: int | 0 <= x < 16
  type sextet = x: int | 0 <= x < 64

  /** Every character is one byte wide: what `btoa` accepts and `atob` yields. */
  predicate IsLatin1(s: string)
  {
    forall i :: 0 <= i < |s| ==> s[i] as int < 256
  }

  predicate IsAscii(s: string)
  {
    forall i :: 0 <= i < |s| ==> s[i] as int < 128
  }

  function Latin1Bytes(s: string): (r: seq<byte>)
    requires IsLatin1(s)
    ensures |r| == |s|
    ensures forall i :: 0 <= i < |s| ==> r[i] == s[i] as int
  {
    seq(|s|, i requires 0 <= i < |s| => s[i] as int)
  }

  function Latin1String(bs: seq<byte>): (r: string)
    ensures IsLatin1(r) && |r| == |bs|
    ensures forall i :: 0 <= i < |bs| ==> r[i] as int == bs[i]
  {
    seq(|bs|, i requires 0 <= i < |bs| => bs[i] as char)
  }

  lemma Latin1RoundTrip(s: string)
    requires IsLatin1(s)
    ensures Latin1String(Latin1Bytes(s)) == s
  {
  }

  // ---------------------------------------------------------------- Base64

  function Base64Digit(v: sextet): (c: char)
    ensures c != '='
  {
    if v < 26 then ('A' as int + v) as char
    else if v < 52 then ('a' as int + v - 26) as char
    else if v < 62 then ('0' as int + v - 52) as char
    else if v == 62 then '+'
    else '/'
  }

  predicate IsBase64Digit(c: char)
  {
    'A' <= c <= 'Z' || 'a' <= c <= 'z' || '0' <= c <= '9' || c == '+' || c == '/'
  }

  function Base64Value(c: char): (v: sextet)
    requires IsBase64Digit(c)
    ensures Base64Digit(v) == c
  {
    if 'A' <= c <= 'Z' then c as int - 'A' as int
    else if 'a' <= c <= 'z' then c as int - 'a' as int + 26
    else if '0' <= c <= '9' then c as int - '0' as int + 52
    else if c == '+' then 62
    else 63
  }

  lemma Base64DigitValue(v: sextet)
    ensures IsBase64Digit(Base64Digit(v)) && Base64Value(Base64Digit(v)) == v
  {
  }

  /** The four six-bit groups of three bytes, most significant bits first. */
  function SplitGroup(b0: byte, b1: byte, b2: byte): (r: seq<sextet>)
    ensures |r| == 4
  {
    [b0 / 4, b0 % 4 * 16 + b1 / 16, b1 % 16 * 4 + b2 / 64, b2 % 64]
  }

  /** The three bytes held by four six-bit groups. */
  function JoinGroup(x0: sextet, x1: sextet, x2: sextet, x3: sextet): (r: seq<byte>)
    ensures |r| == 3
  {
    [x0 * 4 + x1 / 16, x1 % 16 * 16 + x2 / 4, x2 % 4 * 64 + x3]
  }

  /** Splits bytes into six-bit groups; a trailing group of one or two
      bytes gives two or three sextets, as if padded with zero bytes. */
  function ToSextets(bs: seq<byte>): (r: seq<sextet>)
    ensures |r| == |bs| / 3 * 4 + (if |bs| % 3 == 0 then 0 else |bs| % 3 + 1)
  {
    if |bs| == 0 then []
    else if |bs| == 1 then SplitGroup(bs[0], 0, 0)[..2]
    else if |bs| == 2 then SplitGroup(bs[0], bs[1], 0)[..3]
    else SplitGroup(bs[0], bs[1], bs[2]) + ToSextets(bs[3..])
  }

  /** Joins six-bit groups back into bytes; the bits of a trailing partial
      group that do not fill a byte are discarded. */
  function FromSextets(xs: seq<sextet>): (r: seq<byte>)
    requires |xs| % 4 != 1
  {
    if |xs| == 0 then []
    else if |xs| == 2 then JoinGroup(xs[0], xs[1], 0, 0)[..1]
    else if |xs| == 3 then JoinGroup(xs[0], xs[1], xs[2], 0)[..2]
    else JoinGroup(xs[0], xs[1], xs[2], xs[3]) + FromSextets(xs[4..])
  }

  lemma Split16(hi: int, lo: int)
    requires 0 <= lo < 16
    ensures (hi * 16 + lo) / 16 == hi && (hi * 16 + lo) % 16 == lo
  {
  }

  lemma Split4(hi: int, lo: int)
    requires 0 <= lo < 4
    ensures (hi * 4 + lo) / 4 == hi && (hi * 4 + lo) % 4 == lo
  {
  }

  /** Joining the groups of three bytes gives the bytes back. */
  lemma JoinSplit(b0: byte, b1: byte, b2: byte)
    ensures var x := SplitGroup(b0, b1, b2); JoinGroup(x[0], x[1], x[2], x[3]) == [b0, b1, b2]
  {
    Split16(b0 % 4, b1 / 16);
    Split4(b1 % 16, b2 / 64);
  }

  /** A full group in front of sextets that decode to `rest`. */
  lemma JoinFullGroup(b0: byte, b1: byte, b2: byte, tail: seq<sextet>)
    requires |tail| % 4 != 1
    ensures |SplitGroup(b0, b1, b2) + tail| % 4 != 1
    ensures FromSextets(SplitGroup(b0, b1, b2) + tail) == [b0, b1, b2] + FromSextets(tail)
  {
    JoinSplit(b0, b1, b2);
    var head := SplitGroup(b0, b1, b2);
    var xs := head + tail;
    assert xs[..4] == head && xs[4..] == tail;
  }

  lemma {:induction false} SextetsRoundTrip(bs: seq<byte>)
    ensures |ToSextets(bs)| % 4 != 1
    ensures FromSextets(ToSextets(bs)) == bs
  {
    if |bs| == 1 {
      JoinSplit(bs[0], 0, 0);
    } else if |bs| == 2 {
      JoinSplit(bs[0], bs[1], 0);
    } else if |bs| >= 3 {
      SextetsRoundTrip(bs[3..]);
      JoinFullGroup(bs[0], bs[1], bs[2], ToSextets(bs[3..]));
      assert bs == [bs[0], bs[1], bs[2]] + bs[3..];
    }
  }

  function DigitString(xs: seq<sextet>): (r: string)
    ensures |r| == |xs|
    ensures forall i :: 0 <= i < |xs| ==> r[i] == Base64Digit(xs[i])
  {
    seq(|xs|, i requires 0 <= i < |xs| => Base64Digit(xs[i]))
  }

  /** The '=' characters that complete the last four-character group. */
  function Padding(n: nat): (r: string)
    ensures |r| == (if n % 3 == 0 then 0 else 3 - n % 3)
    ensures forall i :: 0 <= i < |r| ==> r[i] == '='
  {
    if n % 3 == 1 then "==" else if n % 3 == 2 then "=" else ""
  }

  /** `btoa`: fails (InvalidCharacterError) on a character above U+00FF. */
  function Btoa(s: string): (r: Option<string>)
    ensures r.Some? <==> IsLatin1(s)
  {
    if IsLatin1(s) then Some(DigitString(ToSextets(Latin1Bytes(s))) + Padding(|s|)) else None
  }

  /** `btoa` yields the empty string only for the empty string. */
  lemma BtoaEmpty(s: string)
    requires IsLatin1(s)
    ensures Btoa(s).value == [] <==> s == []
  {
    if s != [] {
      assert |ToSextets(Latin1Bytes(s))| >= 2;
    }
  }

  /** `btoa`'s output is plain ASCII. */
  lemma BtoaAscii(s: string)
    requires IsLatin1(s)
    ensures IsAscii(Btoa(s).value)
  {
    var xs := ToSextets(Latin1Bytes(s));
    var e := DigitString(xs) + Padding(|s|);
    forall i | 0 <= i < |e| ensures e[i] as int < 128 {
      if i < |xs| { assert e[i] == Base64Digit(xs[i]); } else { assert e[i] == '='; }
    }
  }

  predicate IsAsciiWhitespace(c: char)
  {
    c == '\t' || c == '\n' || c == '\U{000C}' || c == '\r' || c == ' '
  }

  function StripWhitespace(s: string): (r: string)
    ensures |r| <= |s|
    ensures (forall i :: 0 <= i < |s| ==> !IsAsciiWhitespace(s[i])) ==> r == s
  {
    if s == [] then []
    else if IsAsciiWhitespace(s[0]) then StripWhitespace(s[1..])
    else [s[0]] + StripWhitespace(s[1..])
  }

  /** Drops one or two trailing '=' when the length is a multiple of four. */
  function StripPadding(s: string): (r: string)
    ensures |r| <= |s|
  {
    if |s| % 4 == 0 && |s| >= 2 && s[|s| - 1] == '=' && s[|s| - 2] == '=' then s[..|s| - 2]
    else if |s| % 4 == 0 && |s| >= 1 && s[|s| - 1] == '=' then s[..|s| - 1]
    else s
  }

  predicate AllBase64Digits(s: string)
  {
    forall i :: 0 <= i < |s| ==> IsBase64Digit(s[i])
  }

  function SextetsOf(s: string): (r: seq<sextet>)
    requires AllBase64Digits(s)
    ensures |r| == |s|
  {
    seq(|s|, i requires 0 <= i < |s| => Base64Value(s[i]))
  }

  /** `atob`: ASCII whitespace is ignored, padding is optional, and the
      input is refused (InvalidCharacterError) when a group would hold a
      single character or a character lies outside the alphabet. */
  function Atob(s: string): (r: Option<string>)
    ensures r.Some? ==> IsLatin1(r.value)
  {
    var t := StripPadding(StripWhitespace(s));
    if |t| % 4 == 1 || !AllBase64Digits(t) then None
    else Some(Latin1String(FromSextets(SextetsOf(t))))
  }

  lemma BtoaHasNoWhitespace(xs: seq<sextet>, n: nat)
    ensures forall i :: 0 <= i < |DigitString(xs) + Padding(n)| ==>
              !IsAsciiWhitespace((DigitString(xs) + Padding(n))[i])
  {
    var digits := DigitString(xs);
    var e := digits + Padding(n);
    forall i | 0 <= i < |e| ensures !IsAsciiWhitespace(e[i]) {
      if i < |digits| { assert e[i] == Base64Digit(xs[i]); } else { assert e[i] == '='; }
    }
  }

  /** The padding `btoa` appends is exactly what `atob` strips. */
  lemma StripBtoaPadding(xs: seq<sextet>, n: nat)
    requires |xs| == n / 3 * 4 + (if n % 3 == 0 then 0 else n % 3 + 1)
    ensures StripPadding(DigitString(xs) + Padding(n)) == DigitString(xs)
  {
    var digits := DigitString(xs);
    var e := digits + Padding(n);
    if n % 3 == 1 {
      assert |e| == n / 3 * 4 + 4;
      assert e[..|e| - 2] == digits;
    } else if n % 3 == 2 {
      assert |e| == n / 3 * 4 + 4;
      assert e[|e| - 2] == Base64Digit(xs[|xs| - 1]);
      assert e[..|e| - 1] == digits;
    } else {
      assert e == digits;
      if |e| > 0 {
        assert e[|e| - 1] == Base64Digit(xs[|xs| - 1]);
      }
    }
  }

  lemma SextetsOfDigits(xs: seq<sextet>)
    ensures AllBase64Digits(DigitString(xs)) && SextetsOf(DigitString(xs)) == xs
  {
    var digits := DigitString(xs);
    forall i | 0 <= i < |digits| ensures IsBase64Digit(digits[i]) && Base64Value(digits[i]) == xs[i] {
      Base64DigitValue(xs[i]);
    }
  }

  /** Decoding what `btoa` produced gives back its input. */
  lemma AtobBtoa(s: string)
    requires IsLatin1(s)
    ensures Btoa(s).Some? && Atob(Btoa(s).value) == Some(s)
  {
    var bs := Latin1Bytes(s);
    var xs := ToSextets(bs);
    var digits := DigitString(xs);
    BtoaHasNoWhitespace(xs, |s|);
    StripBtoaPadding(xs, |s|);
    SextetsRoundTrip(bs);
    SextetsOfDigits(xs);
    Latin1RoundTrip(s);
    assert StripPadding(StripWhitespace(Btoa(s).value)) == digits;
  }

  // ------------------------------------------------------- URI components

  /** The characters `encodeURIComponent` leaves as they are. */
  predicate IsUriUnreserved(c: char)
  {
    'A' <= c <= 'Z' || 'a' <= c <= 'z' || '0' <= c <= '9'
    || c == '-' || c == '_' || c == '.' || c == '!' || c == '~'
    || c == '*' || c == '\'' || c == '(' || c == ')'
  }

  predicate IsScalarValue(v: int)
  {
    0 <= v < 0xD800 || 0xE000 <= v < 0x11_0000
  }

  /** The UTF-8 encoding of one scalar value (RFC 3629 section 3). */
  function Utf8(c: char): (r: seq<byte>)
    ensures 1 <= |r| <= 4
  {
    var v := c as int;
    var q1, r0 := v / 64, v % 64;
    var q2, r1 := q1 / 64, q1 % 64;
    var q3, r2 := q2 / 64, q2 % 64;
    if v < 0x80 then [v]
    else if v < 0x800 then [0xC0 + q1, 0x80 + r0]
    else if v < 0x1_0000 then [0xE0 + q2, 0x80 + r1, 0x80 + r0]
    else [0xF0 + q3, 0x80 + r2, 0x80 + r1, 0x80 + r0]
  }

  /** Upper-case hexadecimal digit, as the encoder writes it. */
  function HexDigit(v: nibble): char
  {
    if v < 10 then ('0' as int + v) as char else ('A' as int + v - 10) as char
  }

  /** Reading a hexadecimal digit of either case. */
  function HexValue(c: char): (r: Option<nibble>)
  {
    if '0' <= c <= '9' then Some(c as int - '0' as int)
    else if 'A' <= c <= 'F' then Some(c as int - 'A' as int + 10)
    else if 'a' <= c <= 'f' then Some(c as int - 'a' as int + 10)
    else None
  }

  lemma HexDigitValue(v: nibble)
    ensures HexValue(HexDigit(v)) == Some(v)
  {
  }

  /** `%XY` for each byte. */
  function PercentEncode(bs: seq<byte>): (r: string)
    ensures |r| == 3 * |bs|
    ensures IsAscii(r)
  {
    if bs == [] then []
    else ['%', HexDigit(bs[0] / 16), HexDigit(bs[0] % 16)] + PercentEncode(bs[1..])
  }

  function EncodeUriChar(c: char): (r: string)
    ensures IsAscii(r) && r != []
  {
    if IsUriUnreserved(c) then [c] else PercentEncode(Utf8(c))
  }

  /** `encodeURIComponent`. It never fails on a sequence of scalar values. */
  function EncodeURIComponent(s: string): (r: string)
    ensures IsAscii(r)
    ensures s == [] <==> r == []
  {
    if s == [] then [] else EncodeUriChar(s[0]) + EncodeURIComponent(s[1..])
  }

  /** The byte written as `%XY` at position `at`, if there is one. */
  function EscapedByte(s: string, at: nat): (r: Option<byte>)
  {
    if at + 3 <= |s| && s[at] == '%' then
      match (HexValue(s[at + 1]), HexValue(s[at + 2]))
      case (Some(hi), Some(lo)) => Some(hi as int * 16 + lo)
      case _ => None
    else None
  }

  /** How many bytes a UTF-8 sequence starting with `b` has; 0 when `b`
      cannot start one (a continuation byte, or five or more leading ones). */
  function LeadLength(b: byte): nat
  {
    if b < 0x80 then 1
    else if b < 0xC0 then 0
    else if b < 0xE0 then 2
    else if b < 0xF0 then 3
    else if b < 0xF8 then 4
    else 0
  }

  function LeadMarker(n: nat): nat
  {
    if n == 2 then 0xC0 else if n == 3 then 0xE0 else 0xF0
  }

  /** The smallest scalar value that needs `n` bytes; anything below is an
      overlong form. */
  function MinScalar(n: nat): nat
  {
    if n == 2 then 0x80 else if n == 3 then 0x800 else 0x1_0000
  }

  /** Reads `count` escaped continuation bytes (10xxxxxx) from `at` on,
      shifting their six payload bits into `acc`. */
  function ReadContinuations(s: string, at: nat, count: nat, acc: nat): (r: Option<nat>)
    ensures r.Some? && count > 0 ==> at + 3 * count <= |s|
    decreases count
  {
    if count == 0 then Some(acc)
    else match EscapedByte(s, at)
      case Some(b) =>
        if 0x80 <= b < 0xC0 then ReadContinuations(s, at + 3, count - 1, acc * 64 + (b - 0x80))
        else None
      case None => None
  }

  /** Decodes the escaped UTF-8 sequence at the front of `s` (which starts
      with '%'): the character and how many input characters it used. */
  function DecodeEscapedChar(s: string): (r: Option<(char, nat)>)
    ensures r.Some? ==> 3 <= r.value.1 <= |s|
  {
    match EscapedByte(s, 0)
    case None => None
    case Some(b) =>
      var n := LeadLength(b);
      if n == 0 then None
      else if n == 1 then Some((b as char, 3))
      else match ReadContinuations(s, 3, n - 1, b - LeadMarker(n))
        case None => None
        case Some(v) => if MinScalar(n) <= v && IsScalarValue(v) then Some((v as char, 3 * n)) else None
  }

  /** `decodeURIComponent`: None stands for the URIError it throws on a
      malformed escape or an invalid UTF-8 sequence. */
  function DecodeURIComponent(s: string): (r: Option<string>)
    ensures r.Some? ==> |r.value| <= |s|
    ensures (forall i :: 0 <= i < |s| ==> s[i] != '%') ==> r == Some(s)
    decreases |s|
  {
    if s == [] then Some([])
    else if s[0] != '%' then
      assert s == [s[0]] + s[1..];
      match DecodeURIComponent(s[1..])
      case None => None
      case Some(t) => Some([s[0]] + t)
    else
      match DecodeEscapedChar(s)
      case None => None
      case Some(ck) =>
        match DecodeURIComponent(s[ck.1..])
        case None => None
        case Some(t) => Some([ck.0] + t)
  }

  /** `s` holds the escape of byte `b` at position `at`. */
  predicate EscapesAt(s: string, at: nat, b: byte)
  {
    at + 3 <= |s| && s[at] == '%' && s[at + 1] == HexDigit(b / 16) && s[at + 2] == HexDigit(b % 16)
  }

  lemma {:induction false} PercentEncodeAt(bs: seq<byte>, t: string, j: nat)
    requires j < |bs|
    ensures EscapesAt(PercentEncode(bs) + t, 3 * j, bs[j])
  {
    var s := PercentEncode(bs) + t;
    var rest := PercentEncode(bs[1..]) + t;
    assert s == ['%', HexDigit(bs[0] / 16), HexDigit(bs[0] % 16)] + rest;
    if j > 0 {
      PercentEncodeAt(bs[1..], t, j - 1);
      assert s[3 * j..] == rest[3 * (j - 1)..];
    }
  }

  /** The three characters '%', high digit, low digit read back as the byte. */
  lemma EscapedByteOf(s: string, at: nat, b: byte)
    requires EscapesAt(s, at, b)
    ensures EscapedByte(s, at) == Some(b)
  {
    HexDigitValue(b / 16);
    HexDigitValue(b % 16);
  }

  lemma EscapedBytesAt(bs: seq<byte>, t: string, j: nat)
    requires j < |bs|
    ensures EscapedByte(PercentEncode(bs) + t, 3 * j) == Some(bs[j])
  {
    PercentEncodeAt(bs, t, j);
    EscapedByteOf(PercentEncode(bs) + t, 3 * j, bs[j]);
  }

  lemma DecodeEscapedTwo(c: char, t: string)
    requires 0x80 <= c as int < 0x800
    ensures DecodeEscapedChar(PercentEncode(Utf8(c)) + t) == Some((c, 6))
  {
    var bs := Utf8(c);
    var s := PercentEncode(bs) + t;
    var v := c as int;
    var q1, r0 := v / 64, v % 64;
    assert bs == [0xC0 + q1, 0x80 + r0];
    EscapedBytesAt(bs, t, 0);
    EscapedBytesAt(bs, t, 1);
    assert ReadContinuations(s, 6, 0, q1 * 64 + r0) == Some(v);
    assert ReadContinuations(s, 3, 1, q1) == Some(v);
  }

  lemma DecodeEscapedThree(c: char, t: string)
    requires 0x800 <= c as int < 0x1_0000
    ensures DecodeEscapedChar(PercentEncode(Utf8(c)) + t) == Some((c, 9))
  {
    var bs := Utf8(c);
    var s := PercentEncode(bs) + t;
    var v := c as int;
    var q1, r0 := v / 64, v % 64;
    var q2, r1 := q1 / 64, q1 % 64;
    assert bs == [0xE0 + q2, 0x80 + r1, 0x80 + r0];
    EscapedBytesAt(bs, t, 0);
    EscapedBytesAt(bs, t, 1);
    EscapedBytesAt(bs, t, 2);
    assert ReadContinuations(s, 9, 0, (q2 * 64 + r1) * 64 + r0) == Some(v);
    assert ReadContinuations(s, 6, 1, q2 * 64 + r1) == Some(v);
    assert ReadContinuations(s, 3, 2, q2) == Some(v);
  }

  /** Three escaped continuation bytes after a lead byte add their payload
      bits to the accumulator. */
  lemma ReadThreeContinuations(s: string, x: byte, y: byte, z: byte, acc: nat)
    requires EscapedByte(s, 3) == Some(x) && EscapedByte(s, 6) == Some(y) && EscapedByte(s, 9) == Some(z)
    requires 0x80 <= x < 0xC0 && 0x80 <= y < 0xC0 && 0x80 <= z < 0xC0
    ensures ReadContinuations(s, 3, 3, acc) == Some(((acc * 64 + (x - 0x80)) * 64 + (y - 0x80)) * 64 + (z - 0x80))
  {
    var a1 := acc * 64 + (x - 0x80);
    var a2 := a1 * 64 + (y - 0x80);
    assert ReadContinuations(s, 12, 0, a2 * 64 + (z - 0x80)) == Some(a2 * 64 + (z - 0x80));
    assert ReadContinuations(s, 9, 1, a2) == ReadContinuations(s, 12, 0, a2 * 64 + (z - 0x80));
    assert ReadContinuations(s, 6, 2, a1) == ReadContinuations(s, 9, 1, a2);
  }

  /** The four-byte form splits a scalar value into 3 + 6 + 6 + 6 bits. */
  lemma FourByteDigits(v: int, q1: int, r0: int, q2: int, r1: int, q3: int, r2: int)
    requires 0 <= v && q1 == v / 64 && r0 == v % 64 && q2 == q1 / 64 && r1 == q1 % 64 && q3 == q2 / 64 && r2 == q2 % 64
    ensures ((q3 * 64 + r2) * 64 + r1) * 64 + r0 == v
  {
    assert v == q1 * 64 + r0;
    assert q1 == q2 * 64 + r1;
    assert q2 == q3 * 64 + r2;
  }

  lemma DecodeEscapedFour(c: char, t: string)
    requires 0x1_0000 <= c as int
    ensures DecodeEscapedChar(PercentEncode(Utf8(c)) + t) == Some((c, 12))
  {
    var bs := Utf8(c);
    var s := PercentEncode(bs) + t;
    var v := c as int;
    var q1, r0 := v / 64, v % 64;
    var q2, r1 := q1 / 64, q1 % 64;
    var q3, r2 := q2 / 64, q2 % 64;
    assert bs == [0xF0 + q3, 0x80 + r2, 0x80 + r1, 0x80 + r0];
    EscapedBytesAt(bs, t, 0);
    EscapedBytesAt(bs, t, 1);
    EscapedBytesAt(bs, t, 2);
    EscapedBytesAt(bs, t, 3);
    ReadThreeContinuations(s, bs[1], bs[2], bs[3], q3);
    FourByteDigits(v, q1, r0, q2, r1, q3, r2);
    assert ReadContinuations(s, 3, 3, q3) == Some(v);
  }

  /** The escaped UTF-8 form of a character decodes to that character,
      whatever follows it. */
  lemma DecodeEscapedUtf8(c: char, t: string)
    ensures DecodeEscapedChar(PercentEncode(Utf8(c)) + t) == Some((c, 3 * |Utf8(c)|))
  {
    var v := c as int;
    if v < 0x80 {
      EscapedBytesAt(Utf8(c), t, 0);
    } else if v < 0x800 {
      DecodeEscapedTwo(c, t);
    } else if v < 0x1_0000 {
      DecodeEscapedThree(c, t);
    } else {
      DecodeEscapedFour(c, t);
    }
  }

  lemma DecodeEncodedChar(c: char, t: string)
    ensures DecodeURIComponent(EncodeUriChar(c) + t) ==
            match DecodeURIComponent(t)
            case None => None
            case Some(u) => Some([c] + u)
  {
    var s := EncodeUriChar(c) + t;
    if IsUriUnreserved(c) {
      assert s[0] == c && s[1..] == t;
    } else {
      var bs := Utf8(c);
      DecodeEscapedUtf8(c, t);
      EscapedBytesAt(bs, t, 0);
      assert s[0] == '%';
      assert s[3 * |bs|..] == t;
    }
  }

  /** Decoding what `encodeURIComponent` produced gives back its input. */
  lemma {:induction false} DecodeEncodeURIComponent(s: string)
    ensures DecodeURIComponent(EncodeURIComponent(s)) == Some(s)
  {
    if s != [] {
      DecodeEncodeURIComponent(s[1..]);
      DecodeEncodedChar(s[0], EncodeURIComponent(s[1..]));
      assert [s[0]] + s[1..] == s;
    }
  }
}
