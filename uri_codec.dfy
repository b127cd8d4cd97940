/**
 * The text encodings the URL helpers rely on, written out: UTF-8,
 * `encodeURIComponent` / `decodeURIComponent`, and the
 * application/x-www-form-urlencoded serializer and parser that
 * `URLSearchParams` uses.
 */
module UriCodec {
  import opened Wrappers
  import opened Text
  import Seqs

  type Byte = b: int | 0 <= b < 256

  /** A UTF-8 continuation byte, 10xxxxxx. */
  predicate IsCont(b: Byte) { 0x80 <= b < 0xC0 }

  /** The UTF-8 encoding of one Unicode scalar value. */
  function CharBytes(c: char): (bs: seq<Byte>)
    ensures 1 <= |bs| <= 4
    ensures (|bs| == 1) <==> (c as int < 0x80)
    ensures |bs| == 1 ==> bs[0] == c as int
    ensures |bs| > 1 ==> 0xC2 <= bs[0] <= 0xF4 && forall k :: 1 <= k < |bs| ==> IsCont(bs[k])
  {
    var cp := c as int;
    if cp < 0x80 then [cp]
    else if cp < 0x800 then [0xC0 + cp / 64, 0x80 + cp % 64]
    else if cp < 0x10000 then [0xE0 + cp / 4096, 0x80 + (cp / 64) % 64, 0x80 + cp % 64]
    else [0xF0 + cp / 262144, 0x80 + (cp / 4096) % 64, 0x80 + (cp / 64) % 64, 0x80 + cp % 64]
  }

  function Utf8(s: string): (bs: seq<Byte>)
  {
    if s == [] then [] else CharBytes(s[0]) + Utf8(s[1..])
  }

  /**
   * Decodes the first character of a strict UTF-8 byte string, with the
   * number of bytes it used; `None` for a stray continuation byte, a
   * truncated or overlong sequence, a surrogate or a value past U+10FFFF.
   */
  function DecodeOne(bs: seq<Byte>): (r: Option<(char, nat)>)
    requires bs != []
    ensures r.Some? ==> 1 <= r.value.1 <= |bs| && r.value.1 <= 4
  {
    var b0: int := bs[0];
    if b0 < 0x80 then Some((b0 as char, 1))
    else if 0xC2 <= b0 < 0xE0 && |bs| >= 2 && IsCont(bs[1]) then
      Some((((b0 - 0xC0) * 64 + (bs[1] as int - 0x80)) as char, 2))
    else if 0xE0 <= b0 < 0xF0 && |bs| >= 3 && IsCont(bs[1]) && IsCont(bs[2]) then
      var cp := (b0 - 0xE0) * 4096 + (bs[1] as int - 0x80) * 64 + (bs[2] as int - 0x80);
      if cp < 0x800 || 0xD800 <= cp < 0xE000 then None else Some((cp as char, 3))
    else if 0xF0 <= b0 < 0xF5 && |bs| >= 4 && IsCont(bs[1]) && IsCont(bs[2]) && IsCont(bs[3]) then
      var cp := (b0 - 0xF0) * 262144 + (bs[1] as int - 0x80) * 4096 + (bs[2] as int - 0x80) * 64 + (bs[3] as int - 0x80);
      if cp < 0x10000 || cp > 0x10FFFF then None else Some((cp as char, 4))
    else None
  }

  /** Strict UTF-8 decoding of a whole byte string. */
  function Utf8Decode(bs: seq<Byte>): Option<string>
    decreases |bs|
  {
    if bs == [] then Some("")
    else match DecodeOne(bs)
      case None => None
      case Some(p) =>
        match Utf8Decode(bs[p.1..])
        case None => None
        case Some(rest) => Some([p.0] + rest)
  }

  /** The decoder reads back exactly the character the encoder wrote. */
  lemma DecodeOneCharBytes(c: char, rest: seq<Byte>)
    ensures DecodeOne(CharBytes(c) + rest) == Some((c, |CharBytes(c)|))
  {
    var cp := c as int;
    if cp < 0x80 {
    } else if cp < 0x800 {
      DecodeTwo(c, rest);
    } else if cp < 0x10000 {
      DecodeThree(c, rest);
    } else {
      DecodeFour(c, rest);
    }
  }

  lemma DecodeTwo(c: char, rest: seq<Byte>)
    requires 0x80 <= c as int < 0x800
    ensures DecodeOne(CharBytes(c) + rest) == Some((c, 2))
  {
    var cp := c as int;
    var bs := CharBytes(c) + rest;
    assert cp == (cp / 64) * 64 + cp % 64;
    assert bs[0] == 0xC0 + cp / 64 && bs[1] == 0x80 + cp % 64;
  }

  lemma DecodeThree(c: char, rest: seq<Byte>)
    requires 0x800 <= c as int < 0x10000
    ensures DecodeOne(CharBytes(c) + rest) == Some((c, 3))
  {
    var cp := c as int;
    var bs := CharBytes(c) + rest;
    var q := cp / 64;
    assert cp == q * 64 + cp % 64;
    assert q == (q / 64) * 64 + q % 64;
    assert cp / 4096 == q / 64;
    assert bs[0] == 0xE0 + cp / 4096 && bs[1] == 0x80 + q % 64 && bs[2] == 0x80 + cp % 64;
    assert (bs[0] as int - 0xE0) * 4096 + (bs[1] as int - 0x80) * 64 + (bs[2] as int - 0x80) == cp;
  }

  lemma DecodeFour(c: char, rest: seq<Byte>)
    requires 0x10000 <= c as int
    ensures DecodeOne(CharBytes(c) + rest) == Some((c, 4))
  {
    var cp := c as int;
    var bs := CharBytes(c) + rest;
    var q := cp / 64;
    var q2 := q / 64;
    assert cp == q * 64 + cp % 64;
    assert q == q2 * 64 + q % 64;
    assert q2 == (q2 / 64) * 64 + q2 % 64;
    assert cp / 4096 == q2;
    assert cp / 262144 == q2 / 64;
    assert bs[0] == 0xF0 + q2 / 64 && bs[1] == 0x80 + q2 % 64;
    assert bs[2] == 0x80 + q % 64 && bs[3] == 0x80 + cp % 64;
    assert (bs[0] as int - 0xF0) * 262144 + (bs[1] as int - 0x80) * 4096 + (bs[2] as int - 0x80) * 64 + (bs[3] as int - 0x80) == cp;
  }


  /** UTF-8 round trip: decoding an encoded string gives the string back. */
  lemma {:induction false} Utf8RoundTrip(s: string)
    ensures Utf8Decode(Utf8(s)) == Some(s)
    decreases |s|
  {
    if s != [] {
      var bs := CharBytes(s[0]);
      DecodeOneCharBytes(s[0], Utf8(s[1..]));
      assert (bs + Utf8(s[1..]))[|bs|..] == Utf8(s[1..]);
      Utf8RoundTrip(s[1..]);
      assert [s[0]] + s[1..] == s;
    }
  }

  /** An upper-case hexadecimal digit, as both encoders write them. */
  function HexDigit(d: nat): (c: char)
    requires d < 16
    ensures HexValue(c) == Some(d)
    ensures '0' <= c <= '9' || 'A' <= c <= 'F'
  {
    if d < 10 then ('0' as int + d) as char else ('A' as int + d - 10) as char
  }

  /** The value of a hexadecimal digit of either case, as both decoders read them. */
  function HexValue(c: char): (r: Option<nat>)
    ensures r.Some? ==> r.value < 16
  {
    if '0' <= c <= '9' then Some(c as int - '0' as int)
    else if 'A' <= c <= 'F' then Some(c as int - 'A' as int + 10)
    else if 'a' <= c <= 'f' then Some(c as int - 'a' as int + 10)
    else None
  }

  predicate IsHex(c: char) { HexValue(c).Some? }

  function HexByte(hi: char, lo: char): Byte
    requires IsHex(hi) && IsHex(lo)
  {
    HexValue(hi).value * 16 + HexValue(lo).value
  }

  /** `%XX` for one byte. */
  function Percent(b: Byte): string
  {
    ['%', HexDigit(b / 16), HexDigit(b % 16)]
  }

  function PercentAll(bs: seq<Byte>): (r: string)
    ensures forall k :: 0 <= k < |r| ==> r[k] == '%' || '0' <= r[k] <= '9' || 'A' <= r[k] <= 'F'
    ensures |r| == 3 * |bs|
  {
    if bs == [] then "" else Percent(bs[0]) + PercentAll(bs[1..])
  }

  /** The characters `encodeURIComponent` leaves as they are. */
  predicate UriUnreserved(c: char)
  {
    'A' <= c <= 'Z' || 'a' <= c <= 'z' || '0' <= c <= '9' || c in "-_.!~*'()"
  }

  /** The characters the form serializer leaves as they are. */
  predicate FormSafe(c: char)
  {
    'A' <= c <= 'Z' || 'a' <= c <= 'z' || '0' <= c <= '9' || c in "*-._"
  }

  function EncodeChar(c: char): string
  {
    if UriUnreserved(c) then [c] else PercentAll(CharBytes(c))
  }

  /** `encodeURIComponent(s)`. */
  function EncodeComponent(s: string): (r: string)
    ensures forall k :: 0 <= k < |r| ==> UriUnreserved(r[k]) || r[k] == '%'
    ensures r == "" <==> s == ""
  {
    if s == [] then "" else EncodeChar(s[0]) + EncodeComponent(s[1..])
  }

  function FormEncodeChar(c: char): string
  {
    if c == ' ' then "+" else if FormSafe(c) then [c] else PercentAll(CharBytes(c))
  }

  /** The application/x-www-form-urlencoded byte serializer applied to the UTF-8 of `s`. */
  function FormEncode(s: string): (r: string)
    ensures forall k :: 0 <= k < |r| ==> FormSafe(r[k]) || r[k] == '+' || r[k] == '%'
  {
    if s == [] then "" else FormEncodeChar(s[0]) + FormEncode(s[1..])
  }

  /**
   * The bytes `decodeURIComponent` reads: `%XX` is one byte, any other
   * character its own UTF-8; a `%` without two hexadecimal digits throws.
   */
  function ComponentBytes(s: string): Option<seq<Byte>>
    decreases |s|
  {
    if s == [] then Some([])
    else if s[0] == '%' then
      if |s| >= 3 && IsHex(s[1]) && IsHex(s[2]) then
        match ComponentBytes(s[3..])
        case None => None
        case Some(rest) => Some([HexByte(s[1], s[2])] + rest)
      else None
    else
      match ComponentBytes(s[1..])
      case None => None
      case Some(rest) => Some(CharBytes(s[0]) + rest)
  }

  /** `decodeURIComponent(s)`; `None` where it throws `URIError`. */
  function DecodeComponent(s: string): Option<string>
  {
    match ComponentBytes(s)
    case None => None
    case Some(bs) => Utf8Decode(bs)
  }

  /**
   * The bytes the form parser reads: `+` is a space, `%XX` one byte, and
   * a `%` without two hexadecimal digits stays a literal `%`.
   */
  function FormBytes(s: string): seq<Byte>
    decreases |s|
  {
    if s == [] then []
    else if s[0] == '+' then [0x20] + FormBytes(s[1..])
    else if s[0] == '%' && |s| >= 3 && IsHex(s[1]) && IsHex(s[2]) then [HexByte(s[1], s[2])] + FormBytes(s[3..])
    else CharBytes(s[0]) + FormBytes(s[1..])
  }

  /** The form parser's decoding of a name or a value (strict UTF-8: `None` where it would substitute U+FFFD). */
  function FormDecode(s: string): Option<string>
  {
    Utf8Decode(FormBytes(s))
  }

  lemma HexByteOfPercent(b: Byte)
    ensures IsHex(Percent(b)[1]) && IsHex(Percent(b)[2]) && HexByte(Percent(b)[1], Percent(b)[2]) == b
  {
  }

  /** A run of `%XX` escapes starts with the first byte's escape, then the rest of the run. */
  lemma PercentStep(bs: seq<Byte>, rest: string, t: string)
    requires bs != [] && t == PercentAll(bs) + rest
    ensures |t| >= 3 && t[0] == '%'
    ensures IsHex(t[1]) && IsHex(t[2]) && HexByte(t[1], t[2]) == bs[0]
    ensures t[3..] == PercentAll(bs[1..]) + rest
  {
    var p := Percent(bs[0]);
    var u := PercentAll(bs[1..]) + rest;
    HexByteOfPercent(bs[0]);
    assert t == p + u;
    assert t[1] == p[1] && t[2] == p[2];
    assert t[3..] == u;
  }


  lemma {:induction false} ComponentBytesPercent(bs: seq<Byte>, rest: string)
    ensures ComponentBytes(PercentAll(bs) + rest) ==
            (match ComponentBytes(rest) case None => None case Some(r) => Some(bs + r))
    decreases |bs|
  {
    if bs == [] {
      assert PercentAll(bs) + rest == rest;
      match ComponentBytes(rest) {
        case None =>
        case Some(r) => assert bs + r == r;
      }
    } else {
      PercentStep(bs, rest, PercentAll(bs) + rest);
      ComponentBytesPercent(bs[1..], rest);
      match ComponentBytes(rest) {
        case None =>
        case Some(r) => Seqs.HeadTailAppend(bs, r);
      }
    }
  }

  lemma {:induction false} ComponentBytesOfEncoded(s: string)
    ensures ComponentBytes(EncodeComponent(s)) == Some(Utf8(s))
    decreases |s|
  {
    if s != [] {
      var rest := EncodeComponent(s[1..]);
      ComponentBytesOfEncoded(s[1..]);
      ComponentBytesOfChar(s[0], rest, Utf8(s[1..]));
    }
  }

  /** One encoded character in front of text whose bytes are `bs`. */
  lemma ComponentBytesOfChar(c: char, rest: string, bs: seq<Byte>)
    requires ComponentBytes(rest) == Some(bs)
    ensures ComponentBytes(EncodeChar(c) + rest) == Some(CharBytes(c) + bs)
  {
    if UriUnreserved(c) {
      assert ([c] + rest)[1..] == rest;
    } else {
      ComponentBytesPercent(CharBytes(c), rest);
    }
  }

  /** `decodeURIComponent(encodeURIComponent(s)) == s`. */
  lemma DecodeEncodeComponent(s: string)
    ensures DecodeComponent(EncodeComponent(s)) == Some(s)
  {
    ComponentBytesOfEncoded(s);
    Utf8RoundTrip(s);
  }

  lemma {:induction false} FormBytesPercent(bs: seq<Byte>, rest: string)
    ensures FormBytes(PercentAll(bs) + rest) == bs + FormBytes(rest)
    decreases |bs|
  {
    if bs == [] {
      assert PercentAll(bs) + rest == rest;
    } else {
      PercentStep(bs, rest, PercentAll(bs) + rest);
      FormBytesPercent(bs[1..], rest);
      Seqs.HeadTailAppend(bs, FormBytes(rest));
    }
  }

  lemma {:induction false} FormBytesOfFormEncoded(s: string)
    ensures FormBytes(FormEncode(s)) == Utf8(s)
    decreases |s|
  {
    if s != [] {
      var rest := FormEncode(s[1..]);
      FormBytesOfFormEncoded(s[1..]);
      if s[0] == ' ' || FormSafe(s[0]) {
        assert (FormEncodeChar(s[0]) + rest)[1..] == rest;
      } else {
        FormBytesPercent(CharBytes(s[0]), rest);
      }
    }
  }

  lemma {:induction false} FormBytesOfComponent(s: string)
    ensures FormBytes(EncodeComponent(s)) == Utf8(s)
    decreases |s|
  {
    if s != [] {
      var rest := EncodeComponent(s[1..]);
      FormBytesOfComponent(s[1..]);
      if UriUnreserved(s[0]) {
        assert (EncodeChar(s[0]) + rest)[1..] == rest;
      } else {
        FormBytesPercent(CharBytes(s[0]), rest);
      }
    }
  }

  /** The form parser reads back what the form serializer wrote. */
  lemma FormRoundTrip(s: string)
    ensures FormDecode(FormEncode(s)) == Some(s)
  {
    FormBytesOfFormEncoded(s);
    Utf8RoundTrip(s);
  }

  /** The form parser also reads an `encodeURIComponent` spelling back to the original text. */
  lemma FormDecodeOfComponent(s: string)
    ensures FormDecode(EncodeComponent(s)) == Some(s)
  {
    FormBytesOfComponent(s);
    Utf8RoundTrip(s);
  }
}
