/**
 * `java.net.URLEncoder.encode(s, StandardCharsets.UTF_8)`, the form encoding of the
 * HTML Living Standard ("application/x-www-form-urlencoded serializing"): the
 * characters a-z, A-Z, 0-9, '.', '-', '*' and '_' stay as they are, a space becomes
 * '+', and every other character becomes its UTF-8 bytes (RFC 3629), each written
 * as '%' followed by two upper-case hexadecimal digits.
 *
 * Decode is the matching decoder (as `java.net.URLDecoder` reads such text); it is
 * the partner definition against which the encoder is proved injective.
 */
module UrlEncoding {
  import opened Wrappers

  type Byte = b: int | 0 <= b < 0x100

  /** The characters the encoder copies unchanged. */
  predicate IsUnreserved(c: char)
  {
    ('a' <= c <= 'z') || ('A' <= c <= 'Z') || ('0' <= c <= '9') || c == '.' || c == '-' || c == '*' || c == '_'
  }

  /** The characters that can occur in encoder output. */
  predicate IsFormSafe(c: char)
  {
    IsUnreserved(c) || c == '+' || c == '%'
  }

  predicate IsHexDigit(c: char)
  {
    ('0' <= c <= '9') || ('A' <= c <= 'F') || ('a' <= c <= 'f')
  }

  /** Upper-case hexadecimal digit, as URLEncoder writes it. */
  function HexDigit(d: int): (c: char)
    requires 0 <= d < 16
    ensures IsHexDigit(c) && IsUnreserved(c) && !('a' <= c <= 'z') && HexValue(c) == d
  {
    if d < 10 then ('0' as int + d) as char else ('A' as int + d - 10) as char
  }

  function HexValue(c: char): int
    requires IsHexDigit(c)
  {
    if '0' <= c <= '9' then c as int - '0' as int
    else if 'A' <= c <= 'F' then c as int - 'A' as int + 10
    else c as int - 'a' as int + 10
  }

  predicate IsContinuation(b: Byte) { 0x80 <= b < 0xC0 }

  /** Length of the UTF-8 sequence a lead byte announces (0: not a lead byte). */
  function Utf8Length(b: Byte): nat
  {
    if b < 0x80 then 1
    else if 0xC0 <= b < 0xE0 then 2
    else if 0xE0 <= b < 0xF0 then 3
    else if 0xF0 <= b < 0xF8 then 4
    else 0
  }

  /** UTF-8 encoding of one Unicode scalar value. */
  function Utf8(c: char): (bs: seq<Byte>)
    ensures 1 <= |bs| <= 4 && Utf8Length(bs[0]) == |bs|
    ensures forall i :: 1 <= i < |bs| ==> IsContinuation(bs[i])
  {
    var cp := c as int;
    if cp < 0x80 then [cp]
    else if cp < 0x800 then [0xC0 + cp / 64, 0x80 + cp % 64]
    else if cp < 0x10000 then [0xE0 + cp / 64 / 64, 0x80 + cp / 64 % 64, 0x80 + cp % 64]
    else [0xF0 + cp / 64 / 64 / 64, 0x80 + cp / 64 / 64 % 64, 0x80 + cp / 64 % 64, 0x80 + cp % 64]
  }

  /** The code point a well-shaped UTF-8 sequence spells. */
  function ScalarOf(bs: seq<Byte>): int
    requires 1 <= |bs| <= 4
  {
    var b: seq<int> := bs;
    if |b| == 1 then b[0]
    else if |b| == 2 then (b[0] - 0xC0) * 64 + (b[1] - 0x80)
    else if |b| == 3 then ((b[0] - 0xE0) * 64 + (b[1] - 0x80)) * 64 + (b[2] - 0x80)
    else (((b[0] - 0xF0) * 64 + (b[1] - 0x80)) * 64 + (b[2] - 0x80)) * 64 + (b[3] - 0x80)
  }

  /** Smallest code point that needs a sequence of the given length (shorter forms are overlong). */
  function MinScalar(len: int): int
  {
    if len <= 1 then 0 else if len == 2 then 0x80 else if len == 3 then 0x800 else 0x10000
  }

  predicate IsScalarValue(cp: int)
  {
    (0 <= cp < 0xD800) || (0xE000 <= cp < 0x11_0000)
  }

  /** Decodes exactly one character from a complete UTF-8 sequence; rejects malformed ones. */
  function DecodeUtf8(bs: seq<Byte>): Option<char>
  {
    if |bs| == 0 || Utf8Length(bs[0]) != |bs| then None
    else if exists i :: 1 <= i < |bs| && !IsContinuation(bs[i]) then None
    else
      var cp := ScalarOf(bs);
      if MinScalar(|bs|) <= cp && IsScalarValue(cp) then Some(cp as char) else None
  }

  lemma Utf8RoundTrip(c: char)
    ensures DecodeUtf8(Utf8(c)) == Some(c)
  {
    var cp := c as int;
    var q1 := cp / 64;
    var q2 := q1 / 64;
    var q3 := q2 / 64;
    assert cp == q1 * 64 + cp % 64;
    assert q1 == q2 * 64 + q1 % 64;
    assert q2 == q3 * 64 + q2 % 64;
    assert ScalarOf(Utf8(c)) == cp;
  }

  /** One byte as '%' and two upper-case hexadecimal digits. */
  function PercentByte(b: Byte): (t: string)
    ensures |t| == 3 && t[0] == '%'
    ensures t[1] == HexDigit(b / 16) && t[2] == HexDigit(b % 16)
    ensures forall i :: 0 <= i < |t| ==> IsFormSafe(t[i])
  {
    ['%', HexDigit(b / 16), HexDigit(b % 16)]
  }

  function PercentBytes(bs: seq<Byte>): (t: string)
    ensures |t| == 3 * |bs|
    ensures forall i :: 0 <= i < |t| ==> IsFormSafe(t[i])
  {
    if bs == [] then [] else PercentByte(bs[0]) + PercentBytes(bs[1..])
  }

  /** What the encoder writes for one character. */
  function EncodeChar(c: char): (t: string)
    ensures 1 <= |t| <= 12
    ensures forall i :: 0 <= i < |t| ==> IsFormSafe(t[i])
    ensures IsUnreserved(c) ==> t == [c]
    ensures c == ' ' ==> t == "+"
    ensures !IsUnreserved(c) && c != ' ' ==> t == PercentBytes(Utf8(c))
  {
    if IsUnreserved(c) then [c]
    else if c == ' ' then "+"
    else PercentBytes(Utf8(c))
  }

  /** `URLEncoder.encode(s, UTF_8)`: every character by itself, each taking one to twelve characters. */
  function Encode(s: string): (t: string)
    ensures |s| <= |t| <= 12 * |s|
  {
    if s == [] then [] else EncodeChar(s[0]) + Encode(s[1..])
  }

  /** The output consists of form-safe characters only. */
  lemma {:induction false} EncodeFormSafe(s: string)
    ensures forall i :: 0 <= i < |Encode(s)| ==> IsFormSafe(Encode(s)[i])
  {
    if s != [] {
      EncodeFormSafe(s[1..]);
      var head, t := EncodeChar(s[0]), Encode(s[1..]);
      assert forall i :: 0 <= i < |head| + |t| ==> (head + t)[i] == if i < |head| then head[i] else t[i - |head|];
    }
  }

  /** Encoded text never contains the form separators '&' and '=' nor a space. */
  lemma EncodeHasNoSeparators(s: string)
    ensures '&' !in Encode(s) && '=' !in Encode(s) && ' ' !in Encode(s)
  {
    EncodeFormSafe(s);
  }

  /** A string of unreserved characters is its own encoding. */
  lemma {:induction false} EncodeUnreserved(s: string)
    requires forall i :: 0 <= i < |s| ==> IsUnreserved(s[i])
    ensures Encode(s) == s
  {
    if s != [] {
      EncodeUnreserved(s[1..]);
      assert [s[0]] + s[1..] == s;
    }
  }

  /** Reads one "%XY" escape at the front of t. */
  function ReadByte(t: string): Option<Byte>
  {
    if |t| >= 3 && t[0] == '%' && IsHexDigit(t[1]) && IsHexDigit(t[2])
    then Some(HexValue(t[1]) * 16 + HexValue(t[2]))
    else None
  }

  /** Reads n consecutive "%XY" escapes at the front of t. */
  function ReadBytes(t: string, n: nat): (r: Option<seq<Byte>>)
    ensures r.Some? ==> |r.value| == n && 3 * n <= |t|
  {
    if n == 0 then Some([])
    else match ReadByte(t)
      case None => None
      case Some(b) =>
        match ReadBytes(t[3..], n - 1)
        case None => None
        case Some(bs) => Some([b] + bs)
  }

  /** Decodes the escaped character at the front of t, with the number of characters it spans. */
  function DecodeEscape(t: string): (r: Option<(char, nat)>)
    ensures r.Some? ==> 3 <= r.value.1 <= |t|
  {
    match ReadByte(t)
    case None => None
    case Some(lead) =>
      var n := Utf8Length(lead);
      if n == 0 then None
      else match ReadBytes(t, n)
        case None => None
        case Some(bs) =>
          match DecodeUtf8(bs)
          case None => None
          case Some(c) => Some((c, 3 * n))
  }

  function Cons(c: char, r: Option<string>): Option<string>
  {
    match r
    case None => None
    case Some(s) => Some([c] + s)
  }

  /** Form decoding: '+' is a space, "%XY" escapes spell UTF-8, other characters stand for themselves. */
  function Decode(t: string): Option<string>
    decreases |t|
  {
    if t == [] then Some([])
    else if t[0] == '%' then
      match DecodeEscape(t)
      case None => None
      case Some(cn) => Cons(cn.0, Decode(t[cn.1..]))
    else Cons(if t[0] == '+' then ' ' else t[0], Decode(t[1..]))
  }

  lemma {:induction false} ReadPercentBytes(bs: seq<Byte>, rest: string)
    ensures ReadBytes(PercentBytes(bs) + rest, |bs|) == Some(bs)
  {
    if bs != [] {
      var b := bs[0];
      var t := PercentBytes(bs) + rest;
      assert t == PercentByte(b) + (PercentBytes(bs[1..]) + rest);
      assert b / 16 * 16 + b % 16 == b;
      assert ReadByte(t) == Some(b);
      assert t[3..] == PercentBytes(bs[1..]) + rest;
      ReadPercentBytes(bs[1..], rest);
      assert [b] + bs[1..] == bs;
    }
  }

  lemma DecodeEncodeChar(c: char, rest: string)
    ensures Decode(EncodeChar(c) + rest) == Cons(c, Decode(rest))
  {
    var t := EncodeChar(c) + rest;
    if IsUnreserved(c) || c == ' ' {
      assert t[0] != '%' && t[1..] == rest;
    } else {
      var bs := Utf8(c);
      assert t == PercentBytes(bs) + rest;
      ReadPercentBytes(bs, rest);
      assert ReadByte(t) == Some(bs[0]);
      Utf8RoundTrip(c);
      assert DecodeEscape(t) == Some((c, 3 * |bs|));
      assert t[3 * |bs|..] == rest;
    }
  }

  /** Decoding undoes encoding, for every string. */
  lemma {:induction false} DecodeEncode(s: string)
    ensures Decode(Encode(s)) == Some(s)
  {
    if s != [] {
      DecodeEncodeChar(s[0], Encode(s[1..]));
      DecodeEncode(s[1..]);
      assert [s[0]] + s[1..] == s;
    }
  }

  /** Hence the encoder is injective: distinct strings have distinct encodings. */
  lemma EncodeInjective(s: string, u: string)
    requires Encode(s) == Encode(u)
    ensures s == u
  {
    DecodeEncode(s);
    DecodeEncode(u);
  }
}
