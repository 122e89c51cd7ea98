/**
 UTF-8 as RFC 3629 defines it: what `str::from_utf8` accepts and what a `str`'s
 bytes are. Both readers decode header blocks through it.
 */
module Utf8 {
  import opened Wrappers
  import opened Bytes

  /** The UTF-8 form of one Unicode scalar value. */
  function EncodeChar(c: char): (r: bytes)
    ensures 1 <= |r| <= 4
  {
    var v := c as int;
    if v < 0x80 then [v]
    else if v < 0x800 then [0xC0 + v / 0x40, 0x80 + v % 0x40]
    else if v < 0x1_0000 then [0xE0 + v / 0x1000, 0x80 + v / 0x40 % 0x40, 0x80 + v % 0x40]
    else [0xF0 + v / 0x4_0000, 0x80 + v / 0x1000 % 0x40, 0x80 + v / 0x40 % 0x40, 0x80 + v % 0x40]
  }

  function Encode(s: string): bytes {
    if s == [] then [] else EncodeChar(s[0]) + Encode(s[1..])
  }

  predicate Continuation(b: byte) {
    0x80 <= b < 0xC0
  }

  predicate Scalar(v: int) {
    0 <= v < 0xD800 || 0xE000 <= v <= 0x10_FFFF
  }

  /** The first character of `b`: shortest form only, and no surrogates. */
  function DecodeChar(b: bytes): (r: Option<char>) {
    if |b| >= 1 && b[0] < 0x80 then
      Some(b[0] as int as char)
    else if |b| >= 2 && 0xC2 <= b[0] < 0xE0 && Continuation(b[1]) then
      Some(((b[0] as int - 0xC0) * 0x40 + (b[1] as int - 0x80)) as char)
    else if |b| >= 3 && 0xE0 <= b[0] < 0xF0 && Continuation(b[1]) && Continuation(b[2]) then
      var v := (b[0] as int - 0xE0) * 0x1000 + (b[1] as int - 0x80) * 0x40 + (b[2] as int - 0x80);
      if v < 0x800 || !Scalar(v) then None else Some(v as char)
    else if |b| >= 4 && 0xF0 <= b[0] < 0xF5 && Continuation(b[1]) && Continuation(b[2]) && Continuation(b[3]) then
      var v := (b[0] as int - 0xF0) * 0x4_0000 + (b[1] as int - 0x80) * 0x1000
               + (b[2] as int - 0x80) * 0x40 + (b[3] as int - 0x80);
      if v < 0x1_0000 || !Scalar(v) then None else Some(v as char)
    else
      None
  }

  /** `str::from_utf8`. */
  function Decode(b: bytes): (r: Option<string>) {
    if b == [] then Some([])
    else
      match DecodeChar(b)
      case None => None
      case Some(c) =>
        if |EncodeChar(c)| > |b| then None
        else
          match Decode(b[|EncodeChar(c)|..])
          case None => None
          case Some(s) => Some([c] + s)
  }

  lemma Digits(v: int, d3: int, d2: int, d1: int, d0: int)
    requires 0 <= d2 < 0x40 && 0 <= d1 < 0x40 && 0 <= d0 < 0x40
    requires v == d3 * 0x4_0000 + d2 * 0x1000 + d1 * 0x40 + d0
    ensures v / 0x4_0000 == d3
    ensures v / 0x1000 == d3 * 0x40 + d2 && v / 0x1000 % 0x40 == d2
    ensures v / 0x40 == d3 * 0x1000 + d2 * 0x40 + d1 && v / 0x40 % 0x40 == d1
    ensures v % 0x40 == d0
  {
  }

  /** A decoded character's encoding is exactly the bytes it was decoded from. */
  lemma DecodedChar(b: bytes)
    ensures DecodeChar(b).Some? ==> EncodeChar(DecodeChar(b).value) <= b
  {
    if DecodeChar(b).Some? {
      var v := DecodeChar(b).value as int;
      if b[0] >= 0xF0 {
        Digits(v, b[0] as int - 0xF0, b[1] as int - 0x80, b[2] as int - 0x80, b[3] as int - 0x80);
      } else if b[0] >= 0xE0 {
        Digits(v, 0, b[0] as int - 0xE0, b[1] as int - 0x80, b[2] as int - 0x80);
      } else if b[0] >= 0x80 {
        Digits(v, 0, 0, b[0] as int - 0xC0, b[1] as int - 0x80);
      }
    }
  }

  lemma EncodedChar(c: char, rest: bytes)
    ensures DecodeChar(EncodeChar(c) + rest) == Some(c)
  {
    var e := EncodeChar(c);
    assert forall i | 0 <= i < |e| :: (e + rest)[i] == e[i];
    EncodedPrefix(c, e + rest);
  }

  /** The base-64 digits of a code point. */
  lemma Pieces(v: int) returns (d3: int, d2: int, d1: int, d0: int)
    requires 0 <= v
    ensures 0 <= d3 && 0 <= d2 < 0x40 && 0 <= d1 < 0x40 && 0 <= d0 < 0x40
    ensures v == d3 * 0x4_0000 + d2 * 0x1000 + d1 * 0x40 + d0
  {
    d0 := v % 0x40;
    var high := v / 0x40;
    d1 := high % 0x40;
    var higher := high / 0x40;
    d2, d3 := higher % 0x40, higher / 0x40;
  }

  /** Decoding looks no further than the encoding. */
  lemma EncodedPrefix(c: char, b: bytes)
    requires |EncodeChar(c)| <= |b| && forall i | 0 <= i < |EncodeChar(c)| :: b[i] == EncodeChar(c)[i]
    ensures DecodeChar(b) == Some(c)
  {
    var v, e := c as int, EncodeChar(c);
    var d3, d2, d1, d0 := Pieces(v);
    Digits(v, d3, d2, d1, d0);
    if v < 0x80 {
      assert e == [v] && b[0] == e[0];
    } else if v < 0x800 {
      assert e == [0xC0 + d1 + d2 * 0x40, 0x80 + d0] && d2 < 1 && d3 == 0;
      assert b[0] == e[0] && b[1] == e[1];
    } else if v < 0x1_0000 {
      assert e == [0xE0 + d2, 0x80 + d1, 0x80 + d0] && d3 == 0 by {
        assert d3 == 0 && d2 < 0x10;
      }
      assert b[0] == e[0] && b[1] == e[1] && b[2] == e[2];
    } else {
      assert e == [0xF0 + d3, 0x80 + d2, 0x80 + d1, 0x80 + d0];
      assert b[0] == e[0] && b[1] == e[1] && b[2] == e[2] && b[3] == e[3];
    }
  }

  /** Decoding succeeds exactly on encodings, and inverts them. */
  lemma {:induction false} DecodeInvertsEncode(b: bytes, s: string)
    ensures Decode(b) == Some(s) <==> b == Encode(s)
    decreases |b| + |s|
  {
    if s == [] {
      if b != [] && DecodeChar(b).Some? {
        DecodedChar(b);
      }
    } else {
      var e := EncodeChar(s[0]);
      EncodedChar(s[0], b[if |e| <= |b| then |e| else |b|..]);
      if b != [] && DecodeChar(b).Some? {
        DecodedChar(b);
        var c := DecodeChar(b).value;
        assert b == EncodeChar(c) + b[|EncodeChar(c)|..];
        DecodeInvertsEncode(b[|EncodeChar(c)|..], s[1..]);
        assert s == [s[0]] + s[1..];
        if b == Encode(s) {
          EncodedChar(s[0], Encode(s[1..]));
        }
      } else if b == Encode(s) {
        EncodedChar(s[0], Encode(s[1..]));
      }
    }
  }

  lemma {:induction false} EncodeConcat(s: string, t: string)
    ensures Encode(s + t) == Encode(s) + Encode(t)
  {
    if s == [] {
      assert s + t == t;
    } else {
      assert (s + t)[1..] == s[1..] + t;
      EncodeConcat(s[1..], t);
    }
  }

  /** The examples of section 7 of RFC 3629, and the boundaries of its table in section 3. */
  lemma StandardExamples()
    ensures EncodeChar('A') == [0x41] && EncodeChar('\U{2262}') == [0xE2, 0x89, 0xA2]
    ensures EncodeChar('\U{0391}') == [0xCE, 0x91] && EncodeChar('.') == [0x2E]
    ensures EncodeChar('\U{D55C}') == [0xED, 0x95, 0x9C] && EncodeChar('\U{8A9E}') == [0xE8, 0xAA, 0x9E]
    ensures EncodeChar('\U{233B4}') == [0xF0, 0xA3, 0x8E, 0xB4]
    ensures EncodeChar('\U{007F}') == [0x7F] && EncodeChar('\U{0080}') == [0xC2, 0x80]
    ensures EncodeChar('\U{07FF}') == [0xDF, 0xBF] && EncodeChar('\U{0800}') == [0xE0, 0xA0, 0x80]
    ensures EncodeChar('\U{FFFF}') == [0xEF, 0xBF, 0xBF] && EncodeChar('\U{10000}') == [0xF0, 0x90, 0x80, 0x80]
    ensures EncodeChar('\U{10FFFF}') == [0xF4, 0x8F, 0xBF, 0xBF]
  {
  }
}
