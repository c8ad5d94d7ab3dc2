/**
 * The bytes of a string. Go's `[]byte(s)` conversion yields the UTF-8 encoding
 * of the string; `Encode` is that encoding over Unicode scalar values, and
 * `Decode` is its inverse, used to state that no information is lost.
 */
module Utf8 {
  import opened Wrappers

  type byte = b: int | 0 <= b < 0x100

  predicate IsContinuation(b: byte) {
    0x80 <= b < 0xC0
  }

  /** The one to four bytes that encode a single scalar value. */
  function EncodeChar(c: char): (r: seq<byte>)
    ensures 1 <= |r| <= 4
    ensures (c as int < 0x80) <==> |r| == 1
  {
    var cp := c as int;
    if cp < 0x80 then
      [cp]
    else if cp < 0x800 then
      [0xC0 + cp / 0x40, 0x80 + cp % 0x40]
    else if cp < 0x1_0000 then
      [0xE0 + cp / 0x1000, 0x80 + (cp / 0x40) % 0x40, 0x80 + cp % 0x40]
    else
      [0xF0 + cp / 0x4_0000, 0x80 + (cp / 0x1000) % 0x40, 0x80 + (cp / 0x40) % 0x40, 0x80 + cp % 0x40]
  }

  /** The UTF-8 bytes of `s`: what Go's `[]byte(s)` produces. */
  function Encode(s: string): (r: seq<byte>)
    ensures |s| <= |r| <= 4 * |s|
    ensures r == [] <==> s == []
  {
    if s == [] then [] else EncodeChar(s[0]) + Encode(s[1..])
  }

  /** The first scalar value encoded at the front of `b` and its width, if `b` starts well formed. */
  function DecodeFirst(b: seq<byte>): (r: Option<(char, nat)>)
    ensures r.Some? ==> 1 <= r.value.1 <= |b| && r.value.1 <= 4
  {
    if |b| == 0 then None
    else if b[0] < 0x80 then Some((b[0] as char, 1))
    else if 0xC2 <= b[0] < 0xE0 then
      if 2 <= |b| && IsContinuation(b[1]) then
        Some((((b[0] as int - 0xC0) * 0x40 + (b[1] as int - 0x80)) as char, 2))
      else None
    else if 0xE0 <= b[0] < 0xF0 then
      if 3 <= |b| && IsContinuation(b[1]) && IsContinuation(b[2]) then
        var cp := (b[0] as int - 0xE0) * 0x1000 + (b[1] as int - 0x80) * 0x40 + (b[2] as int - 0x80);
        if 0x800 <= cp && !(0xD800 <= cp < 0xE000) then Some((cp as char, 3)) else None
      else None
    else if 0xF0 <= b[0] < 0xF5 then
      if 4 <= |b| && IsContinuation(b[1]) && IsContinuation(b[2]) && IsContinuation(b[3]) then
        var cp := (b[0] as int - 0xF0) * 0x4_0000 + (b[1] as int - 0x80) * 0x1000 + (b[2] as int - 0x80) * 0x40 + (b[3] as int - 0x80);
        if 0x1_0000 <= cp < 0x11_0000 then Some((cp as char, 4)) else None
      else None
    else None
  }

  /** The string whose UTF-8 encoding is `b`, or None when `b` is not well formed. */
  function Decode(b: seq<byte>): (r: Option<string>)
    decreases |b|
  {
    if b == [] then Some([])
    else match DecodeFirst(b)
      case None => None
      case Some((c, n)) =>
        match Decode(b[n..])
        case None => None
        case Some(rest) => Some([c] + rest)
  }

  lemma DecodeFirstEncodeChar(c: char, rest: seq<byte>)
    ensures DecodeFirst(EncodeChar(c) + rest) == Some((c, |EncodeChar(c)|))
  {
    var cp := c as int;
    var b := EncodeChar(c) + rest;
    if cp < 0x80 {
    } else if cp < 0x800 {
      TwoByteDecodes(cp, b);
    } else if cp < 0x1_0000 {
      ThreeByteDecodes(cp, b);
    } else {
      FourByteDecodes(cp, b);
    }
  }

  lemma TwoByteDecodes(cp: int, b: seq<byte>)
    requires 0x80 <= cp < 0x800 && 2 <= |b|
    requires b[0] == 0xC0 + cp / 0x40 && b[1] == 0x80 + cp % 0x40
    ensures 0xC2 <= b[0] < 0xE0 && IsContinuation(b[1])
    ensures (b[0] as int - 0xC0) * 0x40 + (b[1] as int - 0x80) == cp
  {
  }

  lemma ThreeByteDecodes(cp: int, b: seq<byte>)
    requires 0x800 <= cp < 0x1_0000 && 3 <= |b|
    requires b[0] == 0xE0 + cp / 0x1000 && b[1] == 0x80 + (cp / 0x40) % 0x40 && b[2] == 0x80 + cp % 0x40
    ensures 0xE0 <= b[0] < 0xF0 && IsContinuation(b[1]) && IsContinuation(b[2])
    ensures (b[0] as int - 0xE0) * 0x1000 + (b[1] as int - 0x80) * 0x40 + (b[2] as int - 0x80) == cp
  {
    var q := cp / 0x40;
    assert cp == q * 0x40 + cp % 0x40;
    assert q == (cp / 0x1000) * 0x40 + q % 0x40;
  }

  lemma FourByteDecodes(cp: int, b: seq<byte>)
    requires 0x1_0000 <= cp < 0x11_0000 && 4 <= |b|
    requires b[0] == 0xF0 + cp / 0x4_0000 && b[1] == 0x80 + (cp / 0x1000) % 0x40
    requires b[2] == 0x80 + (cp / 0x40) % 0x40 && b[3] == 0x80 + cp % 0x40
    ensures 0xF0 <= b[0] < 0xF5 && IsContinuation(b[1]) && IsContinuation(b[2]) && IsContinuation(b[3])
    ensures (b[0] as int - 0xF0) * 0x4_0000 + (b[1] as int - 0x80) * 0x1000 + (b[2] as int - 0x80) * 0x40 + (b[3] as int - 0x80) == cp
  {
    var q := cp / 0x40;
    var q2 := cp / 0x1000;
    assert cp == q * 0x40 + cp % 0x40;
    assert q == q2 * 0x40 + q % 0x40;
    assert q2 == (cp / 0x4_0000) * 0x40 + q2 % 0x40;
  }

  /** Decoding the bytes of a string gives back the string: the conversion loses nothing. */
  lemma {:induction false} DecodeEncode(s: string)
    ensures Decode(Encode(s)) == Some(s)
  {
    if s != [] {
      var e := EncodeChar(s[0]);
      DecodeFirstEncodeChar(s[0], Encode(s[1..]));
      assert (e + Encode(s[1..]))[|e|..] == Encode(s[1..]);
      DecodeEncode(s[1..]);
      assert [s[0]] + s[1..] == s;
    }
  }

  /** Distinct strings have distinct bytes. */
  lemma EncodeInjective(s: string, t: string)
    requires Encode(s) == Encode(t)
    ensures s == t
  {
    DecodeEncode(s);
    DecodeEncode(t);
  }

  /** On ASCII text the bytes are the character codes themselves. */
  lemma {:induction false} EncodeAscii(s: string)
    requires forall i :: 0 <= i < |s| ==> s[i] as int < 0x80
    ensures |Encode(s)| == |s|
    ensures forall i :: 0 <= i < |s| ==> Encode(s)[i] == s[i] as int
  {
    if s != [] {
      EncodeAscii(s[1..]);
      assert forall i :: 1 <= i < |s| ==> Encode(s)[i] == Encode(s[1..])[i - 1];
    }
  }
}
