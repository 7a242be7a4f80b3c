/**
 * UTF-8 (RFC 3629) as the wallet's libraries use it: `TextEncoder.encode`
 * and CryptoJS's `Utf8.parse` encode, CryptoJS's `Utf8.stringify` decodes and
 * throws on anything that is not well-formed UTF-8 (overlong forms,
 * surrogates, code points above U+10FFFF, truncated sequences).
 */
module Utf8 {
  import opened Prelude

  predicate IsContinuation(x: byte)
  {
    0x80 <= x < 0xC0
  }

  /** The one to four octets of a code point. */
  function EncodeChar(c: char): (b: seq<byte>)
    ensures 1 <= |b| <= 4
    ensures |b| == 1 <==> c as int < 0x80
  {
    var n := c as int;
    if n < 0x80 then [n]
    else if n < 0x800 then [0xC0 + n / 64, 0x80 + n % 64]
    else if n < 0x10000 then [0xE0 + n / 4096, 0x80 + (n / 64) % 64, 0x80 + n % 64]
    else [0xF0 + n / 262144, 0x80 + (n / 4096) % 64, 0x80 + (n / 64) % 64, 0x80 + n % 64]
  }

  function Encode(s: string): (b: seq<byte>)
    ensures |s| <= |b| <= 4 * |s|
  {
    if s == [] then [] else EncodeChar(s[0]) + Encode(s[1..])
  }

  /** The code point at the front of b and the number of octets it takes, when well formed. */
  function DecodeFirst(b: seq<byte>): (r: Option<(char, nat)>)
    requires |b| > 0
    ensures r.Some? ==> 1 <= r.value.1 <= |b|
  {
    var b0: int := b[0];
    if b0 < 0x80 then Some((b0 as char, 1))
    else if 0xC2 <= b0 < 0xE0 then
      if |b| >= 2 && IsContinuation(b[1]) then
        var n: int := (b0 - 0xC0) * 64 + (b[1] as int - 0x80);
        Some((n as char, 2))
      else None
    else if 0xE0 <= b0 < 0xF0 then
      if |b| >= 3 && IsContinuation(b[1]) && IsContinuation(b[2]) then
        var n: int := (b0 - 0xE0) * 4096 + (b[1] as int - 0x80) * 64 + (b[2] as int - 0x80);
        if n < 0x800 || 0xD800 <= n < 0xE000 then None else Some((n as char, 3))
      else None
    else if 0xF0 <= b0 < 0xF5 then
      if |b| >= 4 && IsContinuation(b[1]) && IsContinuation(b[2]) && IsContinuation(b[3]) then
        var n: int := (b0 - 0xF0) * 262144 + (b[1] as int - 0x80) * 4096
                      + (b[2] as int - 0x80) * 64 + (b[3] as int - 0x80);
        if n < 0x10000 || n > 0x10FFFF then None else Some((n as char, 4))
      else None
    else None
  }

  /** The text b spells, or None when b is not well-formed UTF-8; only encodings are accepted. */
  function Decode(b: seq<byte>): (r: Option<string>)
    ensures r.Some? ==> Encode(r.value) == b
    decreases |b|
  {
    if b == [] then Some("")
    else match DecodeFirst(b)
      case None => None
      case Some((c, k)) =>
        match Decode(b[k..])
        case None => None
        case Some(rest) =>
          EncodeCharOfDecodeFirst(b);
          assert ([c] + rest)[1..] == rest;
          assert b == b[..k] + b[k..];
          Some([c] + rest)
  }

  /** What DecodeFirst reads is the encoding of the code point it returns. */
  lemma EncodeCharOfDecodeFirst(b: seq<byte>)
    requires |b| > 0 && DecodeFirst(b).Some?
    ensures EncodeChar(DecodeFirst(b).value.0) == b[..DecodeFirst(b).value.1]
  {
    var b0: int := b[0];
    var c := DecodeFirst(b).value.0;
    var n := c as int;
    if b0 < 0x80 {
    } else if b0 < 0xE0 {
      var x1: int := b[1] as int - 0x80;
      assert n == (b0 - 0xC0) * 64 + x1;
      assert n / 64 == b0 - 0xC0 && n % 64 == x1;
    } else if b0 < 0xF0 {
      var x1: int, x2: int := b[1] as int - 0x80, b[2] as int - 0x80;
      assert n == ((b0 - 0xE0) * 64 + x1) * 64 + x2;
      assert n % 64 == x2 && n / 64 == (b0 - 0xE0) * 64 + x1;
      assert (n / 64) % 64 == x1 && n / 4096 == b0 - 0xE0;
    } else {
      var x1: int, x2: int, x3: int := b[1] as int - 0x80, b[2] as int - 0x80, b[3] as int - 0x80;
      assert n == (((b0 - 0xF0) * 64 + x1) * 64 + x2) * 64 + x3;
      assert n % 64 == x3 && n / 64 == ((b0 - 0xF0) * 64 + x1) * 64 + x2;
      assert (n / 64) % 64 == x2 && n / 4096 == (b0 - 0xF0) * 64 + x1;
      assert (n / 4096) % 64 == x1 && n / 262144 == b0 - 0xF0;
    }
  }

  lemma DecodeFirstTwo(c: char, rest: seq<byte>)
    requires 0x80 <= c as int < 0x800
    ensures DecodeFirst(EncodeChar(c) + rest) == Some((c, 2))
  {
    var n := c as int;
    var b := EncodeChar(c) + rest;
    assert b[0] == 0xC0 + n / 64 && b[1] == 0x80 + n % 64;
    assert (n / 64) * 64 + n % 64 == n;
  }

  lemma DecodeFirstThree(c: char, rest: seq<byte>)
    requires 0x800 <= c as int < 0x10000
    ensures DecodeFirst(EncodeChar(c) + rest) == Some((c, 3))
  {
    var n := c as int;
    var b := EncodeChar(c) + rest;
    var hi, mid, lo := n / 4096, (n / 64) % 64, n % 64;
    assert b[0] == 0xE0 + hi && b[1] == 0x80 + mid && b[2] == 0x80 + lo;
    assert n / 64 == hi * 64 + mid;
    assert hi * 4096 + mid * 64 + lo == n;
  }

  lemma DecodeFirstFour(c: char, rest: seq<byte>)
    requires 0x10000 <= c as int
    ensures DecodeFirst(EncodeChar(c) + rest) == Some((c, 4))
  {
    var n := c as int;
    var b := EncodeChar(c) + rest;
    var top, hi, mid, lo := n / 262144, (n / 4096) % 64, (n / 64) % 64, n % 64;
    assert b[0] == 0xF0 + top && b[1] == 0x80 + hi && b[2] == 0x80 + mid && b[3] == 0x80 + lo;
    assert n / 4096 == top * 64 + hi;
    assert n / 64 == (n / 4096) * 64 + mid;
    assert top * 262144 + hi * 4096 + mid * 64 + lo == n;
  }

  /** The encoding of a code point decodes back to it, whatever follows. */
  lemma DecodeFirstEncodeChar(c: char, rest: seq<byte>)
    ensures DecodeFirst(EncodeChar(c) + rest) == Some((c, |EncodeChar(c)|))
  {
    var n := c as int;
    if n < 0x80 {
    } else if n < 0x800 {
      DecodeFirstTwo(c, rest);
    } else if n < 0x10000 {
      DecodeFirstThree(c, rest);
    } else {
      DecodeFirstFour(c, rest);
    }
  }

  /** Decoding undoes encoding, for every string. */
  lemma {:induction false} DecodeEncode(s: string)
    ensures Decode(Encode(s)) == Some(s)
  {
    if s != [] {
      var e := EncodeChar(s[0]);
      DecodeFirstEncodeChar(s[0], Encode(s[1..]));
      assert (e + Encode(s[1..]))[|e|..] == Encode(s[1..]);
      DecodeEncode(s[1..]);
      assert [s[0]] + s[1..] == s;
    }
  }

  ghost predicate IsAscii(s: string)
  {
    forall i :: 0 <= i < |s| ==> s[i] as int < 0x80
  }

  /** ASCII text is encoded octet for octet. */
  lemma {:induction false} EncodeAscii(s: string)
    requires IsAscii(s)
    ensures |Encode(s)| == |s|
    ensures forall i :: 0 <= i < |s| ==> Encode(s)[i] == s[i] as int
  {
    if s != [] {
      EncodeAscii(s[1..]);
    }
  }
}
