/**
 * Base64 as a Node-compatible Buffer writes and reads it: `toString("base64")` is the
 * padded encoding of section 4 of RFC 4648; `Buffer.from(s, "base64")` is a
 * lenient decoder that also takes the URL-safe alphabet, skips every other
 * character and stops at the first '='.
 */
module Base64 {
  import opened Prelude

  /** The character for a sextet value, in the standard alphabet. */
  function Symbol(v: int): (c: char)
    requires 0 <= v < 64
    ensures c as int < 128 && c != '='
  {
    if v < 26 then (65 + v) as char
    else if v < 52 then (97 + v - 26) as char
    else if v < 62 then (48 + v - 52) as char
    else if v == 62 then '+'
    else '/'
  }

  /** The sextet value of a character of the standard or the URL-safe alphabet. */
  function Value(c: char): (o: Option<int>)
    ensures o.Some? ==> 0 <= o.value < 64
    ensures c == '=' ==> o.None?
  {
    if 'A' <= c <= 'Z' then Some(c as int - 65)
    else if 'a' <= c <= 'z' then Some(c as int - 97 + 26)
    else if '0' <= c <= '9' then Some(c as int - 48 + 52)
    else if c == '+' || c == '-' then Some(62)
    else if c == '/' || c == '_' then Some(63)
    else None
  }

  lemma ValueOfSymbol(v: int)
    requires 0 <= v < 64
    ensures Value(Symbol(v)) == Some(v)
  {
  }

  ghost predicate AreSextets(v: seq<int>)
  {
    forall i :: 0 <= i < |v| ==> 0 <= v[i] < 64
  }

  /** The sextets of b, most significant bits first, without padding. */
  function Sextets(b: seq<byte>): (v: seq<int>)
    ensures AreSextets(v)
    ensures |v| == (4 * |b| + 2) / 3
    decreases |b|
  {
    if |b| == 0 then []
    else if |b| == 1 then [b[0] / 4, (b[0] % 4) * 16]
    else if |b| == 2 then [b[0] / 4, (b[0] % 4) * 16 + b[1] / 16, (b[1] % 16) * 4]
    else
      [b[0] / 4, (b[0] % 4) * 16 + b[1] / 16, (b[1] % 16) * 4 + b[2] / 64, b[2] % 64]
      + Sextets(b[3..])
  }

  /** The characters that spell a sequence of sextets. */
  function Spell(v: seq<int>): (s: string)
    requires AreSextets(v)
    ensures |s| == |v|
    ensures forall i :: 0 <= i < |s| ==> s[i] == Symbol(v[i])
  {
    if v == [] then "" else [Symbol(v[0])] + Spell(v[1..])
  }

  /** The '=' characters that complete the last quantum of n octets. */
  function Padding(n: nat): string
  {
    if n % 3 == 1 then "==" else if n % 3 == 2 then "=" else ""
  }

  /** `Buffer.from(b).toString("base64")`. */
  function Encode(b: seq<byte>): (s: string)
    ensures Symbols(s) == Sextets(b)
  {
    SymbolsOfSpell(Sextets(b), Padding(|b|));
    Spell(Sextets(b)) + Padding(|b|)
  }

  /** The sextet values of s read up to its first '=', other characters skipped. */
  function Symbols(s: string): (v: seq<int>)
    ensures AreSextets(v)
    ensures |v| <= |s|
  {
    if s == [] || s[0] == '=' then []
    else match Value(s[0])
      case Some(x) => [x] + Symbols(s[1..])
      case None => Symbols(s[1..])
  }

  /** Octets from sextets: four give three, a tail of two or three gives one or two, a lone one nothing. */
  function Join(v: seq<int>): (b: seq<byte>)
    requires AreSextets(v)
    ensures |b| == 3 * |v| / 4
  {
    if |v| < 2 then []
    else if |v| == 2 then [v[0] * 4 + v[1] / 16]
    else if |v| == 3 then [v[0] * 4 + v[1] / 16, (v[1] % 16) * 16 + v[2] / 4]
    else [v[0] * 4 + v[1] / 16, (v[1] % 16) * 16 + v[2] / 4, (v[2] % 4) * 64 + v[3]] + Join(v[4..])
  }

  /** `Buffer.from(s, "base64")`. */
  function Decode(s: string): (b: seq<byte>)
    ensures |b| == 3 * |Symbols(s)| / 4
  {
    Join(Symbols(s))
  }

  /** Four characters per started group of three octets (section 4 of RFC 4648). */
  lemma EncodeLength(b: seq<byte>)
    ensures |Encode(b)| == 4 * ((|b| + 2) / 3)
  {
    var n := |b|;
    var q, m := n / 3, n % 3;
    assert n == 3 * q + m;
    assert |Sextets(b)| == (4 * n + 2) / 3;
    if m == 0 {
      assert (4 * n + 2) / 3 == 4 * q && (n + 2) / 3 == q;
    } else if m == 1 {
      assert (4 * n + 2) / 3 == 4 * q + 2 && (n + 2) / 3 == q + 1;
    } else {
      assert (4 * n + 2) / 3 == 4 * q + 3 && (n + 2) / 3 == q + 1;
    }
  }

  /** Every character of an encoding is ASCII: an alphabet symbol or '='. */
  lemma EncodeIsAscii(b: seq<byte>)
    ensures forall i :: 0 <= i < |Encode(b)| ==> Encode(b)[i] as int < 128
  {
    var sp := Spell(Sextets(b));
    forall i | 0 <= i < |Encode(b)|
      ensures Encode(b)[i] as int < 128
    {
      if i >= |sp| {
        assert Encode(b)[i] == Padding(|b|)[i - |sp|];
      }
    }
  }

  lemma {:induction false} SymbolsOfSpell(v: seq<int>, pad: string)
    requires AreSextets(v)
    requires pad == [] || pad[0] == '='
    ensures Symbols(Spell(v) + pad) == v
  {
    if v == [] {
      assert Spell(v) + pad == pad;
    } else {
      var s := Spell(v) + pad;
      assert s[0] == Symbol(v[0]);
      ValueOfSymbol(v[0]);
      assert s[1..] == Spell(v[1..]) + pad;
      SymbolsOfSpell(v[1..], pad);
    }
  }

  lemma {:induction false} JoinSextets(b: seq<byte>)
    ensures Join(Sextets(b)) == b
    decreases |b|
  {
    if |b| >= 3 {
      var head := [b[0] / 4, (b[0] % 4) * 16 + b[1] / 16, (b[1] % 16) * 4 + b[2] / 64, b[2] % 64];
      var v := head + Sextets(b[3..]);
      assert v[4..] == Sextets(b[3..]);
      JoinSextets(b[3..]);
      assert b == b[..3] + b[3..];
    }
  }

  /** Decoding undoes encoding. */
  lemma DecodeEncode(b: seq<byte>)
    ensures Decode(Encode(b)) == b
  {
    JoinSextets(b);
  }
}
