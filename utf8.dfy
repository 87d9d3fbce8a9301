/** Go strings are byte sequences; `unicode/utf8.RuneCountInString` counts
    the runes of one as Go's decoder sees them. This module states that
    decoder step and the UTF-8 encoding of RFC 3629, and proves that the
    count of an encoded text is its number of code points. */
module Utf8 {

  newtype byte = x: int | 0 <= x < 256

  /** A Go string as a Dafny string: one character per byte. ASCII text reads as
      itself. */
  function Chars(b: seq<byte>): (s: string)
    ensures |s| == |b|
    ensures forall i :: 0 <= i < |b| ==> s[i] as int == b[i] as int
  {
    if b == [] then [] else [b[0] as int as char] + Chars(b[1..])
  }

  /** A continuation byte, 10xxxxxx. */
  predicate IsContinuation(b: byte) {
    0x80 <= b <= 0xBF
  }

  /** How many bytes the rune at the front of `s` takes, as Go's
      `RuneCountInString` steps: an ASCII byte is one rune, a valid two-, three-
      or four-byte sequence is one rune, and any byte that does not start a
      valid, complete sequence counts alone. The allowed range of the second
      byte excludes overlong forms, the surrogates and code points beyond
      U+10FFFF (section 4 of RFC 3629). */
  function Width(s: seq<byte>): (w: nat)
    requires s != []
    ensures 1 <= w <= 4 && w <= |s|
  {
    var c := s[0];
    // ASCII, a stray continuation byte, or a byte no valid sequence starts with
    if c < 0xC2 || 0xF4 < c then 1
    else
      var size := if c < 0xE0 then 2 else if c < 0xF0 then 3 else 4;
      var lo: byte := if c == 0xE0 then 0xA0 else if c == 0xF0 then 0x90 else 0x80;
      var hi: byte := if c == 0xED then 0x9F else if c == 0xF4 then 0x8F else 0xBF;
      if |s| < size then 1
      else if s[1] < lo || hi < s[1] then 1
      else if size == 2 then 2
      else if !IsContinuation(s[2]) then 1
      else if size == 3 then 3
      else if !IsContinuation(s[3]) then 1
      else 4
  }

  /** `utf8.RuneCountInString`. */
  function RuneCount(s: seq<byte>): (n: nat)
    ensures n <= |s|
    ensures s != [] ==> n >= 1
    decreases |s|
  {
    if s == [] then 0 else 1 + RuneCount(s[Width(s)..])
  }

  /** Every rune takes at most four bytes. */
  lemma {:induction false} RuneCountLower(s: seq<byte>)
    ensures 4 * RuneCount(s) >= |s|
    decreases |s|
  {
    if s != [] {
      RuneCountLower(s[Width(s)..]);
    }
  }

  // ---------------------------------------------------------------------------
  // RFC 3629 encoding
  // ---------------------------------------------------------------------------

  /** A Unicode scalar value: a code point that is not a surrogate. */
  predicate IsScalar(cp: int) {
    0 <= cp < 0x11_0000 && !(0xD800 <= cp < 0xE000)
  }

  /** The UTF-8 encoding of one scalar value (section 3 of RFC 3629). */
  function Encode(cp: int): (r: seq<byte>)
    requires IsScalar(cp)
    ensures 1 <= |r| <= 4
  {
    if cp < 0x80 then [cp as byte]
    else if cp < 0x800 then [(0xC0 + cp / 64) as byte, (0x80 + cp % 64) as byte]
    else if cp < 0x1_0000 then
      [(0xE0 + cp / 4096) as byte, (0x80 + cp / 64 % 64) as byte, (0x80 + cp % 64) as byte]
    else
      [(0xF0 + cp / 262144) as byte, (0x80 + cp / 4096 % 64) as byte,
       (0x80 + cp / 64 % 64) as byte, (0x80 + cp % 64) as byte]
  }

  function EncodeAll(cps: seq<int>): seq<byte>
    requires forall i :: 0 <= i < |cps| ==> IsScalar(cps[i])
  {
    if cps == [] then [] else Encode(cps[0]) + EncodeAll(cps[1..])
  }

  lemma TwoByteWidth(cp: int, rest: seq<byte>)
    requires 0x80 <= cp < 0x800
    ensures Width(Encode(cp) + rest) == 2
  {
    assert 2 <= cp / 64 < 32;
  }

  lemma ThreeByteWidth(cp: int, rest: seq<byte>)
    requires IsScalar(cp) && 0x800 <= cp < 0x1_0000
    ensures Width(Encode(cp) + rest) == 3
  {
    var s := Encode(cp) + rest;
    var q := cp / 64;
    assert cp / 4096 == q / 64;
    assert q / 64 < 16;
    if cp < 0x1000 {
      assert q % 64 >= 32;
    }
    if q / 64 == 13 {
      assert q % 64 < 32;
    }
    assert s[1] == (0x80 + q % 64) as byte;
    assert IsContinuation(s[2]);
  }

  lemma FourByteWidth(cp: int, rest: seq<byte>)
    requires IsScalar(cp) && 0x1_0000 <= cp
    ensures Width(Encode(cp) + rest) == 4
  {
    var s := Encode(cp) + rest;
    var q := cp / 4096;
    assert cp / 262144 == q / 64;
    assert q / 64 <= 4;
    if q / 64 == 0 {
      assert q % 64 >= 16;
    }
    if q / 64 == 4 {
      assert q % 64 < 16;
    }
    assert s[1] == (0x80 + q % 64) as byte;
    assert IsContinuation(s[2]) && IsContinuation(s[3]);
  }

  /** The decoder steps over an encoded scalar value in one rune. */
  lemma EncodeWidth(cp: int, rest: seq<byte>)
    requires IsScalar(cp)
    ensures Width(Encode(cp) + rest) == |Encode(cp)|
  {
    if cp < 0x80 {
    } else if cp < 0x800 {
      TwoByteWidth(cp, rest);
    } else if cp < 0x1_0000 {
      ThreeByteWidth(cp, rest);
    } else {
      FourByteWidth(cp, rest);
    }
  }

  /** Counting the runes of an encoded text gives back its number of code
      points. */
  lemma {:induction false} RuneCountEncodeAll(cps: seq<int>)
    requires forall i :: 0 <= i < |cps| ==> IsScalar(cps[i])
    ensures RuneCount(EncodeAll(cps)) == |cps|
  {
    if cps != [] {
      var e, rest := Encode(cps[0]), EncodeAll(cps[1..]);
      EncodeWidth(cps[0], rest);
      assert (e + rest)[|e|..] == rest;
      RuneCountEncodeAll(cps[1..]);
    }
  }
}
