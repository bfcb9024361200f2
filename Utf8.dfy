/**
 * Well-formed UTF-8, as a strict decoder (Python's `bytes.decode()` with the
 * default `'strict'` error handler) accepts it: the byte patterns of Table
 * 3-7 of the Unicode Standard, which exclude overlong forms, surrogates and
 * values above U+10FFFF.
 */
module Utf8 {
  import opened Common

  predicate InRange(b: byte, lo: int, hi: int) {
    lo <= b as int <= hi
  }

  predicate IsContinuation(b: byte) {
    InRange(b, 0x80, 0xBF)
  }

  /** The length of the well-formed sequence that starts `s`, or 0 when `s` starts ill-formed. */
  function LeadingLength(s: seq<byte>): (n: nat)
    requires |s| > 0
    ensures n <= 4 && n <= |s|
  {
    var b := s[0];
    if b < 0x80 then 1
    else if InRange(b, 0xC2, 0xDF) then
      if |s| >= 2 && IsContinuation(s[1]) then 2 else 0
    else if b == 0xE0 then
      if |s| >= 3 && InRange(s[1], 0xA0, 0xBF) && IsContinuation(s[2]) then 3 else 0
    else if InRange(b, 0xE1, 0xEC) || InRange(b, 0xEE, 0xEF) then
      if |s| >= 3 && IsContinuation(s[1]) && IsContinuation(s[2]) then 3 else 0
    else if b == 0xED then
      if |s| >= 3 && InRange(s[1], 0x80, 0x9F) && IsContinuation(s[2]) then 3 else 0
    else if b == 0xF0 then
      if |s| >= 4 && InRange(s[1], 0x90, 0xBF) && IsContinuation(s[2]) && IsContinuation(s[3]) then 4 else 0
    else if InRange(b, 0xF1, 0xF3) then
      if |s| >= 4 && IsContinuation(s[1]) && IsContinuation(s[2]) && IsContinuation(s[3]) then 4 else 0
    else if b == 0xF4 then
      if |s| >= 4 && InRange(s[1], 0x80, 0x8F) && IsContinuation(s[2]) && IsContinuation(s[3]) then 4 else 0
    else 0
  }

  predicate IsAscii(s: seq<byte>) {
    forall i :: 0 <= i < |s| ==> s[i] < 0x80
  }

  /** The bytes decode strictly: they are a concatenation of well-formed sequences.  ASCII text always does. */
  predicate IsValid(s: seq<byte>): (valid: bool)
    ensures IsAscii(s) ==> valid
    decreases |s|
  {
    s == [] || (LeadingLength(s) > 0 && IsValid(s[LeadingLength(s)..]))
  }

  /** A well-formed leading sequence is unaffected by the bytes that follow it. */
  lemma LeadingLengthOfPrefix(a: seq<byte>, b: seq<byte>)
    requires |a| > 0 && LeadingLength(a) > 0
    ensures LeadingLength(a + b) == LeadingLength(a)
  {
    var n := LeadingLength(a);
    assert forall i :: 0 <= i < |a| ==> (a + b)[i] == a[i];
  }

  /** Two decodable byte strings concatenate to a decodable one. */
  lemma {:induction false} ValidAppend(a: seq<byte>, b: seq<byte>)
    requires IsValid(a) && IsValid(b)
    ensures IsValid(a + b)
    decreases |a|
  {
    if a == [] {
      assert a + b == b;
    } else {
      var n := LeadingLength(a);
      LeadingLengthOfPrefix(a, b);
      assert (a + b)[n..] == a[n..] + b;
      ValidAppend(a[n..], b);
    }
  }

  /** A multi-byte character cut after its first byte does not decode; whole, it does. */
  lemma CutCharacterIsInvalid()
    ensures IsValid([0xC3, 0xA9])
    ensures !IsValid([0xC3])
    ensures !IsValid([0xFF])
    ensures !IsValid([0xC0, 0x80])
  {
    var whole: seq<byte> := [0xC3, 0xA9];
    assert LeadingLength(whole) == 2;
    assert whole[2..] == [];
  }

  /** A Unicode scalar value: a code point that is not a surrogate. */
  predicate IsScalar(c: nat) {
    c <= 0x10FFFF && !(0xD800 <= c <= 0xDFFF)
  }

  /** The UTF-8 encoding of one scalar value, by the bit patterns of section 3 of RFC 3629. */
  function EncodeScalar(c: nat): (s: seq<byte>)
    requires IsScalar(c)
    ensures 1 <= |s| <= 4 && LeadingLength(s) == |s|
  {
    if c < 0x80 then [c as byte]
    else if c < 0x800 then
      var (b1, b0) := (c / 0x40, c % 0x40);
      assert 2 <= b1 < 0x20;
      [(0xC0 + b1) as byte, (0x80 + b0) as byte]
    else if c < 0x10000 then
      var (b2, b1, b0) := (c / 0x1000, c / 0x40 % 0x40, c % 0x40);
      assert b2 < 0x10 && (b2 == 0 ==> b1 >= 0x20) && (b2 == 0xD ==> b1 < 0x20) by { ThreeByteBounds(c); }
      [(0xE0 + b2) as byte, (0x80 + b1) as byte, (0x80 + b0) as byte]
    else
      var (b3, b2, b1, b0) := (c / 0x40000, c / 0x1000 % 0x40, c / 0x40 % 0x40, c % 0x40);
      assert b3 <= 4 && (b3 == 0 ==> b2 >= 0x10) && (b3 == 4 ==> b2 < 0x10) by { FourByteBounds(c); }
      [(0xF0 + b3) as byte, (0x80 + b2) as byte, (0x80 + b1) as byte, (0x80 + b0) as byte]
  }

  /** The three-byte forms: lead 0xE0 needs no overlong, lead 0xED stops short of the surrogates. */
  lemma ThreeByteBounds(c: nat)
    requires 0x800 <= c < 0xD800 || 0xDFFF < c < 0x10000
    ensures c / 0x1000 < 0x10
    ensures c / 0x1000 == 0 ==> c / 0x40 % 0x40 >= 0x20
    ensures c / 0x1000 == 0xD ==> c / 0x40 % 0x40 < 0x20
  {
    var q := c / 0x40;
    assert q / 0x40 == c / 0x1000;
  }

  /** The four-byte forms: lead 0xF0 needs no overlong, lead 0xF4 stops at U+10FFFF. */
  lemma FourByteBounds(c: nat)
    requires 0x10000 <= c <= 0x10FFFF
    ensures c / 0x40000 <= 4
    ensures c / 0x40000 == 0 ==> c / 0x1000 % 0x40 >= 0x10
    ensures c / 0x40000 == 4 ==> c / 0x1000 % 0x40 < 0x10
  {
    var q := c / 0x1000;
    assert q / 0x40 == c / 0x40000;
  }

  predicate AllScalars(cs: seq<nat>) {
    forall i :: 0 <= i < |cs| ==> IsScalar(cs[i])
  }

  /** The UTF-8 encoding of a sequence of scalar values. */
  function Encode(cs: seq<nat>): seq<byte>
    requires AllScalars(cs)
  {
    if cs == [] then [] else EncodeScalar(cs[0]) + Encode(cs[1..])
  }

  /** Every encoder output decodes: the strict decoder accepts all well-formed text. */
  lemma {:induction false} EncodeIsValid(cs: seq<nat>)
    requires AllScalars(cs)
    ensures IsValid(Encode(cs))
  {
    if cs != [] {
      var head := EncodeScalar(cs[0]);
      assert head[|head|..] == [];
      EncodeIsValid(cs[1..]);
      ValidAppend(head, Encode(cs[1..]));
    }
  }

  /** The scalar value a well-formed leading sequence encodes. */
  function DecodeScalar(s: seq<byte>): (c: nat)
    requires |s| > 0 && LeadingLength(s) > 0
    ensures IsScalar(c) && EncodeScalar(c) == s[..LeadingLength(s)]
  {
    var n := LeadingLength(s);
    if n == 1 then
      assert s[..1] == [s[0]];
      s[0] as nat
    else if n == 2 then
      DecodeTwo(s);
      (s[0] as nat - 0xC0) * 0x40 + (s[1] as nat - 0x80)
    else if n == 3 then
      DecodeThree(s);
      (s[0] as nat - 0xE0) * 0x1000 + (s[1] as nat - 0x80) * 0x40 + (s[2] as nat - 0x80)
    else
      DecodeFour(s);
      (s[0] as nat - 0xF0) * 0x40000 + (s[1] as nat - 0x80) * 0x1000 + (s[2] as nat - 0x80) * 0x40 + (s[3] as nat - 0x80)
  }

  lemma DecodeTwo(s: seq<byte>)
    requires |s| > 0 && LeadingLength(s) == 2
    ensures var c := (s[0] as nat - 0xC0) * 0x40 + (s[1] as nat - 0x80);
      IsScalar(c) && EncodeScalar(c) == s[..2]
  {
    var c := (s[0] as nat - 0xC0) * 0x40 + (s[1] as nat - 0x80);
    assert c / 0x40 == s[0] as nat - 0xC0 && c % 0x40 == s[1] as nat - 0x80;
  }

  lemma DecodeThree(s: seq<byte>)
    requires |s| > 0 && LeadingLength(s) == 3
    ensures var c := (s[0] as nat - 0xE0) * 0x1000 + (s[1] as nat - 0x80) * 0x40 + (s[2] as nat - 0x80);
      IsScalar(c) && EncodeScalar(c) == s[..3]
  {
    var (x, y, z) := (s[0] as nat - 0xE0, s[1] as nat - 0x80, s[2] as nat - 0x80);
    var c := x * 0x1000 + y * 0x40 + z;
    assert c / 0x40 == x * 0x40 + y;
    assert c / 0x1000 == x && c / 0x40 % 0x40 == y && c % 0x40 == z;
  }

  lemma DecodeFour(s: seq<byte>)
    requires |s| > 0 && LeadingLength(s) == 4
    ensures var c := (s[0] as nat - 0xF0) * 0x40000 + (s[1] as nat - 0x80) * 0x1000 + (s[2] as nat - 0x80) * 0x40 + (s[3] as nat - 0x80);
      IsScalar(c) && EncodeScalar(c) == s[..4]
  {
    var (w, x, y, z) := (s[0] as nat - 0xF0, s[1] as nat - 0x80, s[2] as nat - 0x80, s[3] as nat - 0x80);
    var c := w * 0x40000 + x * 0x1000 + y * 0x40 + z;
    assert c / 0x40 == w * 0x1000 + x * 0x40 + y;
    assert c / 0x1000 == w * 0x40 + x;
    assert c / 0x40000 == w && c / 0x1000 % 0x40 == x && c / 0x40 % 0x40 == y && c % 0x40 == z;
  }

  /** Decodes well-formed bytes into the scalar values they encode. */
  function Decode(s: seq<byte>): (cs: seq<nat>)
    requires IsValid(s)
    ensures AllScalars(cs) && Encode(cs) == s
    decreases |s|
  {
    if s == [] then []
    else
      var n := LeadingLength(s);
      var c, rest := DecodeScalar(s), Decode(s[n..]);
      var cs := [c] + rest;
      assert cs[0] == c && cs[1..] == rest;
      assert Encode(cs) == EncodeScalar(c) + Encode(rest);
      assert s == s[..n] + s[n..];
      cs
  }
}
