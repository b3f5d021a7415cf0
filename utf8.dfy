/** UTF-8 well-formedness as `String::from_utf8` checks it: the byte
    sequences of the syntax in section 4 of RFC 3629 (no overlong forms, no
    surrogates, nothing above U+10FFFF), and the encoding of section 3 that
    produces them. */
module Utf8 {
  import opened Numbers

  predicate IsTail(b: u8) {
    0x80 <= b <= 0xBF
  }

  /** The length of the well-formed character at the head of `s`, or 0 when
      `s` does not start with one (one alternative per row of the syntax). */
  function LeadWidth(s: seq<u8>): (n: nat)
    ensures n <= 4 && n <= |s|
    ensures n > 0 ==> forall i :: 1 <= i < n ==> IsTail(s[i])
  {
    if |s| == 0 then 0
    else if s[0] <= 0x7F then 1
    else if 0xC2 <= s[0] <= 0xDF then
      if |s| >= 2 && IsTail(s[1]) then 2 else 0
    else if 0xE0 <= s[0] <= 0xEF then
      var lo: u8 := if s[0] == 0xE0 then 0xA0 else 0x80;
      var hi: u8 := if s[0] == 0xED then 0x9F else 0xBF;
      if |s| >= 3 && lo <= s[1] <= hi && IsTail(s[2]) then 3 else 0
    else if 0xF0 <= s[0] <= 0xF4 then
      var lo: u8 := if s[0] == 0xF0 then 0x90 else 0x80;
      var hi: u8 := if s[0] == 0xF4 then 0x8F else 0xBF;
      if |s| >= 4 && lo <= s[1] <= hi && IsTail(s[2]) && IsTail(s[3]) then 4 else 0
    else 0
  }

  /** `s` is a sequence of well-formed characters. */
  predicate WellFormed(s: seq<u8>)
    decreases |s|
  {
    s == [] || (LeadWidth(s) > 0 && WellFormed(s[LeadWidth(s)..]))
  }

  /** A Unicode scalar value: a code point that is not a surrogate. */
  predicate IsScalar(cp: int) {
    0 <= cp <= 0x10FFFF && !(0xD800 <= cp <= 0xDFFF)
  }

  /** The UTF-8 encoding of one scalar value (RFC 3629, section 3). */
  function EncodeScalar(cp: int): (s: seq<u8>)
    requires IsScalar(cp)
    ensures 1 <= |s| <= 4
  {
    if cp < 0x80 then [cp as u8]
    else if cp < 0x800 then [(0xC0 + cp / 0x40) as u8, (0x80 + cp % 0x40) as u8]
    else if cp < 0x1_0000 then
      [(0xE0 + cp / 0x1000) as u8, (0x80 + (cp / 0x40) % 0x40) as u8, (0x80 + cp % 0x40) as u8]
    else
      [(0xF0 + cp / 0x4_0000) as u8, (0x80 + (cp / 0x1000) % 0x40) as u8,
       (0x80 + (cp / 0x40) % 0x40) as u8, (0x80 + cp % 0x40) as u8]
  }

  /** The UTF-8 encoding of a sequence of scalar values: what a Rust `String` holds. */
  function Encode(cps: seq<int>): seq<u8>
    requires forall i :: 0 <= i < |cps| ==> IsScalar(cps[i])
  {
    if cps == [] then [] else EncodeScalar(cps[0]) + Encode(cps[1..])
  }

  /** The encoder only produces characters the syntax accepts, and each one whole. */
  lemma EncodeScalarWidth(cp: int, rest: seq<u8>)
    requires IsScalar(cp)
    ensures LeadWidth(EncodeScalar(cp) + rest) == |EncodeScalar(cp)|
  {
    var s := EncodeScalar(cp) + rest;
    if cp >= 0x800 && cp < 0x1_0000 {
      assert s[0] == 0xE0 ==> cp < 0x1000 && s[1] >= 0xA0;
      assert s[0] == 0xED ==> 0xD000 <= cp < 0xD800 && s[1] <= 0x9F;
    } else if cp >= 0x1_0000 {
      assert s[0] == 0xF0 ==> cp < 0x4_0000 && s[1] >= 0x90;
      assert s[0] == 0xF4 ==> cp < 0x11_0000 && s[1] <= 0x8F;
    }
  }

  /** Well-formed text stays well-formed after a well-formed character. */
  lemma WellFormedCons(c: seq<u8>, s: seq<u8>)
    requires |c| > 0 && LeadWidth(c + s) == |c| && WellFormed(s)
    ensures WellFormed(c + s)
  {
    assert (c + s)[|c|..] == s;
  }

  /** Every encoding of scalar values is well-formed. */
  lemma {:induction false} EncodeWellFormed(cps: seq<int>)
    requires forall i :: 0 <= i < |cps| ==> IsScalar(cps[i])
    ensures WellFormed(Encode(cps))
  {
    if cps != [] {
      EncodeWellFormed(cps[1..]);
      EncodeScalarWidth(cps[0], Encode(cps[1..]));
      WellFormedCons(EncodeScalar(cps[0]), Encode(cps[1..]));
    }
  }

  /** ASCII text is well-formed: the integer and length literals of the
      decoder never fail the UTF-8 check. */
  lemma {:induction false} AsciiWellFormed(s: seq<u8>)
    requires IsAscii(s)
    ensures WellFormed(s)
  {
    if s != [] {
      assert LeadWidth(s) == 1;
      AsciiWellFormed(s[1..]);
    }
  }
}
