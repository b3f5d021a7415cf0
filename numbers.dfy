/** Machine integers and the decimal literals the decoder reads.
    `ParseIsize` and `ParseUsize` state the language that Rust's `str::parse`
    accepts for `isize` and `usize` on a 64-bit target: an optional sign
    (`+` for both, `-` only for the signed type) followed by one or more
    ASCII digits, whose value must fit the type. Leading zeros are allowed. */
module Numbers {

  newtype u8 = x: int | 0 <= x < 0x100

  const ISIZE_MIN: int := -0x8000_0000_0000_0000
  const ISIZE_MAX: int := 0x7FFF_FFFF_FFFF_FFFF
  const USIZE_MAX: int := 0xFFFF_FFFF_FFFF_FFFF

  newtype isize = x: int | -0x8000_0000_0000_0000 <= x <= 0x7FFF_FFFF_FFFF_FFFF
  newtype usize = x: int | 0 <= x <= 0xFFFF_FFFF_FFFF_FFFF

  const PLUS: u8 := 43   // '+'
  const MINUS: u8 := 45  // '-'
  const ZERO: u8 := 48   // '0'
  const NINE: u8 := 57   // '9'

  datatype Option<T> = None | Some(value: T)

  predicate IsDigit(b: u8) {
    ZERO <= b <= NINE
  }

  predicate AllDigits(s: seq<u8>) {
    forall i :: 0 <= i < |s| ==> IsDigit(s[i])
  }

  predicate IsAscii(s: seq<u8>) {
    forall i :: 0 <= i < |s| ==> s[i] < 0x80
  }

  /** The value of a run of decimal digits, most significant first. */
  function DecimalValue(s: seq<u8>): nat
    requires AllDigits(s)
  {
    if s == [] then 0 else DecimalValue(s[..|s| - 1]) * 10 + (s[|s| - 1] - ZERO) as int
  }

  /** The shortest decimal representation of `n` (no sign, no leading zero). */
  function FormatNat(n: nat): (s: seq<u8>)
    ensures |s| >= 1 && AllDigits(s)
    ensures s[0] == ZERO <==> n == 0
  {
    if n < 10 then [ZERO + n as u8] else FormatNat(n / 10) + [ZERO + (n % 10) as u8]
  }

  /** The decimal representation of `v`, with a `-` in front when negative. */
  function FormatInt(v: int): (s: seq<u8>)
    ensures |s| >= 1 && IsAscii(s)
    ensures forall i :: 0 <= i < |s| ==> IsDigit(s[i]) || s[i] == MINUS
  {
    var d := FormatNat(if v < 0 then -v else v);
    if v < 0 then [MINUS] + d else d
  }

  /** Splits an optional leading sign off a literal: gives whether the value
      is negated and the remaining bytes. `-` only counts as a sign when
      `signed` holds; for an unsigned target it stays in the digits (and so
      makes the literal malformed). */
  function SplitSign(s: seq<u8>, signed: bool): (r: (bool, seq<u8>))
    ensures r.1 == s || (|s| >= 1 && r.1 == s[1..])
    ensures r.0 ==> signed
  {
    if |s| >= 1 && s[0] == PLUS then (false, s[1..])
    else if |s| >= 1 && s[0] == MINUS && signed then (true, s[1..])
    else (false, s)
  }

  /** Rust's `str::parse::<T>` for an integer type with the given bounds.
      Rust accumulates with checked arithmetic and fails on the first
      overflow; since the partial value only grows in magnitude, that is
      exactly a bounds check on the final value. */
  function ParseInteger(s: seq<u8>, signed: bool, lo: int, hi: int): (r: Option<int>)
    ensures r.Some? ==> lo <= r.value <= hi && IsAscii(s) && |s| >= 1
    ensures r.Some? && r.value < 0 ==> signed && s[0] == MINUS
  {
    var (negative, digits) := SplitSign(s, signed);
    if |digits| == 0 || !AllDigits(digits) then None
    else
      ParsedIsAscii(s, digits);
      var v: int := if negative then -(DecimalValue(digits) as int) else DecimalValue(digits) as int;
      if lo <= v <= hi then Some(v) else None
  }

  /** `str::parse::<isize>`. */
  function ParseIsize(s: seq<u8>): Option<isize>
  {
    match ParseInteger(s, true, ISIZE_MIN, ISIZE_MAX)
    case None => None
    case Some(v) => Some(v as isize)
  }

  /** `str::parse::<usize>`. */
  function ParseUsize(s: seq<u8>): Option<usize>
  {
    match ParseInteger(s, false, 0, USIZE_MAX)
    case None => None
    case Some(v) => Some(v as usize)
  }

  /** A sign followed by digits is made of ASCII bytes only. */
  lemma ParsedIsAscii(s: seq<u8>, digits: seq<u8>)
    requires digits == s || (|s| >= 1 && digits == s[1..] && s[0] < 0x80)
    requires AllDigits(digits) && |digits| >= 1
    ensures IsAscii(s) && |s| >= 1
  {
    if digits != s {
      assert forall i :: 1 <= i < |s| ==> s[i] == digits[i - 1];
    }
  }

  /** Reading back the shortest decimal representation gives the number. */
  lemma {:induction false} DecimalOfFormat(n: nat)
    ensures DecimalValue(FormatNat(n)) == n
  {
    if n >= 10 {
      var s := FormatNat(n);
      assert s[..|s| - 1] == FormatNat(n / 10);
      DecimalOfFormat(n / 10);
    }
  }

  /** `FormatInt` and `ParseIsize` are inverse on the range of `isize`. */
  lemma ParseFormatIsize(v: isize)
    ensures ParseIsize(FormatInt(v as int)) == Some(v)
  {
    var a := if v < 0 then -(v as int) else v as int;
    var d := FormatNat(a);
    DecimalOfFormat(a);
    if v < 0 {
      assert ([MINUS] + d)[1..] == d;
    }
  }

  /** `FormatNat` and `ParseUsize` are inverse on the range of `usize`. */
  lemma ParseFormatUsize(n: nat)
    requires n <= USIZE_MAX
    ensures ParseUsize(FormatNat(n)) == Some(n as usize)
  {
    DecimalOfFormat(n);
  }
}
