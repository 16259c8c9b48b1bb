/**
 The C integer readers of abbrev.rs and diffopt.rs: digit loops that saturate at 64 bits and
 results narrowed to 32, against arithmetic without a width. `strtol` and `strtoul` are section
 7.20.1.4 of ISO/IEC 9899:1999.
 */
module CNumber {
  import opened Bytes
  import opened Integers
  import opened Optional
  import A = Abbrev

  const TWO_32: nat := 0x1_0000_0000
  const TWO_64: nat := 0x1_0000_0000_0000_0000
  const U64_MAX: nat := TWO_64 - 1
  const I64_MAX: nat := 0x7fff_ffff_ffff_ffff
  const I64_MIN: int := -0x8000_0000_0000_0000

  function Signed(negative: bool, m: int): int { if negative then -m else m }

  function DigitOf(c: Byte): nat
    requires IsDigit(c)
  {
    c as int - 48
  }

  function Clamp(x: int, lo: int, hi: int): int
    requires lo <= hi
  {
    if x < lo then lo else if x > hi then hi else x
  }

  /** The value of a run of digits. */
  function Value(ds: Bytes): nat
    requires forall i :: 0 <= i < |ds| ==> IsDigit(ds[i])
  {
    if ds == [] then 0 else Value(ds[..|ds| - 1]) * 10 + DigitOf(ds[|ds| - 1])
  }

  function SpacesEnd(s: Bytes, i: nat): (k: nat)
    requires i <= |s|
    ensures i <= k <= |s| && (k < |s| ==> !IsSpace(s[k])) && forall m :: i <= m < k ==> IsSpace(s[m])
    decreases |s| - i
  {
    if i < |s| && IsSpace(s[i]) then SpacesEnd(s, i + 1) else i
  }

  function DigitsEnd(s: Bytes, i: nat): (k: nat)
    requires i <= |s|
    ensures i <= k <= |s| && (k < |s| ==> !IsDigit(s[k])) && forall m :: i <= m < k ==> IsDigit(s[m])
    decreases |s| - i
  {
    if i < |s| && IsDigit(s[i]) then DigitsEnd(s, i + 1) else i
  }

  /** Where the readers find their number: its sign, and where its digits begin and end. */
  datatype Numeral = Numeral(negative: bool, from: nat, end: nat)

  function NumeralOf(s: Bytes): (n: Numeral)
    ensures n.from <= n.end <= |s| && forall m :: n.from <= m < n.end ==> IsDigit(s[m])
  {
    var i := SpacesEnd(s, 0);
    var signed := i < |s| && (s[i] == PLUS || s[i] == MINUS);
    var from := if signed then i + 1 else i;
    Numeral(i < |s| && s[i] == MINUS, from, DigitsEnd(s, from))
  }

  function MagnitudeOf(s: Bytes): nat { Value(s[NumeralOf(s).from..NumeralOf(s).end]) }

  /** The number spelled, with no width. */
  function Spelled(s: Bytes): int { Signed(NumeralOf(s).negative, MagnitudeOf(s)) }

  /** `u64::saturating_mul` and `saturating_add` */
  function SaturatingMul(a: nat, b: nat): nat { Min(a * b, U64_MAX) }

  function SaturatingAdd(a: nat, b: nat): nat { Min(a + b, U64_MAX) }

  /** The digit loop the readers share. */
  method ReadDigits(b: Bytes, from: nat) returns (end: nat, magnitude: nat)
    requires from <= |b|
    ensures end == DigitsEnd(b, from) && magnitude == Min(Value(b[from..end]), U64_MAX)
  {
    hide DigitsEnd, Value, IsDigit;
    var i := from;
    magnitude := 0;
    NoDigits();
    assert b[from..from] == [];
    while i < |b| && IsDigit(b[i])
      invariant from <= i <= |b|
      invariant forall m :: from <= m < i ==> IsDigit(b[m])
      invariant magnitude == Min(Value(b[from..i]), U64_MAX)
    {
      OneDigit(b, from, i);
      magnitude := SaturatingAdd(SaturatingMul(magnitude, 10), b[i] as int - 48);
      i := i + 1;
    }
    DigitsRun(b, from, i);
    end := i;
  }

  lemma NoDigits()
    ensures Value([]) == 0
  {
  }

  lemma OneDigit(b: Bytes, from: nat, i: nat)
    requires from <= i < |b| && IsDigit(b[i]) && forall m :: from <= m < i ==> IsDigit(b[m])
    ensures Value(b[from..i + 1]) == Value(b[from..i]) * 10 + (b[i] as int - 48) && b[i] >= 48
  {
    assert b[from..i + 1][..i - from] == b[from..i];
  }

  /** The front the readers share, and that loop. */
  method ReadNumeral(b: Bytes) returns (negative: bool, from: nat, end: nat, magnitude: nat)
    ensures NumeralOf(b) == Numeral(negative, from, end)
    ensures magnitude == Min(MagnitudeOf(b), U64_MAX)
  {
    hide DigitsEnd, Value;
    var i := 0;
    while i < |b| && IsSpace(b[i])
      invariant i <= |b| && SpacesEnd(b, i) == SpacesEnd(b, 0)
    {
      i := i + 1;
    }
    negative := i < |b| && b[i] == MINUS;
    if i < |b| && (b[i] == PLUS || b[i] == MINUS) {
      i := i + 1;
    }
    from := i;
    end, magnitude := ReadDigits(b, from);
  }

  /** The low 32 bits, unsigned. */
  function Low32(x: int): nat { x % TWO_32 }

  /** The low 32 bits, as a signed number. */
  function Signed32(x: int): int { if Low32(x) < TWO_32 / 2 then Low32(x) else Low32(x) - TWO_32 }

  /** `parse_abbrev_arg`: `strtoul` kept in an `unsigned int`, clamped. */
  method ParseAbbrevArg(v: Bytes, hexsz: nat) returns (r: nat)
    requires hexsz >= A.MINIMUM_ABBREV
    ensures var m := Min(MagnitudeOf(v), U64_MAX);
      r == Clamp(Low32(Signed(NumeralOf(v).negative, m)), A.MINIMUM_ABBREV, hexsz)
  {
    var negative, from, end, magnitude := ReadNumeral(v);
    var wide := if negative then (TWO_64 - magnitude) % TWO_64 else magnitude;
    WrapsTo32(magnitude);
    r := Clamp(wide % TWO_32, A.MINIMUM_ABBREV, hexsz);
  }

  /** Negating modulo 2^64 and keeping 32 bits keeps the 32 bits of the negated number. */
  lemma WrapsTo32(m: nat)
    requires m <= U64_MAX
    ensures ((TWO_64 - m) % TWO_64) % TWO_32 == Low32(0 - m)
  {
    if m == 0 {
    } else {
      assert (TWO_64 - m) % TWO_64 == TWO_64 - m;
      SameLow32(0 - m, TWO_32);
    }
  }

  /** Multiples of 2^32 do not show in 32 bits. */
  lemma SameLow32(x: int, q: int)
    ensures (x + q * TWO_32) % TWO_32 == x % TWO_32
  {
    var d, m := x / TWO_32, x % TWO_32;
    assert x + q * TWO_32 == (d + q) * TWO_32 + m;
    Quotient(x + q * TWO_32, d + q, m);
  }

  lemma Quotient(y: int, d: int, m: int)
    requires y == d * TWO_32 + m && 0 <= m < TWO_32
    ensures y % TWO_32 == m
  {
    var e, n := y / TWO_32, y % TWO_32;
    assert (d - e) * TWO_32 == n - m;
    assert -1 < d - e < 1;
  }

  /** What `strtol` makes of the number spelled. */
  function Clip64(x: int): int { Clamp(x, I64_MIN, I64_MAX) }

  /** The tail the two `strtol` readers share: the sign and the clip. */
  method ToLong(negative: bool, magnitude: nat) returns (wide: int)
    requires magnitude <= U64_MAX
    ensures wide == Clip64(Signed(negative, magnitude))
  {
    var longMinMagnitude := I64_MAX + 1;
    if negative {
      wide := if magnitude >= longMinMagnitude then I64_MIN else 0 - magnitude;
    } else {
      wide := if magnitude > I64_MAX then I64_MAX else magnitude;
    }
  }

  lemma ClipSaturated(negative: bool, m: nat)
    ensures var s := Min(m, U64_MAX); Clip64(Signed(negative, s)) == Clip64(Signed(negative, m))
  {
  }

  /** The digits are there and nothing follows them. */
  predicate WholeNumber(s: Bytes) { NumeralOf(s).from < NumeralOf(s).end == |s| }

  /** `parse_opt_abbrev_value`: `strtol` kept in an `int`. */
  method ParseOptAbbrevValue(v: Bytes) returns (r: Option<int>)
    ensures r == if WholeNumber(v) then Some(Signed32(Clip64(Spelled(v)))) else None
  {
    var negative, from, end, magnitude := ReadNumeral(v);
    if end == from || end != |v| { return None; }
    var wide := ToLong(negative, magnitude);
    ClipSaturated(negative, MagnitudeOf(v));
    return Some(Signed32(wide));
  }

  /** `strtol_long` */
  method StrtolLong(v: Bytes) returns (r: Option<int>)
    ensures v == [] ==> r == Some(0)
    ensures v != [] ==> r == if WholeNumber(v) then Some(Clip64(Spelled(v))) else None
  {
    var negative, from, end, magnitude := ReadNumeral(v);
    if end == from { return if v == [] then Some(0) else None; }
    if end != |v| { return None; }
    var wide := ToLong(negative, magnitude);
    ClipSaturated(negative, MagnitudeOf(v));
    return Some(wide);
  }

  // ---- what the readers make of a number written down --------------------------------------

  /** Digits of a number, no more than it needs. */
  function DecimalNat(n: nat): (ds: Bytes)
    ensures ds != [] && forall i :: 0 <= i < |ds| ==> IsDigit(ds[i])
  {
    if n < 10 then [48 + n] else DecimalNat(n / 10) + [48 + n % 10]
  }

  function Decimal(x: int): Bytes { if x < 0 then [MINUS] + DecimalNat(-x) else DecimalNat(x) }

  lemma {:induction false} ValueOfDecimal(n: nat)
    ensures Value(DecimalNat(n)) == n
  {
    if n >= 10 {
      ValueOfDecimal(n / 10);
      assert DecimalNat(n)[..|DecimalNat(n)| - 1] == DecimalNat(n / 10);
    } else {
      assert DecimalNat(n)[..0] == [];
      assert Value([]) == 0;
    }
  }

  lemma DigitsRun(s: Bytes, i: nat, k: nat)
    requires i <= k <= |s| && (forall m :: i <= m < k ==> IsDigit(s[m])) && (k < |s| ==> !IsDigit(s[k]))
    ensures DigitsEnd(s, i) == k
  {
    hide DigitsEnd;
    var e := DigitsEnd(s, i);
    assert e <= k && k <= e;
  }

  lemma SpacesRun(s: Bytes, k: nat)
    requires k <= |s| && (forall m :: 0 <= m < k ==> IsSpace(s[m])) && (k < |s| ==> !IsSpace(s[k]))
    ensures SpacesEnd(s, 0) == k
  {
    hide SpacesEnd;
    var e := SpacesEnd(s, 0);
    assert e <= k && k <= e;
  }

  function Magnitude(x: int): nat { if x < 0 then -x else x }

  /** Blanks, a sign or none, and a run of digits are taken for just that. */
  lemma NumeralAt(s: Bytes, sign: nat, from: nat, end: nat)
    requires sign <= from < end <= |s| && forall i :: 0 <= i < sign ==> IsSpace(s[i])
    requires if from == sign then IsDigit(s[sign]) else from == sign + 1 && s[sign] == MINUS
    requires (forall i :: from <= i < end ==> IsDigit(s[i])) && (end < |s| ==> !IsDigit(s[end]))
    ensures NumeralOf(s) == Numeral(from > sign, from, end)
  {
    hide DigitsEnd, SpacesEnd;
    SpacesRun(s, sign);
    DigitsRun(s, from, end);
  }

  /** Where the digits of a number written in decimal stand, behind any blanks and before anything but a digit. */
  lemma NumeralOfDecimal(blanks: Bytes, x: int, tail: Bytes)
    requires (forall i :: 0 <= i < |blanks| ==> IsSpace(blanks[i])) && (tail != [] ==> !IsDigit(tail[0]))
    ensures var s, n := blanks + Decimal(x) + tail, NumeralOf(blanks + Decimal(x) + tail);
      && n.negative == (x < 0) && n.from < n.end == |s| - |tail| && s[n.from..n.end] == DecimalNat(Magnitude(x))
  {
    hide *;
    var sign: Bytes, ds := if x < 0 then [MINUS] else [], DecimalNat(Magnitude(x));
    var s, from := blanks + (sign + ds) + tail, |blanks| + |sign|;
    DecimalIs(x);
    FourParts(blanks, sign, ds, tail);
    NumeralAt(s, |blanks|, from, from + |ds|);
  }

  lemma FourParts(a: Bytes, b: Bytes, c: Bytes, d: Bytes)
    ensures var s, i, j := a + (b + c) + d, |a| + |b|, |a| + |b| + |c|;
      && |s| == j + |d| && s[i..j] == c && (forall k :: 0 <= k < |a| ==> s[k] == a[k])
      && (b != [] ==> s[|a|] == b[0]) && (d != [] ==> s[j] == d[0]) && (forall k :: i <= k < j ==> s[k] == c[k - i])
  {
  }

  lemma DecimalIs(x: int)
    ensures Decimal(x) == (if x < 0 then [MINUS] else []) + DecimalNat(Magnitude(x))
  {
    hide DecimalNat;
  }

  /** So it is the number spelled. */
  lemma SpelledDecimal(blanks: Bytes, x: int, tail: Bytes)
    requires (forall i :: 0 <= i < |blanks| ==> IsSpace(blanks[i])) && (tail != [] ==> !IsDigit(tail[0]))
    ensures var s := blanks + Decimal(x) + tail;
      && Spelled(s) == x && (NumeralOf(s).negative <==> x < 0) && MagnitudeOf(s) == Magnitude(x)
      && NumeralOf(s).from < NumeralOf(s).end == |s| - |tail|
  {
    hide Decimal, DecimalNat, Value, NumeralOf;
    NumeralOfDecimal(blanks, x, tail);
    ValueOfDecimal(Magnitude(x));
  }

  /**
   On every number written down the readers agree with arithmetic without a width: reduced modulo 2^32 by the one,
   clipped to 64 bits and then reduced by the other, while `strtoul` stays below its own limit.
   */
  lemma ReadersOfDecimal(x: int)
    ensures WholeNumber(Decimal(x)) && Spelled(Decimal(x)) == x
    ensures I64_MIN <= x <= I64_MAX ==> Signed32(Clip64(x)) == Signed32(x)
    ensures -(U64_MAX as int) <= x <= U64_MAX ==> (
      var m := Min(MagnitudeOf(Decimal(x)), U64_MAX); Low32(Signed(NumeralOf(Decimal(x)).negative, m)) == Low32(x))
  {
    hide Decimal, NumeralOf, MagnitudeOf, Spelled, Low32, Signed32;
    SpelledDecimal([], x, []);
    assert [] + Decimal(x) + [] == Decimal(x);
  }

  /** Past the limits the two readers part: -1 and 0 for the signed one, all ones and one for the unsigned. */
  lemma ReadersPastLimits(x: int)
    ensures x > I64_MAX ==> Signed32(Clip64(x)) == -1
    ensures x < I64_MIN ==> Signed32(Clip64(x)) == 0
    ensures x > U64_MAX ==> Low32(Min(x, U64_MAX)) == TWO_32 - 1
    ensures x < -(U64_MAX as int) ==> Low32(-Min(-x, U64_MAX)) == 1
  {
  }

  // ---- which texts are numbers ----------------------------------------------------------------------

  /** Blanks of any kind, a sign or none, and digits. */
  predicate IsNumeral(blanks: Bytes, sign: Bytes, digits: Bytes) {
    && (forall i :: 0 <= i < |blanks| ==> 9 <= blanks[i] <= 13 || blanks[i] == 32)
    && (sign == [] || sign == [43] || sign == [45])
    && digits != [] && forall i :: 0 <= i < |digits| ==> 48 <= digits[i] <= 57
  }

  predicate WrittenAs(s: Bytes, blanks: Bytes, sign: Bytes, digits: Bytes) {
    IsNumeral(blanks, sign, digits) && s == blanks + sign + digits
  }

  lemma NumeralParts(blanks: Bytes, sign: Bytes, digits: Bytes)
    requires IsNumeral(blanks, sign, digits)
    ensures var s := blanks + sign + digits;
      NumeralOf(s) == Numeral(sign == [45], |blanks| + |sign|, |s|) && s[|blanks| + |sign|..] == digits
  {
    hide DigitsEnd, SpacesEnd;
    var s, b := blanks + sign + digits, |blanks|;
    assert forall i :: 0 <= i < b ==> s[i] == blanks[i];
    assert s[b] == if sign == [] then digits[0] else sign[0];
    SpacesRun(s, b);
    assert forall i :: b + |sign| <= i < |s| ==> s[i] == digits[i - b - |sign|];
    DigitsRun(s, b + |sign|, |s|);
  }

  lemma NumeralFound(s: Bytes) returns (blanks: Bytes, sign: Bytes, digits: Bytes)
    requires WholeNumber(s)
    ensures WrittenAs(s, blanks, sign, digits)
  {
    hide NumeralOf, SpacesEnd, WrittenAs;
    var from, i := NumeralOf(s).from, SpacesEnd(s, 0);
    NumeralFront(s);
    NumeralMade(s, i, from);
    blanks, sign, digits := s[..i], s[i..from], s[from..];
  }

  lemma NumeralMade(s: Bytes, i: nat, from: nat)
    requires i <= from < |s| && (s[i..from] == [] || s[i..from] == [43] || s[i..from] == [45])
    requires forall m :: 0 <= m < i ==> 9 <= s[m] <= 13 || s[m] == 32
    requires forall m :: from <= m < |s| ==> 48 <= s[m] <= 57
    ensures WrittenAs(s, s[..i], s[i..from], s[from..])
  {
    assert s[..i] + s[i..from] + s[from..] == s;
  }

  lemma NumeralSpells(s: Bytes, blanks: Bytes, sign: Bytes, digits: Bytes)
    requires WrittenAs(s, blanks, sign, digits)
    ensures forall i :: 0 <= i < |digits| ==> IsDigit(digits[i])
    ensures WholeNumber(s) && Spelled(s) == if sign == [45] then -(Value(digits) as int) else Value(digits)
  {
    hide NumeralOf, Value;
    NumeralParts(blanks, sign, digits);
    assert s[NumeralOf(s).from..NumeralOf(s).end] == s[NumeralOf(s).from..];
  }

  /**
   A whole number is just that, with nothing in front of its blanks and nothing behind its digits; and it is the
   number its digits spell, negated by a minus.
   */
  lemma WholeNumbers(s: Bytes)
    ensures WholeNumber(s) <==> exists blanks, sign, digits :: WrittenAs(s, blanks, sign, digits)
    ensures forall blanks, sign, digits :: WrittenAs(s, blanks, sign, digits) ==>
      Spelled(s) == if sign == [45] then -(Value(digits) as int) else Value(digits)
  {
    hide WholeNumber, Spelled, WrittenAs, Value;
    if WholeNumber(s) { var blanks, sign, digits := NumeralFound(s); }
    forall blanks, sign, digits | WrittenAs(s, blanks, sign, digits)
      ensures WholeNumber(s) && forall i :: 0 <= i < |digits| ==> IsDigit(digits[i])
      ensures Spelled(s) == if sign == [45] then -(Value(digits) as int) else Value(digits)
    {
      NumeralSpells(s, blanks, sign, digits);
    }
  }

  lemma NumeralFront(s: Bytes)
    ensures var n, i := NumeralOf(s), SpacesEnd(s, 0);
      && i <= n.from <= |s| && (s[i..n.from] == [] || s[i..n.from] == [43] || s[i..n.from] == [45])
      && (forall m :: 0 <= m < i ==> 9 <= s[m] <= 13 || s[m] == 32)
      && forall m :: n.from <= m < n.end <= |s| ==> 48 <= s[m] <= 57
  {
    hide DigitsEnd, SpacesEnd, NumeralOf;
    SignFront(s);
    var n, i := NumeralOf(s), SpacesEnd(s, 0);
    forall m | 0 <= m < i ensures 9 <= s[m] <= 13 || s[m] == 32 { assert IsSpace(s[m]); }
    forall m | n.from <= m < n.end <= |s| ensures 48 <= s[m] <= 57 { assert IsDigit(s[m]); }
  }

  lemma SignFront(s: Bytes)
    ensures var n, i := NumeralOf(s), SpacesEnd(s, 0);
      i <= n.from <= |s| && (s[i..n.from] == [] || s[i..n.from] == [43] || s[i..n.from] == [45])
  {
    hide DigitsEnd, SpacesEnd, IsSpace, IsDigit;
    var i := SpacesEnd(s, 0);
    if i < |s| {
      assert s[i..i + 1] == [s[i]];
    }
  }

  /** What 32 bits keep of a number is the one number in their range that is the same modulo 2^32. */
  lemma KeptBits(x: int, y: int)
    ensures 0 <= Low32(x) < 0x1_0000_0000 && (Low32(x) - x) % 0x1_0000_0000 == 0
    ensures -0x8000_0000 <= Signed32(x) < 0x8000_0000 && (Signed32(x) - x) % 0x1_0000_0000 == 0
    ensures -0x8000_0000 <= x < 0x8000_0000 ==> Signed32(x) == x
    ensures Clip64(x) ==
      if x < -0x8000_0000_0000_0000 then -0x8000_0000_0000_0000
      else if x > 0x7fff_ffff_ffff_ffff then 0x7fff_ffff_ffff_ffff
      else x
    ensures 0 <= y && 0 <= x ==> SaturatingAdd(x, y) == if x + y < 0x1_0000_0000_0000_0000 then x + y else U64_MAX
  {
    var d, m := x / TWO_32, x % TWO_32;
    assert m - x == -d * TWO_32;
    Quotient(m - x, -d, 0);
    assert m - TWO_32 - x == (-d - 1) * TWO_32;
    Quotient(m - TWO_32 - x, -d - 1, 0);
  }

  /**
   What `--abbrev=` makes of a number in decimal, behind blanks and before anything but a digit: at least
   four and at most the length of a name; 2^32 is as good as nothing, and -1 as good as all of it.
   */
  lemma AbbrevArgs(blanks: Bytes, x: int, tail: Bytes, hexsz: nat)
    requires (forall i :: 0 <= i < |blanks| ==> IsSpace(blanks[i])) && (tail != [] ==> !IsDigit(tail[0]))
    requires 4 <= hexsz < 0x1000
    ensures var v := blanks + Decimal(x) + tail;
      var r := Clamp(Low32(Signed(NumeralOf(v).negative, Min(MagnitudeOf(v), U64_MAX))), A.MINIMUM_ABBREV, hexsz);
      && (0 <= x < 4 ==> r == 4) && (4 <= x <= hexsz ==> r == x) && (hexsz < x < 0x1_0000_0000 ==> r == hexsz)
      && (x == 0x1_0000_0000 ==> r == 4) && (-0x1000 < x < 0 ==> r == hexsz)
  {
    hide Decimal, NumeralOf, MagnitudeOf, Spelled;
    SpelledDecimal(blanks, x, tail);
  }
}
