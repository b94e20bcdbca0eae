/** Decimal numbers as texts and as exact values: digit strings, the accepted grammar,
    truncation toward zero, and how many digits of a number decide it. */
module Decimal {
  import opened Wrappers

  const I64_MIN: int := -0x8000_0000_0000_0000
  const I64_MAX: int := 0x7fff_ffff_ffff_ffff
  const MAX_SIGNIFICANT: int := 19

  // ---------------------------------------------------------------------
  // Decimal digits
  // ---------------------------------------------------------------------

  function Pow10(n: nat): (r: nat)
    ensures r > 0
  {
    if n == 0 then 1 else 10 * Pow10(n - 1)
  }

  predicate IsDigit(c: char) { '0' <= c <= '9' }

  predicate AllDigits(s: string) { forall i | 0 <= i < |s| :: IsDigit(s[i]) }

  function Digit(c: char): (d: nat)
    requires IsDigit(c)
    ensures d < 10
  {
    c as int - '0' as int
  }

  /** The number a digit string denotes. */
  function Val(s: string): nat
    requires AllDigits(s)
  {
    if s == [] then 0 else 10 * Val(s[..|s| - 1]) + Digit(s[|s| - 1])
  }

  lemma {:induction false} PowSplit(a: nat, b: nat)
    ensures Pow10(a + b) == Pow10(a) * Pow10(b)
  {
    if a != 0 {
      PowSplit(a - 1, b);
      assert Pow10(a + b) == 10 * (Pow10(a - 1) * Pow10(b));
    }
  }

  lemma {:induction false} PowMonotonic(a: nat, b: nat)
    requires a <= b
    ensures Pow10(a) <= Pow10(b)
  {
    if a < b { PowMonotonic(a, b - 1); }
  }

  lemma MulShift(a: int, p: int)
    ensures a * (10 * p) == 10 * (a * p)
  {}

  lemma PowNineteen()
    ensures Pow10(3) == 1000 && Pow10(19) == 10_000_000_000_000_000_000
  {
    assert Pow10(2) == 100 && Pow10(3) == 1000;
    assert Pow10(4) == 10_000;
    PowSplit(4, 4);
    PowSplit(8, 8);
    PowSplit(16, 3);
  }

  lemma {:induction false} ValConcat(a: string, b: string)
    requires AllDigits(a) && AllDigits(b)
    ensures AllDigits(a + b) && Val(a + b) == Val(a) * Pow10(|b|) + Val(b)
  {
    if b == [] {
      assert a + b == a;
    } else {
      var init := b[..|b| - 1];
      assert (a + b)[..|a + b| - 1] == a + init;
      ValConcat(a, init);
      MulShift(Val(a), Pow10(|init|));
    }
  }

  lemma ValThousand(a: string, b: string)
    requires AllDigits(a) && AllDigits(b) && |b| == 3
    ensures AllDigits(a + b) && Val(a + b) == 1000 * Val(a) + Val(b)
  {
    ValConcat(a, b);
    assert Pow10(2) == 100;
    assert Pow10(|b|) == 1000;
  }

  lemma {:induction false} ValBound(s: string)
    requires AllDigits(s)
    ensures Val(s) < Pow10(|s|)
  {
    if s != [] { ValBound(s[..|s| - 1]); }
  }

  lemma {:induction false} ValZeros(s: string)
    requires forall i | 0 <= i < |s| :: s[i] == '0'
    ensures AllDigits(s) && Val(s) == 0
  {
    if s != [] { ValZeros(s[..|s| - 1]); }
  }

  lemma ValLowerBound(s: string)
    requires AllDigits(s) && s != [] && s[0] != '0'
    ensures Val(s) >= Pow10(|s| - 1)
  {}

  // ---------------------------------------------------------------------
  // The accepted grammar and its exact meaning
  // ---------------------------------------------------------------------

  datatype Sign = Unsigned | Plus | Minus
  datatype Exponent = NoExponent | Exponent(marker: char, sign: Sign, digits: string)

  /** A number as the grammar sees it; `point` says whether a '.' is written. */
  datatype Numeral = Numeral(negative: bool, whole: string, point: bool, fraction: string, exponent: Exponent)
  {
    predicate WellFormed() {
      && whole != [] && AllDigits(whole) && AllDigits(fraction)
      && (fraction != [] ==> point)
      && (exponent.Exponent? ==>
            (exponent.marker == 'e' || exponent.marker == 'E') && exponent.digits != [] && AllDigits(exponent.digits))
    }

    /** The written exponent, unclamped. */
    function Scale(): int
      requires WellFormed()
    {
      match exponent
      case NoExponent => 0
      case Exponent(_, sign, digits) =>
        var magnitude: int := Val(digits);
        if sign.Minus? then -magnitude else magnitude
    }

    /** 1000 times the absolute value is `Val(whole + fraction)` times ten to this power. */
    function Shift(): int
      requires WellFormed()
    {
      Scale() - |fraction| + 3
    }

    function Coefficient(): nat
      requires WellFormed()
    {
      Val(whole + fraction)
    }
  }

  function MantissaText(n: Numeral): string {
    n.whole + (if n.point then "." + n.fraction else "")
  }

  function SignText(s: Sign): string {
    match s
    case Unsigned => ""
    case Plus => "+"
    case Minus => "-"
  }

  function ExponentText(e: Exponent): string {
    match e
    case NoExponent => ""
    case Exponent(marker, sign, digits) => [marker] + (SignText(sign) + digits)
  }

  function UnsignedText(n: Numeral): string {
    MantissaText(n) + ExponentText(n.exponent)
  }

  function Text(n: Numeral): string {
    if n.negative then "-" + UnsignedText(n) else UnsignedText(n)
  }

  /** `m` is `coefficient * 10^shift` with its fraction cut off. */
  ghost predicate Truncates(coefficient: nat, shift: int, m: nat) {
    if shift >= 0 then m == coefficient * Pow10(shift)
    else m * Pow10(-shift) <= coefficient < (m + 1) * Pow10(-shift)
  }

  /** The unique truncation, as a number. */
  function Magnitude(coefficient: nat, shift: int): (m: nat)
    ensures Truncates(coefficient, shift, m)
  {
    if shift >= 0 then coefficient * Pow10(shift)
    else
      var p := Pow10(-shift);
      DivBounds(coefficient, p);
      coefficient / p
  }

  lemma DivBounds(a: nat, p: nat)
    requires p > 0
    ensures 0 <= a / p && (a / p) * p <= a < (a / p + 1) * p
  {}

  lemma TruncationUnique(coefficient: nat, shift: int, m: nat, k: nat)
    requires Truncates(coefficient, shift, m) && Truncates(coefficient, shift, k)
    ensures m == k
  {}

  lemma MulMonotonic(a: nat, b: nat, p: nat)
    requires a <= b
    ensures a * p <= b * p
  {}

  /** 1000 times the number, truncated toward zero. */
  function Millis(n: Numeral): int
    requires n.WellFormed()
  {
    var m: int := Magnitude(n.Coefficient(), n.Shift());
    if n.negative then -m else m
  }

  // ---------------------------------------------------------------------
  // Splitting a text into its parts
  // ---------------------------------------------------------------------

  /** The position of the first character in `stops`, or |s|. */
  function Find(s: string, stops: set<char>): (k: nat)
    ensures k <= |s|
    ensures forall i | 0 <= i < k :: s[i] !in stops
    ensures k < |s| ==> s[k] in stops
  {
    if s == [] then 0 else if s[0] in stops then 0 else 1 + Find(s[1..], stops)
  }

  lemma FindUnique(s: string, stops: set<char>, k: nat)
    requires k <= |s|
    requires forall i | 0 <= i < k :: s[i] !in stops
    requires k < |s| ==> s[k] in stops
    ensures Find(s, stops) == k
  {}

  const MARKERS: set<char> := {'e', 'E'}
  const POINT: set<char> := {'.'}

  function ParseExponent(marker: char, s: string): (r: Option<Exponent>)
  {
    var sign := if s != [] && s[0] == '-' then Minus else if s != [] && s[0] == '+' then Plus else Unsigned;
    var digits := if sign.Unsigned? then s else s[1..];
    if digits == [] || !AllDigits(digits) then None else Some(Exponent(marker, sign, digits))
  }

  function ParseMantissa(negative: bool, s: string, exponent: Exponent): (r: Option<Numeral>)
  {
    var k := Find(s, POINT);
    var whole := s[..k];
    var fraction := if k < |s| then s[k + 1..] else "";
    if whole == [] || !AllDigits(whole + fraction) then None
    else Some(Numeral(negative, whole, k < |s|, fraction, exponent))
  }

  function DecomposeUnsigned(negative: bool, rest: string): (r: Option<Numeral>)
  {
    var k := Find(rest, MARKERS);
    if k < |rest| then
      match ParseExponent(rest[k], rest[k + 1..])
      case None => None
      case Some(exponent) => ParseMantissa(negative, rest[..k], exponent)
    else
      ParseMantissa(negative, rest, NoExponent)
  }

  /** The splits `parse` makes: sign, then exponent marker, then point. */
  function Decompose(raw: string): (r: Option<Numeral>)
  {
    if raw != [] && raw[0] == '-' then DecomposeUnsigned(true, raw[1..]) else DecomposeUnsigned(false, raw)
  }

  lemma DigitsOfConcat(a: string, b: string)
    requires AllDigits(a + b)
    ensures AllDigits(a) && AllDigits(b)
  {
    assert forall i | 0 <= i < |a| :: a[i] == (a + b)[i];
    assert forall i | 0 <= i < |b| :: b[i] == (a + b)[|a| + i];
  }

  lemma ParseMantissaSound(negative: bool, s: string, exponent: Exponent)
    requires ParseMantissa(negative, s, exponent).Some?
    ensures var n := ParseMantissa(negative, s, exponent).value;
            MantissaText(n) == s && n.negative == negative && n.exponent == exponent &&
            n.whole != [] && AllDigits(n.whole) && AllDigits(n.fraction) && (n.fraction != [] ==> n.point)
  {
    var k := Find(s, POINT);
    var whole := s[..k];
    var fraction := if k < |s| then s[k + 1..] else "";
    DigitsOfConcat(whole, fraction);
    if k < |s| { assert s == whole + ("." + fraction); } else { assert s == whole; }
  }

  lemma ParseExponentSound(marker: char, s: string)
    requires ParseExponent(marker, s).Some?
    ensures var e := ParseExponent(marker, s).value;
            e.Exponent? && e.marker == marker && e.digits != [] && AllDigits(e.digits) &&
            ExponentText(e) == [marker] + s
  {}

  lemma SplitAt(s: string, k: nat)
    requires k < |s|
    ensures s == s[..k] + ([s[k]] + s[k + 1..])
  {}

  lemma ExponentSplitSound(negative: bool, rest: string, k: nat)
    requires k < |rest| && (rest[k] == 'e' || rest[k] == 'E') && ParseExponent(rest[k], rest[k + 1..]).Some?
    requires ParseMantissa(negative, rest[..k], ParseExponent(rest[k], rest[k + 1..]).value).Some?
    ensures var n := ParseMantissa(negative, rest[..k], ParseExponent(rest[k], rest[k + 1..]).value).value;
            n.WellFormed() && n.negative == negative && UnsignedText(n) == rest
  {
    var e := ParseExponent(rest[k], rest[k + 1..]).value;
    ParseExponentSound(rest[k], rest[k + 1..]);
    ParseMantissaSound(negative, rest[..k], e);
    SplitAt(rest, k);
  }

  lemma MantissaOnlySound(negative: bool, rest: string)
    requires ParseMantissa(negative, rest, NoExponent).Some?
    ensures var n := ParseMantissa(negative, rest, NoExponent).value;
            n.WellFormed() && n.negative == negative && UnsignedText(n) == rest
  {
    ParseMantissaSound(negative, rest, NoExponent);
    assert rest + "" == rest;
  }

  lemma DecomposeUnsignedSound(negative: bool, rest: string)
    requires DecomposeUnsigned(negative, rest).Some?
    ensures var n := DecomposeUnsigned(negative, rest).value;
            n.WellFormed() && n.negative == negative && UnsignedText(n) == rest
  {
    var k := Find(rest, MARKERS);
    if k < |rest| {
      ExponentSplitSound(negative, rest, k);
    } else {
      MantissaOnlySound(negative, rest);
    }
  }

  lemma DecomposeSound(raw: string)
    requires Decompose(raw).Some?
    ensures Decompose(raw).value.WellFormed() && Text(Decompose(raw).value) == raw
  {
    var negative := raw != [] && raw[0] == '-';
    DecomposeUnsignedSound(negative, if negative then raw[1..] else raw);
    if negative { assert raw == "-" + raw[1..]; }
  }

  lemma ParseMantissaComplete(n: Numeral)
    requires n.WellFormed()
    ensures ParseMantissa(n.negative, MantissaText(n), n.exponent) == Some(n)
  {
    var s := MantissaText(n);
    FindUnique(s, POINT, |n.whole|);
    assert s[..|n.whole|] == n.whole;
    if n.point { assert s[|n.whole| + 1..] == n.fraction; }
  }

  lemma ParseExponentComplete(e: Exponent)
    requires e.Exponent? && e.digits != [] && AllDigits(e.digits)
    ensures ParseExponent(e.marker, SignText(e.sign) + e.digits) == Some(e)
  {
    var s := SignText(e.sign) + e.digits;
    assert IsDigit(e.digits[0]);
    if e.sign.Unsigned? { assert s == e.digits; } else { assert s[1..] == e.digits; }
  }

  lemma UnsignedTextStart(n: Numeral)
    requires n.WellFormed()
    ensures UnsignedText(n) != [] && UnsignedText(n)[0] == n.whole[0] && IsDigit(n.whole[0])
  {}

  lemma MarkerPosition(n: Numeral)
    requires n.WellFormed()
    ensures Find(UnsignedText(n), MARKERS) == |MantissaText(n)|
  {
    FindUnique(UnsignedText(n), MARKERS, |MantissaText(n)|);
  }

  lemma TailAfterMarker(mantissa: string, marker: char, tail: string)
    ensures var s := mantissa + ([marker] + tail);
            s[..|mantissa|] == mantissa && s[|mantissa|] == marker && s[|mantissa| + 1..] == tail
  {}

  lemma WithExponent(n: Numeral)
    requires n.WellFormed() && n.exponent.Exponent?
    ensures var rest, k := UnsignedText(n), |MantissaText(n)|;
            && k < |rest| && rest[..k] == MantissaText(n)
            && ParseExponent(rest[k], rest[k + 1..]) == Some(n.exponent)
  {
    var tail := SignText(n.exponent.sign) + n.exponent.digits;
    ParseExponentComplete(n.exponent);
    TailAfterMarker(MantissaText(n), n.exponent.marker, tail);
    assert UnsignedText(n) == MantissaText(n) + ([n.exponent.marker] + tail);
  }

  lemma DecomposeSplit(negative: bool, rest: string, k: nat, exponent: Exponent)
    requires k < |rest| && Find(rest, MARKERS) == k && ParseExponent(rest[k], rest[k + 1..]) == Some(exponent)
    ensures DecomposeUnsigned(negative, rest) == ParseMantissa(negative, rest[..k], exponent)
  {}

  lemma DecomposeUnsignedComplete(n: Numeral)
    requires n.WellFormed()
    ensures DecomposeUnsigned(n.negative, UnsignedText(n)) == Some(n)
  {
    MarkerPosition(n);
    ParseMantissaComplete(n);
    if n.exponent.Exponent? {
      WithExponent(n);
      DecomposeSplit(n.negative, UnsignedText(n), |MantissaText(n)|, n.exponent);
    } else {
      assert UnsignedText(n) == MantissaText(n);
    }
  }

  lemma DecomposeComplete(n: Numeral)
    requires n.WellFormed()
    ensures Decompose(Text(n)) == Some(n)
  {
    UnsignedTextStart(n);
    DecomposeUnsignedComplete(n);
    if n.negative { assert Text(n)[1..] == UnsignedText(n); }
  }

  /** The splits accept exactly the texts of the grammar, each in one way. */
  lemma DecomposeExact(raw: string, n: Numeral)
    ensures Decompose(raw) == Some(n) <==> n.WellFormed() && Text(n) == raw
  {
    if Decompose(raw) == Some(n) { DecomposeSound(raw); }
    if n.WellFormed() && Text(n) == raw { DecomposeComplete(n); }
  }

  // ---------------------------------------------------------------------
  // The digits that decide a truncated value
  // ---------------------------------------------------------------------

  /** The leading zeros are dropped without changing the value. */
  lemma DropLeading(digits: string, leading: nat)
    requires AllDigits(digits) && leading <= |digits|
    requires forall i | 0 <= i < leading :: digits[i] == '0'
    ensures AllDigits(digits[leading..]) && Val(digits) == Val(digits[leading..])
  {
    assert digits == digits[..leading] + digits[leading..];
    ValZeros(digits[..leading]);
    ValConcat(digits[..leading], digits[leading..]);
  }

  /** `significant` is the number of integer digits of the result: when it is
      not positive the result is 0, and when it exceeds 19 no i64 holds it. */
  lemma SignificantDigits(s: string, significant: int)
    requires AllDigits(s) && s != [] && s[0] != '0'
    ensures significant <= 0 ==> Magnitude(Val(s), significant - |s|) == 0
    ensures significant > 0 ==> Magnitude(Val(s), significant - |s|) >= Pow10(significant - 1)
    ensures significant > MAX_SIGNIFICANT ==> Magnitude(Val(s), significant - |s|) > I64_MAX + 1
  {
    var shift := significant - |s|;
    var m := Magnitude(Val(s), shift);
    ValLowerBound(s);
    ValBound(s);
    if significant <= 0 {
      PowMonotonic(|s|, -shift);
      TruncationUnique(Val(s), shift, m, 0);
    } else if shift >= 0 {
      PowSplit(|s| - 1, shift);
      MulMonotonic(Pow10(|s| - 1), Val(s), Pow10(shift));
    } else {
      PowSplit(significant - 1, -shift);
      if m < Pow10(significant - 1) { MulMonotonic(m + 1, Pow10(significant - 1), Pow10(-shift)); }
    }
    if significant > MAX_SIGNIFICANT {
      PowMonotonic(19, significant - 1);
      PowNineteen();
    }
  }

  /** The digit taken at `offset`: a digit of the text, or a padding zero. */
  function DigitAt(s: string, offset: nat): (c: char) {
    if offset < |s| then s[offset] else '0'
  }

  function Taken(s: string, count: nat): (t: string)
    requires AllDigits(s)
    ensures |t| == count && AllDigits(t)
    ensures forall i | 0 <= i < count :: t[i] == DigitAt(s, i)
  {
    seq(count, i requires i >= 0 => DigitAt(s, i))
  }

  lemma TakenPadded(s: string, significant: nat)
    requires AllDigits(s) && significant >= |s|
    ensures Val(Taken(s, significant)) == Val(s) * Pow10(significant - |s|)
  {
    var t := Taken(s, significant);
    var zeros := t[|s|..];
    assert t == s + zeros;
    ValZeros(zeros);
    ValConcat(s, zeros);
  }

  lemma CutBounds(v: nat, p: nat, low: nat)
    requires low < p
    ensures v * p <= v * p + low < (v + 1) * p
  {}

  lemma TakenCut(s: string, significant: nat)
    requires AllDigits(s) && significant < |s|
    ensures Truncates(Val(s), significant - |s|, Val(Taken(s, significant)))
  {
    var t := Taken(s, significant);
    var rest := s[significant..];
    assert s == t + rest;
    ValConcat(t, rest);
    ValBound(rest);
    CutBounds(Val(t), Pow10(|rest|), Val(rest));
    assert -(significant - |s|) == |rest|;
  }

  /** Reading `significant` digits, padded with zeros, is the exact truncation. */
  lemma TakenExact(s: string, significant: nat)
    requires AllDigits(s)
    ensures Val(Taken(s, significant)) == Magnitude(Val(s), significant - |s|)
  {
    if significant >= |s| {
      TakenPadded(s, significant);
    } else {
      TakenCut(s, significant);
      TruncationUnique(Val(s), significant - |s|, Val(Taken(s, significant)), Magnitude(Val(s), significant - |s|));
    }
  }
}
