/** The generated JSON epoch-second adapter: a number is parsed into whole
    milliseconds, truncated toward zero, and a timestamp is written back as a
    decimal number of seconds.

    The meaning of a number is given in `Decimal` by a grammar (`Numeral`, `Text`)
    and by exact integer arithmetic on its unbounded exponent (`Millis`). The
    parser itself works in 32- and 128-bit integers with a clamped exponent; the
    newtypes below make Dafny prove that none of its checked operations fail. */
module EpochSeconds {
  import opened Decimal
  import opened Wrappers

  newtype i32 = x: int | -0x8000_0000 <= x < 0x8000_0000
  newtype i128 = x: int
    | -0x8000_0000_0000_0000_0000_0000_0000_0000 <= x < 0x8000_0000_0000_0000_0000_0000_0000_0000

  const MAX_BYTES: nat := 128
  const EXPONENT_CLAMP: int := 1024

  /** The millisecond instants a `DateTime<Utc>` can hold. */
  datatype TimestampRange = TimestampRange(lo: int, hi: int)
  {
    predicate Valid() { I64_MIN <= lo <= 0 <= hi <= I64_MAX }

    function FromTimestampMillis(millis: int): Option<int> {
      if lo <= millis <= hi then Some(millis) else None
    }
  }

  // ---------------------------------------------------------------------
  // The parser
  // ---------------------------------------------------------------------

  /** What `parse` must return: the exact truncated value when it is an i64 and
      a representable timestamp, and nothing otherwise. */
  function Parsed(raw: string, range: TimestampRange): Option<int> {
    if |raw| > MAX_BYTES then None
    else
      match Decompose(raw)
      case None => None
      case Some(n) =>
        DecomposeSound(raw);
        var m := Millis(n);
        if I64_MIN <= m <= I64_MAX then range.FromTimestampMillis(m) else None
  }

  function SaturatingI32(x: int): i32 {
    if x < -0x8000_0000 then -0x8000_0000
    else if x > 0x7fff_ffff then 0x7fff_ffff
    else x as i32
  }

  /** The exponent fold: saturating, and clamped after every digit. */
  function ClampedMagnitude(digits: string): (r: i32)
    requires AllDigits(digits)
    ensures 0 <= r <= EXPONENT_CLAMP as i32
  {
    if digits == [] then 0
    else
      var value := ClampedMagnitude(digits[..|digits| - 1]);
      var next := SaturatingI32(SaturatingI32(value as int * 10) as int + Digit(digits[|digits| - 1]));
      if next < EXPONENT_CLAMP as i32 then next else EXPONENT_CLAMP as i32
  }

  /** Clamping each step is clamping the result. */
  lemma {:induction false} ClampedMagnitudeExact(digits: string)
    requires AllDigits(digits)
    ensures ClampedMagnitude(digits) as int ==
            if Val(digits) < EXPONENT_CLAMP then Val(digits) else EXPONENT_CLAMP
  {
    if digits != [] { ClampedMagnitudeExact(digits[..|digits| - 1]); }
  }

  function ClampedScale(n: Numeral): (r: i32)
    requires n.WellFormed()
    ensures -(EXPONENT_CLAMP as i32) <= r <= EXPONENT_CLAMP as i32
  {
    match n.exponent
    case NoExponent => 0
    case Exponent(_, sign, digits) =>
      if sign.Minus? then -ClampedMagnitude(digits) else ClampedMagnitude(digits)
  }

  lemma ClampedScaleExact(n: Numeral)
    requires n.WellFormed()
    ensures -EXPONENT_CLAMP < n.Scale() < EXPONENT_CLAMP ==> ClampedScale(n) as int == n.Scale()
    ensures n.Scale() >= EXPONENT_CLAMP ==> ClampedScale(n) as int == EXPONENT_CLAMP
    ensures n.Scale() <= -EXPONENT_CLAMP ==> ClampedScale(n) as int == -EXPONENT_CLAMP
  {
    if n.exponent.Exponent? { ClampedMagnitudeExact(n.exponent.digits); }
  }

  lemma AllZeroMagnitude(n: Numeral)
    requires n.WellFormed() && n.Coefficient() == 0
    ensures Millis(n) == 0
  {}

  /** The number of integer digits of the result, in unbounded arithmetic. */
  function Significant(n: Numeral, leading: nat): int
    requires n.WellFormed()
  {
    |n.whole| + n.Scale() + 3 - leading
  }

  predicate FirstNonZero(digits: string, leading: nat) {
    && leading < |digits| && digits[leading] != '0'
    && forall i | 0 <= i < leading :: digits[i] == '0'
  }

  /** Every early exit, and the digits read otherwise, agree with the exact value. */
  lemma ExitsExact(n: Numeral, leading: nat)
    requires n.WellFormed() && FirstNonZero(n.whole + n.fraction, leading)
    ensures AllDigits(n.whole + n.fraction)
    ensures Significant(n, leading) <= 0 ==> Millis(n) == 0
    ensures Significant(n, leading) > MAX_SIGNIFICANT ==> !(I64_MIN <= Millis(n) <= I64_MAX)
    ensures 0 < Significant(n, leading) ==>
              var m: int := Val(Taken((n.whole + n.fraction)[leading..], Significant(n, leading)));
              Millis(n) == if n.negative then -m else m
  {
    var digits := n.whole + n.fraction;
    var s := digits[leading..];
    DropLeading(digits, leading);
    assert n.Shift() == Significant(n, leading) - |s|;
    SignificantDigits(s, Significant(n, leading));
    if 0 < Significant(n, leading) { TakenExact(s, Significant(n, leading)); }
  }

  /** Clamping the exponent changes no exit and no digit count. */
  lemma ClampHarmless(n: Numeral, leading: nat)
    requires n.WellFormed() && leading <= |n.whole| + |n.fraction| <= MAX_BYTES
    ensures var clamped := |n.whole| + ClampedScale(n) as int + 3 - leading;
            && (clamped <= 0 <==> Significant(n, leading) <= 0)
            && (clamped > MAX_SIGNIFICANT <==> Significant(n, leading) > MAX_SIGNIFICANT)
            && (0 < clamped <= MAX_SIGNIFICANT ==> clamped == Significant(n, leading))
  {
    ClampedScaleExact(n);
  }

  lemma NextDigit(t: string, offset: nat)
    requires AllDigits(t) && offset < |t| && |t| <= MAX_SIGNIFICANT
    ensures AllDigits(t[..offset]) && AllDigits(t[..offset + 1])
    ensures Val(t[..offset + 1]) == 10 * Val(t[..offset]) + Digit(t[offset])
    ensures Val(t[..offset + 1]) < 10_000_000_000_000_000_000
  {
    assert t[..offset + 1][..offset] == t[..offset];
    ValBound(t[..offset + 1]);
    PowMonotonic(offset + 1, 19);
    PowNineteen();
  }

  /** The digit loop: `count` digits from `leading` on, zeros past the end. */
  method ReadDigits(digits: string, leading: nat, count: nat) returns (millis: i128)
    requires AllDigits(digits) && leading <= |digits| && count <= MAX_SIGNIFICANT
    ensures AllDigits(digits[leading..]) && millis as int == Val(Taken(digits[leading..], count))
    ensures 0 <= millis < 10_000_000_000_000_000_000
  {
    millis := 0;
    ghost var taken := Taken(digits[leading..], count);
    for offset := 0 to count
      invariant 0 <= millis as int == Val(taken[..offset]) < 10_000_000_000_000_000_000
    {
      var digit := if leading + offset < |digits| then digits[leading + offset] else '0';
      NextDigit(taken, offset);
      millis := millis * 10 + Digit(digit) as i128;
    }
    assert taken[..count] == taken;
  }

  /** How many zeros come before the first other digit; an exponent is measured without them. */
  method LeadingZeros(digits: string) returns (leading: nat)
    ensures leading == |digits| || FirstNonZero(digits, leading)
    ensures forall i | 0 <= i < leading <= |digits| :: digits[i] == '0'
  {
    leading := 0;
    while leading < |digits| && digits[leading] == '0'
      invariant leading <= |digits|
      invariant forall i | 0 <= i < leading :: digits[i] == '0'
    {
      leading := leading + 1;
    }
  }

  method Parse(raw: string, range: TimestampRange) returns (r: Option<int>)
    requires range.Valid()
    ensures r == Parsed(raw, range)
  {
    if |raw| > MAX_BYTES { return None; }
    var decomposed := Decompose(raw);
    if decomposed.None? { return None; }
    var n := decomposed.value;
    DecomposeSound(raw);
    r := FromNumeral(n, range);
  }

  /** The rest of `parse`, once the text is split. */
  method FromNumeral(n: Numeral, range: TimestampRange) returns (r: Option<int>)
    requires n.WellFormed() && |n.whole| + |n.fraction| <= MAX_BYTES && range.Valid()
    ensures r == if I64_MIN <= Millis(n) <= I64_MAX then range.FromTimestampMillis(Millis(n)) else None
  {
    var digits := n.whole + n.fraction;
    var leading := LeadingZeros(digits);
    if leading == |digits| {
      ValZeros(digits);
      AllZeroMagnitude(n);
      return range.FromTimestampMillis(0);
    }
    ExitsExact(n, leading);
    ClampHarmless(n, leading);

    var keep: i32 := |n.whole| as i32 + ClampedScale(n) + 3;
    if keep <= 0 { return range.FromTimestampMillis(0); }
    var significant: i32 := keep - leading as i32;
    if significant <= 0 { return range.FromTimestampMillis(0); }
    if significant > MAX_SIGNIFICANT as i32 { return None; }
    var millis := ReadDigits(digits, leading, significant as nat);
    var signed: i128 := if n.negative then -millis else millis;
    if signed < I64_MIN as i128 || signed > I64_MAX as i128 { return None; }
    r := range.FromTimestampMillis(signed as int);
  }

  /** Accepted numbers give their exact truncated value; nothing else is accepted. */
  lemma ParsedExact(raw: string, n: Numeral, range: TimestampRange)
    requires range.Valid()
    ensures n.WellFormed() && Text(n) == raw && |raw| <= 128 ==>
              Parsed(raw, range) == if range.lo <= Millis(n) <= range.hi then Some(Millis(n)) else None
    ensures Parsed(raw, range).Some? ==>
              |raw| <= 128 && exists k: Numeral ::
                k.WellFormed() && Text(k) == raw && Parsed(raw, range) == Some(Millis(k))
  {
    DecomposeExact(raw, n);
    if Parsed(raw, range).Some? { DecomposeSound(raw); }
  }

  // ---------------------------------------------------------------------
  // What an exponent does to a text
  // ---------------------------------------------------------------------

  function Zeros(n: nat): (s: string)
    ensures |s| == n && AllDigits(s)
  {
    seq(n, _ => '0')
  }

  /** The digits with a point after the first `p` of them. */
  function PointAt(digits: string, p: nat): string
    requires p <= |digits|
  {
    digits[..p] + "." + digits[p..]
  }

  lemma ParsedText(n: Numeral, range: TimestampRange)
    requires n.WellFormed() && |Text(n)| <= MAX_BYTES
    ensures Parsed(Text(n), range) ==
            if I64_MIN <= Millis(n) <= I64_MAX then range.FromTimestampMillis(Millis(n)) else None
  {
    DecomposeComplete(n);
  }

  /** Both are read as the same instant, or neither is read. */
  ghost predicate SameNumber(a: string, b: string) {
    forall range: TimestampRange :: Parsed(a, range) == Parsed(b, range)
  }

  lemma BothParsed(a: Numeral, b: Numeral)
    requires a.WellFormed() && b.WellFormed() && |Text(a)| <= MAX_BYTES && |Text(b)| <= MAX_BYTES
    requires Millis(a) == Millis(b)
    ensures SameNumber(Text(a), Text(b))
  {
    forall range: TimestampRange ensures Parsed(Text(a), range) == Parsed(Text(b), range) {
      ParsedText(a, range);
      ParsedText(b, range);
    }
  }

  /** Two numerals with the same digits, signs and distance from the point to the last digit. */
  lemma SameMillis(a: Numeral, b: Numeral)
    requires a.WellFormed() && b.WellFormed() && a.negative == b.negative
    requires a.whole + a.fraction == b.whole + b.fraction && a.Shift() == b.Shift()
    ensures Millis(a) == Millis(b)
  {}

  lemma SignedPointText(negative: bool, digits: string, p: nat, exponent: Exponent)
    requires 0 < p <= |digits|
    ensures var n := Numeral(negative, digits[..p], true, digits[p..], exponent);
            Text(n) == (if negative then "-" else "") + (PointAt(digits, p) + ExponentText(exponent))
  {
    assert digits[..p] + ("." + digits[p..]) == PointAt(digits, p);
  }

  predicate IsMarker(marker: char) { marker == 'e' || marker == 'E' }

  lemma MovedPoint(negative: bool, digits: string, p: nat, q: nat, exponent: Exponent, tail: string)
    requires AllDigits(digits) && 0 < p <= |digits| && 0 < q <= |digits|
    requires exponent.Exponent? && IsMarker(exponent.marker) && exponent.digits != [] && AllDigits(exponent.digits)
    requires tail == ExponentText(exponent) && |digits| + |tail| + 2 <= MAX_BYTES
    requires if exponent.sign.Minus? then p - q == Val(exponent.digits) else q - p == Val(exponent.digits)
    ensures var sign := if negative then "-" else "";
            SameNumber(sign + (PointAt(digits, p) + tail), sign + PointAt(digits, q))
  {
    var a := Numeral(negative, digits[..p], true, digits[p..], exponent);
    var b := Numeral(negative, digits[..q], true, digits[q..], NoExponent);
    assert digits[..p] + digits[p..] == digits == digits[..q] + digits[q..];
    SignedPointText(negative, digits, p, exponent);
    SignedPointText(negative, digits, q, NoExponent);
    assert PointAt(digits, q) + "" == PointAt(digits, q);
    SameMillis(a, b);
    BothParsed(a, b);
  }

  const RIGHT: set<string> := {"e", "E", "e+", "E+"}
  const LEFT: set<string> := {"e-", "E-"}

  function Spelled(opening: string, k: string): (e: Exponent)
    requires opening in RIGHT + LEFT
    ensures e.Exponent? && IsMarker(e.marker) && e.digits == k && (e.sign.Minus? <==> opening in LEFT)
  {
    Exponent(opening[0], if |opening| == 1 then Unsigned else if opening[1] == '+' then Plus else Minus, k)
  }

  lemma SpelledText(opening: string, k: string)
    requires opening in RIGHT + LEFT
    ensures ExponentText(Spelled(opening, k)) == opening + k
  {
    var e := Spelled(opening, k);
    assert [e.marker] + SignText(e.sign) == opening;
    assert [e.marker] + (SignText(e.sign) + k) == [e.marker] + SignText(e.sign) + k;
  }

  /** A positive exponent, with a plus sign or without one, moves the point to the right by
      that many places. */
  lemma ExponentMovesRight(negative: bool, digits: string, p: nat, opening: string, k: string)
    requires AllDigits(digits) && 0 < p <= |digits| && AllDigits(k) && k != "" && p + Val(k) <= |digits|
    requires opening in {"e", "E", "e+", "E+"} && |digits| + |opening + k| + 2 <= 128
    ensures var sign := if negative then "-" else "";
            SameNumber(sign + (PointAt(digits, p) + (opening + k)), sign + PointAt(digits, p + Val(k)))
  {
    SpelledText(opening, k);
    MovedPoint(negative, digits, p, p + Val(k), Spelled(opening, k), opening + k);
  }

  /** A negative exponent moves it to the left. */
  lemma ExponentMovesLeft(negative: bool, digits: string, p: nat, opening: string, k: string)
    requires AllDigits(digits) && 0 < p <= |digits| && AllDigits(k) && k != "" && Val(k) < p
    requires opening in {"e-", "E-"} && |digits| + |opening + k| + 2 <= 128
    ensures var sign := if negative then "-" else "";
            SameNumber(sign + (PointAt(digits, p) + (opening + k)), sign + PointAt(digits, p - Val(k)))
  {
    SpelledText(opening, k);
    MovedPoint(negative, digits, p, p - Val(k), Spelled(opening, k), opening + k);
  }

  lemma Regrouped(c: nat, p: nat, q: nat)
    ensures c * (p * q) == (c * p + 0) * q
  {}

  lemma PaddedMillis(a: Numeral, b: Numeral, zeros: nat)
    requires a.WellFormed() && b.WellFormed() && a.negative == b.negative
    requires b.whole + b.fraction == a.whole + a.fraction + Zeros(zeros)
    requires a.Shift() == b.Shift() + zeros && b.Shift() >= 0
    ensures Millis(a) == Millis(b)
  {
    ValZeros(Zeros(zeros));
    ValConcat(a.whole + a.fraction, Zeros(zeros));
    PowSplit(zeros, b.Shift());
    Regrouped(a.Coefficient(), Pow10(zeros), Pow10(b.Shift()));
  }

  lemma WholeText(negative: bool, whole: string, exponent: Exponent)
    ensures Text(Numeral(negative, whole, false, "", exponent))
         == (if negative then "-" else "") + (whole + ExponentText(exponent))
  {
    assert whole + "" == whole;
  }

  /** On a whole number, an exponent stands for that many zeros. */
  lemma ExponentAddsZeros(negative: bool, whole: string, k: string)
    requires AllDigits(whole) && whole != "" && AllDigits(k) && k != ""
    requires |whole| + |k| + 2 <= MAX_BYTES && |whole| + Val(k) + 1 <= MAX_BYTES
    ensures var sign := if negative then "-" else "";
            SameNumber(sign + (whole + ("e" + k)), sign + (whole + Zeros(Val(k))))
  {
    var zeros := Zeros(Val(k));
    var e := Exponent('e', Unsigned, k);
    var a := Numeral(negative, whole, false, "", e);
    var b := Numeral(negative, whole + zeros, false, "", NoExponent);
    WholeText(negative, whole, e);
    WholeText(negative, whole + zeros, NoExponent);
    assert ['e'] + ("" + k) == "e" + k;
    assert whole + zeros + ExponentText(NoExponent) == whole + zeros;
    assert whole + "" == whole && whole + zeros + "" == whole + zeros;
    PaddedMillis(a, b, Val(k));
    BothParsed(a, b);
  }

  /** A point with nothing after it says nothing. */
  lemma PointOptional(negative: bool, whole: string)
    requires AllDigits(whole) && whole != "" && |whole| + 2 <= 128
    ensures var sign := if negative then "-" else "";
            SameNumber(sign + whole, sign + (whole + "."))
  {
    WholeText(negative, whole, NoExponent);
    PointedText(negative, whole, "");
    assert whole + "" == whole && whole + ("." + "") == whole + ".";
    BothParsed(Numeral(negative, whole, false, "", NoExponent), Numeral(negative, whole, true, "", NoExponent));
  }

  lemma TakenJoined(whole: string, fraction: string)
    requires AllDigits(whole) && AllDigits(fraction)
    ensures AllDigits(whole + fraction)
    ensures Val(Taken(whole + fraction, |whole| + 3)) == 1000 * Val(whole) + Val(Taken(fraction, 3))
  {
    var cut := Taken(fraction, 3);
    assert Taken(whole + fraction, |whole| + 3) == whole + cut by {
      forall i | 0 <= i < |whole| + 3 ensures DigitAt(whole + fraction, i) == (whole + cut)[i] {}
    }
    ValThousand(whole, cut);
  }

  lemma PointedText(negative: bool, whole: string, fraction: string)
    ensures Text(Numeral(negative, whole, true, fraction, NoExponent))
         == (if negative then "-" else "") + (whole + ("." + fraction))
  {
    assert whole + ("." + fraction) + "" == whole + ("." + fraction);
  }

  lemma PointedMillis(negative: bool, whole: string, fraction: string)
    requires AllDigits(whole) && whole != "" && AllDigits(fraction)
    ensures var magnitude: int := 1000 * Val(whole) + Val(Taken(fraction, 3));
            Millis(Numeral(negative, whole, true, fraction, NoExponent)) == if negative then -magnitude else magnitude
  {
    TakenJoined(whole, fraction);
    TakenExact(whole + fraction, |whole| + 3);
  }

  /** Without an exponent: the seconds, and the first three digits after the point, zeros
      where there are none; what comes after them is cut, whatever the sign. */
  lemma PointedValue(negative: bool, whole: string, fraction: string, range: TimestampRange)
    requires AllDigits(whole) && whole != "" && AllDigits(fraction) && |whole| + |fraction| + 2 <= 128 && range.Valid()
    ensures var magnitude: int := 1000 * Val(whole) + Val(Taken(fraction, 3));
            var millis := if negative then -magnitude else magnitude;
            Parsed((if negative then "-" else "") + (whole + ("." + fraction)), range)
            == if range.lo <= millis <= range.hi then Some(millis) else None
  {
    PointedText(negative, whole, fraction);
    PointedMillis(negative, whole, fraction);
    ParsedText(Numeral(negative, whole, true, fraction, NoExponent), range);
  }

  // ---------------------------------------------------------------------
  // What is no number
  // ---------------------------------------------------------------------

  /** The shape of a number without its sign, by what may stand beside and before each character. */
  predicate Shaped(s: string) {
    && s != "" && IsDigit(s[0])
    && forall i | 0 <= i < |s| :: Placed(s, i)
  }

  predicate Placed(s: string, i: nat)
    requires i < |s|
  {
    if s[i] == '.' then forall j | 0 <= j < i :: IsDigit(s[j])
    else if s[i] == 'e' || s[i] == 'E' then
      && (forall j | 0 <= j < i :: IsDigit(s[j]) || s[j] == '.')
      && i + 1 < |s| && (IsDigit(s[i + 1]) || s[i + 1] == '+' || s[i + 1] == '-')
    else if s[i] == '+' || s[i] == '-' then
      0 < i && (s[i - 1] == 'e' || s[i - 1] == 'E') && i + 1 < |s| && IsDigit(s[i + 1])
    else IsDigit(s[i])
  }

  lemma MantissaShaped(n: Numeral, i: nat)
    requires n.WellFormed() && i < |MantissaText(n)|
    ensures IsDigit(MantissaText(n)[i]) || (MantissaText(n)[i] == '.' && i == |n.whole|)
  {}

  lemma ExponentShaped(e: Exponent, i: nat)
    requires e.Exponent? && (e.marker == 'e' || e.marker == 'E') && e.digits != [] && AllDigits(e.digits)
    requires i < |ExponentText(e)|
    ensures var t := ExponentText(e);
            if i == 0 then t[i] == e.marker && 1 < |t| && (IsDigit(t[1]) || t[1] == '+' || t[1] == '-')
            else IsDigit(t[i]) || (i == 1 < |t| - 1 && (t[1] == '+' || t[1] == '-') && IsDigit(t[2]))
  {}

  lemma PartsShaped(n: Numeral, i: nat)
    requires n.WellFormed() && i < |UnsignedText(n)|
    ensures Placed(UnsignedText(n), i)
  {
    var m, t := MantissaText(n), ExponentText(n.exponent);
    forall j | 0 <= j < |m| ensures IsDigit(m[j]) || (m[j] == '.' && j == |n.whole|) { MantissaShaped(n, j); }
    if n.exponent.Exponent? {
      ExponentShaped(n.exponent, 0);
      ExponentShaped(n.exponent, 1);
      if i >= |m| { ExponentShaped(n.exponent, i - |m|); }
    }
  }

  /** Nothing else is a number: no empty text, no plus sign or point in front, no second
      sign, point or exponent, no exponent without digits. */
  lemma OnlyShaped(raw: string, range: TimestampRange)
    requires Parsed(raw, range).Some?
    ensures |raw| <= 128 && Shaped(if raw != "" && raw[0] == '-' then raw[1..] else raw)
  {
    DecomposeSound(raw);
    var n := Decompose(raw).value;
    UnsignedTextStart(n);
    forall i | 0 <= i < |UnsignedText(n)| ensures Placed(UnsignedText(n), i) { PartsShaped(n, i); }
    if n.negative { assert raw[1..] == UnsignedText(n); } else { assert raw == UnsignedText(n); }
  }

  // ---------------------------------------------------------------------
  // The writer
  // ---------------------------------------------------------------------

  function DigitChar(d: nat): (c: char)
    requires d < 10
    ensures IsDigit(c) && Digit(c) == d
  {
    (d + '0' as int) as char
  }

  function ToDecimal(n: nat): string {
    if n < 10 then [DigitChar(n)] else ToDecimal(n / 10) + [DigitChar(n % 10)]
  }

  /** The digits written for a number denote it, without a leading zero. */
  lemma {:induction false} DecimalWritten(n: nat)
    ensures ToDecimal(n) != [] && AllDigits(ToDecimal(n)) && Val(ToDecimal(n)) == n
    ensures n > 0 ==> ToDecimal(n)[0] != '0'
    ensures |ToDecimal(n)| > 1 ==> ToDecimal(n)[0] != '0'
  {
    var s := ToDecimal(n);
    if n < 10 {
      assert s[..0] == [];
    } else {
      DecimalWritten(n / 10);
      assert s[..|s| - 1] == ToDecimal(n / 10);
    }
  }

  /** Three digits, zero-padded: the format `{:03}` of a number below 1000. */
  function Pad3(n: nat): (s: string)
    requires n < 1000
    ensures |s| == 3 && AllDigits(s)
  {
    [DigitChar(n / 100), DigitChar(n / 10 % 10), DigitChar(n % 10)]
  }

  lemma ThreeDigits(n: nat)
    requires n < 1000
    ensures 100 * (n / 100) + 10 * (n / 10 % 10) + n % 10 == n
  {}

  lemma Pad3Value(n: nat)
    requires n < 1000
    ensures Val(Pad3(n)) == n
  {
    var s := Pad3(n);
    assert s[..2][..1] == s[..1] && s[..1][..0] == [];
    assert Val(s[..1]) == Digit(s[0]);
    assert Val(s[..2]) == 10 * Digit(s[0]) + Digit(s[1]);
    assert Val(s) == 100 * Digit(s[0]) + 10 * Digit(s[1]) + Digit(s[2]);
    ThreeDigits(n);
  }

  function TruncDiv(a: int, b: nat): int
    requires b > 0
  {
    if a >= 0 then a / b else -(-a / b)
  }

  /** Serialize the instant `seconds` plus `subsec` nanoseconds; a leap second
      (`subsec` of a second or more) is refused. */
  function Serialize(seconds: int, subsec: nat): (r: Result<string, string>)
    requires I64_MIN <= seconds <= I64_MAX && subsec < 2_000_000_000
  {
    if subsec >= 1_000_000_000 then Err("invalid epoch-second timestamp")
    else
      var nanos: i128 := seconds as i128 * 1_000_000_000 + subsec as i128;
      var millis: i128 := TruncDiv(nanos as int, 1_000_000) as i128;
      var magnitude := if millis < 0 then -(millis as int) else millis as int;
      var sign := if millis < 0 then "-" else "";
      var number := if magnitude % 1000 == 0 then ToDecimal(magnitude / 1000)
                    else ToDecimal(magnitude / 1000) + "." + Pad3(magnitude % 1000);
      Ok(sign + number)
  }

  function WrittenNumeral(millis: int): Numeral {
    var magnitude := if millis < 0 then -millis else millis;
    var fraction := magnitude % 1000;
    Numeral(millis < 0, ToDecimal(magnitude / 1000), fraction != 0,
            if fraction == 0 then "" else Pad3(fraction), NoExponent)
  }

  lemma WrittenValue(millis: int)
    ensures WrittenNumeral(millis).WellFormed() && Millis(WrittenNumeral(millis)) == millis
  {
    var n := WrittenNumeral(millis);
    var magnitude := if millis < 0 then -millis else millis;
    DecimalWritten(magnitude / 1000);
    ValConcat(n.whole, n.fraction);
    PowNineteen();
    if magnitude % 1000 == 0 {
      assert n.Shift() == 3 && n.Coefficient() == magnitude / 1000;
    } else {
      Pad3Value(magnitude % 1000);
      assert n.Shift() == 0 && n.Coefficient() == (magnitude / 1000) * 1000 + magnitude % 1000;
      assert Pow10(0) == 1;
    }
    assert Magnitude(n.Coefficient(), n.Shift()) == magnitude;
  }

  lemma {:induction false} DecimalLength(n: nat, k: nat)
    requires k > 0 && n < Pow10(k)
    ensures |ToDecimal(n)| <= k
  {
    if n >= 10 { DecimalLength(n / 10, k - 1); }
  }

  /** A written timestamp is a JSON number (RFC 8259, section 6): no leading zeros,
      no bare point, no exponent. */
  predicate IsJsonNumber(n: Numeral) {
    n.WellFormed() && (|n.whole| > 1 ==> n.whole[0] != '0') && (n.point ==> n.fraction != [])
  }

  lemma WrittenText(millis: int)
    ensures var magnitude := if millis < 0 then -millis else millis;
            Text(WrittenNumeral(millis)) ==
              (if millis < 0 then "-" else "") +
              (if magnitude % 1000 == 0 then ToDecimal(magnitude / 1000)
               else ToDecimal(magnitude / 1000) + "." + Pad3(magnitude % 1000))
  {}

  lemma WrittenShape(millis: int)
    requires -10_000_000_000_000_000_000_000 < millis < 10_000_000_000_000_000_000_000
    ensures IsJsonNumber(WrittenNumeral(millis)) && |Text(WrittenNumeral(millis))| <= 24
  {
    var magnitude := if millis < 0 then -millis else millis;
    DecimalWritten(magnitude / 1000);
    WrittenValue(millis);
    WrittenText(millis);
    PowNineteen();
    DecimalLength(magnitude / 1000, 19);
  }

  function Nanos(seconds: int, subsec: nat): int { seconds * 1_000_000_000 + subsec }

  /** `millis` is the nanoseconds with what is below a millisecond cut off, toward zero. */
  predicate CutToMillis(nanos: int, millis: int) {
    if nanos >= 0 then 0 <= millis && millis * 1_000_000 <= nanos < (millis + 1) * 1_000_000
    else millis <= 0 && (millis - 1) * 1_000_000 < nanos <= millis * 1_000_000
  }

  lemma TruncDivCuts(nanos: int)
    ensures CutToMillis(nanos, TruncDiv(nanos, 1_000_000))
  {}

  /** The text is that of the instant's milliseconds, cut toward zero. */
  lemma SerializeText(seconds: int, subsec: nat) returns (millis: int)
    requires I64_MIN <= seconds <= I64_MAX && subsec < 1_000_000_000
    ensures Serialize(seconds, subsec) == Ok(Text(WrittenNumeral(millis)))
    ensures CutToMillis(Nanos(seconds, subsec), millis)
  {
    millis := TruncDiv(Nanos(seconds, subsec), 1_000_000);
    TruncDivCuts(Nanos(seconds, subsec));
    WrittenText(millis);
  }

  lemma ParsedWritten(millis: int, range: TimestampRange)
    requires -10_000_000_000_000_000_000_000 < millis < 10_000_000_000_000_000_000_000 && range.Valid()
    ensures Parsed(Text(WrittenNumeral(millis)), range) == if range.lo <= millis <= range.hi then Some(millis) else None
  {
    WrittenShape(millis);
    WrittenValue(millis);
    DecomposeComplete(WrittenNumeral(millis));
  }

  lemma MillisBounded(nanos: int, millis: int)
    requires CutToMillis(nanos, millis)
    requires -10_000_000_000_000_000_000_000_000_000 < nanos < 10_000_000_000_000_000_000_000_000_000
    ensures -10_000_000_000_000_000_000_000 < millis < 10_000_000_000_000_000_000_000
  {}

  lemma Aligned(nanos: int, millis: int)
    requires CutToMillis(nanos, millis) && nanos % 1_000_000 == 0
    ensures millis * 1_000_000 == nanos
  {
    assert nanos == 1_000_000 * (nanos / 1_000_000);
  }

  lemma ReadBack(text: string, nanos: int, millis: int, range: TimestampRange)
    requires text == Text(WrittenNumeral(millis)) && CutToMillis(nanos, millis) && range.Valid()
    requires -10_000_000_000_000_000_000_000_000_000 < nanos < 10_000_000_000_000_000_000_000_000_000
    ensures Parsed(text, range) == if range.lo <= millis <= range.hi then Some(millis) else None
    ensures nanos % 1_000_000 == 0 ==> millis * 1_000_000 == nanos
  {
    MillisBounded(nanos, millis);
    ParsedWritten(millis, range);
    if nanos % 1_000_000 == 0 { Aligned(nanos, millis); }
  }

  lemma LeapSecondsRefused(seconds: int, subsec: nat)
    requires I64_MIN <= seconds <= I64_MAX && subsec < 2_000_000_000
    ensures Serialize(seconds, subsec).Ok? <==> subsec < 1_000_000_000
  {}

  /** Reading back a written instant cuts its nanoseconds to milliseconds toward zero,
      if that is in range; instants on a millisecond come back unchanged, negative
      ones included. */
  lemma RoundTrip(seconds: int, subsec: nat, range: TimestampRange) returns (millis: int)
    requires I64_MIN <= seconds <= I64_MAX && subsec < 1_000_000_000 && range.Valid()
    ensures CutToMillis(Nanos(seconds, subsec), millis)
    ensures var r := Serialize(seconds, subsec);
            r.Ok? && Parsed(r.value, range) == if range.lo <= millis <= range.hi then Some(millis) else None
    ensures Nanos(seconds, subsec) % 1_000_000 == 0 ==> millis * 1_000_000 == Nanos(seconds, subsec)
  {
    millis := SerializeText(seconds, subsec);
    ReadBack(Text(WrittenNumeral(millis)), Nanos(seconds, subsec), millis, range);
  }
}
