/** Finite JavaScript numbers and their shortest decimal text (ECMAScript `Number::toString`). */
module JsonNumber {
  import opened JsonText

  predicate IsDigit(u: CodeUnit) {
    0x30 <= u <= 0x39
  }

  predicate AllDigits(s: JsString) {
    forall i :: 0 <= i < |s| ==> IsDigit(s[i])
  }

  const ZERO: CodeUnit := 0x30
  const MINUS: CodeUnit := 0x2D
  const PLUS: CodeUnit := 0x2B
  const POINT: CodeUnit := 0x2E
  const SMALL_E: CodeUnit := 0x65

  /** `ShortDecimal(neg, d, n)` is 0.d × 10^n with no leading or trailing zero in d: the
      shortest digits that identify the double. */
  datatype JsNumber =
    | NaN
    | Infinity(negative: bool)
    | Zero(negative: bool)
    | ShortDecimal(negative: bool, digits: JsString, exponent: int)

  predicate Normal(n: JsNumber) {
    n.ShortDecimal? ==>
      n.digits != [] && AllDigits(n.digits) && n.digits[0] != ZERO && n.digits[|n.digits| - 1] != ZERO
  }

  /** A double, written by the shortest digits that identify it. */
  type Double = n: JsNumber | Normal(n) witness Zero(false)

  predicate IsFinite(n: JsNumber) {
    n.Zero? || n.ShortDecimal?
  }

  function Zeros(count: nat): (z: JsString)
    ensures |z| == count && forall i :: 0 <= i < count ==> z[i] == ZERO
  {
    seq(count, i => ZERO)
  }

  function DecimalUnits(n: nat): (s: JsString)
    ensures s != [] && AllDigits(s)
  {
    if n < 10 then [ZERO + n] else DecimalUnits(n / 10) + [ZERO + n % 10]
  }

  function DecimalValue(s: JsString): nat {
    if s == [] || !IsDigit(s[|s| - 1]) then 0 else DecimalValue(s[..|s| - 1]) * 10 + (s[|s| - 1] - ZERO)
  }

  lemma {:induction false} DecimalRoundTrip(n: nat)
    ensures DecimalValue(DecimalUnits(n)) == n
  {
    if n >= 10 {
      DecimalRoundTrip(n / 10);
      assert DecimalUnits(n)[..|DecimalUnits(n)| - 1] == DecimalUnits(n / 10);
    }
  }

  // ---------- Writing ----------

  function ExponentText(e: int): JsString {
    if e >= 0 then [PLUS] + DecimalUnits(e) else [MINUS] + DecimalUnits(-e)
  }

  /** The text of 0.d × 10^n, by the cases of the standard. */
  function Magnitude(digits: JsString, n: int): JsString
    requires digits != []
  {
    var k := |digits|;
    if k <= n <= 21 then digits + Zeros(n - k)
    else if 0 < n <= 21 then digits[..n] + [POINT] + digits[n..]
    else if -6 < n <= 0 then [ZERO, POINT] + Zeros(-n) + digits
    else if k == 1 then digits + [SMALL_E] + ExponentText(n - 1)
    else digits[..1] + [POINT] + digits[1..] + [SMALL_E] + ExponentText(n - 1)
  }

  function NumberText(n: JsNumber): JsString
    requires Normal(n) && IsFinite(n)
  {
    match n
    case Zero(_) => [ZERO]
    case ShortDecimal(negative, digits, exponent) =>
      if negative then [MINUS] + Magnitude(digits, exponent) else Magnitude(digits, exponent)
  }

  // ---------- Reading back ----------

  function Before(c: CodeUnit, s: JsString): JsString {
    if s == [] || s[0] == c then [] else [s[0]] + Before(c, s[1..])
  }

  function After(c: CodeUnit, s: JsString): JsString {
    if s == [] then [] else if s[0] == c then s[1..] else After(c, s[1..])
  }

  lemma {:induction false} SplitAt(c: CodeUnit, a: JsString, b: JsString)
    requires c !in a
    ensures Before(c, a + [c] + b) == a && After(c, a + [c] + b) == b
  {
    if a == [] {
      assert a + [c] + b == [c] + b;
      assert ([c] + b)[1..] == b;
    } else {
      assert (a + [c] + b)[1..] == a[1..] + [c] + b;
      SplitAt(c, a[1..], b);
    }
  }

  lemma {:induction false} NoSplit(c: CodeUnit, a: JsString)
    requires c !in a
    ensures Before(c, a) == a && After(c, a) == []
  {
    if a != [] {
      NoSplit(c, a[1..]);
    }
  }

  function LeadingZeros(s: JsString): nat {
    if s == [] || s[0] != ZERO then 0 else 1 + LeadingZeros(s[1..])
  }

  function WithoutTrailing(s: JsString): JsString {
    if s == [] || s[|s| - 1] != ZERO then s else WithoutTrailing(s[..|s| - 1])
  }

  function WithoutLeading(s: JsString): JsString {
    if s == [] || s[0] != ZERO then s else WithoutLeading(s[1..])
  }

  function ExponentOf(text: JsString): int {
    if text == [] then 0
    else
      var value: int := DecimalValue(text[1..]);
      if text[0] == PLUS then value else -value
  }

  /** A decimal with an integer part, a fraction and an exponent, normalised. */
  function Normalised(whole: JsString, fraction: JsString, e: int): (JsString, int) {
    (WithoutTrailing(WithoutLeading(whole + fraction)), |whole| + e - LeadingZeros(whole + fraction))
  }

  function ReadMagnitude(text: JsString): (JsString, int) {
    var mantissa, e := Before(SMALL_E, text), ExponentOf(After(SMALL_E, text));
    Normalised(Before(POINT, mantissa), After(POINT, mantissa), e)
  }

  lemma {:induction false} LeadingStripped(zeros: nat, s: JsString)
    requires s != [] && s[0] != ZERO
    ensures LeadingZeros(Zeros(zeros) + s) == zeros && WithoutLeading(Zeros(zeros) + s) == s
  {
    if zeros == 0 {
      assert Zeros(0) + s == s;
    } else {
      LeadingStripped(zeros - 1, s);
      assert (Zeros(zeros) + s)[1..] == Zeros(zeros - 1) + s;
    }
  }

  lemma {:induction false} TrailingStripped(s: JsString, zeros: nat)
    requires s != [] && s[|s| - 1] != ZERO
    ensures WithoutTrailing(s + Zeros(zeros)) == s
  {
    if zeros == 0 {
      assert s + Zeros(0) == s;
    } else {
      TrailingStripped(s, zeros - 1);
      assert (s + Zeros(zeros))[..|s| + zeros - 1] == s + Zeros(zeros - 1);
    }
  }

  lemma ExponentRoundTrip(e: int)
    ensures ExponentOf(ExponentText(e)) == e
  {
    DecimalRoundTrip(if e >= 0 then e else -e);
    var units := DecimalUnits(if e >= 0 then e else -e);
    assert ([PLUS] + units)[1..] == units && ([MINUS] + units)[1..] == units;
  }

  /** The digits are one block in the text, whatever zeros pad it. */
  lemma PaddedReads(lead: nat, digits: JsString, trail: nat, whole: JsString, fraction: JsString, e: int)
    requires digits != [] && digits[0] != ZERO && digits[|digits| - 1] != ZERO
    requires whole + fraction == Zeros(lead) + digits + Zeros(trail)
    ensures Normalised(whole, fraction, e) == (digits, |whole| + e - lead)
  {
    hide WithoutTrailing, WithoutLeading, LeadingZeros;
    assert Zeros(lead) + digits + Zeros(trail) == Zeros(lead) + (digits + Zeros(trail));
    LeadingStripped(lead, digits + Zeros(trail));
    TrailingStripped(digits, trail);
  }

  /** A mantissa with a point, and no exponent. */
  lemma PointReads(whole: JsString, fraction: JsString)
    requires AllDigits(whole) && AllDigits(fraction)
    ensures ReadMagnitude(whole + [POINT] + fraction) == Normalised(whole, fraction, 0)
  {
    hide Before, After, Normalised;
    NoSplit(SMALL_E, whole + [POINT] + fraction);
    SplitAt(POINT, whole, fraction);
  }

  lemma WholeReads(whole: JsString)
    requires AllDigits(whole)
    ensures ReadMagnitude(whole) == Normalised(whole, [], 0)
  {
    hide Before, After, Normalised;
    NoSplit(SMALL_E, whole);
    NoSplit(POINT, whole);
  }

  lemma ExponentReads(whole: JsString, fraction: JsString, e: int)
    requires AllDigits(whole) && AllDigits(fraction)
    ensures ReadMagnitude(whole + [POINT] + fraction + [SMALL_E] + ExponentText(e)) == Normalised(whole, fraction, e)
    ensures ReadMagnitude(whole + [SMALL_E] + ExponentText(e)) == Normalised(whole, [], e)
  {
    hide Before, After, Normalised, ExponentText, ExponentOf;
    ExponentRoundTrip(e);
    SplitAt(SMALL_E, whole + [POINT] + fraction, ExponentText(e));
    SplitAt(SMALL_E, whole, ExponentText(e));
    SplitAt(POINT, whole, fraction);
    NoSplit(POINT, whole);
  }

  lemma MagnitudeRoundTrip(digits: JsString, n: int)
    requires Normal(ShortDecimal(false, digits, n))
    ensures ReadMagnitude(Magnitude(digits, n)) == (digits, n)
  {
    hide ReadMagnitude, Normalised, ExponentText;
    var k := |digits|;
    if k <= n <= 21 {
      IntegerRoundTrip(digits, n);
    } else if 0 < n <= 21 {
      PointReads(digits[..n], digits[n..]);
      BlockReads(digits, digits[..n], digits[n..], 0);
    } else if -6 < n <= 0 {
      SmallRoundTrip(digits, n);
    } else if k == 1 {
      ExponentReads(digits, [], n - 1);
      BlockReads(digits, digits, [], n - 1);
    } else {
      ExponentReads(digits[..1], digits[1..], n - 1);
      BlockReads(digits, digits[..1], digits[1..], n - 1);
    }
  }

  lemma BlockReads(digits: JsString, whole: JsString, fraction: JsString, e: int)
    requires digits != [] && digits[0] != ZERO && digits[|digits| - 1] != ZERO
    requires whole + fraction == digits
    ensures Normalised(whole, fraction, e) == (digits, |whole| + e)
  {
    hide Normalised;
    assert digits == Zeros(0) + digits + Zeros(0);
    PaddedReads(0, digits, 0, whole, fraction, e);
  }

  lemma IntegerRoundTrip(digits: JsString, n: int)
    requires Normal(ShortDecimal(false, digits, n)) && |digits| <= n
    ensures ReadMagnitude(digits + Zeros(n - |digits|)) == (digits, n)
  {
    hide ReadMagnitude, Normalised;
    var whole := digits + Zeros(n - |digits|);
    WholeReads(whole);
    assert whole + [] == Zeros(0) + digits + Zeros(n - |digits|);
    PaddedReads(0, digits, n - |digits|, whole, [], 0);
  }

  lemma SmallRoundTrip(digits: JsString, n: int)
    requires Normal(ShortDecimal(false, digits, n)) && n <= 0
    ensures ReadMagnitude([ZERO, POINT] + Zeros(-n) + digits) == (digits, n)
  {
    hide ReadMagnitude, Normalised;
    var fraction := Zeros(-n) + digits;
    assert [ZERO, POINT] + Zeros(-n) + digits == [ZERO] + [POINT] + fraction;
    PointReads([ZERO], fraction);
    assert [ZERO] + fraction == Zeros(1 - n) + digits + Zeros(0);
    PaddedReads(1 - n, digits, 0, [ZERO], fraction, 0);
  }

  lemma MagnitudeStartsWithDigit(digits: JsString, n: int)
    requires Normal(ShortDecimal(false, digits, n))
    ensures Magnitude(digits, n) != [] && IsDigit(Magnitude(digits, n)[0])
    ensures Magnitude(digits, n) != [ZERO]
  {
  }

  /** Two finite numbers with the same text are the same number; only the sign of zero is lost. */
  lemma NumberTextIsInjective(a: JsNumber, b: JsNumber)
    requires Normal(a) && IsFinite(a) && Normal(b) && IsFinite(b)
    ensures NumberText(a) == NumberText(b) <==> a == b || (a.Zero? && b.Zero?)
  {
    hide Magnitude, ReadMagnitude;
    if a.ShortDecimal? {
      MagnitudeRoundTrip(a.digits, a.exponent);
      MagnitudeStartsWithDigit(a.digits, a.exponent);
      assert ([MINUS] + Magnitude(a.digits, a.exponent))[1..] == Magnitude(a.digits, a.exponent);
    }
    if b.ShortDecimal? {
      MagnitudeRoundTrip(b.digits, b.exponent);
      MagnitudeStartsWithDigit(b.digits, b.exponent);
      assert ([MINUS] + Magnitude(b.digits, b.exponent))[1..] == Magnitude(b.digits, b.exponent);
    }
  }

  // ---------- Number text is self-delimiting before a separator ----------

  predicate NumberUnit(u: CodeUnit) {
    IsDigit(u) || u == MINUS || u == PLUS || u == POINT || u == SMALL_E
  }

  predicate NumberUnits(s: JsString) {
    forall i :: 0 <= i < |s| ==> NumberUnit(s[i])
  }

  lemma NumberTextUnits(n: JsNumber)
    requires Normal(n) && IsFinite(n)
    ensures NumberUnits(NumberText(n)) && NumberText(n) != []
    ensures IsDigit(NumberText(n)[0]) || NumberText(n)[0] == MINUS
  {
    hide Magnitude;
    if n.ShortDecimal? {
      MagnitudeUnits(n.digits, n.exponent);
      MagnitudeStartsWithDigit(n.digits, n.exponent);
    }
  }

  lemma ExponentUnits(e: int)
    ensures NumberUnits([SMALL_E] + ExponentText(e))
  {
  }

  lemma MagnitudeUnits(digits: JsString, n: int)
    requires Normal(ShortDecimal(false, digits, n))
    ensures NumberUnits(Magnitude(digits, n))
  {
    hide ExponentText;
    var k := |digits|;
    if k <= n <= 21 || (-6 < n <= 21) {
    } else {
      hide NumberUnits;
      ExponentUnits(n - 1);
      assert digits + [SMALL_E] + ExponentText(n - 1) == digits + ([SMALL_E] + ExponentText(n - 1));
      assert digits[..1] + [POINT] + digits[1..] + [SMALL_E] + ExponentText(n - 1)
        == digits[..1] + [POINT] + digits[1..] + ([SMALL_E] + ExponentText(n - 1));
    }
  }

  predicate Delimits(x: JsString) {
    x == [] || !NumberUnit(x[0])
  }

  lemma NumberSplits(a: JsNumber, x: JsString, b: JsNumber, y: JsString)
    requires Normal(a) && IsFinite(a) && Normal(b) && IsFinite(b) && Delimits(x) && Delimits(y)
    requires NumberText(a) + x == NumberText(b) + y
    ensures (a == b || (a.Zero? && b.Zero?)) && x == y
  {
    hide NumberText, NumberUnit;
    NumberTextUnits(a);
    NumberTextUnits(b);
    UnitsSplit(NumberText(a), x, NumberText(b), y);
    NumberTextIsInjective(a, b);
  }

  lemma UnitsSplit(s: JsString, x: JsString, t: JsString, y: JsString)
    requires NumberUnits(s) && NumberUnits(t) && Delimits(x) && Delimits(y) && s + x == t + y
    ensures s == t && x == y
  {
    var whole := s + x;
    assert |s| < |whole| ==> whole[|s|] == x[0];
    assert |t| < |whole| ==> whole[|t|] == y[0];
    assert forall i :: 0 <= i < |s| ==> whole[i] == s[i];
    assert forall i :: 0 <= i < |t| ==> whole[i] == t[i];
    assert s == whole[..|s|] && t == whole[..|t|];
    assert x == whole[|s|..] && y == whole[|t|..];
  }
}
