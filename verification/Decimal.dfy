/** Decimal text and big.Int: the integer half of internal/scval/encode.go. */
module Decimal {
  import opened Wrappers
  import opened Text

  datatype ParseError =
    | Empty
    | NotANumber
    | HasFraction
    | BadDecimalCount
    | DecimalCountOutOfRange
    | TooManyFractionDigits

  const MAX_DECIMALS: nat := 76

  // ---- digits -------------------------------------------------------------

  predicate IsDigit(c: char) {
    '0' <= c <= '9'
  }

  predicate IsDigits(s: string) {
    forall i | 0 <= i < |s| :: IsDigit(s[i])
  }

  /** The scan in isDigits: it stops at the first character that is not a digit. */
  method ScanDigits(s: string) returns (ok: bool)
    ensures ok == IsDigits(s)
  {
    for i := 0 to |s|
      invariant IsDigits(s[..i])
    {
      if !IsDigit(s[i]) {
        return false;
      }
      assert s[..i + 1] == s[..i] + [s[i]];
    }
    assert s[..|s|] == s;
    return true;
  }

  function Pow10(n: nat): (p: nat)
    ensures p > 0
  {
    if n == 0 then 1 else 10 * Pow10(n - 1)
  }

  lemma {:induction false} Pow10Add(a: nat, b: nat)
    ensures Pow10(a + b) == Pow10(a) * Pow10(b)
  {
    if a > 0 {
      Pow10Add(a - 1, b);
    }
  }

  function DigitValue(c: char): (d: nat)
    requires IsDigit(c)
    ensures d < 10
  {
    (c as int) - ('0' as int)
  }

  function DigitChar(d: nat): (c: char)
    requires d < 10
    ensures IsDigit(c) && DigitValue(c) == d
  {
    (('0' as int) + d) as char
  }

  /** The number a run of digits spells in base ten; the empty run spells zero. */
  function Value(s: string): nat
    requires IsDigits(s)
  {
    if s == "" then 0 else 10 * Value(s[..|s| - 1]) + DigitValue(s[|s| - 1])
  }

  /** big.Int.String on a natural number: no leading zeros. */
  function Format(n: nat): (s: string)
    ensures s != "" && IsDigits(s)
  {
    if n < 10 then [DigitChar(n)] else Format(n / 10) + [DigitChar(n % 10)]
  }

  function FormatInt(n: int): string {
    if n < 0 then "-" + Format(-n) else Format(n)
  }

  lemma {:induction false} FormatValue(n: nat)
    ensures Value(Format(n)) == n
  {
    if n >= 10 {
      FormatValue(n / 10);
      assert Format(n)[..|Format(n)| - 1] == Format(n / 10);
    }
  }

  lemma {:induction false} ValueConcat(a: string, b: string)
    requires IsDigits(a) && IsDigits(b)
    ensures IsDigits(a + b) && Value(a + b) == Value(a) * Pow10(|b|) + Value(b)
  {
    if b == "" {
      assert a + b == a;
    } else {
      var b' := b[..|b| - 1];
      ValueConcat(a, b');
      assert (a + b)[..|a + b| - 1] == a + b';
      assert Value(a + b) == 10 * Value(a + b') + DigitValue(b[|b| - 1]);
      TenTimes(Value(a), Pow10(|b'|));
    }
  }

  lemma TenTimes(v: int, p: int)
    ensures 10 * (v * p) == v * (10 * p)
  {
  }

  function Zeros(n: nat): (s: string)
    ensures |s| == n && IsDigits(s)
  {
    if n == 0 then "" else Zeros(n - 1) + "0"
  }

  lemma {:induction false} ZerosValue(n: nat)
    ensures Value(Zeros(n)) == 0
  {
    if n > 0 {
      ZerosValue(n - 1);
      assert Zeros(n)[..n - 1] == Zeros(n - 1);
    }
  }

  // ---- big.Int.SetString(s, 10) -------------------------------------------

  /** An optional sign and at least one digit, nothing else. */
  function SetString(s: string): Option<int> {
    var signed := s != "" && (s[0] == '-' || s[0] == '+');
    var body := if signed then s[1..] else s;
    if body == "" || !IsDigits(body) then None
    else
      var magnitude: int := Value(body);
      Some(if signed && s[0] == '-' then -magnitude else magnitude)
  }

  /** A whole number is read exactly from a sign, if any, and digits; plus changes nothing and minus negates. */
  lemma WholeNumbersAreExact(s: string, n: int)
    ensures SetString(s) == Some(n) <==>
            exists sign: string, digits: string :: SpellsWhole(s, sign, digits)
              && n == (if sign == "-" then -1 else 1) * Value(digits)
  {
    hide Value;
    var signed := s != "" && (s[0] == '-' || s[0] == '+');
    if SetString(s) == Some(n) {
      var sign, digits := if signed then [s[0]] else "", if signed then s[1..] else s;
      assert s == sign + digits;
      assert SpellsWhole(s, sign, digits);
    }
    forall sign: string, digits: string | SpellsWhole(s, sign, digits)
      ensures SetString(s) == Some((if sign == "-" then -1 else 1) * Value(digits))
    {
      assert sign != "" ==> s[1..] == digits;
      assert sign == "" ==> s == digits && IsDigit(s[0]);
    }
  }

  predicate SpellsWhole(s: string, sign: string, digits: string) {
    sign in ["", "-", "+"] && digits != "" && IsDigits(digits) && s == sign + digits
  }

  /** Printing a number and reading it back is the identity, for every integer. */
  lemma SetStringFormatInt(n: int)
    ensures SetString(FormatInt(n)) == Some(n)
  {
    var body := Format(if n < 0 then -n else n);
    FormatValue(if n < 0 then -n else n);
    assert FormatInt(n) == if n < 0 then "-" + body else body;
    if n < 0 {
      assert FormatInt(n)[1..] == body;
    } else {
      assert IsDigit(body[0]);
    }
  }

  lemma {:induction false} FormatCanonical(s: string)
    requires s != "" && IsDigits(s) && (|s| > 1 ==> s[0] != '0')
    ensures Format(Value(s)) == s && (|s| > 1 ==> Value(s) > 0)
  {
    hide Format, Value;
    var init, last := s[..|s| - 1], s[|s| - 1];
    assert s == init + [last];
    ValueOfMore(init, last);
    if |s| == 1 {
      assert init == "";
      OneDigit(last);
    } else {
      FormatCanonical(init);
      if |init| == 1 {
        assert init == [s[0]];
        OneDigit(s[0]);
      }
      FormatOfMore(Value(init), last);
    }
  }

  lemma ValueOfMore(init: string, last: char)
    requires IsDigits(init) && IsDigit(last)
    ensures IsDigits(init + [last]) && Value(init + [last]) == 10 * Value(init) + DigitValue(last)
  {
    assert (init + [last])[..|init + [last]| - 1] == init;
  }

  lemma OneDigit(c: char)
    requires IsDigit(c)
    ensures IsDigits([c]) && Value([c]) == DigitValue(c) && Format(DigitValue(c)) == [c]
    ensures DigitValue(c) == 0 <==> c == '0'
  {
    assert [c][..0] == "";
  }

  lemma FormatOfMore(v: nat, last: char)
    requires v > 0 && IsDigit(last)
    ensures Format(10 * v + DigitValue(last)) == Format(v) + [last]
  {
    var n := 10 * v + DigitValue(last);
    assert n / 10 == v && n % 10 == DigitValue(last);
  }

  /** The text that big.Int.String gives for some number: no plus sign, no leading zero, no negative zero. */
  predicate IsCanonical(s: string) {
    var digits := if s != "" && s[0] == '-' then s[1..] else s;
    digits != "" && IsDigits(digits) && (digits[0] == '0' ==> s == "0")
  }

  /** Exactly the canonical texts are printed again as they were read. */
  lemma CanonicalTextsAreKept(s: string)
    ensures IsCanonical(s) <==> SetString(s).Some? && FormatInt(SetString(s).value) == s
  {
    hide Value, Format;
    if IsCanonical(s) {
      var negative := s[0] == '-';
      var digits := if negative then s[1..] else s;
      FormatCanonical(digits);
      NoLeadingZero(digits);
      assert negative ==> s == "-" + digits;
      assert !negative ==> IsDigit(s[0]);
    } else if SetString(s).Some? {
      var n := SetString(s).value;
      FormatIsCanonical(if n < 0 then -n else n);
      assert n < 0 ==> FormatInt(n)[1..] == Format(-n);
    }
  }

  lemma NoLeadingZero(digits: string)
    requires digits != "" && IsDigits(digits) && (digits[0] == '0' ==> digits == "0")
    ensures Value(digits) == 0 <==> digits == "0"
  {
    if |digits| == 1 {
      assert digits == [digits[0]] && digits[..0] == "";
    } else {
      FormatCanonical(digits);
    }
  }

  lemma {:induction false} FormatIsCanonical(n: nat)
    ensures Format(n) != "" && IsDigits(Format(n)) && (Format(n)[0] == '0' ==> n == 0 && Format(n) == "0")
  {
    if n >= 10 {
      FormatIsCanonical(n / 10);
    }
  }

  // ---- parseInteger, parseWholeNumber, scaleByDecimals ------------------------

  function ParseWholeNumber(s: string): Result<int, ParseError> {
    if '.' in s then Err(HasFraction)
    else match SetString(s)
      case Some(n) => Ok(n)
      case None => Err(NotANumber)
  }

  function ScaleByDecimals(value: string, decimals: nat): Result<int, ParseError> {
    var negative := HasPrefix(value, "-");
    var body := if negative || HasPrefix(value, "+") then value[1..] else value;
    var dot := Index(body, '.');
    var intPart := if dot < 0 then body else body[..dot];
    var fracPart := if dot < 0 then "" else body[dot + 1..];
    ScaleParts(negative, intPart, fracPart, decimals)
  }

  /** The digits, padded out to the decimal count, read as one integer. */
  function ScaleParts(negative: bool, intPart: string, fracPart: string, decimals: nat): Result<int, ParseError> {
    if intPart == "" && fracPart == "" then Err(NotANumber)
    else if !IsDigits(intPart) || !IsDigits(fracPart) then Err(NotANumber)
    else if |fracPart| > decimals then Err(TooManyFractionDigits)
    else
      match SetString(intPart + fracPart + Zeros(decimals - |fracPart|))
      case None => Err(NotANumber)
      case Some(n) => Ok(if negative then -n else n)
  }

  function ParseInteger(literal: string): Result<int, ParseError> {
    var s := TrimSpace(literal);
    if s == "" then Err(Empty)
    else
      var at := Index(s, '@');
      if at < 0 then ParseWholeNumber(s)
      else
        match SetString(s[at + 1..])
        case None => Err(BadDecimalCount)
        case Some(d) =>
          if d < 0 then Err(BadDecimalCount)
          else if d > MAX_DECIMALS then Err(DecimalCountOutOfRange)
          else ScaleByDecimals(s[..at], d)
  }

  // ---- what a scaled amount means -------------------------------------------

  /** A written amount: sign, whole digits, optional point, fraction digits. */
  datatype Amount = Amount(sign: string, whole: string, point: bool, fraction: string) {
    predicate WellFormed() {
      && sign in ["", "-", "+"] && IsDigits(whole) && IsDigits(fraction)
      && (!point ==> fraction == "")
      && (whole != "" || fraction != "")
    }

    function Spelling(): string {
      sign + Unsigned()
    }

    function Unsigned(): string {
      whole + (if point then "." + fraction else "")
    }

    /** n base units are exactly this amount at d decimals: n / 10^d == ±whole.fraction, with the
        denominators multiplied out so that nothing can be lost to division. */
    predicate IsExactly(n: int, d: nat)
      requires WellFormed()
    {
      n * Pow10(|fraction|) == (if sign == "-" then -1 else 1) * Value(Digits()) * Pow10(d)
    }

    function Digits(): (ds: string)
      requires WellFormed()
      ensures IsDigits(ds)
    {
      whole + fraction
    }

    /** The closed form of the same number when the fraction fits. */
    function Units(d: nat): int
      requires WellFormed() && |fraction| <= d
    {
      var magnitude := Value(whole) * Pow10(d) + Value(fraction) * Pow10(d - |fraction|);
      if sign == "-" then -magnitude else magnitude
    }
  }

  /** The closed form is the exact amount, and no other number of base units is. */
  lemma UnitsAreExact(a: Amount, d: nat, n: int)
    requires a.WellFormed() && |a.fraction| <= d
    ensures a.IsExactly(n, d) <==> n == a.Units(d)
  {
    var f := |a.fraction|;
    Pow10Add(f, d - f);
    ValueConcat(a.whole, a.fraction);
    ScaleOut(Value(a.whole), Value(a.fraction), Pow10(f), Pow10(d), Pow10(d - f));
    assert a.Units(d) * Pow10(f) == (if a.sign == "-" then -1 else 1) * Value(a.Digits()) * Pow10(d);
    Cancel(n, a.Units(d), Pow10(f));
  }

  lemma ScaleOut(w: int, v: int, p: int, q: int, g: int)
    requires q == p * g
    ensures (w * p + v) * q == (w * q + v * g) * p
    ensures -1 * (w * p + v) * q == -(w * q + v * g) * p
  {
    assert v * (p * g) == (v * g) * p;
  }

  lemma Cancel(x: int, y: int, p: int)
    requires p > 0
    ensures x * p == y * p <==> x == y
  {
    assert (x - y) * p == x * p - y * p;
  }

  /** Every well-formed spelling is scaled exactly, or refused because its fraction is too fine. */
  lemma ScaleOfSpelling(a: Amount, d: nat)
    requires a.WellFormed()
    ensures ScaleByDecimals(a.Spelling(), d) ==
            if |a.fraction| > d then Err(TooManyFractionDigits) else Ok(a.Units(d))
  {
    hide ScaleByDecimals, ScaleParts, Value, Pow10, IsDigits, Amount.Spelling;
    SpellingSplits(a, d);
    ScaledParts(a, d);
  }

  lemma SpellingSplits(a: Amount, d: nat)
    requires a.WellFormed()
    ensures ScaleByDecimals(a.Spelling(), d) == ScaleParts(a.sign == "-", a.whole, a.fraction, d)
  {
    hide ScaleParts, Amount.Spelling, Amount.Unsigned;
    SignOfSpelling(a);
    PointOfSpelling(a);
  }

  lemma ScaledParts(a: Amount, d: nat)
    requires a.WellFormed()
    ensures ScaleParts(a.sign == "-", a.whole, a.fraction, d) ==
            if |a.fraction| > d then Err(TooManyFractionDigits) else Ok(a.Units(d))
  {
    hide Pow10, Value, Zeros, SetString;
    if |a.fraction| <= d {
      ScaledDigits(a.whole, a.fraction, d);
    }
  }

  lemma SignOfSpelling(a: Amount)
    requires a.WellFormed()
    ensures HasPrefix(a.Spelling(), "-") <==> a.sign == "-"
    ensures HasPrefix(a.Spelling(), "+") <==> a.sign == "+"
    ensures a.sign != "" ==> a.Spelling()[1..] == a.Unsigned()
    ensures a.sign == "" ==> a.Spelling() == a.Unsigned()
  {
    assert a.Unsigned()[0] == '.' || IsDigit(a.Unsigned()[0]);
    assert a.Spelling()[0] == if a.sign == "" then a.Unsigned()[0] else a.sign[0];
  }

  lemma PointOfSpelling(a: Amount)
    requires a.WellFormed()
    ensures var dot := Index(a.Unsigned(), '.');
            if a.point then dot == |a.whole| && a.Unsigned()[..dot] == a.whole && a.Unsigned()[dot + 1..] == a.fraction
            else dot < 0 && a.Unsigned() == a.whole
  {
    assert '.' !in a.whole;
    if a.point {
      assert a.Unsigned() == a.whole + ['.'] + a.fraction;
      IndexIsFirst(a.whole, '.', a.fraction);
    } else {
      assert a.Unsigned() == a.whole;
    }
  }

  lemma ScaledDigits(whole: string, fraction: string, d: nat)
    requires IsDigits(whole) && IsDigits(fraction) && whole + fraction != "" && |fraction| <= d
    ensures SetString(whole + fraction + Zeros(d - |fraction|)) ==
            Some(Value(whole) * Pow10(d) + Value(fraction) * Pow10(d - |fraction|))
  {
    hide Value, Pow10, Zeros, SetString;
    var k := d - |fraction|;
    ValueConcat(whole, fraction);
    ValueConcat(whole + fraction, Zeros(k));
    ZerosValue(k);
    SetStringOfDigits(whole + fraction + Zeros(k));
    Pow10Add(|fraction|, k);
    Distribute(Value(whole), Value(fraction), Pow10(|fraction|), Pow10(k));
  }

  lemma SetStringOfDigits(s: string)
    requires s != "" && IsDigits(s)
    ensures SetString(s) == Some(Value(s))
  {
    assert IsDigit(s[0]);
  }

  lemma Distribute(w: int, v: int, p: int, g: int)
    ensures (w * p + v) * g == w * (p * g) + v * g
  {
  }

  /** What is not refused as no number is the spelling of some well-formed amount. */
  lemma AcceptedValuesAreSpellings(value: string, d: nat) returns (a: Amount)
    requires ScaleByDecimals(value, d) != Err(NotANumber)
    ensures a.WellFormed() && a.Spelling() == value && (ScaleByDecimals(value, d).Ok? ==> |a.fraction| <= d)
  {
    hide SetString, Zeros, Value, Pow10, IsDigits, IndexFrom, ScaleParts, Amount.Unsigned;
    var sign := if HasPrefix(value, "-") then "-" else if HasPrefix(value, "+") then "+" else "";
    var body := value[|sign|..];
    assert value == sign + body;
    a := SplitAtPoint(sign, body);
    assert ScaleByDecimals(value, d) == ScaleParts(sign == "-", a.whole, a.fraction, d);
    AcceptedParts(sign == "-", a.whole, a.fraction, d);
  }

  lemma AcceptedParts(negative: bool, whole: string, fraction: string, d: nat)
    requires ScaleParts(negative, whole, fraction, d) != Err(NotANumber)
    ensures IsDigits(whole) && IsDigits(fraction) && (whole != "" || fraction != "")
    ensures ScaleParts(negative, whole, fraction, d).Ok? ==> |fraction| <= d
  {
    hide SetString, Zeros, IsDigits;
  }

  lemma SplitAtPoint(sign: string, body: string) returns (a: Amount)
    ensures a.sign == sign && a.Unsigned() == body
    ensures var dot := Index(body, '.');
            if dot < 0 then a == Amount(sign, body, false, "")
            else a == Amount(sign, body[..dot], true, body[dot + 1..])
  {
    var dot := Index(body, '.');
    if dot < 0 {
      a := Amount(sign, body, false, "");
      assert body + "" == body;
    } else {
      a := Amount(sign, body[..dot], true, body[dot + 1..]);
      assert body == body[..dot] + ("." + body[dot + 1..]);
    }
  }

  /** literal, once trimmed, spells the amount a with decimal count d, within the limits of the syntax. */
  ghost predicate SpellsScaled(literal: string, a: Amount, scale: string, d: nat) {
    && TrimSpace(literal) == a.Spelling() + "@" + scale
    && SetString(scale) == Some(d)
    && a.WellFormed()
    && |a.fraction| <= d <= MAX_DECIMALS
  }

  /** A scaled literal (one with an "@") is accepted exactly when it spells a well-formed amount whose
      fraction fits its decimal count of at most 76; the result is then exactly that amount. */
  lemma ScaledLiteralsAreExact(literal: string, n: int)
    requires '@' in TrimSpace(literal)
    ensures ParseInteger(literal) == Ok(n) <==>
            exists a, scale, d :: SpellsScaled(literal, a, scale, d) && a.IsExactly(n, d)
  {
    if ParseInteger(literal) == Ok(n) {
      AcceptedScaledLiteral(literal, n);
    }
    if exists a, scale, d :: SpellsScaled(literal, a, scale, d) && a.IsExactly(n, d) {
      var a, scale, d :| SpellsScaled(literal, a, scale, d) && a.IsExactly(n, d);
      SpelledLiteralIsAccepted(literal, a, scale, d, n);
    }
  }

  lemma AcceptedScaledLiteral(literal: string, n: int)
    requires '@' in TrimSpace(literal) && ParseInteger(literal) == Ok(n)
    ensures exists a, scale, d :: SpellsScaled(literal, a, scale, d) && a.IsExactly(n, d)
  {
    hide ScaleByDecimals, Value, Pow10, SetString, Amount.Spelling, Amount.Units, Amount.IsExactly, TrimSpace;
    var s := TrimSpace(literal);
    var at := Index(s, '@');
    var value, scale := s[..at], s[at + 1..];
    var d := SetString(scale).value;
    assert ScaleByDecimals(value, d) == Ok(n);
    var a := AcceptedValuesAreSpellings(value, d);
    assert s == value + "@" + scale;
    assert n == a.Units(d) by {
      ScaleOfSpelling(a, d);
    }
    UnitsAreExact(a, d, n);
    assert SpellsScaled(literal, a, scale, d) && a.IsExactly(n, d);
  }

  lemma SpelledLiteralIsAccepted(literal: string, a: Amount, scale: string, d: nat, n: int)
    requires SpellsScaled(literal, a, scale, d) && a.IsExactly(n, d)
    ensures ParseInteger(literal) == Ok(n)
  {
    AtSplits(a, scale);
    ScaleOfSpelling(a, d);
    UnitsAreExact(a, d, n);
  }

  lemma AtSplits(a: Amount, scale: string)
    requires a.WellFormed()
    ensures var s := a.Spelling() + "@" + scale;
            Index(s, '@') == |a.Spelling()| && s[..|a.Spelling()|] == a.Spelling() && s[|a.Spelling()| + 1..] == scale
  {
    assert '@' !in a.whole && '@' !in a.fraction && '@' !in a.sign;
    assert '@' !in a.Unsigned();
    IndexIsFirst(a.Spelling(), '@', scale);
    assert a.Spelling() + "@" + scale == a.Spelling() + ['@'] + scale;
  }

  /** The text is the spelling of some well-formed amount. */
  ghost predicate SpellsAmount(value: string) {
    exists a: Amount :: a.WellFormed() && a.Spelling() == value
  }

  /** A literal is refused for what is wrong with it: nothing in it; a point without a decimal count; a count that is
      none or too large; a value that spells no amount; or more fraction digits than the count. */
  lemma RefusalsAreExact(literal: string)
    ensures var s, r := TrimSpace(literal), ParseInteger(literal);
            var at := Index(s, '@');
            if s == "" then r == Err(Empty)
            else if at < 0 then
              && (r == Err(HasFraction) <==> '.' in s)
              && (r.Err? && '.' !in s ==> r == Err(NotANumber) && SetString(s).None?)
            else
              var value, count := s[..at], SetString(s[at + 1..]);
              if count.None? || count.value < 0 then r == Err(BadDecimalCount)
              else if count.value > 76 then r == Err(DecimalCountOutOfRange)
              else
                && (r == Err(NotANumber) <==> !SpellsAmount(value))
                && (r == Err(TooManyFractionDigits) <==>
                      exists a: Amount :: a.WellFormed() && a.Spelling() == value && |a.fraction| > count.value)
  {
    hide TrimSpace, SetString, ScaleByDecimals, Amount.Spelling, Amount.WellFormed, Amount.Units;
    var s := TrimSpace(literal);
    var at := Index(s, '@');
    if at >= 0 {
      var value, count := s[..at], SetString(s[at + 1..]);
      if count.Some? && 0 <= count.value <= MAX_DECIMALS {
        ValueRefusals(value, count.value);
      }
    }
  }

  lemma ValueRefusals(value: string, d: nat)
    ensures ScaleByDecimals(value, d) == Err(NotANumber) <==> !SpellsAmount(value)
    ensures ScaleByDecimals(value, d) == Err(TooManyFractionDigits) <==>
            exists a: Amount :: a.WellFormed() && a.Spelling() == value && |a.fraction| > d
  {
    hide ScaleByDecimals, Amount.Spelling, Amount.WellFormed, Amount.Units;
    forall a: Amount | a.WellFormed() && a.Spelling() == value
      ensures ScaleByDecimals(value, d) ==
              if |a.fraction| > d then Err(TooManyFractionDigits) else Ok(a.Units(d))
    {
      ScaleOfSpelling(a, d);
    }
    if ScaleByDecimals(value, d) != Err(NotANumber) {
      var a := AcceptedValuesAreSpellings(value, d);
    }
  }

  /** A plain literal is accepted exactly when, trimmed, it is an optional sign and digits. */
  lemma PlainLiterals(literal: string, n: int)
    requires '@' !in TrimSpace(literal)
    ensures ParseInteger(literal) == Ok(n) <==> SetString(TrimSpace(literal)) == Some(n)
  {
    var s := TrimSpace(literal);
    NumbersHaveNoPoint(s);
  }

  lemma NumbersHaveNoPoint(s: string)
    ensures SetString(s).Some? ==> '.' !in s
  {
    if SetString(s).Some? {
      assert forall i | 1 <= i < |s| :: s[i] == s[1..][i - 1];
    }
  }

  /** The canonical text of every integer parses back to it. */
  lemma ParseFormatInt(n: int)
    ensures ParseInteger(FormatInt(n)) == Ok(n)
  {
    hide FormatInt, ParseInteger, SetString, TrimSpace;
    SetStringFormatInt(n);
    PrintedNumbersAreSolid(n);
    PlainLiterals(FormatInt(n), n);
  }

  /** Nothing to trim, and no "@". */
  lemma PrintedNumbersAreSolid(n: int)
    ensures TrimSpace(FormatInt(n)) == FormatInt(n) && '@' !in FormatInt(n)
  {
    hide Format, TrimSpace;
    var digits := Format(if n < 0 then -n else n);
    var s := FormatInt(n);
    assert s == if n < 0 then "-" + digits else digits;
    assert forall i | 0 <= i < |s| :: s[i] == '-' || IsDigit(s[i]);
    TrimKeepsSolidText(s);
  }
}
