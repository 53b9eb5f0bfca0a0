/** Limit-width and fixed-width formatting of non-negative decimal integers, with saturation. */
module NumericUtils {
  import opened Wrappers
  import opened Digits

  /** A formatted digit string and whether the value had to be saturated. */
  datatype NumericResult = NumericResult(strNum: string, hasOverflow: bool)

  /** `/^(0|[1-9]\d*)$/`: the literal "0", or digits that do not start with '0'. */
  predicate IsStrictInt(input: string) {
    input == "0" || (|input| >= 1 && '1' <= input[0] <= '9' && AllDigits(input))
  }

  /** The strict integer literals are exactly the canonical numerals `String(n)`. */
  lemma {:induction false} StrictIntIsCanonical(s: string)
    ensures IsStrictInt(s) <==> AllDigits(s) && ToDecimal(Value(s)) == s
  {
    if IsStrictInt(s) {
      StrictIntIsToDecimal(s);
    }
    if AllDigits(s) && ToDecimal(Value(s)) == s {
      ToDecimalLeading(Value(s));
    }
  }

  lemma {:induction false} StrictIntIsDigits(s: string)
    requires IsStrictInt(s)
    ensures AllDigits(s) && |s| >= 1
  {
  }

  lemma {:induction false} StrictIntIsToDecimal(s: string)
    requires IsStrictInt(s)
    ensures AllDigits(s) && ToDecimal(Value(s)) == s
    decreases |s|
  {
    if |s| > 1 {
      var s' := s[..|s| - 1];
      var c := s[|s| - 1];
      assert s == s' + [c];
      StrictIntIsToDecimal(s');
      ValueLowerBound(s);
      Pow10Monotone(1, |s| - 1);
      assert Value(s) / 10 == Value(s') && Value(s) % 10 == DigitValue(c);
    }
  }

  lemma {:induction false} DivLowerBound(a: nat, q: nat, s: nat)
    requires s > 0 && a >= q * s
    ensures a / s >= q
  {
    var d, m := a / s, a % s;
    assert a == d * s + m && m < s;
    if d < q {
      MulMonotone(q - 1, d, s);
    }
  }

  lemma {:induction false} MulMonotone(a: nat, b: nat, c: nat)
    requires a >= b
    ensures a * c >= b * c
  {
  }

  /**
   * `Math.round(num / 10^(D - d)) * 10^(D - d)` where D is the number of digits of `num`:
   * `num` rounded half-up to `desiredDigits` significant digits (a value that already fits is kept).
   */
  function RoundToSignificant(num: nat, desiredDigits: nat): nat {
    var digitsInNum := |ToDecimal(num)|;
    if digitsInNum > desiredDigits then
      var scaleFactor := Pow10(digitsInNum - desiredDigits);
      ((num + scaleFactor / 2) / scaleFactor) * scaleFactor
    else
      num
  }

  /** Rounding to fewer significant digits than a value has keeps it at least 10^(D-1). */
  lemma {:induction false} RoundingKeepsMagnitude(num: nat, desiredDigits: nat)
    requires desiredDigits >= 1
    ensures num >= Pow10(desiredDigits) ==> RoundToSignificant(num, desiredDigits) >= Pow10(desiredDigits)
  {
    if num < Pow10(desiredDigits) {
      return;
    }
    var s := ToDecimal(num);
    ToDecimalLength(num, desiredDigits);
    var scale := Pow10(|s| - desiredDigits);
    assert RoundToSignificant(num, desiredDigits) == ((num + scale / 2) / scale) * scale;
    ToDecimalValue(num);
    ToDecimalLeading(num);
    ValueLowerBound(s);
    RoundedToWidth(num, desiredDigits, |s|);
  }

  /** A value of `width` digits rounded to `desiredDigits` of them stays at least 10^desiredDigits. */
  lemma {:induction false} RoundedToWidth(num: nat, desiredDigits: nat, width: nat)
    requires 1 <= desiredDigits < width && num >= Pow10(width - 1)
    ensures var scale := Pow10(width - desiredDigits); ((num + scale / 2) / scale) * scale >= Pow10(desiredDigits)
  {
    Pow10Split(desiredDigits - 1, width - desiredDigits, width - 1);
    Pow10Monotone(desiredDigits, width - 1);
    RoundedAtLeast(num, Pow10(width - desiredDigits), Pow10(desiredDigits - 1), Pow10(width - 1), Pow10(desiredDigits));
  }

  /** Rounding a value of at least `low` scale units to whole units keeps it at least `low` units. */
  lemma {:induction false} RoundedAtLeast(num: nat, scale: nat, low: nat, lowScaled: nat, target: nat)
    requires scale > 0 && lowScaled == low * scale && num >= lowScaled && target <= lowScaled
    ensures ((num + scale / 2) / scale) * scale >= target
  {
    DivLowerBound(num + scale / 2, low, scale);
    MulMonotone((num + scale / 2) / scale, low, scale);
  }

  /** The formatters' messages for a bad width and for a string that is not digits. */
  const NegativeWidth: string := "desiredLength must be an integer >= 0, got "
  const NotDigits: string := "strNum must be an integer >= 0, got: "

  /**
   * `fmtLimitSizeNumeric`: at most `desiredDigits` digits. A value that needs more digits is
   * rounded to that many significant digits, and saturates to nines when rounding carries it past
   * the width. Zero digits always overflow.
   */
  function FmtLimitSizeNumeric(strNumIn: string, desiredDigits: int): (r: Result<NumericResult, string>)
    ensures r.Failure? <==> desiredDigits < 0 || (desiredDigits > 0 && !AllDigits(strNumIn))
  {
    if desiredDigits < 0 then
      Failure(NegativeWidth + IntToString(desiredDigits))
    else if desiredDigits == 0 then
      Success(NumericResult("", true))
    else if !AllDigits(strNumIn) then
      Failure(NotDigits + strNumIn)
    else if |strNumIn| > desiredDigits then
      var roundedValue := RoundToSignificant(Value(strNumIn), desiredDigits);
      var maxValuePossible := Pow10(desiredDigits) - 1;
      if roundedValue <= maxValuePossible then
        Success(NumericResult(ToDecimal(roundedValue), false))
      else
        Success(NumericResult(ToDecimal(maxValuePossible), true))
    else
      Success(NumericResult(strNumIn, false))
  }

  /**
   * What `fmtLimitSizeNumeric` promises: digits, no more than the width, overflow exactly when the
   * value needs more digits than the width, nines on overflow, the value itself otherwise, and a
   * literal that fits kept as it is.
   */
  lemma {:induction false} LimitSizeSpec(strNumIn: string, desiredDigits: int)
    ensures var r := FmtLimitSizeNumeric(strNumIn, desiredDigits);
      && (r.Success? && desiredDigits == 0 ==> r.value == NumericResult("", true))
      && (r.Success? && desiredDigits > 0 ==>
            && AllDigits(r.value.strNum)
            && |r.value.strNum| <= desiredDigits
            && (r.value.hasOverflow <==> Value(strNumIn) >= Pow10(desiredDigits))
            && (r.value.hasOverflow ==> r.value.strNum == Repeat('9', desiredDigits))
            && (!r.value.hasOverflow ==> Value(r.value.strNum) == Value(strNumIn))
            && (|strNumIn| <= desiredDigits ==> r.value == NumericResult(strNumIn, false))
            && (IsStrictInt(strNumIn) && !r.value.hasOverflow ==> r.value.strNum == strNumIn))
  {
    if desiredDigits > 0 && AllDigits(strNumIn) {
      var num := Value(strNumIn);
      ValueBound(strNumIn);
      ToDecimalLength(num, desiredDigits);
      ToDecimalValue(num);
      StrictIntIsCanonical(strNumIn);
      if |strNumIn| > desiredDigits {
        var roundedValue := RoundToSignificant(num, desiredDigits);
        if roundedValue <= Pow10(desiredDigits) - 1 {
          RoundingKeepsMagnitude(num, desiredDigits);
          ToDecimalLength(roundedValue, desiredDigits);
          ToDecimalValue(roundedValue);
        } else {
          ToDecimalNines(desiredDigits);
        }
      } else {
        Pow10Monotone(|strNumIn|, desiredDigits);
      }
    }
  }

  /**
   * `fmtFixedSizeNumeric`: a value that fits is left-padded with '0' to exactly `desiredDigits`;
   * otherwise the limit-width result is returned.
   */
  function FmtFixedSizeNumeric(strNumIn: string, desiredDigits: int): (r: Result<NumericResult, string>)
    ensures r.Failure? <==> FmtLimitSizeNumeric(strNumIn, desiredDigits).Failure?
  {
    var result :- FmtLimitSizeNumeric(strNumIn, desiredDigits);
    if |result.strNum| < desiredDigits then
      Success(NumericResult(PadStart(strNumIn, desiredDigits, '0'), false))
    else
      Success(result)
  }

  /**
   * What `fmtFixedSizeNumeric` promises: digits, overflow exactly when the value needs more digits
   * than the width, nines on overflow, the value itself otherwise, zero-padding of a literal that
   * fits, and exactly the width for a strict integer.
   */
  lemma {:induction false} FixedSizeSpec(strNumIn: string, desiredDigits: int)
    ensures var r := FmtFixedSizeNumeric(strNumIn, desiredDigits);
      && (r.Success? && desiredDigits == 0 ==> r.value == NumericResult("", true))
      && (r.Success? && desiredDigits > 0 ==>
            && AllDigits(r.value.strNum)
            && (r.value.hasOverflow <==> Value(strNumIn) >= Pow10(desiredDigits))
            && (r.value.hasOverflow ==> r.value.strNum == Repeat('9', desiredDigits))
            && (!r.value.hasOverflow ==> Value(r.value.strNum) == Value(strNumIn))
            && (|strNumIn| <= desiredDigits ==>
                  r.value == NumericResult(Repeat('0', desiredDigits - |strNumIn|) + strNumIn, false)))
      && (r.Success? && IsStrictInt(strNumIn) ==> |r.value.strNum| == desiredDigits)
      && (r.Success? && IsStrictInt(strNumIn) && |strNumIn| > desiredDigits ==>
            r == FmtLimitSizeNumeric(strNumIn, desiredDigits))
  {
    LimitSizeSpec(strNumIn, desiredDigits);
    if desiredDigits > 0 && AllDigits(strNumIn) {
      ValuePadStart(strNumIn, desiredDigits);
    }
  }

  /**
   * For a strict integer both formatters succeed and overflow exactly when the literal is longer
   * than the budget: it then saturates to nines, and otherwise it is kept (limit) or zero-padded
   * (fixed).
   */
  lemma {:induction false} StrictIntFormatting(s: string, desiredDigits: nat)
    requires IsStrictInt(s)
    ensures AllDigits(s) && |s| >= 1
    ensures (desiredDigits == 0 || Value(s) >= Pow10(desiredDigits)) <==> |s| > desiredDigits
    ensures FmtLimitSizeNumeric(s, desiredDigits).Success? && FmtFixedSizeNumeric(s, desiredDigits).Success?
    ensures |s| > desiredDigits ==>
      && FmtLimitSizeNumeric(s, desiredDigits).value == NumericResult(Repeat('9', desiredDigits), true)
      && FmtFixedSizeNumeric(s, desiredDigits).value == NumericResult(Repeat('9', desiredDigits), true)
    ensures |s| <= desiredDigits ==>
      && FmtLimitSizeNumeric(s, desiredDigits).value == NumericResult(s, false)
      && FmtFixedSizeNumeric(s, desiredDigits).value == NumericResult(PadStart(s, desiredDigits, '0'), false)
  {
    StrictIntIsCanonical(s);
    LimitSizeSpec(s, desiredDigits);
    FixedSizeSpec(s, desiredDigits);
    if desiredDigits > 0 {
      ToDecimalLength(Value(s), desiredDigits);
      if |s| == desiredDigits {
        assert Repeat('0', 0) + s == s;
      }
    }
  }
}
