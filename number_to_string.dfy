/**
 * `NumberToString.transform` of numbers.py: pick the spelling routine by the
 * type of the number, take off the sign, refuse magnitudes from 10^21 up,
 * spell the magnitude and put "negative " in front of a number below zero.
 */
module NumberToString {
  import opened Wrappers
  import opened Errors
  import opened Tables
  import opened IntWords
  import opened DecimalWords

  /**
   * What `transform` accepts. A Python int is an integer of any size. A
   * float is given as the sign and the two digit strings on either side of
   * the point in `str()` of its absolute value.
   */
  datatype Number =
    | Int(value: int)
    | Float(negative: bool, intDigits: Digits, fracDigits: Digits)

  /** The test `number < 0`: a float whose digits are all '0' is 0.0 or -0.0, and neither is below zero. */
  predicate IsNegative(x: Number)
  {
    match x
    case Int(z) => z < 0
    case Float(neg, i, f) => neg && !(AllZeros(i) && AllZeros(f))
  }

  /**
   * `abs(number)` as far as the range test sees it. For a float the
   * fraction lies in [0, 1) and 10^21 is an integer, so the float reaches
   * 10^21 exactly when its integer part does.
   */
  function Magnitude(x: Number): nat
  {
    match x
    case Int(z) => if z < 0 then -z else z
    case Float(_, i, _) => DigitsValue(i)
  }

  /** `abs(number)`: the same digits without the sign. */
  function Abs(x: Number): (r: Number)
    ensures !IsNegative(r) && Magnitude(r) == Magnitude(x)
    ensures r.Int? <==> x.Int?
  {
    match x
    case Int(z) => Int(Magnitude(x))
    case Float(_, i, f) => Float(false, i, f)
  }

  /** `transform`. The spelling of the magnitude is that of `_int_to_str` or `_float_to_str`. */
  function Transform(x: Number): (r: Result<string, Error>)
    ensures r.Err? && r.error.MaxNumberExceeded? <==> Magnitude(x) >= SextillionValue
    ensures r.Err? && r.error.MaxNumberExceeded? ==> r.error.maximum == SextillionValue - 1
    ensures r.Err? && r.error.NoFractionName? ==> x.Float?
    ensures x.Int? ==> (r.Ok? <==> Magnitude(x) < SextillionValue)
  {
    if Magnitude(x) >= SextillionValue then
      Err(MaxNumberExceeded(SextillionValue - 1))
    else
      var spelled := match x
        case Int(_) => Ok(IntToWords(Magnitude(x)))
        case Float(_, i, f) => FloatToStr(i, f);
      match spelled
      case Err(e) => Err(e)
      case Ok(s) => Ok(if IsNegative(x) then "negative " + s else s)
  }

  /** A number below zero is spelled as its absolute value after "negative "; any other exactly as its absolute value. */
  lemma SignPrefix(x: Number)
    ensures Transform(Abs(x)).Ok? <==> Transform(x).Ok?
    ensures Transform(x).Ok? ==>
      Transform(x).value ==
        (if IsNegative(x) then "negative " + Transform(Abs(x)).value else Transform(Abs(x)).value)
  {
  }

  /** An int below 10^21 in absolute value is spelled; the words are those of its absolute value. */
  lemma IntSpelled(z: int)
    requires -(SextillionValue as int) < z < SextillionValue
    ensures Transform(Int(z)) ==
      Ok(if z < 0 then "negative " + IntToWords(-z) else IntToWords(z))
  {
    var x := Int(z);
    assert Magnitude(x) == (if z < 0 then -z else z) && IsNegative(x) == (z < 0);
  }

  /**
   * A float whose last printed fraction digit is not '0', with at most
   * twenty fraction digits, is spelled as its integer part, "and", its
   * fraction digits read as a number and the name of 1/10^k for k digits.
   */
  lemma FloatSpelled(negative: bool, i: Digits, f: Digits)
    requires DigitsValue(i) < SextillionValue
    requires |f| <= 20 && f[|f| - 1] != '0'
    ensures DigitsValue(f) < SextillionValue
    ensures Transform(Float(negative, i, f)) ==
      var words := IntToWords(DigitsValue(i)) + " and " + IntToWords(DigitsValue(f)) + " " + DenominatorWord(|f|) + "ths";
      Ok(if negative then "negative " + words else words)
  {
    PrintedFraction(i, f);
    assert !AllZeros(f) by {
      assert f[|f| - 1] != '0';
    }
  }

  /** -0.0 is spelled as 0.0: the sign of a float that is zero adds no "negative ". */
  lemma NegativeZero(i: Digits, f: Digits)
    requires AllZeros(i) && AllZeros(f)
    ensures Transform(Float(true, i, f)) == Transform(Float(false, i, f)) == Ok(IntToWords(0))
  {
  }
}
