/**
 * The assertions of the main block of numbers.py, stated about `Transform`.
 * Each input is a parameter fixed by the precondition. A `Words` lemma
 * splits a number at its segments the way `_get_hundreds` does; the `Spell`,
 * `Head` and `Regroup` lemmas at the end of the module only join words into
 * the expected text, one short piece at a time.
 */
module MainVectors {
  import opened Wrappers
  import opened Errors
  import opened Tables
  import opened IntWords
  import opened DecimalWords
  import opened NumberToString

  /** The table entries the vectors use. */
  lemma OnesWords()
    ensures OnesMappings[0] == "zero" && OnesMappings[1] == "one" && OnesMappings[2] == "two"
    ensures OnesMappings[3] == "three" && OnesMappings[5] == "five" && OnesMappings[6] == "six"
    ensures OnesMappings[7] == "seven" && OnesMappings[9] == "nine"
  {
  }

  lemma TensWords()
    ensures TensMappings[12] == "twelve" && TensMappings[20] == "twenty" && TensMappings[40] == "forty"
    ensures TensMappings[50] == "fifty" && TensMappings[60] == "sixty" && TensMappings[90] == "ninety"
  {
  }

  lemma SegmentNames()
    ensures NumberNamesList[2] == Hundred && NumberNamesList[3] == Thousand && NumberNamesList[4] == Million
    ensures NumberNamesList[5] == Billion && NumberNamesList[6] == Trillion
    ensures NumberNamesList[7] == Quadrillion && NumberNamesList[8] == Quintillion
  {
  }

  /** A number from 101 to 999 whose last two digits are not both zero. */
  lemma HundredsSplit(n: nat, h: nat, t: nat)
    requires 1 <= h <= 9 && 0 < t < 100 && n == 100 * h + t
    ensures IntToWords(n) == OnesMappings[h] + " " + Hundred + "" + " " + IntToWords(t)
  {
    SegmentSplit(n, 2, h, t);
    BelowTen(h);
    SegmentNames();
  }

  /** A number with a non-zero remainder below one thousand after its thousands. */
  lemma ThousandsSplit(n: nat, q: nat, rem: nat)
    requires 0 < q < 1000 && 0 < rem < 1000 && n == 1000 * q + rem
    ensures IntToWords(n) == IntToWords(q) + " " + Thousand + "," + " " + IntToWords(rem)
  {
    SegmentSplit(n, 3, q, rem);
    SegmentNames();
  }

  /** The words of 1/10^2, 1/10^4 and 1/10^5 before their "ths". */
  lemma Denominators()
    ensures DenominatorWord(2) == Hundred
    ensures DenominatorWord(4) == Ten + " " + Thousand
    ensures DenominatorWord(5) == Hundred + " " + Thousand
  {
  }

  lemma Words999(n: nat)
    requires n == 999
    ensures IntToWords(n) == "nine hundred ninety-nine"
  {
    var t := 99;
    HundredsSplit(n, 9, t);
    TensHyphenated(t);
    OnesWords();
    TensWords();
    Spell99();
    Spell999();
  }

  /** One segment of 999 above the hundreds: "nine hundred ninety-nine <name>, " and then the rest. */
  lemma NinesLevel(n: nat, k: nat, rest: nat, head: string)
    requires 1 <= k <= 6 && 0 < rest < MagnitudeValue(k + 2)
    requires n == 999 * MagnitudeValue(k + 2) + rest
    requires head == "nine hundred ninety-nine" + " " + NumberNamesList[k + 2] + "," + " "
    ensures n < SextillionValue && rest < SextillionValue
    ensures IntToWords(n) == head + IntToWords(rest)
  {
    var q := 999;
    MagnitudeStep(k + 2);
    SegmentSplit(n, k + 2, q, rest);
    Words999(q);
  }

  /** The largest number spelled, two segments per lemma. */
  lemma MaxWordsHigh(n: nat, m: nat)
    requires n == 999_999_999_999_999_999_999 && m == 999_999_999_999_999
    ensures n < SextillionValue && m < SextillionValue
    ensures IntToWords(n) ==
      "nine hundred ninety-nine quintillion, " + ("nine hundred ninety-nine quadrillion, " + IntToWords(m))
  {
    var r := 999_999_999_999_999_999;
    SegmentNames();
    HeadQuintillion();
    HeadQuadrillion();
    NinesLevel(n, 6, r, "nine hundred ninety-nine quintillion, ");
    NinesLevel(r, 5, m, "nine hundred ninety-nine quadrillion, ");
  }

  lemma MaxWordsMiddle(n: nat, m: nat)
    requires n == 999_999_999_999_999 && m == 999_999_999
    ensures n < SextillionValue && m < SextillionValue
    ensures IntToWords(n) ==
      "nine hundred ninety-nine trillion, " + ("nine hundred ninety-nine billion, " + IntToWords(m))
  {
    var r := 999_999_999_999;
    SegmentNames();
    HeadTrillion();
    HeadBillion();
    NinesLevel(n, 4, r, "nine hundred ninety-nine trillion, ");
    NinesLevel(r, 3, m, "nine hundred ninety-nine billion, ");
  }

  lemma MaxWordsLow(n: nat)
    requires n == 999_999_999
    ensures n < SextillionValue
    ensures IntToWords(n) ==
      "nine hundred ninety-nine million, " + ("nine hundred ninety-nine thousand, " + "nine hundred ninety-nine")
  {
    var r, m := 999_999, 999;
    SegmentNames();
    HeadMillion();
    HeadThousand();
    NinesLevel(n, 2, r, "nine hundred ninety-nine million, ");
    NinesLevel(r, 1, m, "nine hundred ninety-nine thousand, ");
    Words999(m);
  }

  /** numbers.py:175, with the expected text given segment by segment. */
  lemma VectorMax(n: nat)
    requires n == 999_999_999_999_999_999_999
    ensures Transform(Int(n)) == Ok(
      "nine hundred ninety-nine quintillion, "
      + "nine hundred ninety-nine quadrillion, "
      + "nine hundred ninety-nine trillion, "
      + "nine hundred ninety-nine billion, "
      + "nine hundred ninety-nine million, "
      + "nine hundred ninety-nine thousand, "
      + "nine hundred ninety-nine")
  {
    var m1, m2 := 999_999_999_999_999, 999_999_999;
    MaxWordsHigh(n, m1);
    MaxWordsMiddle(m1, m2);
    MaxWordsLow(m2);
    Regroup7("nine hundred ninety-nine quintillion, ", "nine hundred ninety-nine quadrillion, ",
      "nine hundred ninety-nine trillion, ", "nine hundred ninety-nine billion, ",
      "nine hundred ninety-nine million, ", "nine hundred ninety-nine thousand, ", "nine hundred ninety-nine");
    IntSpelled(n);
  }

  lemma Words45(n: nat)
    requires n == 45
    ensures IntToWords(n) == "forty-five"
  {
    TensHyphenated(n);
    OnesWords();
    TensWords();
    Spell45();
  }

  lemma Words345(n: nat)
    requires n == 345
    ensures IntToWords(n) == "three hundred forty-five"
  {
    var t := 45;
    HundredsSplit(n, 3, t);
    Words45(t);
    OnesWords();
    Spell345();
  }

  /** numbers.py:176 */
  lemma Vector12345(n: nat)
    requires n == 12345
    ensures Transform(Int(n)) == Ok("twelve thousand, three hundred forty-five")
  {
    var q, rem := 12, 345;
    ThousandsSplit(n, q, rem);
    TensTableWord(q);
    TensWords();
    Words345(rem);
    SpellTwelveThousand();
    Spell12345();
    IntSpelled(n);
  }

  lemma Words123(n: nat)
    requires n == 123
    ensures IntToWords(n) == "one hundred twenty-three"
  {
    var t := 23;
    HundredsSplit(n, 1, t);
    TensHyphenated(t);
    OnesWords();
    TensWords();
    Spell23();
    Spell123();
  }

  /** numbers.py:177 */
  lemma Vector123(n: nat)
    requires n == 123
    ensures Transform(Int(n)) == Ok("one hundred twenty-three")
  {
    Words123(n);
    IntSpelled(n);
  }

  /** numbers.py:178 */
  lemma Vector7(n: nat)
    requires n == 7
    ensures Transform(Int(n)) == Ok("seven")
  {
    BelowTen(n);
    OnesWords();
    IntSpelled(n);
  }

  /** numbers.py:179-180: Python's -0 is the int 0, and both spell "zero". */
  lemma VectorZero(z: int)
    requires z == 0
    ensures Transform(Int(z)) == Ok("zero")
  {
    BelowTen(0);
    OnesWords();
    IntSpelled(z);
  }

  /** numbers.py:181 */
  lemma VectorMinus256(z: int)
    requires z == -256
    ensures Transform(Int(z)) == Ok("negative two hundred fifty-six")
  {
    var n, t := 256, 56;
    HundredsSplit(n, 2, t);
    TensHyphenated(t);
    OnesWords();
    TensWords();
    Spell56();
    Spell256();
    SpellMinus256();
    IntSpelled(z);
  }

  lemma Words1245(n: nat)
    requires n == 1245
    ensures IntToWords(n) == "one thousand, " + "two hundred forty-five"
  {
    var q, rem, t := 1, 245, 45;
    ThousandsSplit(n, q, rem);
    BelowTen(q);
    HundredsSplit(rem, 2, t);
    Words45(t);
    OnesWords();
    Spell245();
    SpellOneThousand();
  }

  lemma Digits1245(i: Digits, f: Digits)
    requires i == "1" && f == "1245"
    ensures DigitsValue(i) == 1 && DigitsValue(f) == 1245
  {
    AppendDigit("124", '5');
    assert f == "124" + ['5'];
  }

  /** numbers.py:182: `str(1.1245)` is "1.1245". */
  lemma VectorFloat1245(i: Digits, f: Digits)
    requires i == "1" && f == "1245"
    ensures Transform(Float(false, i, f)) == Ok("one and one thousand, two hundred forty-five ten thousandths")
  {
    var vi, vf := 1, 1245;
    Digits1245(i, f);
    FloatSpelled(false, i, f);
    BelowTen(vi);
    OnesWords();
    Words1245(vf);
    Denominators();
    var words := "one thousand, " + "two hundred forty-five";
    Regroup6("one", " and ", words, " ", Ten + " " + Thousand, "ths");
    SpellOneAnd();
    SpellTenThousandths();
    Regroup3("one and ", "one thousand, ", "two hundred forty-five");
    SpellFloat1245a();
    SpellFloat1245b();
    SpellFloat1245c();
  }

  lemma Digits6345(i: Digits, f: Digits)
    requires i == "63" && f == "45"
    ensures DigitsValue(i) == 63 && DigitsValue(f) == 45
  {
    AppendDigit("6", '3');
    assert i == "6" + ['3'];
    AppendDigit("4", '5');
    assert f == "4" + ['5'];
  }

  /** numbers.py:183: `str(63.45)` is "63.45". */
  lemma VectorFloat6345(i: Digits, f: Digits)
    requires i == "63" && f == "45"
    ensures Transform(Float(false, i, f)) == Ok("sixty-three and forty-five hundredths")
  {
    var vi, vf := 63, 45;
    Digits6345(i, f);
    FloatSpelled(false, i, f);
    TensHyphenated(vi);
    Words45(vf);
    OnesWords();
    TensWords();
    Spell63();
    Denominators();
    SpellFloat6345a();
    SpellFloat6345b();
  }

  lemma Digits123(i: Digits)
    requires i == "123"
    ensures DigitsValue(i) == 123
  {
    AppendDigit("1", '2');
    AppendDigit("12", '3');
    assert i == "12" + ['3'];
  }

  lemma Digits00045(f: Digits)
    requires f == "00045"
    ensures DigitsValue(f) == 45
  {
    AppendDigit("0004", '5');
    assert f == "0004" + ['5'];
  }

  /** numbers.py:184: `str(123.0004500)` is "123.00045". */
  lemma VectorFloat12300045(i: Digits, f: Digits)
    requires i == "123" && f == "00045"
    ensures Transform(Float(false, i, f)) == Ok("one hundred twenty-three and forty-five hundred thousandths")
  {
    var vi, vf := 123, 45;
    Digits123(i);
    Digits00045(f);
    FloatSpelled(false, i, f);
    Words123(vi);
    Words45(vf);
    Denominators();
    Regroup6("one hundred twenty-three", " and ", "forty-five", " ", Hundred + " " + Thousand, "ths");
    SpellHundredThousandths();
    SpellFloat12345a();
    SpellFloat12345b();
  }

  /** 10^21 and -10^21 are refused with the largest number allowed. */
  lemma VectorTooLarge(z: int)
    requires z == 1_000_000_000_000_000_000_000 || z == -1_000_000_000_000_000_000_000
    ensures Transform(Int(z)) == Err(MaxNumberExceeded(999_999_999_999_999_999_999))
  {
  }


  // The lemmas below only join string literals, or regroup a concatenation.
  // Each is kept to one short equation so that the verifier proves the text
  // of a vector apart from its number facts; they state nothing about
  // NumberToString itself.

  lemma Spell99()
    ensures "ninety" + "-" + "nine" == "ninety-nine"
  {
  }

  lemma Spell999()
    ensures "nine" + " " + Hundred + "" + " " + "ninety-nine" == "nine hundred ninety-nine"
  {
  }

  lemma HeadQuintillion()
    ensures "nine hundred ninety-nine" + " " + Quintillion + "," + " " == "nine hundred ninety-nine quintillion, "
  {
  }

  lemma HeadQuadrillion()
    ensures "nine hundred ninety-nine" + " " + Quadrillion + "," + " " == "nine hundred ninety-nine quadrillion, "
  {
  }

  lemma HeadTrillion()
    ensures "nine hundred ninety-nine" + " " + Trillion + "," + " " == "nine hundred ninety-nine trillion, "
  {
  }

  lemma HeadBillion()
    ensures "nine hundred ninety-nine" + " " + Billion + "," + " " == "nine hundred ninety-nine billion, "
  {
  }

  lemma HeadMillion()
    ensures "nine hundred ninety-nine" + " " + Million + "," + " " == "nine hundred ninety-nine million, "
  {
  }

  lemma HeadThousand()
    ensures "nine hundred ninety-nine" + " " + Thousand + "," + " " == "nine hundred ninety-nine thousand, "
  {
  }

  /** Seven pieces joined from the right read the same joined from the left. */
  lemma Regroup7(a: string, b: string, c: string, d: string, e: string, f: string, g: string)
    ensures a + (b + (c + (d + (e + (f + g))))) == a + b + c + d + e + f + g
  {
  }

  lemma Spell45()
    ensures "forty" + "-" + "five" == "forty-five"
  {
  }

  lemma Spell345()
    ensures "three" + " " + Hundred + "" + " " + "forty-five" == "three hundred forty-five"
  {
  }

  lemma SpellTwelveThousand()
    ensures "twelve" + " " + Thousand + "," + " " == "twelve thousand, "
  {
  }

  lemma Spell12345()
    ensures "twelve thousand, " + "three hundred forty-five" == "twelve thousand, three hundred forty-five"
  {
  }

  lemma Spell23()
    ensures "twenty" + "-" + "three" == "twenty-three"
  {
  }

  lemma Spell123()
    ensures "one" + " " + Hundred + "" + " " + "twenty-three" == "one hundred twenty-three"
  {
  }

  lemma Spell56()
    ensures "fifty" + "-" + "six" == "fifty-six"
  {
  }

  lemma Spell256()
    ensures "two" + " " + Hundred + "" + " " + "fifty-six" == "two hundred fifty-six"
  {
  }

  lemma SpellMinus256()
    ensures "negative " + "two hundred fifty-six" == "negative two hundred fifty-six"
  {
  }

  /** Six pieces joined from the left, regrouped around the middle one. */
  lemma Regroup6(a: string, b: string, c: string, d: string, e: string, f: string)
    ensures a + b + c + d + e + f == (a + b) + c + (d + e + f)
  {
  }

  /** Two pieces appended to a third one by one. */
  lemma Regroup3(a: string, b: string, c: string)
    ensures a + (b + c) == a + b + c
  {
  }

  lemma Spell245()
    ensures "two" + " " + Hundred + "" + " " + "forty-five" == "two hundred forty-five"
  {
  }

  lemma SpellOneThousand()
    ensures "one" + " " + Thousand + "," + " " == "one thousand, "
  {
  }

  lemma SpellOneAnd()
    ensures "one" + " and " == "one and "
  {
  }

  lemma SpellTenThousandths()
    ensures " " + (Ten + " " + Thousand) + "ths" == " ten thousandths"
  {
  }

  lemma SpellFloat1245a()
    ensures "one and " + "one thousand, " == "one and one thousand, "
  {
  }

  lemma SpellFloat1245b()
    ensures "one and one thousand, " + "two hundred forty-five" == "one and one thousand, two hundred forty-five"
  {
  }

  lemma SpellFloat1245c()
    ensures "one and one thousand, two hundred forty-five" + " ten thousandths"
      == "one and one thousand, two hundred forty-five ten thousandths"
  {
  }

  lemma Spell63()
    ensures "sixty" + "-" + "three" == "sixty-three"
  {
  }

  lemma SpellFloat6345a()
    ensures "sixty-three" + " and " + "forty-five" == "sixty-three and forty-five"
  {
  }

  lemma SpellFloat6345b()
    ensures "sixty-three and forty-five" + " " + Hundred + "ths" == "sixty-three and forty-five hundredths"
  {
  }

  lemma SpellHundredThousandths()
    ensures " " + (Hundred + " " + Thousand) + "ths" == " hundred thousandths"
  {
  }

  lemma SpellFloat12345a()
    ensures "one hundred twenty-three" + " and " + "forty-five" == "one hundred twenty-three and forty-five"
  {
  }

  lemma SpellFloat12345b()
    ensures "one hundred twenty-three and forty-five" + " hundred thousandths"
      == "one hundred twenty-three and forty-five hundred thousandths"
  {
  }
}
