/**
 * The constant tables of `NumberToString` (numbers.py): the words for 0..9,
 * for 10..19 and the round tens, and the named powers of ten with their
 * values and their order from smallest to largest.
 */
module Tables {

  /** `ONES_MAPPINGS`: the digits 0..9 and their words. */
  const OnesMappings: map<nat, string> := map[
    0 := "zero", 1 := "one", 2 := "two", 3 := "three", 4 := "four",
    5 := "five", 6 := "six", 7 := "seven", 8 := "eight", 9 := "nine"]

  /** `TENS_MAPPINGS`: 10..20 and the round tens 30..90. */
  const TensMappings: map<nat, string> := map[
    10 := "ten", 11 := "eleven", 12 := "twelve", 13 := "thirteen", 14 := "fourteen",
    15 := "fifteen", 16 := "sixteen", 17 := "seventeen", 18 := "eighteen", 19 := "nineteen",
    20 := "twenty", 30 := "thirty", 40 := "forty", 50 := "fifty",
    60 := "sixty", 70 := "seventy", 80 := "eighty", 90 := "ninety"]

  const One: string := "one"
  const Ten: string := "ten"
  const Hundred: string := "hundred"
  const Thousand: string := "thousand"
  const Million: string := "million"
  const Billion: string := "billion"
  const Trillion: string := "trillion"
  const Quadrillion: string := "quadrillion"
  const Quintillion: string := "quintillion"
  const Sextillion: string := "sextillion"

  /** 10^21, the first value the converter refuses. */
  const SextillionValue: nat := 1_000_000_000_000_000_000_000

  /** `NUMBERS_MAPPINGS`: each magnitude name and its power of ten. */
  const NumbersMappings: map<string, nat> := map[
    One := 1,
    Ten := 10,
    Hundred := 100,
    Thousand := 1_000,
    Million := 1_000_000,
    Billion := 1_000_000_000,
    Trillion := 1_000_000_000_000,
    Quadrillion := 1_000_000_000_000_000,
    Quintillion := 1_000_000_000_000_000_000,
    Sextillion := SextillionValue]

  /** `NUMBER_NAMES_LIST`: the magnitude names from smallest to largest. */
  const NumberNamesList: seq<string> := [
    One, Ten, Hundred, Thousand, Million, Billion, Trillion, Quadrillion, Quintillion, Sextillion]

  /** The exponent of ten each entry of `NumberNamesList` stands for. */
  const Exponents: seq<nat> := [0, 1, 2, 3, 6, 9, 12, 15, 18, 21]

  function Pow10(k: nat): (r: nat)
    ensures r >= 1
  {
    if k == 0 then 1 else 10 * Pow10(k - 1)
  }

  /** The values of `NUMBERS_MAPPINGS` in the order of `NUMBER_NAMES_LIST`. */
  const MagnitudeValues: seq<nat> := [
    1, 10, 100, 1_000, 1_000_000, 1_000_000_000, 1_000_000_000_000,
    1_000_000_000_000_000, 1_000_000_000_000_000_000, SextillionValue]

  /** The value of the `i`-th magnitude name: ten to the name's exponent. */
  function MagnitudeValue(i: nat): nat
    requires i < |MagnitudeValues|
  {
    MagnitudeValues[i]
  }

  /** Every listed name is a key of `NUMBERS_MAPPINGS`, mapped to the value at the same place. */
  lemma MappingsAgree(i: nat)
    requires i < |NumberNamesList|
    ensures |NumberNamesList| == |MagnitudeValues| == |Exponents|
    ensures NumberNamesList[i] in NumbersMappings && NumbersMappings[NumberNamesList[i]] == MagnitudeValue(i)
    ensures NumberNamesList[i] == Hundred <==> i == 2
  {
  }

  /** The three magnitudes `_int_to_str` compares against before its segment loop. */
  lemma SmallMagnitudes()
    ensures NumbersMappings[One] == 1 && NumbersMappings[Ten] == 10 && NumbersMappings[Hundred] == 100
  {
  }

  /** The magnitudes are the powers of ten that `Exponents` lists, the last one being 10^21. */
  lemma MagnitudesArePowers(i: nat)
    requires i < |MagnitudeValues|
    ensures MagnitudeValue(i) == Pow10(Exponents[i])
    ensures MagnitudeValue(|MagnitudeValues| - 1) == SextillionValue
  {
    ThousandFold(0);
    ThousandFold(3);
    ThousandFold(6);
    ThousandFold(9);
    ThousandFold(12);
    ThousandFold(15);
    ThousandFold(18);
  }

  lemma ThousandFold(k: nat)
    ensures Pow10(k + 3) == 1000 * Pow10(k)
  {
    assert Pow10(k + 3) == 10 * Pow10(k + 2) == 100 * Pow10(k + 1);
  }

  /** Ten to a larger power is larger. */
  lemma {:induction false} Pow10Increasing(a: nat, b: nat)
    requires a < b
    ensures Pow10(a) < Pow10(b)
  {
    if a + 1 < b {
      Pow10Increasing(a, b - 1);
    }
  }

  /** Ten to the power `a + b` is the product of the two powers. */
  lemma {:induction false} Pow10Add(a: nat, b: nat)
    ensures Pow10(a + b) == Pow10(a) * Pow10(b)
  {
    if b > 0 {
      Pow10Add(a, b - 1);
      assert Pow10(a + b) == 10 * Pow10(a + b - 1);
    }
  }
}
