/**
 * `_get_ones`, `_get_tens`, `_get_hundreds` and `_int_to_str` of numbers.py:
 * the spelling of a natural number below 10^21.
 */
module IntWords {
  import opened Wrappers
  import opened Tables

  /** The separator `_get_hundreds` puts after a segment of thousand and above. */
  const Sep: string := ","

  /** A word string with no leading or trailing blank, as every spelling is. */
  predicate Trimmed(s: string)
  {
    |s| > 0 && s[0] != ' ' && s[|s| - 1] != ' '
  }

  lemma TablesTrimmed()
    ensures forall k :: k in OnesMappings ==> Trimmed(OnesMappings[k])
    ensures forall k :: k in TensMappings ==> Trimmed(TensMappings[k])
  {
  }

  /** `_get_ones`: a digit 1..9 through the ones table. */
  function GetOnes(n: nat): (r: string)
    requires n < 10
    ensures Trimmed(r)
  {
    TablesTrimmed();
    OnesMappings[n]
  }

  /** `_get_tens`: 10..99, hyphenating a tens word and a ones word when the number is not in the table. */
  function GetTens(n: nat): (r: string)
    requires 10 <= n < 100
    ensures Trimmed(r)
  {
    TablesTrimmed();
    if n > 19 then
      var tens, ones := n / 10, n % 10;
      if ones == 0 then TensMappings[n]
      else TensMappings[tens * 10] + "-" + OnesMappings[ones]
    else
      TensMappings[n]
  }

  /**
   * The segment loop of `_int_to_str`: indices `i` from 2 (hundred) up to but
   * not including the last name (sextillion); the first whose band
   * `[value(i), value(i + 1))` holds `n`.
   */
  function FindSegment(n: nat, i: nat): (r: Option<nat>)
    requires 2 <= i < |NumberNamesList|
    decreases |NumberNamesList| - i
    ensures r.Some? ==> i <= r.value < |NumberNamesList| - 1
    ensures r.Some? ==> MagnitudeValue(r.value) <= n < MagnitudeValue(r.value + 1)
    ensures r.None? <==> !(MagnitudeValue(i) <= n < SextillionValue)
  {
    if i == |NumberNamesList| - 1 then None
    else
      MappingsAgree(i);
      MappingsAgree(i + 1);
      var floorVal := NumbersMappings[NumberNamesList[i]];
      var ceilVal := NumbersMappings[NumberNamesList[i + 1]];
      if floorVal <= n < ceilVal then Some(i)
      else
        MagnitudesIncreasing(i, i + 1);
        FindSegment(n, i + 1)
  }

  /** `_int_to_str` on the range where it reaches a `return`. */
  function IntToWords(n: nat): (r: string)
    requires n < SextillionValue
    decreases n, 1
    ensures Trimmed(r)
  {
    SmallMagnitudes();
    if n == 0 then OnesMappings[n]
    else if NumbersMappings[One] <= n < NumbersMappings[Ten] then GetOnes(n)
    else if NumbersMappings[Ten] <= n < NumbersMappings[Hundred] then GetTens(n)
    else
      var i := FindSegment(n, 2).value;
      MappingsAgree(i);
      AtLeastHundred(i);
      GetHundreds(n, NumberNamesList[i])
  }

  /**
   * `_int_to_str` on any natural number: below 10^21 it returns the spelling;
   * from 10^21 on the segment loop finds no band and the method falls off its
   * end, returning `None`.
   */
  function IntToStr(n: nat): (r: Option<string>)
    ensures r.Some? <==> n < SextillionValue
    ensures r.Some? ==> r.value == IntToWords(n)
  {
    if n < 100 then Some(IntToWords(n))
    else
      match FindSegment(n, 2)
      case None => None
      case Some(i) =>
        MappingsAgree(i);
        AtLeastHundred(i);
        Some(GetHundreds(n, NumberNamesList[i]))
  }

  /** `_get_hundreds`: split `n` at the named segment and spell quotient and remainder. */
  function GetHundreds(n: nat, segmentName: string): (r: string)
    requires segmentName in NumbersMappings
    requires 100 <= NumbersMappings[segmentName] <= n < SextillionValue
    decreases n, 0
    ensures Trimmed(r)
  {
    var v := NumbersMappings[segmentName];
    var quotient, remainder := n / v, n % v;
    QuotientSmaller(n, v);
    if remainder != 0 then
      var separator := if segmentName != Hundred then Sep else "";
      IntToWords(quotient) + " " + segmentName + separator + " " + IntToWords(remainder)
    else
      IntToWords(quotient) + " " + segmentName
  }

  lemma QuotientSmaller(n: nat, v: nat)
    requires 2 <= v <= n
    ensures 1 <= n / v < n && n % v < v
  {
  }

  /** The magnitude names are in strictly increasing order of value. */
  lemma MagnitudesIncreasing(i: nat, j: nat)
    requires i < j < |NumberNamesList|
    ensures MagnitudeValue(i) < MagnitudeValue(j)
  {
  }

  lemma AtLeastHundred(i: nat)
    requires 2 <= i < |MagnitudeValues|
    ensures MagnitudeValue(i) >= 100
  {
  }

  /** From hundred on, each magnitude is ten (hundred to thousand) or a thousand times the one before. */
  lemma MagnitudeStep(i: nat)
    requires 2 <= i < |NumberNamesList| - 1
    ensures MagnitudeValue(i + 1) == MagnitudeValue(i) * (if i == 2 then 10 else 1000)
  {
  }

  /** The bands `[value(i), value(i + 1))` for i in 2..8 do not overlap. */
  lemma {:induction false} BandUnique(n: nat, i: nat, j: nat)
    requires 2 <= i < |NumberNamesList| - 1 && 2 <= j < |NumberNamesList| - 1
    requires MagnitudeValue(i) <= n < MagnitudeValue(i + 1)
    requires MagnitudeValue(j) <= n < MagnitudeValue(j + 1)
    ensures i == j
  {
    if i < j {
      MagnitudesIncreasing(i + 1, j);
    } else if j < i {
      MagnitudesIncreasing(j + 1, i);
    }
  }

  /** The bands for i in 2..8 cover [100, 10^21): the segment loop finds exactly the band holding `n`. */
  lemma SegmentFound(n: nat, i: nat)
    requires 2 <= i < |NumberNamesList| - 1
    requires MagnitudeValue(i) <= n < MagnitudeValue(i + 1)
    ensures FindSegment(n, 2) == Some(i)
  {
    if i > 2 {
      MagnitudesIncreasing(2, i);
    }
    if i + 1 < |NumberNamesList| - 1 {
      MagnitudesIncreasing(i + 1, |NumberNamesList| - 1);
    }
    BandUnique(n, i, FindSegment(n, 2).value);
  }

  /** No word of the two tables holds a hyphen. */
  lemma TablesUnhyphenated()
    ensures forall k :: k in OnesMappings ==> '-' !in OnesMappings[k]
    ensures forall k :: k in TensMappings ==> '-' !in TensMappings[k]
  {
  }

  /** Zero and the digits 1..9 are the ones-table word. */
  lemma BelowTen(n: nat)
    requires n < 10
    ensures IntToWords(n) == OnesMappings[n]
    ensures '-' !in IntToWords(n)
  {
    TablesUnhyphenated();
    SmallMagnitudes();
  }

  /** 10..19 and the round tens are a single table word without a hyphen. */
  lemma TensTableWord(n: nat)
    requires 10 <= n < 100 && (n < 20 || n % 10 == 0)
    ensures IntToWords(n) == TensMappings[n]
    ensures '-' !in IntToWords(n)
  {
    TablesUnhyphenated();
    SmallMagnitudes();
  }

  /** Every other number in 20..99 is a tens word and a ones word joined by one hyphen. */
  lemma TensHyphenated(n: nat)
    requires 20 <= n < 100 && n % 10 != 0
    ensures IntToWords(n) == TensMappings[10 * (n / 10)] + "-" + OnesMappings[n % 10]
    ensures '-' in IntToWords(n)
  {
    SmallMagnitudes();
    var t := TensMappings[10 * (n / 10)];
    assert IntToWords(n)[|t|] == '-';
  }

  /**
   * From one hundred on: with `v` the value of the band's name, `n` is spelled
   * as its quotient by `v`, the name and, when the remainder is not zero, the
   * remainder, after a comma for thousand and above and after a blank alone
   * for hundred. Both parts are smaller than `n`.
   */
  lemma SegmentComposition(n: nat, i: nat)
    requires 2 <= i < |NumberNamesList| - 1
    requires MagnitudeValue(i) <= n < MagnitudeValue(i + 1)
    ensures n < SextillionValue
    ensures n / MagnitudeValue(i) < n && n % MagnitudeValue(i) < n
    ensures
      var v, name := MagnitudeValue(i), NumberNamesList[i];
      var q, rem := n / v, n % v;
      IntToWords(n) ==
        if rem == 0 then IntToWords(q) + " " + name
        else IntToWords(q) + " " + name + (if i == 2 then "" else ",") + " " + IntToWords(rem)
  {
    AtSegment(n, i);
    HundredsShape(n, NumberNamesList[i]);
  }

  /** From one hundred on, `_int_to_str` hands `n` to `_get_hundreds` with the name of its band. */
  lemma AtSegment(n: nat, i: nat)
    requires 2 <= i < |NumberNamesList| - 1
    requires MagnitudeValue(i) <= n < MagnitudeValue(i + 1)
    ensures n < SextillionValue
    ensures NumberNamesList[i] in NumbersMappings && NumbersMappings[NumberNamesList[i]] == MagnitudeValue(i) >= 100
    ensures IntToWords(n) == GetHundreds(n, NumberNamesList[i])
  {
    MappingsAgree(i);
    AtLeastHundred(i);
    if i + 1 < |NumberNamesList| - 1 {
      MagnitudesIncreasing(i + 1, |NumberNamesList| - 1);
    }
    SegmentFound(n, i);
    SmallMagnitudes();
  }

  lemma HundredsShape(n: nat, name: string)
    requires name in NumbersMappings
    requires 100 <= NumbersMappings[name] <= n < SextillionValue
    ensures
      var v := NumbersMappings[name];
      var q, rem := n / v, n % v;
      q < n && rem < n &&
      GetHundreds(n, name) ==
        if rem == 0 then IntToWords(q) + " " + name
        else IntToWords(q) + " " + name + (if name == Hundred then "" else ",") + " " + IntToWords(rem)
  {
    QuotientSmaller(n, NumbersMappings[name]);
  }

  /**
   * `SegmentComposition` with the quotient and remainder given by the caller:
   * `n == q * value + rem` with `rem` below the value.
   */
  lemma SegmentSplit(n: nat, i: nat, q: nat, rem: nat)
    requires 2 <= i < |NumberNamesList| - 1
    requires MagnitudeValue(i) <= n < MagnitudeValue(i + 1)
    requires n == q * MagnitudeValue(i) + rem && rem < MagnitudeValue(i)
    ensures q < SextillionValue && rem < SextillionValue
    ensures IntToWords(n) ==
      if rem == 0 then IntToWords(q) + " " + NumberNamesList[i]
      else IntToWords(q) + " " + NumberNamesList[i] + (if i == 2 then "" else ",") + " " + IntToWords(rem)
  {
    var v := MagnitudeValue(i);
    DivModUnique(n, v, q, rem);
    SegmentComposition(n, i);
  }

  /**
   * For the band the segment loop selects, the quotient is a single digit for
   * hundred and one to three digits for thousand and above; the remainder is
   * below the band's value.
   */
  lemma QuotientBounds(n: nat, i: nat)
    requires 2 <= i < |NumberNamesList| - 1
    requires MagnitudeValue(i) <= n < MagnitudeValue(i + 1)
    ensures i == 2 ==> 1 <= n / MagnitudeValue(i) <= 9
    ensures i > 2 ==> 1 <= n / MagnitudeValue(i) <= 999
    ensures n % MagnitudeValue(i) < MagnitudeValue(i)
  {
    var v := MagnitudeValue(i);
    var m := if i == 2 then 10 else 1000;
    MagnitudeStep(i);
    DivBelow(n, v, m);
  }

  lemma DivBelow(n: nat, v: nat, m: nat)
    requires 1 <= v <= n < v * m
    ensures 1 <= n / v < m
  {
  }

  lemma DivModUnique(n: nat, v: nat, q: nat, rem: nat)
    requires 0 < v && n == q * v + rem && rem < v
    ensures n / v == q && n % v == rem
  {
    var q', r' := n / v, n % v;
    assert (q - q') * v == r' - rem;
    if q > q' {
      MulAtLeast(q - q', v);
    } else if q < q' {
      MulAtLeast(q' - q, v);
    }
  }

  lemma MulAtLeast(a: int, v: int)
    requires a >= 1 && v > 0
    ensures a * v >= v
  {
  }
}
