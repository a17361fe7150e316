/**
 * An independent reading of `_int_to_str` on large numbers: English groups
 * digits in threes, spells each non-zero group of three followed by its scale
 * word (thousand, million, ...) and separates the groups with ", ".
 * `ThousandGroups` proves that the magnitude-table recursion of numbers.py
 * produces exactly that text.
 */
module Grouped {
  import opened Tables
  import opened IntWords

  /** The scale word of the k-th group of three digits (none for the last group). */
  const GroupNames: seq<string> := ["", Thousand, Million, Billion, Trillion, Quadrillion, Quintillion]

  function Pow1000(k: nat): (r: nat)
    ensures r >= 1
  {
    if k == 0 then 1 else 1000 * Pow1000(k - 1)
  }

  /** A group of three digits 1..999: a hundreds digit and "hundred", then the last two digits. */
  function GroupWords(g: nat): string
    requires 0 < g < 1000
  {
    if g < 100 then IntToWords(g)
    else OnesMappings[g / 100] + " " + Hundred + (if g % 100 == 0 then "" else " " + IntToWords(g % 100))
  }

  /** The spelling of `0 < n < 1000^(k + 1)` by its groups of three digits, from the k-th down. */
  function GroupedWords(n: nat, k: nat): string
    requires 0 < n < Pow1000(k + 1) && k < |GroupNames|
    decreases k
  {
    if k == 0 then GroupWords(n)
    else
      var q, rem := n / Pow1000(k), n % Pow1000(k);
      GroupBounds(n, k);
      if q == 0 then GroupedWords(n, k - 1)
      else if rem == 0 then GroupWords(q) + " " + GroupNames[k]
      else GroupWords(q) + " " + GroupNames[k] + ", " + GroupedWords(rem, k - 1)
  }

  lemma GroupBounds(n: nat, k: nat)
    requires n < Pow1000(k + 1)
    ensures n / Pow1000(k) < 1000 && n % Pow1000(k) < Pow1000(k)
    ensures n / Pow1000(k) == 0 <==> n < Pow1000(k)
  {
    var p := Pow1000(k);
    if n >= p {
      DivBelow(n, p, 1000);
    }
  }

  /** A scale of three-digit groups is the magnitude two places further along the name list. */
  lemma {:induction false} GroupScale(k: nat)
    requires 1 <= k < |GroupNames| + 1
    ensures Pow1000(k) == MagnitudeValue(k + 2)
    ensures k < |GroupNames| ==> GroupNames[k] == NumberNamesList[k + 2]
  {
    Pow1000IsPow10(k);
    MagnitudesArePowers(k + 2);
  }

  lemma {:induction false} Pow1000IsPow10(k: nat)
    ensures Pow1000(k) == Pow10(3 * k)
  {
    if k > 0 {
      Pow1000IsPow10(k - 1);
      var m := 3 * k;
      assert Pow10(m) == 10 * Pow10(m - 1) == 100 * Pow10(m - 2) == 1000 * Pow10(m - 3);
    }
  }

  /** Below one thousand, the segment recursion spells a number as one group. */
  lemma OneGroup(n: nat)
    requires 0 < n < 1000
    ensures IntToWords(n) == GroupWords(n)
  {
    if n >= 100 {
      var q, rem := n / 100, n % 100;
      MappingsAgree(2);
      SegmentSplit(n, 2, q, rem);
      BelowTen(q);
      var head := IntToWords(q) + " " + Hundred;
      if rem != 0 {
        assert IntToWords(n) == head + " " + IntToWords(rem);
      }
    }
  }

  /** `_int_to_str` spells a number by its non-zero groups of three digits, largest first. */
  lemma {:induction false} ThousandGroups(n: nat, k: nat)
    requires 0 < n < Pow1000(k + 1) && k < |GroupNames|
    ensures n < SextillionValue
    ensures IntToWords(n) == GroupedWords(n, k)
  {
    GroupScale(k + 1);
    if k + 1 < |GroupNames| {
      MagnitudesIncreasing(k + 3, |NumberNamesList| - 1);
    }
    if k == 0 {
      OneGroup(n);
    } else {
      GroupBounds(n, k);
      if n < Pow1000(k) {
        ThousandGroups(n, k - 1);
      } else {
        var rem: nat := n % Pow1000(k);
        if rem != 0 {
          ThousandGroups(rem, k - 1);
        }
        LeadingGroup(n, k);
      }
    }
  }

  /** One step of `ThousandGroups`: the leading group is the quotient by the k-th scale. */
  lemma LeadingGroup(n: nat, k: nat)
    requires 1 <= k < |GroupNames| && Pow1000(k) <= n < Pow1000(k + 1)
    requires n % Pow1000(k) != 0 ==>
      n % Pow1000(k) < SextillionValue && IntToWords(n % Pow1000(k)) == GroupedWords(n % Pow1000(k), k - 1)
    ensures n < SextillionValue
    ensures IntToWords(n) == GroupedWords(n, k)
  {
    GroupScale(k);
    GroupScale(k + 1);
    if k + 1 < |GroupNames| {
      MagnitudesIncreasing(k + 3, |NumberNamesList| - 1);
    }
    var p := Pow1000(k);
    var q, rem := n / p, n % p;
    GroupBounds(n, k);
    DivModParts(n, p);
    SegmentSplit(n, k + 2, q, rem);
    OneGroup(q);
    var top := IntToWords(q) + " " + GroupNames[k];
    if rem != 0 {
      CommaJoin(top, IntToWords(rem));
    }
  }

  lemma CommaJoin(a: string, b: string)
    ensures a + "," + " " + b == a + ", " + b
  {
  }

  lemma DivModParts(n: nat, p: nat)
    requires p > 0
    ensures n / p >= 0 && n == n / p * p + n % p
  {
  }
}
