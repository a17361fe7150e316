/**
 * `_get_dec_position` and `_float_to_str` of numbers.py, with Python's
 * `int()`, `str.replace(old, '')` and `str.strip()` on the strings involved.
 * A float reaches `_float_to_str` as the text `str(number)` split at the
 * decimal point; here the two digit strings are the input.
 */
module DecimalWords {
  import opened Wrappers
  import opened Errors
  import opened Tables
  import opened IntWords
  import opened Grouped

  predicate IsDigits(s: string)
  {
    forall i :: 0 <= i < |s| ==> '0' <= s[i] <= '9'
  }

  /** The digits on one side of the decimal point of a printed float: never empty. */
  type Digits = s: string | |s| > 0 && IsDigits(s) witness "0"

  predicate AllZeros(s: string)
  {
    forall i :: 0 <= i < |s| ==> s[i] == '0'
  }

  /** Python's `int()` on a string of decimal digits (leading zeros allowed). */
  function DigitsValue(s: string): (r: nat)
    requires IsDigits(s)
    ensures r < Pow10(|s|)
    ensures r == 0 <==> AllZeros(s)
  {
    if s == [] then 0
    else
      var init := s[..|s| - 1];
      assert AllZeros(s) <==> AllZeros(init) && s[|s| - 1] == '0';
      DigitsValue(init) * 10 + (s[|s| - 1] as int - '0' as int)
  }

  /**
   * The loop of `_get_dec_position`: look at the `i`-th digit from the right,
   * for i = 1, 2, ...; at the first that is not '0', answer how many digits
   * precede it. Past the first digit the loop ends and the method returns `None`.
   */
  function DecPositionFrom(s: string, i: nat): (r: Option<nat>)
    requires 1 <= i <= |s| + 1
    decreases |s| + 1 - i
    ensures r.Some? ==> r.value <= |s| - i && s[r.value] != '0'
    ensures r.Some? ==> forall j :: r.value < j <= |s| - i ==> s[j] == '0'
    ensures r.None? <==> forall j :: 0 <= j <= |s| - i ==> s[j] == '0'
  {
    if i > |s| then None
    else if s[|s| - i] == '0' then DecPositionFrom(s, i + 1)
    else Some(|s[..|s| - i]|)
  }

  /**
   * `_get_dec_position`: the 0-based index of the last digit that is not '0',
   * or `None` when every digit is '0'.
   */
  function GetDecPosition(s: string): (r: Option<nat>)
    ensures r.Some? ==> r.value < |s| && s[r.value] != '0'
    ensures r.Some? ==> forall j :: r.value < j < |s| ==> s[j] == '0'
    ensures r.None? <==> AllZeros(s)
  {
    DecPositionFrom(s, 1)
  }

  /** The characters Python's `str.isspace()` accepts, which `str.strip()` removes. */
  predicate IsSpace(c: char)
  {
    var k := c as int;
    (9 <= k <= 13) || (28 <= k <= 32) || k == 0x85 || k == 0xA0 || k == 0x1680
    || (0x2000 <= k <= 0x200A) || k == 0x2028 || k == 0x2029 || k == 0x202F
    || k == 0x205F || k == 0x3000
  }

  /** Every character of `x` is whitespace. */
  predicate AllSpace(x: string)
  {
    forall i :: 0 <= i < |x| ==> IsSpace(x[i])
  }

  lemma SpaceBefore(c: char, x: string)
    requires IsSpace(c) && AllSpace(x)
    ensures AllSpace([c] + x)
  {
    forall i | 0 <= i < |x| + 1
      ensures IsSpace(([c] + x)[i])
    {
      if i > 0 {
        assert ([c] + x)[i] == x[i - 1];
      }
    }
  }

  lemma SpaceAfter(x: string, c: char)
    requires AllSpace(x) && IsSpace(c)
    ensures AllSpace(x + [c])
  {
    forall i | 0 <= i < |x| + 1
      ensures IsSpace((x + [c])[i])
    {
      if i < |x| {
        assert (x + [c])[i] == x[i];
      }
    }
  }

  /** `str.lstrip()`: drop the leading whitespace. */
  function StripLeading(s: string): (r: string)
    ensures |r| <= |s| && r == s[|s| - |r|..]
    ensures AllSpace(s[..|s| - |r|])
    ensures r != [] ==> !IsSpace(r[0])
  {
    if s != [] && IsSpace(s[0]) then
      var r := StripLeading(s[1..]);
      assert s[..|s| - |r|] == [s[0]] + s[1..][..|s| - 1 - |r|];
      SpaceBefore(s[0], s[1..][..|s| - 1 - |r|]);
      r
    else s
  }

  /** `str.rstrip()`: drop the trailing whitespace. */
  function StripTrailing(s: string): (r: string)
    ensures |r| <= |s| && r == s[..|r|]
    ensures AllSpace(s[|r|..])
    ensures r != [] ==> !IsSpace(r[|r| - 1])
  {
    if s != [] && IsSpace(s[|s| - 1]) then
      var r := StripTrailing(s[..|s| - 1]);
      assert s[|r|..] == s[..|s| - 1][|r|..] + [s[|s| - 1]];
      SpaceAfter(s[..|s| - 1][|r|..], s[|s| - 1]);
      r
    else s
  }

  /** `r` is the slice of `s` starting at `a`, with only whitespace on either side of it. */
  predicate SliceBetweenSpaces(s: string, r: string, a: nat)
  {
    a + |r| <= |s| && r == s[a..a + |r|] && AllSpace(s[..a]) && AllSpace(s[a + |r|..])
  }

  /**
   * `str.strip()`: drop the whitespace at both ends. The result is a slice
   * of `s` with only whitespace cut off before and after it.
   */
  function Strip(s: string): (r: string)
    ensures exists a :: SliceBetweenSpaces(s, r, a)
    ensures r != [] ==> !IsSpace(r[0]) && !IsSpace(r[|r| - 1])
    ensures s != [] && !IsSpace(s[0]) && !IsSpace(s[|s| - 1]) ==> r == s
  {
    var t := StripLeading(s);
    var r := StripTrailing(t);
    StrippedSlice(s, t, r);
    StrippedEnds(s, t, r);
    r
  }

  /** Neither end of the stripped string is whitespace, and a string already so is kept. */
  lemma StrippedEnds(s: string, t: string, r: string)
    requires t == StripLeading(s) && r == StripTrailing(t)
    ensures r != [] ==> !IsSpace(r[0]) && !IsSpace(r[|r| - 1])
    ensures s != [] && !IsSpace(s[0]) && !IsSpace(s[|s| - 1]) ==> r == s
  {
    assert r != [] ==> r[0] == t[0];
    assert s != [] && !IsSpace(s[0]) ==> t == s;
  }

  /** Cutting whitespace off the left end and then off the right end leaves a slice between spaces. */
  lemma StrippedSlice(s: string, t: string, r: string)
    requires |t| <= |s| && t == s[|s| - |t|..] && AllSpace(s[..|s| - |t|])
    requires |r| <= |t| && r == t[..|r|] && AllSpace(t[|r|..])
    ensures SliceBetweenSpaces(s, r, |s| - |t|)
  {
    var a := |s| - |t|;
    SliceOfSuffix(s, t, r);
    assert s[a + |r|..] == t[|r|..];
  }

  /** A prefix of a suffix of `s` is a slice of `s`. */
  lemma SliceOfSuffix(s: string, t: string, r: string)
    requires |t| <= |s| && t == s[|s| - |t|..]
    requires |r| <= |t| && r == t[..|r|]
    ensures r == s[|s| - |t|..|s| - |t| + |r|]
  {
  }

  predicate OccursAt(s: string, pattern: string, i: nat)
  {
    i + |pattern| <= |s| && s[i..i + |pattern|] == pattern
  }

  /**
   * `s.replace(pattern, '')`: scanning from the left, remove every occurrence
   * of `pattern` that does not overlap one removed before it.
   */
  function RemoveAll(s: string, pattern: string): (r: string)
    requires |pattern| > 0
    decreases |s|
    ensures |r| <= |s|
  {
    if |s| < |pattern| then s
    else if s[..|pattern|] == pattern then RemoveAll(s[|pattern|..], pattern)
    else [s[0]] + RemoveAll(s[1..], pattern)
  }

  /** A string holding no occurrence of the pattern is left as it is. */
  lemma {:induction false} NoOccurrenceKept(s: string, pattern: string)
    requires |pattern| > 0
    requires forall i :: 0 <= i < |s| ==> !OccursAt(s, pattern, i)
    ensures RemoveAll(s, pattern) == s
    decreases |s|
  {
    if |s| >= |pattern| {
      assert !OccursAt(s, pattern, 0);
      forall i | 0 <= i < |s| - 1
        ensures !OccursAt(s[1..], pattern, i)
      {
        assert !OccursAt(s, pattern, i + 1);
        if i + |pattern| <= |s| - 1 {
          SliceOfTail(s, i, |pattern|);
        }
      }
      NoOccurrenceKept(s[1..], pattern);
      assert [s[0]] + s[1..] == s;
    }
  }

  lemma SliceOfTail(s: string, i: nat, k: nat)
    requires s != [] && i + k <= |s| - 1
    ensures s[1..][i..i + k] == s[i + 1..i + 1 + k]
  {
  }

  /** Python's `'{}'.format(x)` of what `_int_to_str` returns: `None` prints as "None". */
  function Format(o: Option<string>): string
  {
    match o
    case Some(s) => s
    case None => "None"
  }

  /** `_float_to_str`, given the two sides of the printed float. */
  function FloatToStr(intDigits: Digits, fracDigits: Digits): (r: Result<string, Error>)
    ensures r.Err? ==> r.error == NoFractionName
    ensures r.Err? <==> exists j :: 20 <= j < |fracDigits| && fracDigits[j] != '0'
  {
    var decInt := DigitsValue(fracDigits);
    var intPart := Format(IntToStr(DigitsValue(intDigits)));
    if decInt != 0 then
      var decPart := Format(IntToStr(decInt));
      var pos := GetDecPosition(fracDigits).value;
      NamedDenominator(pos + 1);
      match IntToStr(Pow10(pos + 1))
      case None => Err(NoFractionName)
      case Some(decName) => Ok(intPart + " and " + decPart + " " + Strip(RemoveAll(decName, One)) + "ths")
    else
      Ok(intPart)
  }

  /** Ten to the power `k` has a spelling exactly when `k` is at most 20. */
  lemma NamedDenominator(k: nat)
    ensures Pow10(k) < SextillionValue <==> k < 21
  {
    MagnitudesArePowers(9);
    if k < 21 {
      Pow10Increasing(k, 21);
    } else if k > 21 {
      Pow10Increasing(21, k);
    }
  }

  /** With no non-zero fraction digit only the integer part is spelled. */
  lemma WholeNumber(intDigits: Digits, fracDigits: Digits)
    requires AllZeros(fracDigits) && DigitsValue(intDigits) < SextillionValue
    ensures FloatToStr(intDigits, fracDigits) == Ok(IntToWords(DigitsValue(intDigits)))
  {
  }

  /**
   * A non-zero fraction whose last non-zero digit sits at index `pos` < 20,
   * with both sides below 10^21: "<integer> and <numerator> <denominator>ths".
   */
  lemma FractionSpelled(intDigits: Digits, fracDigits: Digits, pos: nat)
    requires GetDecPosition(fracDigits) == Some(pos) && pos < 20
    requires DigitsValue(intDigits) < SextillionValue && DigitsValue(fracDigits) < SextillionValue
    ensures FloatToStr(intDigits, fracDigits) ==
      Ok(IntToWords(DigitsValue(intDigits)) + " and " + IntToWords(DigitsValue(fracDigits)) + " "
         + DenominatorWord(pos + 1) + "ths")
  {
    FractionTaken(intDigits, fracDigits, pos);
    FractionNameOfPower(pos + 1);
  }

  /** The branch of `_float_to_str` for a non-zero fraction with a nameable denominator. */
  lemma FractionTaken(intDigits: Digits, fracDigits: Digits, pos: nat)
    requires GetDecPosition(fracDigits) == Some(pos) && pos < 20
    ensures Pow10(pos + 1) < SextillionValue
    ensures FloatToStr(intDigits, fracDigits) ==
      Ok(Format(IntToStr(DigitsValue(intDigits))) + " and " + Format(IntToStr(DigitsValue(fracDigits))) + " "
         + Strip(RemoveAll(IntToWords(Pow10(pos + 1)), One)) + "ths")
  {
    NamedDenominator(pos + 1);
    assert DigitsValue(fracDigits) != 0;
  }

  /**
   * A fraction as `str()` prints a float: at most 20 digits, the last one not
   * '0'. The denominator is ten to the number of digits, so the words name
   * exactly the printed value, and no side ever spells "None".
   */
  lemma PrintedFraction(intDigits: Digits, fracDigits: Digits)
    requires DigitsValue(intDigits) < SextillionValue
    requires |fracDigits| <= 20 && fracDigits[|fracDigits| - 1] != '0'
    ensures DigitsValue(fracDigits) < Pow10(|fracDigits|) < SextillionValue
    ensures FloatToStr(intDigits, fracDigits) ==
      Ok(IntToWords(DigitsValue(intDigits)) + " and " + IntToWords(DigitsValue(fracDigits)) + " "
         + DenominatorWord(|fracDigits|) + "ths")
  {
    ExactDenominator(fracDigits);
    NamedDenominator(|fracDigits|);
    FractionSpelled(intDigits, fracDigits, |fracDigits| - 1);
  }

  /** `n` copies of the digit '0'. */
  function Zeros(n: nat): (r: string)
    ensures |r| == n && AllZeros(r)
  {
    seq(n, _ => '0')
  }

  /** Zeros appended to the fraction digits leave the position of the last non-zero digit unchanged. */
  lemma TrailingZerosIgnored(s: string, n: nat)
    ensures GetDecPosition(s + Zeros(n)) == GetDecPosition(s)
  {
    var t := s + Zeros(n);
    match GetDecPosition(s)
    case None =>
      assert AllZeros(t);
    case Some(p) =>
      assert t[p] != '0';
      var q := GetDecPosition(t).value;
      assert p <= q;
  }

  /** One more digit at the end multiplies `int()` of the digits by ten and adds that digit; a trailing zero only scales. */
  lemma AppendDigit(s: string, c: char)
    requires IsDigits(s) && '0' <= c <= '9'
    ensures IsDigits(s + [c])
    ensures DigitsValue(s + [c]) == 10 * DigitsValue(s) + (c as int - '0' as int)
    ensures c == '0' ==> DigitsValue(s + [c]) == 10 * DigitsValue(s)
  {
    assert (s + [c])[..|s|] == s;
  }

  /**
   * When the last fraction digit is not '0' (as in every fraction `str()` of a
   * float prints), the denominator `_float_to_str` names is 10 to the number
   * of fraction digits: the words denote exactly the printed fraction.
   */
  lemma ExactDenominator(s: string)
    requires s != [] && s[|s| - 1] != '0'
    ensures GetDecPosition(s) == Some(|s| - 1)
  {
  }

  /** `p + x` with `p` in front loses exactly that leading `p`. */
  lemma RemoveLeading(pattern: string, x: string)
    requires |pattern| > 0
    ensures RemoveAll(pattern + x, pattern) == RemoveAll(x, pattern)
  {
    var s := pattern + x;
    assert s[..|pattern|] == pattern;
    assert s[|pattern|..] == x;
  }

  /** A string lacking one of the pattern's characters holds no occurrence and is left as it is. */
  lemma {:induction false} MissingCharKept(s: string, pattern: string, c: char)
    requires |pattern| > 0 && c in pattern && c !in s
    ensures RemoveAll(s, pattern) == s
  {
    forall i | 0 <= i < |s|
      ensures !OccursAt(s, pattern, i)
    {
    }
    NoOccurrenceKept(s, pattern);
  }

  /**
   * `replace` distributes over a concatenation whose left part ends in a
   * character the pattern does not contain: no occurrence straddles the seam.
   */
  lemma {:induction false} RemoveAllConcat(a: string, b: string, pattern: string)
    requires |pattern| > 0 && a != [] && a[|a| - 1] !in pattern
    ensures RemoveAll(a + b, pattern) == RemoveAll(a, pattern) + RemoveAll(b, pattern)
    decreases |a|
  {
    var n := |pattern|;
    if |a + b| < n {
    } else if (a + b)[..n] == pattern {
      SkipOccurrence(a, b, pattern);
    } else {
      KeepFirst(a, b, pattern);
    }
  }

  /** The case of `RemoveAllConcat` where an occurrence starts the string: it lies inside `a`. */
  lemma {:induction false} SkipOccurrence(a: string, b: string, pattern: string)
    requires |pattern| > 0 && a != [] && a[|a| - 1] !in pattern
    requires |pattern| <= |a + b| && (a + b)[..|pattern|] == pattern
    ensures RemoveAll(a + b, pattern) == RemoveAll(a, pattern) + RemoveAll(b, pattern)
    decreases |a|, 0
  {
    var n := |pattern|;
    assert (a + b)[|a| - 1] == a[|a| - 1];
    assert a[..n] == pattern;
    assert (a + b)[n..] == a[n..] + b;
    RemoveAllConcat(a[n..], b, pattern);
  }

  /** The case of `RemoveAllConcat` where the first character is kept. */
  lemma {:induction false} KeepFirst(a: string, b: string, pattern: string)
    requires |pattern| > 0 && a != [] && a[|a| - 1] !in pattern
    requires |pattern| <= |a + b| && (a + b)[..|pattern|] != pattern
    ensures RemoveAll(a + b, pattern) == RemoveAll(a, pattern) + RemoveAll(b, pattern)
    decreases |a|, 1
  {
    var s := a + b;
    assert s[0] == a[0] && s[1..] == a[1..] + b;
    calc {
      RemoveAll(s, pattern);
      { KeptHead(s, pattern); }
      [a[0]] + RemoveAll(a[1..] + b, pattern);
      { TailConcat(a, b, pattern); }
      [a[0]] + (RemoveAll(a[1..], pattern) + RemoveAll(b, pattern));
      ([a[0]] + RemoveAll(a[1..], pattern)) + RemoveAll(b, pattern);
      { HeadOfLeft(a, b, pattern); }
      RemoveAll(a, pattern) + RemoveAll(b, pattern);
    }
  }

  /** The induction step of `KeepFirst`: the rest of `a`, then `b`. */
  lemma {:induction false} TailConcat(a: string, b: string, pattern: string)
    requires |pattern| > 0 && a != [] && a[|a| - 1] !in pattern
    ensures RemoveAll(a[1..] + b, pattern) == RemoveAll(a[1..], pattern) + RemoveAll(b, pattern)
    decreases |a|, 0
  {
    if |a| == 1 {
      assert a[1..] + b == b;
      assert RemoveAll(a[1..], pattern) == [];
    } else {
      RemoveAllConcat(a[1..], b, pattern);
    }
  }

  /** The left part of a concatenation that does not start with the pattern keeps its first character. */
  lemma HeadOfLeft(a: string, b: string, pattern: string)
    requires |pattern| > 0 && a != [] && a[|a| - 1] !in pattern
    requires |pattern| <= |a + b| && (a + b)[..|pattern|] != pattern
    ensures RemoveAll(a, pattern) == [a[0]] + RemoveAll(a[1..], pattern)
  {
    var n := |pattern|;
    if |a| >= n {
      assert a[..n] == (a + b)[..n];
      KeptHead(a, pattern);
    } else {
      assert RemoveAll(a, pattern) == a;
      assert RemoveAll(a[1..], pattern) == a[1..];
      assert [a[0]] + a[1..] == a;
    }
  }

  /** The first character of a string that does not start with the pattern is kept. */
  lemma KeptHead(s: string, pattern: string)
    requires 0 < |pattern| <= |s| && s[..|pattern|] != pattern
    ensures RemoveAll(s, pattern) == [s[0]] + RemoveAll(s[1..], pattern)
  {
  }

  /** One leading blank before a string that has none at either end is all `strip` removes. */
  lemma StripOneBlank(t: string)
    requires t != [] && !IsSpace(t[0]) && !IsSpace(t[|t| - 1])
    ensures Strip(" " + t) == t
  {
    assert (" " + t)[1..] == t;
    assert StripLeading(t) == t;
    assert StripLeading(" " + t) == t;
    assert StripTrailing(t) == t;
  }

  /** The words for 1, 10 and 100, which lead the spelling of every power of ten. */
  const PowerLeads: seq<string> := [One, Ten, One + " " + Hundred]

  lemma SmallPowerWords(m: nat)
    requires m < 3
    ensures Pow10(m) < SextillionValue && IntToWords(Pow10(m)) == PowerLeads[m]
  {
    var n := Pow10(m);
    if m == 0 {
      OneWords(n);
    } else if m == 1 {
      TenWords(n);
    } else {
      HundredWords(n);
    }
  }

  lemma OneWords(n: nat)
    requires n == 1
    ensures n < SextillionValue && IntToWords(n) == One
  {
    BelowTen(n);
  }

  lemma TenWords(n: nat)
    requires n == 10
    ensures n < SextillionValue && IntToWords(n) == Ten
  {
    TensTableWord(n);
  }

  lemma HundredWords(n: nat)
    requires n == 100
    ensures n < SextillionValue && IntToWords(n) == One + " " + Hundred
  {
    var one := 1;
    SegmentSplit(n, 2, one, 0);
    OneWords(one);
    assert NumberNamesList[2] == Hundred;
  }

  /** The scale words from "thousand" up: non-empty, no blank at either end, and no letter 'e'. */
  lemma ScaleWordsPlain(g: nat)
    requires 1 <= g < |GroupNames|
    ensures GroupNames[g] != [] && 'e' !in GroupNames[g]
    ensures !IsSpace(GroupNames[g][0]) && !IsSpace(GroupNames[g][|GroupNames[g]| - 1])
  {
  }

  /**
   * Ten to the power `k`, 1 <= k <= 20, is spelled "one", "ten" or "one
   * hundred" followed by the scale word of its group of three digits.
   */
  lemma PowerWords(k: nat)
    requires 1 <= k < 21
    ensures Pow10(k) < SextillionValue
    ensures IntToWords(Pow10(k)) ==
      if k < 3 then PowerLeads[k] else PowerLeads[k % 3] + " " + GroupNames[k / 3]
  {
    NamedDenominator(k);
    if k < 3 {
      SmallPowerWords(k);
    } else {
      var g, m := k / 3, k % 3;
      assert m + 3 * g == k;
      Pow10Add(m, 3 * g);
      Pow1000IsPow10(g);
      SmallPowerWords(m);
      ScaledLead(Pow10(m), g, Pow10(k));
    }
  }

  /** One, ten or a hundred times a power of a thousand is spelled as that lead and the scale word. */
  lemma ScaledLead(lead: nat, g: nat, n: nat)
    requires lead == 1 || lead == 10 || lead == 100
    requires 1 <= g < |GroupNames| && n == lead * Pow1000(g)
    ensures n < SextillionValue && lead < SextillionValue
    ensures IntToWords(n) == IntToWords(lead) + " " + GroupNames[g]
  {
    GroupScale(g);
    GroupScale(g + 1);
    var p := Pow1000(g);
    assert Pow1000(g + 1) == 1000 * p;
    if lead == 1 {
      SegmentSplit(n, g + 2, 1, 0);
    } else if lead == 10 {
      SegmentSplit(n, g + 2, 10, 0);
    } else {
      SegmentSplit(n, g + 2, 100, 0);
    }
  }

  /**
   * The name of the fraction one over ten to the `k`, before its "ths":
   * "ten" and "hundred", then the scale word of the group, after "ten " or
   * "hundred " when `k` is one or two above a multiple of three.
   */
  function DenominatorWord(k: nat): string
    requires 1 <= k < 21
  {
    if k < 3 then ["", Ten, Hundred][k]
    else ["", Ten + " ", Hundred + " "][k % 3] + GroupNames[k / 3]
  }

  /**
   * Dropping every "one" from the spelling of ten to the `k` and stripping
   * the blanks leaves the denominator name: "ten", "hundred", "thousand",
   * "ten thousand", "hundred thousand", "million", ...
   */
  lemma FractionNameOfPower(k: nat)
    requires 1 <= k < 21
    ensures Pow10(k) < SextillionValue
    ensures Strip(RemoveAll(IntToWords(Pow10(k)), One)) == DenominatorWord(k)
  {
    PowerWords(k);
    if k == 1 {
      TenName();
    } else if k == 2 {
      HundredName();
    } else {
      ScaledName(k % 3, k / 3);
    }
  }

  lemma TenName()
    ensures Strip(RemoveAll(Ten, One)) == Ten
  {
    MissingCharKept(Ten, One, 'o');
    StripPlain(Ten);
  }

  /** A word with no whitespace at its ends is left alone by `strip`. */
  lemma StripPlain(t: string)
    requires t != [] && !IsSpace(t[0]) && !IsSpace(t[|t| - 1])
    ensures Strip(t) == t
  {
  }

  lemma HundredName()
    ensures Strip(RemoveAll(One + " " + Hundred, One)) == Hundred
  {
    var rest := " " + Hundred;
    assert One + " " + Hundred == One + rest;
    RemoveLeading(One, rest);
    MissingCharKept(rest, One, 'o');
    StripOneBlank(Hundred);
  }

  /** The case of `FractionNameOfPower` from "thousand" up: only the lead changes. */
  lemma ScaledName(m: nat, g: nat)
    requires m < 3 && 1 <= g < |GroupNames|
    ensures Strip(RemoveAll(PowerLeads[m] + " " + GroupNames[g], One)) ==
      ["", Ten + " ", Hundred + " "][m] + GroupNames[g]
  {
    var name := GroupNames[g];
    ScaleWordsPlain(g);
    MissingCharKept(name, One, 'e');
    if m == 0 {
      LeadingPatternDropped(One, name);
    } else if m == 1 {
      TenKept();
      WordKept(Ten, name, One);
    } else {
      HundredKept();
      LeadDropped(One, Hundred, name);
    }
  }

  /** The pattern, a blank and a name: the pattern and the blank go. */
  lemma LeadingPatternDropped(pattern: string, name: string)
    requires |pattern| > 0 && ' ' !in pattern
    requires name != [] && !IsSpace(name[0]) && !IsSpace(name[|name| - 1])
    requires RemoveAll(name, pattern) == name
    ensures Strip(RemoveAll(pattern + " " + name, pattern)) == name
  {
    RemoveAllConcat(pattern + " ", name, pattern);
    RemoveLeading(pattern, " ");
    MissingCharKept(" ", pattern, pattern[0]);
    StripOneBlank(name);
  }

  /** "ten " has no 'o': `replace` leaves it. */
  lemma TenKept()
    ensures RemoveAll(Ten + " ", One) == Ten + " "
  {
    MissingCharKept(Ten + " ", One, 'o');
  }

  /** " hundred " has no 'o': `replace` leaves it. */
  lemma HundredKept()
    ensures RemoveAll(" " + Hundred + " ", One) == " " + Hundred + " "
  {
    MissingCharKept(" " + Hundred + " ", One, 'o');
  }

  /** A word the pattern leaves alone, a blank and a name: nothing is removed, nothing stripped. */
  lemma WordKept(word: string, name: string, pattern: string)
    requires |pattern| > 0 && ' ' !in pattern
    requires word != [] && !IsSpace(word[0])
    requires name != [] && !IsSpace(name[|name| - 1])
    requires RemoveAll(word + " ", pattern) == word + " " && RemoveAll(name, pattern) == name
    ensures Strip(RemoveAll(word + " " + name, pattern)) == word + " " + name
  {
    RemoveAllConcat(word + " ", name, pattern);
    var t := word + " " + name;
    assert t[0] == word[0] && t[|t| - 1] == name[|name| - 1];
  }

  /** The pattern, then a blank, a word the pattern leaves alone, a blank and a name: the pattern and the first blank go. */
  lemma LeadDropped(pattern: string, word: string, name: string)
    requires |pattern| > 0 && ' ' !in pattern
    requires word != [] && !IsSpace(word[0])
    requires name != [] && !IsSpace(name[|name| - 1])
    requires RemoveAll(" " + word + " ", pattern) == " " + word + " " && RemoveAll(name, pattern) == name
    ensures Strip(RemoveAll(pattern + " " + word + " " + name, pattern)) == word + " " + name
  {
    var t := word + " " + name;
    LeadRemoved(pattern, word, name);
    assert t[0] == word[0] && t[|t| - 1] == name[|name| - 1];
    StripOneBlank(t);
  }

  lemma LeadRemoved(pattern: string, word: string, name: string)
    requires |pattern| > 0 && ' ' !in pattern
    requires RemoveAll(" " + word + " ", pattern) == " " + word + " " && RemoveAll(name, pattern) == name
    ensures RemoveAll(pattern + " " + word + " " + name, pattern) == " " + (word + " " + name)
  {
    var rest := " " + word + " ";
    JoinParts(pattern, word, name);
    RemoveAllConcat(pattern + rest, name, pattern);
    RemoveLeading(pattern, rest);
  }

  lemma JoinParts(pattern: string, word: string, name: string)
    ensures pattern + " " + word + " " + name == (pattern + (" " + word + " ")) + name
    ensures (" " + word + " ") + name == " " + (word + " " + name)
  {
  }
}
