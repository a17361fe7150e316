# NumberToString in Dafny

A verified model of `NumberToString` from `numbers.py`. The class spells an
integer or a decimal number in English words. Examples:
- 12345 becomes "twelve thousand, three hundred forty-five";
- -256 becomes "negative two hundred fifty-six";
- 1.1245 becomes "one and one thousand, two hundred forty-five ten thousandths".

The model is functional, like the source: constant tables, recursion on
smaller numbers, table lookups and string formatting. The two read-only
search loops are recursive functions: the segment search of `_int_to_str`
and the scan for the last non-zero digit in `_get_dec_position`.

Modules, one per file:

- `Wrappers` (wrappers.dfy): `Option` and `Result`.
- `Errors` (errors.dfy): the two ways `transform` can fail.
  - `MaxNumberExceeded` carries the largest number allowed.
  - `NoFractionName` stands for the attribute error that `_float_to_str` raises when the denominator 10^(pos+1) has no spelling.
- `Tables` (tables.dfy): `ONES_MAPPINGS`, `TENS_MAPPINGS`, the name constants, `NUMBERS_MAPPINGS` and `NUMBER_NAMES_LIST`, with their values as powers of ten.
- `IntWords` (int_words.dfy): `_get_ones`, `_get_tens`, `_get_hundreds` and `_int_to_str`, with the band, shape and composition properties.
- `Grouped` (grouped.dfy): an independent definition of English number words by groups of three digits. It is proved equal to the recursion of `_int_to_str`.
- `DecimalWords` (decimal_words.dfy): `int()` of a digit string, `_get_dec_position`, `str.replace`/`str.strip` as `_float_to_str` uses them, and `_float_to_str`.
- `NumberToString` (number_to_string.dfy): the input type and `transform`.
- `MainVectors` (main_vectors.dfy): the assertions of the main block (numbers.py:174-184) as lemmas.

Inputs. An int is a Dafny `int`. A float is given as its sign and the two
digit strings that `str()` prints on either side of the point, for example
`Float(false, "123", "00045")` for `123.0004500`.

Two details of the source that the model keeps:
- `_get_dec_position` returns `len(dec_str[:-i])`, the 0-based index from the left of the last digit that is not '0' (numbers.py:119).
- `dec_name.replace(self.ONE, '')` removes every occurrence of the letters "one", not only a leading word (numbers.py:144). `FractionNameOfPower` proves that the denominators this reaches come out as "ten", "hundred", "thousand", "ten thousand" and so on.

## Model

| member | source | states |
|---|---|---|
| Tables.MappingsAgree | numbers.py:54-78 | each name in `NUMBER_NAMES_LIST` is a key of `NUMBERS_MAPPINGS` with the value listed at the same position; "hundred" is exactly index 2 |
| Tables.SmallMagnitudes | numbers.py:55-57 | one, ten and hundred are worth 1, 10 and 100 |
| Tables.MagnitudesArePowers | numbers.py:54-65 | every magnitude is ten to its exponent (0, 1, 2, 3, 6, …, 21); sextillion is 10^21 |
| IntWords.TablesTrimmed | numbers.py:9-41 | no word of the two tables starts or ends with a blank |
| IntWords.TablesUnhyphenated | numbers.py:9-41 | no word of the two tables holds a hyphen |
| IntWords.GetOnes | numbers.py:80-81 | a digit's word has no blank at either end |
| IntWords.GetTens | numbers.py:83-96 | the word for 10..99 has no blank at either end |
| IntWords.FindSegment | numbers.py:129-134 | the loop answers an index i in 2..8 whose band [value(i), value(i+1)) holds n; it answers nothing exactly when n is below the starting band or at least 10^21 |
| IntWords.IntToWords | numbers.py:121-134 | `_int_to_str` reaches a return for every n below 10^21 (the recursion terminates); the words have no blank at either end |
| IntWords.IntToStr | numbers.py:121-134 | `_int_to_str` returns words if and only if n < 10^21, and then they are `IntToWords(n)`; from 10^21 on it falls off the loop and returns None |
| IntWords.GetHundreds | numbers.py:98-112 | the words `_get_hundreds` builds have no blank at either end |
| IntWords.QuotientSmaller | numbers.py:99 | divmod by a magnitude at most n gives a quotient from 1 to below n and a remainder below the magnitude |
| IntWords.MagnitudesIncreasing | numbers.py:54-78 | the magnitudes strictly increase along `NUMBER_NAMES_LIST` |
| IntWords.AtLeastHundred | numbers.py:129-130 | every magnitude the segment loop looks at is at least 100 |
| IntWords.MagnitudeStep | numbers.py:57-64 | from hundred on, the next magnitude is ten times (hundred to thousand) or a thousand times the current one |
| IntWords.BandUnique | numbers.py:129-134 | the bands of indices 2..8 do not overlap |
| IntWords.SegmentFound | numbers.py:129-134 | for n in the band of index i, the loop returns exactly i: the bands cover [100, 10^21) with no gap |
| IntWords.BelowTen | numbers.py:80-81 | 0 gives "zero" and 1..9 the ones word, with no hyphen |
| IntWords.TensTableWord | numbers.py:83-96 | 10..19 and the round tens give the single tens-table word, with no hyphen |
| IntWords.TensHyphenated | numbers.py:84-92 | every other n in 20..99 gives exactly TENS[10·(n div 10)] "-" ONES[n mod 10], which holds a hyphen |
| IntWords.HundredsShape | numbers.py:98-112 | `_get_hundreds` gives "Q seg" for remainder 0, "Q hundred R" with no comma for hundred and "Q seg, R" for the larger segments; Q and R are smaller than n |
| IntWords.AtSegment | numbers.py:129-134 | from 100 on, `_int_to_str` hands n to `_get_hundreds` with the name of the band holding n |
| IntWords.SegmentComposition | numbers.py:98-112 | the words of n in band i are those of n div value(i), the name and, for a non-zero remainder, a comma (only from thousand on) and the words of the remainder |
| IntWords.SegmentSplit | numbers.py:98-112 | the same composition for any quotient and remainder a caller gives with n = q·value + rem |
| IntWords.QuotientBounds | numbers.py:129-134 | for the band found, the quotient is 1..9 for hundred and 1..999 from thousand on; the remainder is below the band's value |
| Grouped.GroupScale | numbers.py:57-64 | the k-th group of three digits has the scale of the magnitude two places further along the names, and the same name |
| Grouped.OneGroup | numbers.py:98-112 | below one thousand the recursion spells n as one group: a hundreds digit and "hundred", then the last two digits |
| Grouped.LeadingGroup | numbers.py:98-112 | one step of the group reading: the leading group is the quotient by the k-th scale, followed by ", " and the rest |
| Grouped.ThousandGroups | numbers.py:121-134 | `_int_to_str` equals the reading by non-zero groups of three digits, largest first, joined by ", " |
| DecimalWords.DigitsValue | numbers.py:138 | `int()` of k digits is below 10^k and is zero exactly when every digit is '0' |
| DecimalWords.AppendDigit | numbers.py:138 | one more digit multiplies `int()` by ten and adds the digit; a trailing '0' only scales |
| DecimalWords.DecPositionFrom | numbers.py:115-119 | the scan from the i-th digit from the right finds a digit that is not '0', with only '0' after it up to that point; it finds nothing exactly when all those digits are '0' |
| DecimalWords.GetDecPosition | numbers.py:114-119 | the result is the index of the last digit that is not '0': it is not '0' and every later digit is; None exactly when all digits are '0' |
| DecimalWords.TrailingZerosIgnored | numbers.py:114-119 | appending zeros to the fraction digits does not change the position |
| DecimalWords.ExactDenominator | numbers.py:114-119 | when the last digit is not '0', the position is the last index, so the denominator is 10 to the number of digits |
| DecimalWords.StripLeading | numbers.py:144 | the result is a suffix of s; what was dropped is whitespace; it does not start with whitespace |
| DecimalWords.StripTrailing | numbers.py:144 | the result is a prefix of s; what was dropped is whitespace; it does not end with whitespace |
| DecimalWords.Strip | numbers.py:144 | the result is a slice of s with only whitespace before and after it, and it has no whitespace at either end; a string without whitespace at its ends is returned unchanged |
| DecimalWords.StripOneBlank | numbers.py:144 | `strip` of a blank followed by a string without whitespace at its ends gives that string |
| DecimalWords.RemoveAll | numbers.py:144 | `replace(pattern, '')` never lengthens the string |
| DecimalWords.NoOccurrenceKept | numbers.py:144 | a string with no occurrence of the pattern is unchanged |
| DecimalWords.MissingCharKept | numbers.py:144 | a string lacking some letter of the pattern is unchanged |
| DecimalWords.RemoveLeading | numbers.py:144 | a leading occurrence is removed and the rest is processed as if alone |
| DecimalWords.RemoveAllConcat | numbers.py:144 | when the first part ends in a letter outside the pattern, removal distributes over the concatenation |
| DecimalWords.PowerWords | numbers.py:121-134 | 10^k for 1 <= k <= 20 is spelled "one", "ten" or "one hundred" followed by the scale word of k div 3 |
| DecimalWords.FractionNameOfPower | numbers.py:143-144 | removing "one" from the words of 10^k and stripping gives "ten", "hundred", or "ten "/"hundred "/"" before the scale word ("thousand", …, "quintillion") |
| DecimalWords.NamedDenominator | numbers.py:143 | 10^k has a spelling if and only if k <= 20 |
| DecimalWords.FloatToStr | numbers.py:136-151 | `_float_to_str` fails exactly when a digit after the twentieth fraction digit is not '0'; the only failure is the missing fraction name |
| DecimalWords.WholeNumber | numbers.py:141 | an all-zero fraction gives the integer-part words alone |
| DecimalWords.FractionSpelled | numbers.py:141-149 | a non-zero fraction whose last non-zero digit is at index pos < 20 gives "I and F Nths", with F the words of the fraction digits read as an integer and N the name of 10^(pos+1) |
| DecimalWords.PrintedFraction | numbers.py:136-149 | for a printed fraction (at most 20 digits, last not '0'), the result is "I and F Nths" with N the name of 10 to the number of digits, and both numbers have words |
| NumberToString.Abs | numbers.py:162-163 | `abs()` is never negative, keeps the magnitude and the kind of number |
| NumberToString.Transform | numbers.py:153-169 | the range error happens exactly when the magnitude is at least 10^21 and reports 10^21 - 1; a fraction-name failure only for floats; an int is spelled exactly when its magnitude is below 10^21 |
| NumberToString.SignPrefix | numbers.py:161-169 | x is spelled exactly when abs(x) is; a negative number is "negative " and the words of abs(x); anything else is the words of abs(x) |
| NumberToString.IntSpelled | numbers.py:153-169 | an int z with abs(z) < 10^21 is spelled as the words of abs(z), after "negative " when z < 0 |
| NumberToString.FloatSpelled | numbers.py:136-169 | a printed float below 10^21 whose fraction is not 0 (at most 20 digits, the last not '0') is spelled "I and F Nths", after "negative " when its sign is set |
| NumberToString.NegativeZero | numbers.py:161-163 | -0.0 gets no prefix and is spelled "zero", like 0.0 |
| MainVectors.VectorMax | numbers.py:174-175 | 999999999999999999999 gives the full "nine hundred ninety-nine quintillion, …, nine hundred ninety-nine" |
| MainVectors.Vector12345 | numbers.py:176 | 12345 gives "twelve thousand, three hundred forty-five" |
| MainVectors.Vector123 | numbers.py:177 | 123 gives "one hundred twenty-three" |
| MainVectors.Vector7 | numbers.py:178 | 7 gives "seven" |
| MainVectors.VectorZero | numbers.py:179-180 | 0 and -0 give "zero" |
| MainVectors.VectorMinus256 | numbers.py:181 | -256 gives "negative two hundred fifty-six" |
| MainVectors.VectorFloat1245 | numbers.py:182 | 1.1245 gives "one and one thousand, two hundred forty-five ten thousandths" |
| MainVectors.VectorFloat6345 | numbers.py:183 | 63.45 gives "sixty-three and forty-five hundredths" |
| MainVectors.VectorFloat12300045 | numbers.py:184 | 123.0004500 gives "one hundred twenty-three and forty-five hundred thousandths" |
| MainVectors.VectorTooLarge | numbers.py:165-166 | 10^21 and -10^21 are refused with the maximum 10^21 - 1 |

## Left out

- `str(number).split('.')` (numbers.py:137) is float-to-text conversion and is not modelled. A float enters as the digit strings `str()` would print. Floats that `str()` prints in exponent form (below 1e-4, or from 1e16 up to the range limit; larger ones meet the range error first) have no `Float` value: `str(1e16)` has no '.' and raises ValueError at the unpacking on numbers.py:137, and `str(1.5e16)` splits but `int('5e+16')` raises ValueError at numbers.py:138. `nan` raises ValueError at numbers.py:137 and `inf` meets the range error at numbers.py:165-166; neither has a `Float` value either.
- The `isinstance` dispatch and the "Invalid number type." exception (numbers.py:154-159): the `Number` datatype admits only ints and floats.
- The text of the exception messages (numbers.py:159, numbers.py:166): errors are `Error` values. The range error keeps the number it reports.
- The float comparisons `number < 0` and `number >= 10**21`: a float is negative when its sign is set and some digit is not '0'. It is out of range when its integer part is at least 10^21.
- The `print` at numbers.py:185: its float literal rounds to 1e21 in floating point, which is not modelled.
- IntWords.GetOnes, IntWords.GetTens, IntWords.GetHundreds, IntWords.IntToWords: their own contracts say only that the words have no blank at either end. The words themselves are stated by BelowTen, TensTableWord, TensHyphenated, HundredsShape, SegmentComposition and ThousandGroups.
- DecimalWords.RemoveAll: its own contract says only that the result is not longer. What it removes is stated by NoOccurrenceKept, MissingCharKept, RemoveLeading and RemoveAllConcat, enough for the denominators `_float_to_str` builds.
- MainVectors.VectorMax: the expected text is written as seven literals joined by `+`, one per segment. It is the same string as `max_str`.
