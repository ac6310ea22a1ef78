# IMC calculator: a verified model

The component in `src/components/IMCCalculator.jsx` is a BMI (IMC, *índice de massa
corporal*) calculator. It has two text fields, height `altura` in centimetres and weight `peso`
in kilograms. A keystroke filter lets only unsigned decimal text into those fields. After every
change the component recomputes a result record. The record holds the BMI, a classification
label, a risk sentence and two colour tokens, all taken from a fixed five-row table. Under the
result it shows a reference table with one label per row.

The Dafny model has one module per concern:

- `Sanitizer` (`sanitizer.dfy`) is the keystroke filter `/^\d*\.?\d*$/`. It is written as a
  left-to-right scan and proved equal to two independent descriptions of the same language.
- `Decimal` (`decimal.dfy`) models `parseFloat` on filtered text, with `None` standing for
  `NaN`. It also models `toFixed(1)` on the table's one-decimal bounds, proved to read back
  through `parseFloat`.
- `Bands` (`bands.dfy`) holds the `CLASSIFICACOES` table, the first-match lookup
  `find(item => imc < item.max)`, and the reference-table labels.
- `Calculator` (`calculator.dfy`) is `calcularResultado`: the input guard, the placeholder
  record, the BMI formula and the copy of the matched row.
- `Form` (`form.dfy`) is the component's state: a class with the two string fields, the guarded
  handler, and the recomputed result. Its invariant is that both fields always pass the filter.
- `Wrappers` (`wrappers.dfy`) holds `Option`.

Arithmetic is exact (`real`), not IEEE-754.

At the band edges the lookup and the table disagree, and the model follows the lookup. Each row
of `CLASSIFICACOES` (lines 5-9) has both a `min` and a `max`, and the reference table at line 144
prints the middle rows as "18.5 - 24.9", "25.0 - 29.9" and "30.0 - 39.9". Read that way, 24.9 is
"Normal" and 39.9 is "Obesidade". But the lookup at line 41 compares the BMI only against each
row's `max`, with a strict `<`, and never reads `min`. So a BMI of exactly 24.9 is shown as
"Sobrepeso" and 39.9 as "Obesidade Grave". Every value in the gaps 24.9–25.0, 29.9–30.0 and
39.9–40.0 goes to the next row, below that row's own `min`.

## Model

| member | source | states |
|---|---|---|
| `Sanitizer.Accepted` | src/components/IMCCalculator.jsx:59 | the handler's test (pattern or empty string) holds exactly when the pattern does; the `''` alternative adds nothing |
| `Sanitizer.MatchesSplitsAtDot` | src/components/IMCCalculator.jsx:59 | a string passes the filter iff everything before its first '.' is digits and everything after it is digits |
| `Sanitizer.MatchesIffDigitsAndOneDot` | src/components/IMCCalculator.jsx:58-59 | a string passes iff it holds only digits and '.' with at most one '.'; so letters, '-', spaces and a second '.' are refused |
| `Sanitizer.MatchesIffPatternShape` | src/components/IMCCalculator.jsx:59 | the left-to-right scan accepts exactly the strings of the form digits, optional '.', digits, anchored at both ends |
| `Sanitizer.Samples` | src/components/IMCCalculator.jsx:56-61 | "", ".", "75", "75.", ".5", "75.5" are accepted; "7a", "-5", " 5", "1.2.3" are refused |
| `Decimal.DigitsValue` | src/components/IMCCalculator.jsx:23-24 | the value of n digits is below 10^n, and it is 0 iff every digit is '0' |
| `Decimal.ParseFloat` | src/components/IMCCalculator.jsx:23-24 | `parseFloat` of a filtered string is NaN iff the string has no digit; otherwise it is a non-negative number |
| `Decimal.DecimalValue` | src/components/IMCCalculator.jsx:23-24 | the value of `whole.frac` is non-negative, and positive iff either part has a non-zero value |
| `Decimal.ParsePositiveIff` | src/components/IMCCalculator.jsx:23-27 | a filtered string parses to a number > 0 iff it holds a digit other than '0' ("0", "0.0", ".0" give 0) |
| `Decimal.ParseDigits` | src/components/IMCCalculator.jsx:23-24 | a non-empty digit string passes the filter and parses to the whole number it spells |
| `Decimal.ParseSamples` | src/components/IMCCalculator.jsx:23-24 | "" and "." are NaN, ".5" is 0.5, "75." is 75 |
| `Decimal.ParseFractionSamples` | src/components/IMCCalculator.jsx:23-24 | "75.5" is 75.5 and "0.0" is 0 |
| `Decimal.ParseHundredths` | src/components/IMCCalculator.jsx:23-24 | "1.25" is 1.25: every fraction digit is read |
| `Decimal.ParseLeadingZeros` | src/components/IMCCalculator.jsx:23-24 | "007.50" is 7.5: leading zeros in the whole part and trailing zeros in the fraction change nothing |
| `Decimal.ParseWholeNumbers` | src/components/IMCCalculator.jsx:23-24 | "0", "70", "100", "175" parse to 0, 70, 100, 175 |
| `Decimal.NatToString` | src/components/IMCCalculator.jsx:144 | the whole-number numeral (plain digits, as JavaScript writes numbers below 10^21) is non-empty digits, has no leading zero, and reads back as the number |
| `Decimal.ToFixed1` | src/components/IMCCalculator.jsx:144 | `toFixed(1)` of a one-decimal value below 10^21 is digits, a '.', and exactly one tenths digit, with at least one digit before the '.' and no leading zero ("0.5", not "00.5"; "7.5", not "07.5") |
| `Decimal.ToFixed1RoundTrip` | src/components/IMCCalculator.jsx:144 | the `toFixed(1)` numeral of a one-decimal value passes the filter and `parseFloat` gives the value back |
| `Decimal.ToFixed1TwoDigits` | src/components/IMCCalculator.jsx:144 | `toFixed(1)` of a value from 10.0 to 99.9 is its two digits, '.', and its tenths digit |
| `Bands.Find` | src/components/IMCCalculator.jsx:41 | `find` returns the first row whose `max` exceeds the value: that row matches and no earlier one does; with no result, no row matches |
| `Bands.ClassificacoesOrdered` | src/components/IMCCalculator.jsx:4-10 | the table's `max` values strictly increase and the last one is `Infinity` |
| `Bands.FindTotal` | src/components/IMCCalculator.jsx:9 | a table ending at `Infinity` always yields a row for every finite `imc`, so for those lines 45-48 never read `undefined` |
| `Bands.FindIsEnclosingRow` | src/components/IMCCalculator.jsx:41 | on an ordered table, row i is found iff `max[i-1] <= x < max[i]` |
| `Bands.Classify` | src/components/IMCCalculator.jsx:41 | for every value the lookup picks a row, and that row's bounds enclose the value |
| `Bands.ClassifyIff` | src/components/IMCCalculator.jsx:5-9 | row i is the chosen one iff the previous `max` is at most the value and the value is below row i's `max` |
| `Bands.BoundGoesToNextRow` | src/components/IMCCalculator.jsx:5-9 | a value exactly on a row's `max` goes to the next row |
| `Bands.BoundaryValues` | src/components/IMCCalculator.jsx:5-9 | 18.5 is Normal, 25.0 is Sobrepeso, 40.0 is Obesidade Grave; 24.9 is Sobrepeso and 39.9 is Obesidade Grave |
| `Bands.GapsBelongToNextRow` | src/components/IMCCalculator.jsx:5-9 | every value in [24.9, 25), [29.9, 30) and [39.9, 40) goes to the next row although it is below that row's `min` |
| `Bands.RowLabel` | src/components/IMCCalculator.jsx:144 | a row starting below 18.5 reads "Abaixo de 18.5"; one starting at 40 or more reads "Acima de 40.0"; any other is the lower bound's one-decimal numeral, " - ", then the upper bound's |
| `Bands.RowLabelReadsBack` | src/components/IMCCalculator.jsx:144 | in a middle row's label, the text before " - " passes the filter and parses to the row's `min`, and the text after it parses to its `max` |
| `Bands.NormalRowLabel` | src/components/IMCCalculator.jsx:144 | the second reference row reads "18.5 - 24.9" |
| `Bands.SobrepesoRowLabel` | src/components/IMCCalculator.jsx:144 | the third reference row reads "25.0 - 29.9" |
| `Bands.ObesidadeRowLabel` | src/components/IMCCalculator.jsx:144 | the fourth reference row reads "30.0 - 39.9" |
| `Bands.ReferenceLabels` | src/components/IMCCalculator.jsx:142-147 | every row's bounds print with one decimal; the five labels are "Abaixo de 18.5", "18.5 - 24.9", "25.0 - 29.9", "30.0 - 39.9", "Acima de 40.0" |
| `Calculator.CentimetresToMetres` | src/components/IMCCalculator.jsx:24 | a NaN height stays NaN after the division by 100 |
| `Calculator.Bmi` | src/components/IMCCalculator.jsx:38 | the BMI of a positive weight and height is positive, and times the squared height it gives the weight |
| `Calculator.CalcularResultado` | src/components/IMCCalculator.jsx:22-50 | the result is the placeholder iff either value is NaN or ≤ 0; otherwise it carries the BMI and the label, risk and colours of the row the lookup picks for it |
| `Calculator.ResultIffNonZeroDigits` | src/components/IMCCalculator.jsx:23-35 | a BMI is shown iff each field holds a digit other than '0' |
| `Calculator.ResultBand` | src/components/IMCCalculator.jsx:41-48 | the label shown is row i's iff the BMI lies in `[max[i-1], max[i])` |
| `Calculator.Example175cm70kg` | src/components/IMCCalculator.jsx:22-50 | height "175" and weight "70" give 70 / 3.0625 (about 22.86) and "Normal" |
| `Calculator.ExampleZeroHeight` | src/components/IMCCalculator.jsx:27-35 | height "0" gives the placeholder although it is a number |
| `Calculator.ExampleGap` | src/components/IMCCalculator.jsx:41 | weight "24.9" at height "100" gives "Sobrepeso" |
| `Form.IMCCalculator.constructor` | src/components/IMCCalculator.jsx:18-19 | both fields start as "", and the invariant holds |
| `Form.IMCCalculator.HandleInputChange` | src/components/IMCCalculator.jsx:56-62 | the chosen field takes the new text iff it passes the filter, else keeps its value; the other field is unchanged; the invariant is kept |
| `Form.IMCCalculator.Shown` | src/components/IMCCalculator.jsx:53 | the result recomputed from the current fields carries a BMI iff both fields hold a non-zero digit |

## Left out

- `src/main.jsx` is not part of this model: it only mounts the component.
- The JSX markup, the Tailwind class strings and the `resultado.imc || 'N/A'` display (lines 64-154) are left out. They are presentation only.
- `useMemo` caching (line 53) is left out: `Shown` recomputes from the fields on every call, with the same observable result.
- Calculator.CalcularResultado: `imc` is the unrounded BMI as an exact real. The source stores `imc.toFixed(2)`, a string; the two-decimal formatting is floating-point output and is not modelled. The classification uses the unrounded value, as in the source.
- Decimal.ParseFloat: requires filtered text. `parseFloat` on arbitrary strings (leading spaces, exponents, "Infinity", trailing garbage) is not modelled, because the component only ever parses field values, and those pass the filter.
- IEEE-754 numbers are left out. The model's reals neither round nor overflow. In JavaScript `imc` can overflow to `Infinity` from short inputs. One way is a weight of more than about 309 digits, which parses to `Infinity`. Another is a tiny height: weight "70" with height "0." followed by 151 zeros and "1" (154 characters) gives `alturaMetros` = 1e-154, whose square is about 1e-308, and 70 / 1e-308 is `Infinity`. With `imc` at `Infinity`, `find` matches no row (`Infinity < Infinity` is false), and line 45 reads from `undefined` and throws. The model cannot reach that case, so `Bands.FindTotal` covers every finite value only. Rounding also runs the other way. Take weight "70" and height "0." followed by 330 zeros and "1" (about 1e-331): `parseFloat` rounds that height to 0, so the guard at line 27 shows the placeholder. The model keeps the exact value and shows a BMI. So `Calculator.ResultIffNonZeroDigits` and `Form.IMCCalculator.Shown` hold over exact reals, not for such underflowing heights. Likewise a float `imc` that prints as "24.90" may lie on either side of 24.9.
- Decimal.ToFixed1: values of 10^21 and above print in exponent form in JavaScript (`(1e21).toFixed(1)` is "1e+21") but as plain digits here. `Decimal.NatToString` does the same for whole numbers. Every bound in the table is below 100, so line 144 is unaffected.
- Decimal.ToFixed1 and Decimal.ToFixed1RoundTrip: cover `toFixed(1)` only for non-negative reals with at most one decimal, which is every bound in the table. Rounding of other values is not modelled. `Infinity.toFixed(1)` is modelled as "Infinity" for completeness; no row of the table reaches it.
