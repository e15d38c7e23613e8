# CPF check digits of GeradorCpfs, in Dafny

GeradorCpfs generates Brazilian CPF numbers (Cadastro de Pessoas Físicas, the
individual taxpayer number). A CPF is 9 base digits followed by two check
digits computed by the Receita Federal "módulo 11" weighted-sum rule. This
project models the `Cpf` class nested in `Program` (Program.cs:28-96) and
proves what its check-digit code computes:

- `wrappers.dfy` — `Option` for C#'s null, `Result` and `Exception` for the
  exceptions the class throws.
- `digits.dfy` — ASCII digits and their values, C#'s truncating `%`
  (`CsRem`), ascending and descending weighted sums, and the textbook
  statement of the Receita Federal rule (`ReceitaCheckDigits`) that the code
  is proved against.
- `cpf.dfy` — the class as written: the `Patterns` regular expressions as
  string predicates (`MatchesNumericFormat`, `MatchesStringFormat`, with
  .NET's `$` accepting one trailing newline), `GetDigits`,
  `StringToIntArray`, `CpfFromString`, `Validate`, the constructor and
  `ToString`. `Cpf` is a datatype, because its one field is written once by
  the constructor and only read afterwards; `Cpf(None)` is `new Cpf()`.
- `corrected.dfy` — the same operations with both inverted guards put right
  (see "## Findings") and the punctuated format replaced by all four of its
  digit groups; everything else, including a plain-format match returned
  unchanged, is as in the source. It proves the round trip "a generated CPF
  validates".
- `driver.dfy` — the zero padding `ToString("000000000")` of the generator's
  random draw, and the fact that every generated line is 11 digits and
  accepted by the corrected `Validate`.

As written, `CpfFromString` returns null for every non-null string, so
`Validate` is false for every non-null string and the two-argument
constructor never throws. The "validate what you generate" round trip
therefore holds only one level down. Recomputing `GetDigits` over the
digits of `ToString()` gives back its last two digits
(`ToStringSelfConsistent`). Through the corrected `Validate` it holds in
full (`CorrectedCpf.ValidateRoundTrip`).

The replacement string `\1\2\3` names three groups, so one might expect
the punctuated format to lose its last two digits when it is normalised. It
does not: .NET replacement strings substitute only `$`-groups, so the text
would be inserted literally, and the branch that uses it is unreachable
anyway. The corrected normalisation uses all four digit groups.

## Model

| member | source | states |
|---|---|---|
| Digits.CsRem | Program.cs:82-83 | C#'s `%`: the remainder has the sign of the dividend, is smaller than the divisor in magnitude, and differs from the dividend by a multiple of it |
| Digits.DigitChar | Program.cs:94 | `{v}` of a digit 0..9 is one ASCII digit character whose value is v |
| GeradorCpfs.MatchesNumericFormat | Program.cs:46 | `^([0-9]{11})$`: 11 ASCII digits, optionally followed by one '\n', which .NET's `$` also accepts |
| GeradorCpfs.MatchesStringFormat | Program.cs:47 | `ddd.ddd.ddd-dd` with ASCII digits, optionally followed by one '\n', which .NET's `$` also accepts |
| GeradorCpfs.ReplacementIsLiteral | Program.cs:48 | the replacement string holds no `$`, so .NET would insert it as literal text |
| GeradorCpfs.Reverse | Program.cs:82-83 | LINQ `Reverse`: same length, and entry i of the result is entry `|s| - 1 - i` of the input |
| GeradorCpfs.SelectWeightedSum | Program.cs:82-83 | `Select((di, i) => di * (9 - ((i + shift) % 10))).Sum()`, entry by entry; its meaning is stated by `ReversedWeightedSum` |
| GeradorCpfs.GetDigits | Program.cs:78-85 | throws `ArgumentException` exactly when the array has fewer than 9 entries; when the first nine entries are digits, both check digits are in 0..9 |
| GeradorCpfs.ReversedWeightedSum | Program.cs:82-83 | the reversed prefix weighed by `9 - ((i + shift) % 10)` at position i equals the prefix weighed by ascending weights |
| GeradorCpfs.ReversedSumsOfDigits | Program.cs:82-83 | on 9 digits, the v1 sum weighs index j by j + 1, the v2 sum weighs it by j, and both are non-negative |
| GeradorCpfs.GetDigitsClosedForm | Program.cs:82-83 | v1 = (sum of cpf[j]·(j+1)) mod 11 mod 10 and v2 = (sum of cpf[j]·j + 9·v1) mod 11 mod 10 over the first nine digits |
| GeradorCpfs.GetDigitsIsModulo11 | Program.cs:78-85 | on digits, `GetDigits` returns the Receita Federal check digits (remainder r of the descending-weight sum by 11, digit 0 if r < 2 else 11 - r) of the first nine entries |
| GeradorCpfs.GetDigitsReadsFirstNine | Program.cs:82-83 | two arrays that agree on their first nine entries give the same pair |
| GeradorCpfs.GetDigitsIgnoresSuffix | Program.cs:82-83 | appending entries after the ninth never changes the pair |
| GeradorCpfs.GetDigitsExample | Program.cs:82-83 | 1,1,1,4,4,4,7,7,7 gives (3, 5) |
| GeradorCpfs.StringToIntArray | Program.cs:86-88 | succeeds exactly on strings of ASCII digits, with one entry per character holding that digit's value; any other character throws `FormatException` |
| GeradorCpfs.StringToIntArrayRoundTrip | Program.cs:86-88 | parsing the printed form of any digit sequence gives that sequence back |
| GeradorCpfs.CpfFromString | Program.cs:50-66 | as written: null for every non-null string, `ArgumentNullException` for null; no string is ever recognised |
| GeradorCpfs.CheckNormalized | Program.cs:73-76 | true exactly for a digit string of at least 11 characters whose digits 10 and 11 are the Receita check digits of its first nine; throws exactly on a non-digit, fewer than 10 characters, or 10 characters whose tenth digit matches v1 (the `&&` short-circuits) |
| GeradorCpfs.Validate | Program.cs:67-77 | as written: false for every non-null string, `ArgumentNullException` for null |
| GeradorCpfs.Interpolate | Program.cs:39-40 | `$"{a}{b}"` is a followed by b, with a null a printing as nothing |
| GeradorCpfs.Cpf.Create | Program.cs:34-42 | as written: never throws, and the new object holds `initialValue` |
| GeradorCpfs.Cpf.ToString | Program.cs:90-95 | the stored base followed by the Receita check digits of its first nine digits; null base throws `NullReferenceException`, a non-digit `FormatException`, fewer than nine digits `ArgumentException` |
| GeradorCpfs.ToStringOfNineDigits | Program.cs:90-94 | for a 9-digit base the output is 11 ASCII digits starting with the base |
| GeradorCpfs.ToStringSelfConsistent | Program.cs:73-94 | for a 9-digit base, `GetDigits` over the digits of `ToString()` returns its digits 10 and 11, so the comparison of `Validate` accepts it |
| GeradorCpfs.ValidateRejectsGenerated | Program.cs:50-77 | as written, `Validate` rejects every output of `ToString` although the check-digit comparison accepts it |
| CorrectedCpf.Punctuate | Program.cs:47 | the `ddd.ddd.ddd-dd` writing of 11 digits matches the punctuated pattern and not the plain one |
| CorrectedCpf.CpfFromString | Program.cs:50-66 | corrected: recognises exactly the two formats (null is not one); a plain-format match is returned unchanged; the result is 11 ASCII digits, followed by '\n' exactly when the input ends with one |
| CorrectedCpf.NormalizesBothFormats | Program.cs:54-61 | an 11-digit CPF normalises to itself, plain or punctuated |
| CorrectedCpf.Validate | Program.cs:67-77 | corrected: throws `FormatException` exactly on text in either format followed by one '\n'; otherwise true exactly for text that normalises to 11 digits whose last two are the Receita check digits of the first nine |
| CorrectedCpf.TrailingNewlineThrows | Program.cs:46-47 | a CPF followed by one newline matches either pattern and then makes `int.Parse` throw |
| CorrectedCpf.Create | Program.cs:34-42 | corrected: throws exactly when explicit digits are given and base plus digits is not a valid CPF; otherwise holds `initialValue` |
| CorrectedCpf.ValidIffGenerated | Program.cs:67-94 | an 11-digit string validates if and only if it is what `ToString` generates from its first nine digits |
| CorrectedCpf.ValidateRoundTrip | Program.cs:67-94 | every `ToString` output of a 9-digit base validates, plain and punctuated |
| CorrectedCpf.ValidateRejectsWrongDigits | Program.cs:67-77 | a 9-digit base followed by any other two digits does not validate |
| CorrectedCpf.CreateChecksDigits | Program.cs:34-42 | the constructor accepts a base with exactly its own check digits |
| CorrectedCpf.ExampleGenerated | Program.cs:90-94 | base 111444777 generates 11144477735 |
| CorrectedCpf.NullGuardCounterexample | Program.cs:52 | on 11144477735, `Validate` as written gives false and corrected gives true |
| CorrectedCpf.ConstructorGuardCounterexample | Program.cs:39 | base 111444777 with digits 00: as written the constructor succeeds, corrected it throws |
| Driver.ZeroPad | Program.cs:21 | custom zero format: exactly `width` ASCII digits denoting n |
| Driver.GeneratedBase | Program.cs:21 | a draw in 1..999999998 becomes 9 digits denoting it |
| Driver.GeneratedLineIsValid | Program.cs:19-22 | every line the generator writes is 11 ASCII digits, starts with the padded draw and is accepted by the corrected `Validate` |

## Findings

| source | as written | input that shows it | evidently intended | confidence | as-written member | corrected member |
|---|---|---|---|---|---|---|
| Program.cs:52 | `CpfFromString` returns null when the value is NOT null; a null value reaches `Regex.IsMatch`, which throws | "11144477735" (generated from 111444777): `Validate` gives false | return null only for a null value, then match the two formats | high; not executed | GeradorCpfs.Validate, shown by CorrectedCpf.NullGuardCounterexample | CorrectedCpf.Validate (also replaces with all four groups; a trailing newline still throws, see CorrectedCpf.TrailingNewlineThrows) |
| Program.cs:39 | the constructor throws when `Validate` accepts base plus digits | base "111444777" with digits "00" (a wrong pair): no exception | throw when `Validate` rejects base plus digits | high; not executed | GeradorCpfs.Cpf.Create, shown by CorrectedCpf.ConstructorGuardCounterexample | CorrectedCpf.Create |

## Left out

- `Main` (Program.cs:15-26): writing `cpfs.csv` and the clock-seeded `Random`. Only the zero padding of the draw is modelled. The draw itself is a parameter.
- GeradorCpfs.GetDigits: does not model 32-bit arithmetic. The products `di * (9 - …)` are unchecked and wrap; `Enumerable.Sum` over `int` is checked and throws `OverflowException`. Neither is modelled; both need entries far outside 0..9, which `StringToIntArray` never produces.
- CorrectedCpf.Validate: throws `FormatException` on a CPF followed by one newline, because only the guards and the replacement groups are corrected; making it total would be a further change to the patterns.
- The `Regex.Replace` call with `Patterns.StringFormatReplace` (Program.cs:60): it is unreachable as written, so its .NET result (literal text, because `\1` is no substitution) is not modelled.
- .NET regular-expression matching in general. The two patterns are hand-written predicates.
- GeradorCpfs.StringToIntArray: takes a non-null string. A null argument can only come from `ToString`, which models the `NullReferenceException`.
- Characters are Dafny `char` values, not UTF-16 code units. `int.Parse` of one character is modelled as accepting exactly '0'..'9'.
- Exception messages are modelled only for the two `ArgumentException`s the class builds.
