/**
 * The `Cpf` class of Program.cs, as written: check-digit arithmetic,
 * digit conversion, formatting, text normalisation and validation of a
 * Brazilian CPF (Cadastro de Pessoas Fisicas) number.
 *
 * A null string is `None`; a thrown exception is a `Failure`.
 */
module GeradorCpfs {
  import opened Wrappers
  import opened Digits

  /** The message of the exception `GetDigits` throws on a short array (`nameof(cpf)` is "cpf"). */
  const ShortArrayMessage := "cpf size must be greater than 8"

  /**
   * The regular expressions of the nested `Patterns` class, as predicates.
   * .NET's `$` matches at the end of the input and also just before a final
   * newline, so both patterns accept one trailing '\n'.
   */
  predicate MatchesNumericFormat(s: string)
  {
    (|s| == 11 || (|s| == 12 && s[11] == '\n')) && IsDigitString(s[..11])
  }

  predicate MatchesStringFormat(s: string)
  {
    && (|s| == 14 || (|s| == 15 && s[14] == '\n'))
    && IsDigitString(s[0..3]) && s[3] == '.'
    && IsDigitString(s[4..7]) && s[7] == '.'
    && IsDigitString(s[8..11]) && s[11] == '-'
    && IsDigitString(s[12..14])
  }

  /** `Patterns.StringFormatReplace`; no reachable path of `CpfFromString` uses it. */
  const StringFormatReplace := "\\1\\2\\3"

  /**
   * .NET replacement strings substitute only `$`-groups, so this one would
   * be inserted as the literal text backslash-1 backslash-2 backslash-3.
   */
  lemma ReplacementIsLiteral()
    ensures '$' !in StringFormatReplace && |StringFormatReplace| == 6
  {
  }

  /** LINQ's `Reverse`. */
  function Reverse(s: seq<int>): (r: seq<int>)
    ensures |r| == |s|
    ensures forall i :: 0 <= i < |s| ==> r[i] == s[|s| - 1 - i]
  {
    if s == [] then [] else Reverse(s[1..]) + [s[0]]
  }

  /**
   * `s.Select((di, i) => di * (9 - ((i + shift) % 10))).Sum()`: entry i is
   * weighed by 9 minus the last decimal digit of `i + shift`.
   */
  function SelectWeightedSum(s: seq<int>, shift: nat): int
  {
    if s == [] then 0
    else SelectWeightedSum(s[..|s| - 1], shift) + s[|s| - 1] * (9 - ((|s| - 1 + shift) % 10))
  }

  /**
   * `Cpf.GetDigits`: the two check digits of the first nine entries of `cpf`.
   * It throws exactly when `cpf` has fewer than nine entries, and only the
   * first nine entries matter.
   */
  function GetDigits(cpf: seq<int>): (r: Result<(int, int)>)
    ensures r.Failure? <==> |cpf| < 9
    ensures r.Failure? ==> r.error == ArgumentException(ShortArrayMessage)
    ensures r.Success? && AllDigits(cpf[..9]) ==> IsDigit(r.value.0) && IsDigit(r.value.1)
  {
    if |cpf| < 9 then Failure(ArgumentException(ShortArrayMessage))
    else
      var prefix := Reverse(cpf[..9]);
      var v1 := CsRem(CsRem(SelectWeightedSum(prefix, 0), 11), 10);
      var v2 := CsRem(CsRem(SelectWeightedSum(prefix, 1) + v1 * 9, 11), 10);
      assert AllDigits(cpf[..9]) ==> v1 >= 0 && v2 >= 0 by {
        if AllDigits(cpf[..9]) {
          ReversedSumsOfDigits(cpf[..9]);
        }
      }
      Success((v1, v2))
  }

  /**
   * A reversed sequence weighed by position, `9 - ((i + shift) % 10)`, is the
   * original sequence weighed by ascending weights: reversed position i is
   * original index `|t| - 1 - i`.
   */
  lemma {:induction false} ReversedWeightedSum(t: seq<int>, shift: nat)
    requires |t| + shift <= 10
    ensures SelectWeightedSum(Reverse(t), shift) == AscendingSum(t, 10 - |t| - shift)
  {
    if t != [] {
      var r := Reverse(t[1..]);
      ReversedWeightedSum(t[1..], shift);
      assert Reverse(t) == r + [t[0]];
      assert (r + [t[0]])[..|r|] == r;
    }
  }

  /** The two reversed weighted sums of `GetDigits`, on digits, are ascending sums and non-negative. */
  lemma ReversedSumsOfDigits(p: seq<int>)
    requires |p| == 9 && AllDigits(p)
    ensures SelectWeightedSum(Reverse(p), 0) == AscendingSum(p, 1) >= 0
    ensures SelectWeightedSum(Reverse(p), 1) == AscendingSum(p, 0) >= 0
  {
    ReversedWeightedSum(p, 0);
    ReversedWeightedSum(p, 1);
    AscendingSumNonnegative(p, 1);
    AscendingSumNonnegative(p, 0);
  }

  /**
   * Closed form of `GetDigits` on digits: v1 is the sum of `cpf[j] * (j + 1)`
   * and v2 the sum of `cpf[j] * j` plus `9 * v1`, each reduced by 11 then 10.
   */
  lemma GetDigitsClosedForm(cpf: seq<int>)
    requires |cpf| >= 9 && AllDigits(cpf[..9])
    ensures var p := cpf[..9];
            var v1 := AscendingSum(p, 1) % 11 % 10;
            GetDigits(cpf) == Success((v1, (AscendingSum(p, 0) + 9 * v1) % 11 % 10))
  {
    ReversedSumsOfDigits(cpf[..9]);
  }

  /** `GetDigits` computes the Receita Federal modulo-11 check digits of the first nine digits. */
  lemma GetDigitsIsModulo11(cpf: seq<int>)
    requires |cpf| >= 9 && AllDigits(cpf[..9])
    ensures GetDigits(cpf) == Success(ReceitaCheckDigits(cpf[..9]))
  {
    var p := cpf[..9];
    ReversedSumsOfDigits(p);
    Modulo11Ascending(p);
    var d1 := Modulo11Digit(p);
    assert AllDigits(p + [d1]);
    Modulo11Ascending(p + [d1]);
    AscendingSumAppend(p, d1, 0);
  }

  /** Only the first nine entries are read: arrays that agree on them give the same pair. */
  lemma GetDigitsReadsFirstNine(a: seq<int>, b: seq<int>)
    requires |a| >= 9 && |b| >= 9 && a[..9] == b[..9]
    ensures GetDigits(a) == GetDigits(b)
  {
  }

  /** Appending entries after the ninth never changes the check digits. */
  lemma GetDigitsIgnoresSuffix(a: seq<int>, tail: seq<int>)
    requires |a| >= 9
    ensures GetDigits(a + tail) == GetDigits(a)
  {
    assert (a + tail)[..9] == a[..9];
  }

  /** The official example: base 111.444.777 has check digits 3 and 5. */
  lemma GetDigitsExample(cpf: seq<int>)
    requires cpf == [1, 1, 1, 4, 4, 4, 7, 7, 7]
    ensures GetDigits(cpf) == Success((3, 5))
  {
    assert cpf[..9] == cpf;
    ExampleSums(cpf);
    GetDigitsClosedForm(cpf);
  }

  lemma ExampleSums(cpf: seq<int>)
    requires cpf == [1, 1, 1, 4, 4, 4, 7, 7, 7]
    ensures AscendingSum(cpf, 1) == 234 && AscendingSum(cpf, 0) == 198
  {
    var t := cpf;
    assert t[8..] == [7];
    assert AscendingSum(t[8..], 9) == 63 && AscendingSum(t[8..], 8) == 56;
    assert t[7..][1..] == t[8..];
    assert AscendingSum(t[7..], 8) == 119 && AscendingSum(t[7..], 7) == 105;
    assert t[6..][1..] == t[7..];
    assert AscendingSum(t[6..], 7) == 168 && AscendingSum(t[6..], 6) == 147;
    assert t[5..][1..] == t[6..];
    assert AscendingSum(t[5..], 6) == 192 && AscendingSum(t[5..], 5) == 167;
    assert t[4..][1..] == t[5..];
    assert AscendingSum(t[4..], 5) == 212 && AscendingSum(t[4..], 4) == 183;
    assert t[3..][1..] == t[4..];
    assert AscendingSum(t[3..], 4) == 228 && AscendingSum(t[3..], 3) == 195;
    assert t[2..][1..] == t[3..];
    assert AscendingSum(t[2..], 3) == 231 && AscendingSum(t[2..], 2) == 197;
    assert t[1..][1..] == t[2..];
    assert AscendingSum(t[1..], 2) == 233 && AscendingSum(t[1..], 1) == 198;
  }

  /**
   * `Cpf.StringToIntArray`: `int.Parse` of every character on its own. It
   * succeeds exactly on strings of ASCII digits, giving each digit's value,
   * and throws `FormatException` on any other character.
   */
  function StringToIntArray(value: string): (r: Result<seq<int>>)
    ensures r.Success? <==> IsDigitString(value)
    ensures r.Failure? ==> r.error == FormatException
    ensures r.Success? ==> r.value == DigitValues(value)
  {
    if value == [] then Success([])
    else if !IsDigitChar(value[0]) then Failure(FormatException)
    else
      match StringToIntArray(value[1..])
      case Failure(e) => Failure(e)
      case Success(rest) =>
        assert [DigitValue(value[0])] + rest == DigitValues(value);
        Success([DigitValue(value[0])] + rest)
  }

  /** Printing digit values and parsing them back gives the same values. */
  lemma StringToIntArrayRoundTrip(ds: seq<int>)
    requires AllDigits(ds)
    ensures StringToIntArray(DigitString(ds)) == Success(ds)
  {
  }

  /**
   * `Cpf.CpfFromString` as written: the guard at its first line is inverted,
   * so every non-null string gives null, and a null string reaches
   * `Regex.IsMatch`, which throws. No input is ever recognised.
   */
  function CpfFromString(value: NullableString): (r: Result<NullableString>)
    ensures r.Failure? <==> value.None?
    ensures r.Failure? ==> r.error == ArgumentNullException
    ensures r.Success? ==> r.value.None?
  {
    if value.Some? then Success(None)
    else Failure(ArgumentNullException)
  }

  /**
   * The last three lines of `Cpf.Validate`: parse the normalised string,
   * recompute the check digits and compare them with digits 10 and 11. `&&`
   * short-circuits, so a 10-digit string whose tenth digit differs from v1
   * gives false instead of an out-of-range index.
   */
  function CheckNormalized(numbers: string): (r: Result<bool>)
    ensures r == Success(true) <==>
              && |numbers| >= 11 && IsDigitString(numbers)
              && ReceitaCheckDigits(DigitValues(numbers[..9])) == (DigitValue(numbers[9]), DigitValue(numbers[10]))
    ensures !IsDigitString(numbers) ==> r == Failure(FormatException)
    ensures r.Failure? <==>
              || !IsDigitString(numbers) || |numbers| < 10
              || (|numbers| == 10 && ReceitaCheckDigits(DigitValues(numbers[..9])).0 == DigitValue(numbers[9]))
  {
    match StringToIntArray(numbers)
    case Failure(e) => Failure(e)
    case Success(digitos) =>
      match GetDigits(digitos)
      case Failure(e) => Failure(e)
      case Success(v) =>
        GetDigitsIsModulo11(digitos);
        assert digitos[..9] == DigitValues(numbers[..9]);
        if |digitos| < 10 then Failure(IndexOutOfRangeException)
        else if v.0 != digitos[9] then Success(false)
        else if |digitos| < 11 then Failure(IndexOutOfRangeException)
        else Success(v.1 == digitos[10])
  }

  /**
   * `Cpf.Validate` as written: since `CpfFromString` never recognises a
   * string, every non-null input is invalid and a null input throws.
   */
  function Validate(value: NullableString): (r: Result<bool>)
    ensures value.Some? ==> r == Success(false)
    ensures value.None? ==> r == Failure(ArgumentNullException)
  {
    match CpfFromString(value)
    case Failure(e) => Failure(e)
    case Success(None) => Success(false)
    case Success(Some(numbers)) => CheckNormalized(numbers)
  }

  /** `$"{a}{b}"`: a null string interpolates as the empty string. */
  function Interpolate(a: NullableString, b: string): (s: string)
    ensures a.None? ==> s == b
    ensures a.Some? ==> |s| == |a.value| + |b| && s[..|a.value|] == a.value && s[|a.value|..] == b
  {
    match a
    case None => b
    case Some(x) => x + b
  }

  /**
   * A CPF object: its one field, the base digits, is written by the
   * constructor and never changed. `Cpf(None)` is what `new Cpf()` builds.
   */
  datatype Cpf = Cpf(initialValue: NullableString)
  {
    /**
     * The constructor `Cpf(initialValue, digits = null)` as written: it
     * throws only when `Validate` accepts `initialValue + digits`, which
     * never happens, so it always succeeds and stores `initialValue`.
     */
    static function Create(initialValue: NullableString, digits: NullableString): (r: Result<Cpf>)
      ensures r == Success(Cpf(initialValue))
    {
      if digits.Some? then
        var full := Interpolate(initialValue, digits.value);
        match Validate(Some(full))
        case Failure(e) => Failure(e)
        case Success(true) => Failure(ArgumentException(full + " is invalid a CPF."))
        case Success(false) => Success(Cpf(initialValue))
      else
        Success(Cpf(initialValue))
    }

    /**
     * `Cpf.ToString`: the stored base followed by the Receita Federal check
     * digits of its first nine digits. A null base throws
     * `NullReferenceException`, a non-digit character `FormatException`,
     * and a base shorter than nine digits `ArgumentException`.
     */
    function ToString(): (r: Result<string>)
      ensures initialValue.None? ==> r == Failure(NullReferenceException)
      ensures initialValue.Some? && !IsDigitString(initialValue.value) ==> r == Failure(FormatException)
      ensures initialValue.Some? && IsDigitString(initialValue.value) && |initialValue.value| < 9 ==>
                r == Failure(ArgumentException(ShortArrayMessage))
      ensures r.Success? <==> initialValue.Some? && IsDigitString(initialValue.value) && |initialValue.value| >= 9
      ensures r.Success? ==>
                var base := initialValue.value;
                var d := ReceitaCheckDigits(DigitValues(base[..9]));
                r.value == base + [DigitChar(d.0), DigitChar(d.1)]
    {
      match initialValue
      case None => Failure(NullReferenceException)
      case Some(base) =>
        match StringToIntArray(base)
        case Failure(e) => Failure(e)
        case Success(ds) =>
          match GetDigits(ds)
          case Failure(e) => Failure(e)
          case Success(v) =>
            GetDigitsIsModulo11(ds);
            assert ds[..9] == DigitValues(base[..9]);
            Success(base + [DigitChar(v.0), DigitChar(v.1)])
    }
  }

  /** For a 9-digit base, `ToString` gives 11 digits that start with the base. */
  lemma ToStringOfNineDigits(base: string)
    requires |base| == 9 && IsDigitString(base)
    ensures var r := Cpf(Some(base)).ToString();
            && r.Success? && |r.value| == 11 && IsDigitString(r.value)
            && r.value[..9] == base
  {
    var r := Cpf(Some(base)).ToString();
    assert r.value[..9] == base;
  }

  /**
   * Self-consistency of generation: recomputing `GetDigits` over the digits
   * of `ToString()`'s output reproduces its last two digits, which is the
   * comparison `Validate` makes once a string is normalised.
   */
  lemma {:induction false} ToStringSelfConsistent(base: string)
    requires |base| == 9 && IsDigitString(base)
    ensures var s := Cpf(Some(base)).ToString();
            && s.Success?
            && StringToIntArray(s.value).Success?
            && var d := StringToIntArray(s.value).value;
            && |d| == 11
            && GetDigits(d) == Success((d[9], d[10]))
            && CheckNormalized(s.value) == Success(true)
  {
    var s := Cpf(Some(base)).ToString().value;
    ToStringOfNineDigits(base);
    var d := DigitValues(s);
    var c := ReceitaCheckDigits(DigitValues(base));
    assert s == base + [DigitChar(c.0), DigitChar(c.1)] by {
      assert base[..9] == base;
    }
    assert d[..9] == DigitValues(base);
    GetDigitsIsModulo11(d);
    assert s[..9] == base;
  }

  /**
   * As written, `Validate` rejects what `ToString` generates, although the
   * check-digit comparison itself accepts it.
   */
  lemma ValidateRejectsGenerated(base: string)
    requires |base| == 9 && IsDigitString(base)
    ensures var s := Cpf(Some(base)).ToString();
            && s.Success?
            && CheckNormalized(s.value) == Success(true)
            && Validate(Some(s.value)) == Success(false)
  {
    ToStringSelfConsistent(base);
  }
}
