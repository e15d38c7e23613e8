/**
 * The evidently intended behaviour of `Cpf.CpfFromString`, `Cpf.Validate`
 * and the `Cpf(initialValue, digits)` constructor of Program.cs, with both
 * inverted guards put right: null gives "no match", and the constructor
 * throws when the digits do NOT validate. The punctuated format is replaced
 * by all four of its digit groups (`$1$2$3$4`), so that a punctuated CPF
 * normalises to its 11 digits. Nothing else changes: a plain-format match
 * is returned unchanged, newline included.
 */
module CorrectedCpf {
  import opened Wrappers
  import opened Digits
  import G = GeradorCpfs

  /** Text in either CPF format. */
  predicate IsCpfText(s: string)
  {
    G.MatchesNumericFormat(s) || G.MatchesStringFormat(s)
  }

  predicate HasTrailingNewline(s: string)
  {
    |s| > 0 && s[|s| - 1] == '\n'
  }

  /** A CPF written as ddd.ddd.ddd-dd. */
  function Punctuate(s: string): (p: string)
    requires |s| == 11 && IsDigitString(s)
    ensures G.MatchesStringFormat(p) && !G.MatchesNumericFormat(p)
  {
    var p := s[0..3] + "." + s[3..6] + "." + s[6..9] + "-" + s[9..11];
    assert p[0..3] == s[0..3] && p[4..7] == s[3..6] && p[8..11] == s[6..9] && p[12..14] == s[9..11];
    p
  }

  /**
   * Normalisation: a plain-format match is returned unchanged; in a
   * punctuated match the matched text is replaced by its four digit groups,
   * and the newline that `$` lets through after it stays. Anything else,
   * null included, is not a CPF.
   */
  function CpfFromString(value: NullableString): (r: NullableString)
    ensures r.Some? <==> value.Some? && IsCpfText(value.value)
    ensures value.Some? && G.MatchesNumericFormat(value.value) ==> r == value
    ensures r.Some? ==> (|r.value| == 11 || |r.value| == 12) && IsDigitString(r.value[..11])
    ensures r.Some? ==> (|r.value| == 12 <==> HasTrailingNewline(value.value))
    ensures r.Some? && |r.value| == 12 ==> r.value[11] == '\n'
  {
    match value
    case None => None
    case Some(s) =>
      if G.MatchesNumericFormat(s) then Some(s)
      else if G.MatchesStringFormat(s) then Some(s[0..3] + s[4..7] + s[8..11] + s[12..14] + s[14..])
      else None
  }

  /** Both formats of an 11-digit CPF normalise back to its digits. */
  lemma NormalizesBothFormats(s: string)
    requires |s| == 11 && IsDigitString(s)
    ensures CpfFromString(Some(s)) == Some(s)
    ensures CpfFromString(Some(Punctuate(s))) == Some(s)
  {
    var p := Punctuate(s);
    assert p[14..] == [];
    assert p[0..3] == s[0..3] && p[4..7] == s[3..6] && p[8..11] == s[6..9] && p[12..14] == s[9..11];
    assert s == s[0..3] + s[3..6] + s[6..9] + s[9..11] + [];
  }

  /** An 11-digit string whose last two digits are the check digits of its first nine. */
  predicate HasCorrectCheckDigits(n: string)
    requires |n| == 11 && IsDigitString(n)
  {
    ReceitaCheckDigits(DigitValues(n[..9])) == (DigitValue(n[9]), DigitValue(n[10]))
  }

  /** Text that normalises to exactly 11 digits, the last two of them correct check digits. */
  predicate IsValidCpfText(s: string)
  {
    var n := CpfFromString(Some(s));
    n.Some? && |n.value| == 11 && HasCorrectCheckDigits(n.value)
  }

  /**
   * Validation: null and unrecognised text are invalid. The one exception
   * left is `FormatException` from `int.Parse` on the newline that `$`
   * admits after a CPF in either format.
   */
  function Validate(value: NullableString): (r: Result<bool>)
    ensures r.Failure? <==> value.Some? && IsCpfText(value.value) && HasTrailingNewline(value.value)
    ensures r.Failure? ==> r.error == FormatException
    ensures r.Success? ==> r.value == (value.Some? && IsValidCpfText(value.value))
  {
    match CpfFromString(value)
    case None => Success(false)
    case Some(numbers) =>
      assert |numbers| == 12 ==> !IsDigitString(numbers);
      G.CheckNormalized(numbers)
  }

  /** A CPF followed by one newline is recognised by either pattern, and then fails to parse. */
  lemma TrailingNewlineThrows(s: string)
    requires |s| == 11 && IsDigitString(s)
    ensures Validate(Some(s + "\n")) == Failure(FormatException)
    ensures Validate(Some(Punctuate(s) + "\n")) == Failure(FormatException)
  {
    assert (s + "\n")[..11] == s;
    var p := Punctuate(s);
    var q := p + "\n";
    assert q[0..3] == p[0..3] && q[4..7] == p[4..7] && q[8..11] == p[8..11] && q[12..14] == p[12..14];
    assert G.MatchesStringFormat(q);
  }

  /** The constructor throws exactly when explicit check digits are given and do not validate. */
  function Create(initialValue: NullableString, digits: NullableString): (r: Result<G.Cpf>)
    ensures r.Success? ==> r.value == G.Cpf(initialValue)
    ensures r.Failure? <==> digits.Some? && !IsValidCpfText(G.Interpolate(initialValue, digits.value))
  {
    if digits.Some? then
      var full := G.Interpolate(initialValue, digits.value);
      match Validate(Some(full))
      case Failure(e) => Failure(e)
      case Success(false) => Failure(ArgumentException(full + " is invalid a CPF."))
      case Success(true) => Success(G.Cpf(initialValue))
    else
      Success(G.Cpf(initialValue))
  }

  /**
   * An 11-digit string validates exactly when it is what `ToString`
   * generates from its first nine digits.
   */
  lemma {:induction false} ValidIffGenerated(s: string)
    requires |s| == 11 && IsDigitString(s)
    ensures Validate(Some(s)) == Success(true) <==> G.Cpf(Some(s[..9])).ToString() == Success(s)
  {
    NormalizesBothFormats(s);
    var base := s[..9];
    var t := G.Cpf(Some(base)).ToString();
    G.ToStringOfNineDigits(base);
    var d := ReceitaCheckDigits(DigitValues(base));
    assert base[..9] == base;
    assert t.value == base + [DigitChar(d.0), DigitChar(d.1)];
    if HasCorrectCheckDigits(s) {
      DigitCharOfValue(s[9]);
      DigitCharOfValue(s[10]);
      assert s == base + [s[9], s[10]];
    }
    if t == Success(s) {
      assert s[9] == DigitChar(d.0) && s[10] == DigitChar(d.1);
    }
  }

  /** Validate what you generate: the output of `ToString` validates, plain or punctuated. */
  lemma ValidateRoundTrip(base: string)
    requires |base| == 9 && IsDigitString(base)
    ensures var s := G.Cpf(Some(base)).ToString();
            && s.Success?
            && Validate(Some(s.value)) == Success(true)
            && Validate(Some(Punctuate(s.value))) == Success(true)
  {
    G.ToStringOfNineDigits(base);
    var s := G.Cpf(Some(base)).ToString().value;
    ValidIffGenerated(s);
    NormalizesBothFormats(s);
  }

  /** Any other pair of check digits after a 9-digit base is invalid. */
  lemma ValidateRejectsWrongDigits(base: string, digits: string)
    requires |base| == 9 && IsDigitString(base)
    requires |digits| == 2 && IsDigitString(digits)
    requires G.Cpf(Some(base)).ToString() != Success(base + digits)
    ensures Validate(Some(base + digits)) == Success(false)
  {
    var s := base + digits;
    assert s[..9] == base;
    ValidIffGenerated(s);
  }

  /** The constructor accepts a base with its own check digits and rejects any other pair. */
  lemma CreateChecksDigits(base: string, digits: string)
    requires |base| == 9 && IsDigitString(base)
    requires |digits| == 2 && IsDigitString(digits)
    ensures Create(Some(base), Some(digits)).Success? <==> G.Cpf(Some(base)).ToString() == Success(base + digits)
  {
    var s := base + digits;
    assert G.Interpolate(Some(base), digits) == s;
    assert s[..9] == base;
    ValidIffGenerated(s);
  }

  /** The worked example: 111444777 generates 11144477735. */
  lemma ExampleGenerated(base: string)
    requires base == "111444777"
    ensures G.Cpf(Some(base)).ToString() == Success("11144477735")
  {
    var ds := DigitValues(base);
    assert ds == [1, 1, 1, 4, 4, 4, 7, 7, 7];
    G.GetDigitsExample(ds);
    assert ds[..9] == ds;
    G.GetDigitsIsModulo11(ds);
    assert base[..9] == base;
    assert ReceitaCheckDigits(DigitValues(base[..9])) == (3, 5);
    assert DigitChar(3) == '3' && DigitChar(5) == '5';
    assert base + ['3', '5'] == "11144477735";
  }

  /**
   * Counterexample for the guard of `CpfFromString`: as written, `Validate`
   * rejects the valid CPF 11144477735; corrected, it accepts it.
   */
  lemma NullGuardCounterexample(s: string)
    requires s == "11144477735"
    ensures G.Validate(Some(s)) == Success(false)
    ensures Validate(Some(s)) == Success(true)
  {
    ExampleGenerated("111444777");
    ValidateRoundTrip("111444777");
  }

  /**
   * Counterexample for the guard of the constructor: as written it accepts
   * base 111444777 with check digits 00; corrected, it throws.
   */
  lemma ConstructorGuardCounterexample(base: string, digits: string)
    requires base == "111444777" && digits == "00"
    ensures G.Cpf.Create(Some(base), Some(digits)) == Success(G.Cpf(Some(base)))
    ensures Create(Some(base), Some(digits)).Failure?
  {
    ExampleGenerated(base);
    CreateChecksDigits(base, digits);
  }
}
