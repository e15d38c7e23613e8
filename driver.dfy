/**
 * The one piece of the generator's entry point that is pure computation:
 * `rnd.Next(1, 999999999).ToString("000000000")`, the zero-padded 9-digit
 * base handed to `new Cpf(...)` for every output line. File writing and the
 * random source are not modelled; the random draw is a parameter.
 */
module Driver {
  import opened Wrappers
  import opened Digits
  import G = GeradorCpfs
  import C = CorrectedCpf

  function Pow10(n: nat): (p: nat)
    ensures p >= 1
  {
    if n == 0 then 1 else 10 * Pow10(n - 1)
  }

  /** The number a string of decimal digits denotes, most significant digit first. */
  function NumberValue(s: string): nat
    requires IsDigitString(s)
  {
    if s == [] then 0 else NumberValue(s[..|s| - 1]) * 10 + DigitValue(s[|s| - 1])
  }

  /** `n.ToString` with a custom format of `width` zeros: `n` in decimal, left-padded with '0'. */
  function ZeroPad(n: nat, width: nat): (s: string)
    requires n < Pow10(width)
    ensures |s| == width && IsDigitString(s) && NumberValue(s) == n
  {
    if width == 0 then ""
    else
      var prefix := ZeroPad(n / 10, width - 1);
      var s := prefix + [DigitChar(n % 10)];
      assert s[..|s| - 1] == prefix;
      s
  }

  /** The base the generator draws for one line: `rnd.Next(1, 999999999)` gives 1..999999998. */
  function GeneratedBase(draw: int): (s: string)
    requires 1 <= draw <= 999999998
    ensures |s| == 9 && IsDigitString(s) && NumberValue(s) == draw
  {
    ZeroPad(draw, 9)
  }

  /**
   * Every line the generator writes is 11 decimal digits that the corrected
   * `Validate` accepts (the `Validate` of Program.cs as written rejects it).
   */
  lemma GeneratedLineIsValid(draw: int)
    requires 1 <= draw <= 999999998
    ensures var line := G.Cpf(Some(GeneratedBase(draw))).ToString();
            && line.Success?
            && |line.value| == 11 && IsDigitString(line.value)
            && NumberValue(line.value[..9]) == draw
            && C.Validate(Some(line.value)) == Success(true)
  {
    var base := GeneratedBase(draw);
    G.ToStringOfNineDigits(base);
    C.ValidateRoundTrip(base);
  }
}
