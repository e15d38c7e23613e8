/**
 * Decimal digits, C#'s truncating remainder, and the textbook statement of the
 * Receita Federal "modulo 11" CPF rule, used as the reference that the
 * check-digit code of Program.cs is proved against.
 */
module Digits {

  predicate IsDigitChar(c: char) { '0' <= c <= '9' }

  predicate IsDigitString(s: string) { forall i :: 0 <= i < |s| ==> IsDigitChar(s[i]) }

  predicate IsDigit(d: int) { 0 <= d <= 9 }

  predicate AllDigits(s: seq<int>) { forall i :: 0 <= i < |s| ==> IsDigit(s[i]) }

  /** The numeric value of an ASCII digit character. */
  function DigitValue(c: char): (d: int)
    requires IsDigitChar(c)
    ensures IsDigit(d)
  {
    c as int - '0' as int
  }

  /** The ASCII character that prints the digit `d`, as `{d}` does in a C# interpolated string. */
  function DigitChar(d: int): (c: char)
    requires IsDigit(d)
    ensures IsDigitChar(c) && DigitValue(c) == d
  {
    ('0' as int + d) as char
  }

  lemma DigitCharOfValue(c: char)
    requires IsDigitChar(c)
    ensures DigitChar(DigitValue(c)) == c
  {
  }

  /** The digit values of a string of ASCII digits, character by character. */
  function DigitValues(s: string): (ds: seq<int>)
    requires IsDigitString(s)
    ensures |ds| == |s| && AllDigits(ds)
    ensures forall i :: 0 <= i < |s| ==> DigitChar(ds[i]) == s[i]
  {
    seq(|s|, i requires 0 <= i < |s| => DigitValue(s[i]))
  }

  /** The string of ASCII digits that prints `ds`. */
  function DigitString(ds: seq<int>): (s: string)
    requires AllDigits(ds)
    ensures |s| == |ds| && IsDigitString(s) && DigitValues(s) == ds
  {
    seq(|ds|, i requires 0 <= i < |ds| => DigitChar(ds[i]))
  }

  /**
   * C#'s `%` on `int`: the remainder truncates toward zero, so it takes the
   * sign of the dividend (Dafny's own `%` is Euclidean and never negative).
   */
  function CsRem(a: int, n: int): (r: int)
    requires n > 0
    ensures 0 <= a ==> 0 <= r < n
    ensures a < 0 ==> -n < r <= 0
    ensures (a - r) % n == 0
  {
    if a >= 0 then
      assert a - a % n == n * (a / n);
      MultipleHasNoRemainder(n, a / n);
      a % n
    else
      var r := -((-a) % n);
      var q := (-a) / n;
      assert -a == n * q + (-a) % n;
      assert a - r == n * -q;
      MultipleHasNoRemainder(n, -q);
      r
  }

  lemma MultipleHasNoRemainder(n: int, k: int)
    requires n > 0
    ensures (n * k) % n == 0
  {
    var x := n * k;
    var t := k - x / n;
    assert x % n == n * t;
  }

  function Sum(s: seq<int>): int
  {
    if s == [] then 0 else s[0] + Sum(s[1..])
  }

  /** The sum of `s[j] * (w + j)`: weights that grow by one from `w`. */
  function AscendingSum(s: seq<int>, w: int): int
  {
    if s == [] then 0 else s[0] * w + AscendingSum(s[1..], w + 1)
  }

  /** The sum of `s[j] * (w - j)`: weights that shrink by one from `w`. */
  function DescendingSum(s: seq<int>, w: int): int
  {
    if s == [] then 0 else s[0] * w + DescendingSum(s[1..], w - 1)
  }

  /**
   * One check digit of the Receita Federal rule: weigh the digits from
   * `|s| + 1` down to 2, take the remainder r of the sum by 11; the digit is
   * 0 when r < 2 and 11 - r otherwise.
   */
  function Modulo11Digit(s: seq<int>): (d: int)
    ensures IsDigit(d)
  {
    var r := DescendingSum(s, |s| + 1) % 11;
    if r < 2 then 0 else 11 - r
  }

  /** Both CPF check digits of a 9-digit base: the second one also weighs the first. */
  function ReceitaCheckDigits(base: seq<int>): (d: (int, int))
    requires |base| == 9
    ensures IsDigit(d.0) && IsDigit(d.1)
  {
    var d1 := Modulo11Digit(base);
    (d1, Modulo11Digit(base + [d1]))
  }

  /** Ascending and descending weights that pair up to `a + b` weigh every entry by `a + b`. */
  lemma {:induction false} ComplementaryWeights(s: seq<int>, a: int, b: int)
    ensures AscendingSum(s, a) + DescendingSum(s, b) == (a + b) * Sum(s)
  {
    if s != [] {
      ComplementaryWeights(s[1..], a + 1, b - 1);
      assert (a + b) * Sum(s) == (a + b) * s[0] + (a + b) * Sum(s[1..]);
    }
  }

  /** Appending an entry adds it with the next weight. */
  lemma {:induction false} AscendingSumAppend(s: seq<int>, x: int, w: int)
    ensures AscendingSum(s + [x], w) == AscendingSum(s, w) + x * (w + |s|)
  {
    if s != [] {
      assert (s + [x])[1..] == s[1..] + [x];
      AscendingSumAppend(s[1..], x, w + 1);
    }
  }

  lemma {:induction false} AscendingSumNonnegative(s: seq<int>, w: int)
    requires AllDigits(s) && w >= 0
    ensures AscendingSum(s, w) >= 0
  {
    if s != [] {
      AscendingSumNonnegative(s[1..], w + 1);
    }
  }

  /**
   * When `a + b` is a multiple of 11, the Receita digit taken from `a` is the
   * remainder of `b` by 11, reduced to one digit.
   */
  lemma Modulo11Complement(a: int, b: int)
    requires (a + b) % 11 == 0
    ensures (if a % 11 < 2 then 0 else 11 - a % 11) == b % 11 % 10
  {
    var ra, rb := a % 11, b % 11;
    assert a == 11 * (a / 11) + ra;
    assert b == 11 * (b / 11) + rb;
    assert a + b == 11 * ((a + b) / 11);
    var m := (a + b) / 11 - a / 11 - b / 11;
    assert ra + rb == 11 * m;
    assert m == 0 || m == 1;
  }

  /**
   * The Receita rule agrees with the "ascending weights, remainder by 11,
   * then by 10" form, for up to ten digits.
   */
  lemma Modulo11Ascending(s: seq<int>)
    requires AllDigits(s) && |s| <= 10
    ensures Modulo11Digit(s) == AscendingSum(s, 10 - |s|) % 11 % 10
  {
    ComplementaryWeights(s, 10 - |s|, |s| + 1);
    assert (AscendingSum(s, 10 - |s|) + DescendingSum(s, |s| + 1)) % 11 == 0;
    Modulo11Complement(DescendingSum(s, |s| + 1), AscendingSum(s, 10 - |s|));
  }
}
