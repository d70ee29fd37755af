/** Python's `int(text)` on a string, base 10, as the class-list parser calls it. */
module IntLiteral {
  import opened Outcomes

  predicate IsDigit(c: char) {
    '0' <= c <= '9'
  }

  function DigitValue(c: char): (d: nat)
    requires IsDigit(c)
    ensures d < 10
  {
    (c as int) - ('0' as int)
  }

  function DigitChar(d: nat): (c: char)
    requires d < 10
    ensures IsDigit(c) && DigitValue(c) == d
  {
    (('0' as int) + d) as char
  }

  /** The characters a literal that `int()` accepts is made of. */
  predicate IsLiteralChar(c: char) {
    IsDigit(c) || c == '_' || c == '+' || c == '-'
  }

  predicate DigitsAndUnderscores(s: string) {
    forall k :: 0 <= k < |s| ==> IsDigit(s[k]) || s[k] == '_'
  }

  /** The unsigned part of a decimal literal: ASCII digits, where a single
      underscore may stand between two digits (PEP 515), as in "1_000". */
  predicate IsDigitRun(s: string) {
    |s| > 0 && IsDigit(s[0]) && IsDigit(s[|s| - 1])
    && DigitsAndUnderscores(s)
    && (forall k :: 0 <= k < |s| - 1 ==> s[k] == '_' ==> IsDigit(s[k + 1]))
  }

  /** The value of the digits of `s`, most significant first, underscores ignored. */
  function RunValue(s: string): nat
    requires DigitsAndUnderscores(s)
  {
    if s == [] then 0
    else if s[|s| - 1] == '_' then RunValue(s[..|s| - 1])
    else 10 * RunValue(s[..|s| - 1]) + DigitValue(s[|s| - 1])
  }

  predicate HasSign(t: string) {
    |t| > 0 && (t[0] == '+' || t[0] == '-')
  }

  /** `int(t)`: an optional sign followed by a digit run, or `ValueError`
      naming the text. `t` comes already stripped, so the whitespace `int()`
      itself would skip never occurs here. */
  function ParseInt(t: string): (r: Result<int>)
    ensures r.Failure? ==> r.error == InvalidLiteral(t)
    ensures r.Success? ==> |t| > 0 && IsDigit(t[|t| - 1])
    ensures r.Success? ==> forall k :: 0 <= k < |t| ==> IsLiteralChar(t[k])
  {
    var body := if HasSign(t) then t[1..] else t;
    if !IsDigitRun(body) then Failure(InvalidLiteral(t))
    else
      var n: int := RunValue(body);
      Success(if t[0] == '-' then -n else n)
  }

  /** The decimal digits of `n`, as `str(n)` writes a non-negative integer. */
  function Digits(n: nat): (s: string)
    ensures IsDigitRun(s) && RunValue(s) == n
    ensures s[0] != '0' || n == 0
  {
    if n < 10 then [DigitChar(n)]
    else
      var s := Digits(n / 10) + [DigitChar(n % 10)];
      assert s[..|s| - 1] == Digits(n / 10);
      s
  }

  /** `str(n)`. */
  function FormatInt(n: int): string {
    if n < 0 then "-" + Digits(-n) else Digits(n)
  }

  /** `int(str(n)) == n` for every integer. */
  lemma ParseFormat(n: int)
    ensures ParseInt(FormatInt(n)) == Success(n)
  {
    if n < 0 {
      assert FormatInt(n)[1..] == Digits(-n);
    }
  }

  /** Leading zeros are allowed in a decimal literal. */
  lemma ParseIntLeadingZeros()
    ensures ParseInt("007") == Success(7)
  {
    assert "007"[..2] == "00" && "00"[..1] == "0" && "0"[..0] == "";
  }

  /** A leading sign applies to the digits after it. */
  lemma ParseIntSigned()
    ensures ParseInt("-12") == Success(-12)
    ensures ParseInt("+3") == Success(3)
  {
    assert "-12"[1..] == "12" && "12"[..1] == "1" && "1"[..0] == "";
    assert "+3"[1..] == "3" && "3"[..0] == "";
  }

  /** A single underscore may group digits. */
  lemma ParseIntGrouped()
    ensures ParseInt("1_000") == Success(1000)
  {
    assert "1_000"[..4] == "1_00" && "1_00"[..3] == "1_0" && "1_0"[..2] == "1_";
    assert "1_"[..1] == "1" && "1"[..0] == "";
  }

  /** Texts `int()` refuses: doubled, leading or trailing underscores, no
      digits, and inner whitespace. */
  lemma ParseIntRejects()
    ensures ParseInt("1__0").Failure? && ParseInt("_1").Failure? && ParseInt("1_").Failure?
    ensures ParseInt("").Failure? && ParseInt("-").Failure? && ParseInt("1 2").Failure?
    ensures ParseInt("x") == Failure(InvalidLiteral("x"))
  {
    assert "1__0"[1] == '_' && "1__0"[2] == '_';
    assert "-"[1..] == "";
  }
}
