/** Python's `int(x)` as the parser uses it: on `None` it raises `TypeError`,
    on a string it accepts an optional sign followed by decimal digits and
    raises `ValueError` otherwise. */
module PyInt {
  import opened Wrappers

  /** The two exceptions `int()` and `datetime.date()` raise here. */
  datatype PyError = TypeError | ValueError

  predicate IsDigit(c: char) {
    '0' <= c <= '9'
  }

  /** A non-empty run of decimal digits. */
  predicate IsDigits(s: string) {
    |s| > 0 && forall i :: 0 <= i < |s| ==> IsDigit(s[i])
  }

  predicate IsSign(c: char) {
    c == '-' || c == '+'
  }

  /** The literals `int()` accepts in this model. */
  predicate IsIntLiteral(s: string) {
    IsDigits(s) || (|s| > 1 && IsSign(s[0]) && IsDigits(s[1..]))
  }

  function DigitValue(c: char): nat
    requires IsDigit(c)
  {
    c as int - '0' as int
  }

  /** Value of a digit string read most significant digit first. */
  function DigitsValue(s: string): nat
    requires forall i :: 0 <= i < |s| ==> IsDigit(s[i])
  {
    if |s| == 0 then 0 else DigitsValue(s[..|s| - 1]) * 10 + DigitValue(s[|s| - 1])
  }

  /** `int(s)`; `None` stands for a missing text value. */
  function ParseInt(s: Option<string>): (r: Result<int, PyError>)
    ensures r.Success? <==> s.Some? && IsIntLiteral(s.value)
    ensures s.None? ==> r == Failure(TypeError)
    ensures s.Some? && !IsIntLiteral(s.value) ==> r == Failure(ValueError)
  {
    match s
    case None => Failure(TypeError)
    case Some(str) =>
      if IsDigits(str) then Success(DigitsValue(str))
      else if |str| > 1 && IsSign(str[0]) && IsDigits(str[1..]) then
        var v: int := DigitsValue(str[1..]);
        var k := if str[0] == '-' then -v else v;
        Success(k)
      else Failure(ValueError)
  }

  /** Python's truth value of an integer: only zero is false. */
  predicate Truthy(k: int) {
    k != 0
  }

  function DigitChar(d: nat): (c: char)
    requires d < 10
    ensures IsDigit(c) && DigitValue(c) == d
  {
    ('0' as int + d) as char
  }

  /** Decimal digits of `n`, most significant first, without leading zeros. */
  function NatToDigits(n: nat): (r: string)
    ensures IsDigits(r)
  {
    if n < 10 then [DigitChar(n)] else NatToDigits(n / 10) + [DigitChar(n % 10)]
  }

  /** `str(k)` for an integer `k`. */
  function IntToString(k: int): (r: string)
    ensures IsIntLiteral(r)
  {
    if k < 0 then "-" + NatToDigits(-k) else NatToDigits(k)
  }

  lemma {:induction false} DigitsRoundTrip(n: nat)
    ensures DigitsValue(NatToDigits(n)) == n
  {
    var s := NatToDigits(n);
    if n >= 10 {
      assert s[..|s| - 1] == NatToDigits(n / 10);
      DigitsRoundTrip(n / 10);
    }
  }

  /** `int(str(k)) == k` for every integer `k`. */
  lemma ParseIntRoundTrip(k: int)
    ensures ParseInt(Some(IntToString(k))) == Success(k)
  {
    if k < 0 {
      var s := IntToString(k);
      assert s[1..] == NatToDigits(-k);
      assert !IsDigits(s) by { assert !IsDigit(s[0]); }
      DigitsRoundTrip(-k);
    } else {
      DigitsRoundTrip(k);
    }
  }
}
