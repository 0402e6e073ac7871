/**
 * The JavaScript number conversions the pages rely on: `String(n)` for an integer and
 * `parseInt` of a decimal string, whose failure value is `NaN`.
 */
module JsNumbers {
  import opened JsText

  /** A JavaScript number as the pages produce it: an integer, or `NaN`. */
  datatype Number = Num(n: int) | NaN

  predicate IsDigit(c: char) {
    '0' <= c <= '9'
  }

  predicate AllDigits(s: string) {
    forall k :: 0 <= k < |s| ==> IsDigit(s[k])
  }

  function DigitChar(d: nat): (c: char)
    requires d < 10
    ensures IsDigit(c)
  {
    (48 + d) as char
  }

  /** `String(n)` for a natural number: its decimal digits, without leading zeros. */
  function Decimal(n: nat): (s: string)
    ensures |s| >= 1 && AllDigits(s)
    ensures |s| > 1 ==> s[0] != '0'
  {
    if n < 10 then [DigitChar(n)]
    else
      var front := Decimal(n / 10);
      assert (front + [DigitChar(n % 10)])[0] == front[0];
      front + [DigitChar(n % 10)]
  }

  /** `String(i)` for an integer: a `-` before the digits of a negative number. */
  function IntToString(i: int): string {
    if i < 0 then "-" + Decimal(-i) else Decimal(i)
  }

  /** The value of a string of decimal digits. */
  function ParseDigits(s: string): nat
    requires AllDigits(s)
  {
    if |s| == 0 then 0
    else 10 * ParseDigits(s[..|s| - 1]) + (s[|s| - 1] as int - 48)
  }

  lemma {:induction false} ParseDecimal(n: nat)
    ensures ParseDigits(Decimal(n)) == n
  {
    if n >= 10 {
      var s := Decimal(n);
      assert s[..|s| - 1] == Decimal(n / 10);
      ParseDecimal(n / 10);
    }
  }

  /** Length of the longest prefix of `s` made of decimal digits. */
  function DigitRun(s: string): (n: nat)
    ensures n <= |s| && AllDigits(s[..n]) && (n < |s| ==> !IsDigit(s[n]))
  {
    if |s| == 0 || !IsDigit(s[0]) then 0
    else
      var n := 1 + DigitRun(s[1..]);
      assert forall k :: 1 <= k < n ==> s[..n][k] == s[1..][..n - 1][k - 1];
      n
  }

  /**
   * `parseInt(s)`: leading white space is skipped, one sign is read, then the longest run of
   * decimal digits; without a digit the result is `NaN`.
   */
  function ParseInt(s: string): Number {
    var t := TrimStart(s);
    var negative := t != [] && t[0] == '-';
    var body := if t != [] && (t[0] == '-' || t[0] == '+') then t[1..] else t;
    var n := DigitRun(body);
    if n == 0 then NaN
    else if negative then Num(-(ParseDigits(body[..n]) as int))
    else Num(ParseDigits(body[..n]))
  }

  lemma {:induction false} DigitRunAll(s: string)
    requires AllDigits(s)
    ensures DigitRun(s) == |s|
  {
    if s != [] {
      DigitRunAll(s[1..]);
    }
  }

  /** `parseInt(String(i))` gives back `i`: the option values of a select read back as ids. */
  lemma ParseIntOfString(i: int)
    ensures ParseInt(IntToString(i)) == Num(i)
  {
    var s := IntToString(i);
    var m: nat := if i < 0 then -i else i;
    var digits := Decimal(m);
    assert !IsSpace(s[0]);
    assert TrimStart(s) == s;
    ParseDecimal(m);
    DigitRunAll(digits);
    assert digits[..|digits|] == digits;
    if i < 0 {
      assert s[1..] == digits;
    }
  }
}
