/**
  Java's `Integer.toString` and `Integer.parseInt` on ASCII decimal text:
  an optional sign followed by decimal digits, within the range of `int`.
*/
module IntText {

  import opened Wrappers
  import opened Int32

  predicate IsDigit(c: char) {
    '0' <= c <= '9'
  }

  predicate AllDigits(s: string) {
    forall i :: 0 <= i < |s| ==> IsDigit(s[i])
  }

  function DigitChar(d: nat): (c: char)
    requires d < 10
    ensures IsDigit(c) && DigitValue(c) == d
  {
    ('0' as int + d) as char
  }

  function DigitValue(c: char): nat
    requires IsDigit(c)
  {
    c as int - '0' as int
  }

  /** The decimal digits of `n`, most significant first, with no leading zero. */
  function Digits(n: nat): (s: string)
    ensures |s| > 0 && AllDigits(s)
    ensures |s| > 1 ==> s[0] != '0'
    decreases n
  {
    if n < 10 then [DigitChar(n)] else Digits(n / 10) + [DigitChar(n % 10)]
  }

  /** The number a string of digits denotes, read left to right as `parseInt` does. */
  function Value(s: string): nat
    requires AllDigits(s)
  {
    if |s| == 0 then 0 else 10 * Value(s[..|s| - 1]) + DigitValue(s[|s| - 1])
  }

  /** Reading the digits of `n` gives `n` back. */
  lemma {:induction false} ValueOfDigits(n: nat)
    ensures Value(Digits(n)) == n
    decreases n
  {
    if n >= 10 {
      var s := Digits(n);
      assert s[..|s| - 1] == Digits(n / 10);
      ValueOfDigits(n / 10);
    }
  }

  /** `Integer.toString`: a minus sign for negative numbers, then the digits. */
  function IntToString(n: int): (s: string)
    ensures |s| > 0
    ensures forall i :: 0 <= i < |s| ==> IsDigit(s[i]) || (i == 0 && s[i] == '-')
    ensures s[0] == '-' <==> n < 0
  {
    if n < 0 then "-" + Digits(-n) else Digits(n)
  }

  /** The sign of a numeral and the text after it. */
  function SplitSign(s: string): (r: (bool, string))
    requires |s| > 0
    ensures |r.1| + 1 >= |s|
  {
    if s[0] == '-' then (true, s[1..]) else if s[0] == '+' then (false, s[1..]) else (false, s)
  }

  /**
    `Integer.parseInt`: an optional '+' or '-' followed by at least one
    digit, denoting a value in the range of `int`. Anything else is a
    `NumberFormatException`, here `None`.
  */
  function ParseInt(s: string): (r: Option<int>)
    ensures r.Some? ==> InRange(r.value)
    ensures r.Some? ==> |s| > 0 && 0 < |SplitSign(s).1| && AllDigits(SplitSign(s).1)
  {
    if |s| == 0 then None
    else
      var (negative, digits) := SplitSign(s);
      if |digits| == 0 || !AllDigits(digits) then None
      else
        var v := if negative then -(Value(digits) as int) else Value(digits) as int;
        if InRange(v) then Some(v) else None
  }

  /** `parseInt` reads back every `int` that `toString` prints. */
  lemma ParseIntToString(n: int)
    requires InRange(n)
    ensures ParseInt(IntToString(n)) == Some(n)
  {
    var s := IntToString(n);
    if n < 0 {
      assert s[1..] == Digits(-n);
      ValueOfDigits(-n);
    } else {
      ValueOfDigits(n);
    }
  }
}
