/**
 * Decimal integers as strings: `parseInt(s, 10)` and `String(n)` on integral values.
 * `ParseInt` reads what `parseInt` reads: leading white space, an optional sign,
 * then the longest run of decimal digits; anything after that run is ignored, and
 * a string with no digits in that place yields no number (JavaScript's NaN).
 */
module Decimal {
  import opened Wrappers

  predicate IsDigit(c: char)
  {
    '0' <= c <= '9'
  }

  /** The white-space and line-terminator characters `parseInt` skips before the number. */
  predicate IsSpace(c: char)
  {
    || c == '\t' || c == '\n' || c == '\U{B}' || c == '\U{C}' || c == '\r'
    || c == '\U{FEFF}' || c == '\U{2028}' || c == '\U{2029}'
    // Unicode space separators (category Zs)
    || c == ' ' || c == '\U{A0}' || c == '\U{1680}' || '\U{2000}' <= c <= '\U{200A}'
    || c == '\U{202F}' || c == '\U{205F}' || c == '\U{3000}'
  }

  function DigitValue(c: char): nat
    requires IsDigit(c)
  {
    (c as int) - ('0' as int)
  }

  function DigitChar(d: nat): (c: char)
    requires d < 10
    ensures IsDigit(c) && DigitValue(c) == d
  {
    ('0' as int + d) as char
  }

  predicate AllDigits(s: string)
  {
    forall i :: 0 <= i < |s| ==> IsDigit(s[i])
  }

  /** The number a run of decimal digits denotes, most significant digit first. */
  function Value(ds: string): nat
    requires AllDigits(ds)
  {
    if |ds| == 0 then 0 else 10 * Value(ds[..|ds| - 1]) + DigitValue(ds[|ds| - 1])
  }

  /** `s` without its leading white space. */
  function TrimStart(s: string): (t: string)
    ensures |t| <= |s| && t == s[|s| - |t|..]
    ensures |t| > 0 ==> !IsSpace(t[0])
    ensures forall i :: 0 <= i < |s| - |t| ==> IsSpace(s[i])
  {
    if |s| > 0 && IsSpace(s[0]) then TrimStart(s[1..]) else s
  }

  /** Length of the longest prefix of `s` made of decimal digits. */
  function DigitRun(s: string): (n: nat)
    ensures n <= |s| && AllDigits(s[..n])
    ensures n < |s| ==> !IsDigit(s[n])
  {
    if |s| > 0 && IsDigit(s[0]) then
      var k := DigitRun(s[1..]);
      assert s[..k + 1] == [s[0]] + s[1..][..k];
      k + 1
    else 0
  }

  /** The number spelled by the digit run at the start of `u`, if there is one. */
  function LeadingNumber(u: string): Option<nat>
  {
    var n := DigitRun(u);
    if n == 0 then None else Some(Value(u[..n]))
  }

  /** `parseInt(s, 10)`: `None` stands for NaN. */
  function ParseInt(s: string): Option<int>
  {
    var t := TrimStart(s);
    if |t| > 0 && t[0] == '-' then
      match LeadingNumber(t[1..])
      case None => None
      case Some(m) => Some(-(m as int))
    else if |t| > 0 && t[0] == '+' then
      match LeadingNumber(t[1..])
      case None => None
      case Some(m) => Some(m)
    else
      match LeadingNumber(t)
      case None => None
      case Some(m) => Some(m)
  }

  /** Decimal digits of a natural number, without leading zeros. */
  function Digits(n: nat): (ds: string)
    ensures |ds| > 0 && AllDigits(ds) && Value(ds) == n
    ensures n >= 10 ==> ds[0] != '0'
  {
    if n < 10 then [DigitChar(n)]
    else
      var ds := Digits(n / 10) + [DigitChar(n % 10)];
      assert ds[..|ds| - 1] == Digits(n / 10);
      ds
  }

  /** `String(n)` for an integral number. */
  function ToDecimal(n: int): string
  {
    if n < 0 then "-" + Digits(-n) else Digits(n)
  }

  /** `DigitRun` stops exactly at the end of a digit string followed by a non-digit. */
  lemma {:induction false} DigitRunOfDigits(ds: string, rest: string)
    requires AllDigits(ds)
    requires |rest| == 0 || !IsDigit(rest[0])
    ensures DigitRun(ds + rest) == |ds|
    decreases |ds|
  {
    if |ds| > 0 {
      assert (ds + rest)[1..] == ds[1..] + rest;
      DigitRunOfDigits(ds[1..], rest);
    }
  }

  /** The digit run at the start of a digit string followed by a non-digit is that string. */
  lemma {:induction false} LeadingNumberOfDigits(ds: string, rest: string)
    requires |ds| > 0 && AllDigits(ds)
    requires |rest| == 0 || !IsDigit(rest[0])
    ensures LeadingNumber(ds + rest) == Some(Value(ds))
  {
    DigitRunOfDigits(ds, rest);
    assert (ds + rest)[..|ds|] == ds;
  }

  /** `parseInt` reads an unsigned digit string back as its value. */
  lemma {:induction false} ParseDigitsPrefix(ds: string, rest: string)
    requires |ds| > 0 && AllDigits(ds)
    requires |rest| == 0 || !IsDigit(rest[0])
    ensures ParseInt(ds + rest) == Some(Value(ds))
  {
    var s := ds + rest;
    assert s[0] == ds[0] && IsDigit(s[0]);
    assert !IsSpace(s[0]) && s[0] != '-' && s[0] != '+';
    TrimStartKeeps(s);
    LeadingNumberOfDigits(ds, rest);
  }

  /** A leading minus sign negates the number that follows it. */
  lemma {:induction false} ParseMinus(s: string, v: nat)
    requires |s| > 0 && s[0] == '-' && LeadingNumber(s[1..]) == Some(v)
    ensures ParseInt(s) == Some(-(v as int))
  {
    TrimStartKeeps(s);
  }

  /** Nothing is trimmed from a string that does not start with white space. */
  lemma {:induction false} TrimStartKeeps(s: string)
    requires |s| > 0 && !IsSpace(s[0])
    ensures TrimStart(s) == s
  {
  }

  /** `parseInt` reads a minus sign followed by a digit string back as the negated value. */
  lemma {:induction false} ParseNegativePrefix(ds: string, rest: string)
    requires |ds| > 0 && AllDigits(ds)
    requires |rest| == 0 || !IsDigit(rest[0])
    ensures ParseInt(['-'] + (ds + rest)) == Some(-(Value(ds) as int))
  {
    var u := ds + rest;
    var s := ['-'] + u;
    assert s[1..] == u;
    LeadingNumberOfDigits(ds, rest);
    ParseMinus(s, Value(ds));
  }

  /**
   * Whatever follows a number does not change what `parseInt` reads, as long as
   * it does not start with a digit ("320px" reads as 320, "320" as 320).
   */
  lemma {:induction false} ParseDecimalPrefix(n: int, rest: string)
    requires |rest| == 0 || !IsDigit(rest[0])
    ensures ParseInt(ToDecimal(n) + rest) == Some(n)
  {
    if n < 0 {
      var ds := Digits(-n);
      assert ToDecimal(n) + rest == ['-'] + (ds + rest);
      ParseNegativePrefix(ds, rest);
    } else {
      ParseDigitsPrefix(Digits(n), rest);
    }
  }

  /** `parseInt(String(n))` gives `n` back. */
  lemma {:induction false} ParseToDecimal(n: int)
    ensures ParseInt(ToDecimal(n)) == Some(n)
  {
    ParseDecimalPrefix(n, "");
    assert ToDecimal(n) + "" == ToDecimal(n);
  }

  /** A string whose first character is not white space, a sign or a digit reads as NaN ("abc"). */
  lemma {:induction false} ParseRejectsNonNumeric(s: string)
    requires |s| > 0 && !IsSpace(s[0]) && !IsDigit(s[0]) && s[0] != '-' && s[0] != '+'
    ensures ParseInt(s).None?
  {
  }
}
