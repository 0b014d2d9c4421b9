/**
 * Decimal text of non-negative integers, as JavaScript writes a number into a
 * template string (`${n}`) or `toString()`, and reads it back with `parseInt`.
 */
module Decimal {
  import opened Wrappers

  predicate IsDigit(c: char) {
    '0' <= c <= '9'
  }

  predicate AllDigits(s: string) {
    forall k :: 0 <= k < |s| ==> IsDigit(s[k])
  }

  function DigitValue(c: char): nat
    requires IsDigit(c)
  {
    c as int - '0' as int
  }

  function DigitChar(d: nat): (c: char)
    requires d < 10
    ensures IsDigit(c) && DigitValue(c) == d
  {
    ('0' as int + d) as char
  }

  /** The decimal text of `n`: never empty, digits only, no leading zero. */
  function Str(n: nat): (s: string)
    ensures |s| > 0 && AllDigits(s)
    ensures n >= 10 ==> s[0] != '0'
    decreases n
  {
    if n < 10 then [DigitChar(n)] else Str(n / 10) + [DigitChar(n % 10)]
  }

  /** The number a string of digits denotes. */
  function Value(s: string): nat
    requires AllDigits(s)
    decreases |s|
  {
    if s == [] then 0 else Value(s[..|s| - 1]) * 10 + DigitValue(s[|s| - 1])
  }

  lemma {:induction false} ValueOfStr(n: nat)
    ensures Value(Str(n)) == n
  {
    if n >= 10 {
      var s := Str(n);
      assert s[..|s| - 1] == Str(n / 10);
      ValueOfStr(n / 10);
    }
  }

  /** Two numbers print the same exactly when they are equal. */
  lemma StrInjective(m: nat, n: nat)
    ensures Str(m) == Str(n) <==> m == n
  {
    if Str(m) == Str(n) {
      ValueOfStr(m);
      ValueOfStr(n);
    }
  }

  /** The length of the longest prefix of `s` made of digits. */
  function DigitRun(s: string): (k: nat)
    ensures k <= |s| && AllDigits(s[..k])
    ensures k < |s| ==> !IsDigit(s[k])
    decreases |s|
  {
    if s == [] || !IsDigit(s[0]) then 0 else 1 + DigitRun(s[1..])
  }

  /**
   * `parseInt` of a decimal text: the value of the leading run of digits, or
   * None (NaN) when the text does not start with a digit. The "0x" prefix,
   * leading whitespace and signs are not read.
   */
  function ParseInt(s: string): Option<nat> {
    var k := DigitRun(s);
    if k == 0 then None else Some(Value(s[..k]))
  }

  /** The digit run of a number's text stops where the number's text stops. */
  lemma {:induction false} DigitRunOfStr(n: nat, rest: string)
    requires rest == [] || !IsDigit(rest[0])
    ensures DigitRun(Str(n) + rest) == |Str(n)|
    ensures (Str(n) + rest)[..|Str(n)|] == Str(n)
  {
    DigitRunPrefix(Str(n), rest);
  }

  lemma {:induction false} DigitRunPrefix(d: string, rest: string)
    requires AllDigits(d)
    requires rest == [] || !IsDigit(rest[0])
    ensures DigitRun(d + rest) == |d|
    ensures (d + rest)[..|d|] == d
  {
    if d != [] {
      assert (d + rest)[1..] == d[1..] + rest;
      DigitRunPrefix(d[1..], rest);
    }
  }

  /** Reading back a printed number recovers it, whatever non-digit text follows. */
  lemma ParseIntOfStr(n: nat, rest: string)
    requires rest == [] || !IsDigit(rest[0])
    ensures ParseInt(Str(n) + rest) == Some(n)
  {
    DigitRunOfStr(n, rest);
    ValueOfStr(n);
  }
}
