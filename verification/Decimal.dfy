/** Canonical decimal numbers: Go's `%d` and the service's `parseUint`. */
module Decimal {
  import opened Basics

  predicate IsDigit(c: char) { '0' <= c <= '9' }

  predicate AllDigits(s: string) { forall i :: 0 <= i < |s| ==> IsDigit(s[i]) }

  function Digit(d: int): (c: char)
    requires 0 <= d < 10
    ensures IsDigit(c) && c as int - '0' as int == d
  {
    (d + '0' as int) as char
  }

  function Print(n: nat): (s: string)
    ensures s != "" && AllDigits(s)
    ensures |s| > 1 ==> s[0] != '0'
    ensures n > 0 ==> s[0] != '0'
  {
    if n < 10 then [Digit(n)] else Print(n / 10) + [Digit(n % 10)]
  }

  function Value(s: string): nat
    requires AllDigits(s)
  {
    if s == "" then 0 else 10 * Value(s[..|s| - 1]) + (s[|s| - 1] as int - '0' as int)
  }

  /** `parseUint`: no empty text, no leading zero, digits only, below 2 to the power `bits`. */
  function ParseUint(value: string, limit: nat): Option<nat> {
    if value == "" || (|value| > 1 && value[0] == '0') then None
    else if !AllDigits(value) then None
    else if Value(value) >= limit then None
    else Some(Value(value))
  }

  lemma {:induction false} ValueOfPrint(n: nat)
    ensures Value(Print(n)) == n
  {
    if n < 10 {
      assert Print(n)[..0] == "";
    } else {
      ValueOfPrint(n / 10);
      assert Print(n)[..|Print(n)| - 1] == Print(n / 10);
    }
  }

  lemma {:induction false} PrintOfValue(s: string)
    requires s != "" && AllDigits(s) && (|s| > 1 ==> s[0] != '0')
    ensures Print(Value(s)) == s
    ensures s[0] != '0' ==> Value(s) > 0
  {
    var n := |s| - 1;
    if n == 0 {
      assert s[..0] == "";
      assert s == [s[0]];
    } else {
      PrintOfValue(s[..n]);
      assert s == s[..n] + [s[n]];
    }
  }

  lemma ParsePrinted(n: nat, limit: nat)
    requires n < limit
    ensures ParseUint(Print(n), limit) == Some(n)
  {
    ValueOfPrint(n);
  }

  lemma PrintParsed(s: string, limit: nat)
    requires ParseUint(s, limit).Some?
    ensures Print(ParseUint(s, limit).value) == s
  {
    PrintOfValue(s);
  }
}
