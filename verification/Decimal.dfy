// Decimal numerals, as fmt's %d and strconv.FormatInt print them.
module Decimal {
  predicate IsDigit(c: char) {
    '0' <= c <= '9'
  }

  predicate AllDigits(s: string) {
    forall i | 0 <= i < |s| :: IsDigit(s[i])
  }

  // How many digits a text starts with.
  function DigitsEnd(s: string): (n: nat)
    ensures n <= |s|
    ensures AllDigits(s[..n])
  {
    if s == "" || !IsDigit(s[0]) then 0 else 1 + DigitsEnd(s[1..])
  }

  lemma {:induction false} DigitsEndAll(s: string)
    requires AllDigits(s)
    ensures DigitsEnd(s) == |s|
  {
    if s != "" {
      DigitsEndAll(s[1..]);
    }
  }

  lemma {:induction false} DigitsEndBefore(x: string, rest: string)
    requires AllDigits(x) && (rest == "" || !IsDigit(rest[0]))
    ensures DigitsEnd(x + rest) == |x|
  {
    if x == "" {
      assert x + rest == rest;
    } else {
      assert (x + rest)[1..] == x[1..] + rest;
      DigitsEndBefore(x[1..], rest);
    }
  }

  function NatText(n: nat): (s: string)
    ensures s != "" && AllDigits(s)
  {
    var d := [('0' as int + n % 10) as char];
    if n < 10 then d else NatText(n / 10) + d
  }

  function Value(s: string): nat
    requires AllDigits(s)
  {
    if s == "" then 0 else Value(s[..|s| - 1]) * 10 + (s[|s| - 1] as int - '0' as int)
  }

  lemma {:induction false} ValueOfNatText(n: nat)
    ensures Value(NatText(n)) == n
  {
    if n >= 10 {
      ValueOfNatText(n / 10);
      assert NatText(n)[..|NatText(n)| - 1] == NatText(n / 10);
    }
  }

  // Only zero starts with a zero.
  lemma {:induction false} NoLeadingZero(n: nat)
    ensures NatText(n)[0] == '0' <==> n == 0
    ensures n < 10 ==> NatText(n) == ["0123456789"[n]]
  {
    if n >= 10 {
      NoLeadingZero(n / 10);
    }
  }

  lemma {:induction false} NatTextInjective(a: nat, b: nat)
    requires NatText(a) == NatText(b)
    ensures a == b
  {
    ValueOfNatText(a);
    ValueOfNatText(b);
  }

  function IntText(x: int): string {
    if x < 0 then "-" + NatText(-x) else NatText(x)
  }

  lemma IntTextInjective(a: int, b: int)
    requires IntText(a) == IntText(b)
    ensures a == b
  {
    assert IsDigit(NatText(if a < 0 then -a else a)[0]) && IsDigit(NatText(if b < 0 then -b else b)[0]);
    if (a < 0) == (b < 0) {
      if a < 0 {
        assert IntText(a)[1..] == NatText(-a) && IntText(b)[1..] == NatText(-b);
        NatTextInjective(-a, -b);
      } else {
        NatTextInjective(a, b);
      }
    }
  }
}
