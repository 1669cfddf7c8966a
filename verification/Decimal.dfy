/** Decimal texts: reading array indices from pointers, and printing integers. */
module Decimals {
  import opened Wrappers

  predicate Digits(s: string) {
    forall i | 0 <= i < |s| :: '0' <= s[i] <= '9'
  }

  function DecimalValue(s: string): nat
    requires Digits(s)
  {
    if s == "" then 0
    else 10 * DecimalValue(s[..|s| - 1]) + (s[|s| - 1] as int - '0' as int)
  }

  /** No sign, no leading zero except "0" itself. */
  predicate IsIndexToken(s: string) {
    s != "" && Digits(s) && (s[0] != '0' || |s| == 1)
  }

  function ParseIndex(s: string): Option<nat> {
    if IsIndexToken(s) then Some(DecimalValue(s)) else None
  }

  lemma {:induction false} IndexTokenValuePositive(s: string)
    requires IsIndexToken(s) && s != "0"
    ensures DecimalValue(s) > 0
  {
    if |s| > 1 {
      IndexTokenValuePositive(s[..|s| - 1]);
    }
  }

  /** Two tokens never denote the same array slot. */
  lemma {:induction false} IndexTokenInjective(a: string, b: string)
    requires IsIndexToken(a) && IsIndexToken(b)
    requires DecimalValue(a) == DecimalValue(b)
    ensures a == b
  {
    var a', b' := a[..|a| - 1], b[..|b| - 1];
    assert DecimalValue(a') == DecimalValue(b') && a[|a| - 1] == b[|b| - 1];
    if |a| > 1 && |b| > 1 {
      IndexTokenInjective(a', b');
    } else if |a| > 1 {
      IndexTokenValuePositive(a');
    } else if |b| > 1 {
      IndexTokenValuePositive(b');
    }
    assert a == a' + [a[|a| - 1]] && b == b' + [b[|b| - 1]];
  }

  // ---- Printing ------------------------------------------------------------

  function NatText(n: nat): (s: string)
    ensures s != "" && Digits(s)
  {
    var digit := ('0' as int + n % 10) as char;
    if n < 10 then [digit] else NatText(n / 10) + [digit]
  }

  function IntText(n: int): string {
    if n < 0 then "-" + NatText(-n) else NatText(n)
  }

  lemma {:induction false} NatTextValue(n: nat)
    ensures DecimalValue(NatText(n)) == n
  {
    if n >= 10 {
      NatTextValue(n / 10);
      assert NatText(n)[..|NatText(n)| - 1] == NatText(n / 10);
    } else {
      assert NatText(n)[..0] == "";
    }
  }

  lemma IntTextInjective(a: int, b: int)
    ensures IntText(a) == IntText(b) <==> a == b
  {
    NatTextValue(if a < 0 then -a else a);
    NatTextValue(if b < 0 then -b else b);
    if a < 0 {
      assert IntText(a)[1..] == NatText(-a);
    }
    if b < 0 {
      assert IntText(b)[1..] == NatText(-b);
    }
  }
}
