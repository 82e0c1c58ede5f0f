/** std::to_string of an integer, and keys built by appending it to a name. */
module Decimal {

  function DigitChar(d: nat): (c: char)
    requires d < 10
    ensures '0' <= c <= '9'
  {
    '0' + d as char
  }

  function DecNat(n: nat): (s: string)
    ensures |s| > 0
  {
    if n < 10 then [DigitChar(n)] else DecNat(n / 10) + [DigitChar(n % 10)]
  }

  function Dec(n: int): string { if n >= 0 then DecNat(n) else "-" + DecNat(-n) }

  predicate Numeric(s: string) { forall i :: 0 <= i < |s| ==> '0' <= s[i] <= '9' || s[i] == '-' }

  lemma {:induction false} DecNatDigits(n: nat)
    ensures forall i :: 0 <= i < |DecNat(n)| ==> '0' <= DecNat(n)[i] <= '9'
  {
    if n >= 10 { DecNatDigits(n / 10); }
  }

  lemma {:induction false} DecNumeric(n: int)
    ensures Numeric(Dec(n))
  {
    DecNatDigits(if n >= 0 then n else -n);
  }

  lemma {:induction false} DecNatInjective(a: nat, b: nat)
    requires DecNat(a) == DecNat(b)
    ensures a == b
  {
    var s, t := DecNat(a), DecNat(b);
    if a < 10 && b < 10 {
      assert s[0] == t[0];
    } else if a >= 10 && b >= 10 {
      assert s[|s| - 1] == t[|t| - 1];
      assert s[..|s| - 1] == DecNat(a / 10) && t[..|t| - 1] == DecNat(b / 10);
      DecNatInjective(a / 10, b / 10);
    }
  }

  lemma {:induction false} DecInjective(a: int, b: int)
    requires Dec(a) == Dec(b)
    ensures a == b
  {
    DecNatDigits(if a >= 0 then a else -a);
    DecNatDigits(if b >= 0 then b else -b);
    assert (a >= 0 <==> Dec(a)[0] != '-') && (b >= 0 <==> Dec(b)[0] != '-');
    if a >= 0 && b >= 0 {
      DecNatInjective(a, b);
    } else if a < 0 && b < 0 {
      assert Dec(a)[1..] == DecNat(-a) && Dec(b)[1..] == DecNat(-b);
      DecNatInjective(-a, -b);
    }
  }

  /** The key of window n of a group. */
  function Key(group: string, n: int): string { group + "_" + Dec(n) }

  /** What stands before the last underscore. */
  function BeforeLast(s: string): string {
    if s == "" then ""
    else if s[|s| - 1] == '_' then s[..|s| - 1]
    else BeforeLast(s[..|s| - 1])
  }

  lemma {:induction false} BeforeLastKey(group: string, number: string)
    requires Numeric(number)
    ensures BeforeLast(group + "_" + number) == group
  {
    if number == "" {
      assert group + "_" + number == group + "_";
    } else {
      assert (group + "_" + number)[..|group + "_" + number| - 1] == group + "_" + number[..|number| - 1];
      BeforeLastKey(group, number[..|number| - 1]);
    }
  }

  /** The key determines the group and the number, whatever the group's own characters. */
  lemma {:induction false} KeyInjective(g: string, a: int, h: string, b: int)
    requires Key(g, a) == Key(h, b)
    ensures g == h && a == b
  {
    DecNumeric(a);
    DecNumeric(b);
    BeforeLastKey(g, Dec(a));
    BeforeLastKey(h, Dec(b));
    assert Dec(a) == Key(g, a)[|g| + 1..] == Key(h, b)[|h| + 1..] == Dec(b);
    DecInjective(a, b);
  }
}
