/**
  Decimal text of an integer as strconv.Itoa writes it, and the reading that
  takes it back.  The proxy port is the only number the argument list holds.
*/
module Decimal {
  import opened Wrappers

  predicate IsDigit(ch: char) {
    '0' <= ch <= '9'
  }

  function DigitChar(d: nat): (ch: char)
    requires d < 10
    ensures IsDigit(ch) && ch as int - '0' as int == d
  {
    ('0' as int + d) as char
  }

  function DigitValue(ch: char): (d: nat)
    requires IsDigit(ch)
    ensures d < 10 && DigitChar(d) == ch
  {
    ch as int - '0' as int
  }

  predicate AllDigits(s: string) {
    forall i | 0 <= i < |s| :: IsDigit(s[i])
  }

  /** Digits with no superfluous leading zero: "0", or a first digit other than '0'. */
  predicate Canonical(s: string) {
    |s| > 0 && AllDigits(s) && (|s| > 1 ==> s[0] != '0')
  }

  /** The digits of n, most significant first. */
  function NatText(n: nat): (r: string)
    ensures Canonical(r)
    decreases n
  {
    if n < 10 then [DigitChar(n)]
    else
      var front := NatText(n / 10);
      front + [DigitChar(n % 10)]
  }

  /** The number a string of digits spells. */
  function ValueOf(s: string): nat
    requires AllDigits(s)
  {
    if |s| == 0 then 0 else 10 * ValueOf(s[..|s| - 1]) + DigitValue(s[|s| - 1])
  }

  /** strconv.Itoa: the digits of the magnitude, with '-' in front of a negative number. */
  function Itoa(n: int): (r: string)
    ensures |r| > 0
    ensures r[0] == '-' <==> n < 0
    ensures n < 0 ==> Canonical(r[1..]) && r[1] != '0'
    ensures n >= 0 ==> Canonical(r)
  {
    if n < 0 then "-" + NatText(-n) else NatText(n)
  }

  /** Reads the text Itoa writes; anything else, "-0" and leading zeros included, is refused. */
  function Atoi(s: string): (r: Option<int>)
    ensures r.Some? ==> (r.value < 0 <==> |s| > 0 && s[0] == '-')
  {
    if |s| > 0 && s[0] == '-' then
      if Canonical(s[1..]) && s[1] != '0' then
        LeadingDigitPositive(s[1..]);
        Some(0 - ValueOf(s[1..]))
      else None
    else if Canonical(s) then Some(ValueOf(s))
    else None
  }

  lemma {:induction false} ValueOfNatText(n: nat)
    ensures ValueOf(NatText(n)) == n
    decreases n
  {
    if n >= 10 {
      ValueOfNatText(n / 10);
      var r := NatText(n);
      assert r[..|r| - 1] == NatText(n / 10);
    }
  }

  lemma {:induction false} NatTextOfValue(s: string)
    requires Canonical(s)
    ensures NatText(ValueOf(s)) == s
    decreases |s|
  {
    if |s| > 1 {
      var front := s[..|s| - 1];
      assert front[0] == s[0];
      NatTextOfValue(front);
      assert ValueOf(front) > 0 by { LeadingDigitPositive(front); }
      assert ValueOf(s) / 10 == ValueOf(front);
      assert s == front + [s[|s| - 1]];
    }
  }

  /** A canonical string of two or more digits spells at least 10; one of one digit spells it. */
  lemma {:induction false} LeadingDigitPositive(s: string)
    requires Canonical(s) && s[0] != '0'
    ensures ValueOf(s) > 0
    decreases |s|
  {
    if |s| > 1 {
      var front := s[..|s| - 1];
      assert front[0] == s[0];
      LeadingDigitPositive(front);
    }
  }

  /** Atoi reads back every number Itoa writes. */
  lemma AtoiOfItoa(n: int)
    ensures Atoi(Itoa(n)) == Some(n)
  {
    if n < 0 {
      assert Itoa(n)[1..] == NatText(-n);
      ValueOfNatText(-n);
    } else {
      ValueOfNatText(n);
    }
  }

  /** Whatever Atoi accepts is exactly the text Itoa writes for the number read. */
  lemma ItoaOfAtoi(s: string)
    requires Atoi(s).Some?
    ensures Itoa(Atoi(s).value) == s
  {
    if |s| > 0 && s[0] == '-' {
      LeadingDigitPositive(s[1..]);
      NatTextOfValue(s[1..]);
    } else {
      NatTextOfValue(s);
      if |s| > 1 {
        LeadingDigitPositive(s);
      }
    }
  }
}
