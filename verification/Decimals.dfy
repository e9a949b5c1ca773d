/** Decimal numerals, as `str` and f-strings print them. */
module Decimals {
  function Decimal(n: nat): (s: string)
    ensures |s| > 0
    ensures |s| == 1 <==> n < 10
  {
    if n < 10 then [Digit(n)] else Decimal(n / 10) + [Digit(n % 10)]
  }

  function Digit(d: nat): char
    requires d < 10
  {
    ('0' as int + d) as char
  }

  lemma {:induction false} DecimalInjective(a: nat, b: nat)
    ensures Decimal(a) == Decimal(b) ==> a == b
    decreases a
  {
    if Decimal(a) == Decimal(b) {
      var s := Decimal(a);
      assert s[|s| - 1] == Digit(a % 10) == Digit(b % 10);
      if a >= 10 {
        assert s[..|s| - 1] == Decimal(a / 10) == Decimal(b / 10);
        DecimalInjective(a / 10, b / 10);
      }
    }
  }

  /** What a text of decimal digits stands for. */
  ghost function Value(s: string): int {
    if s == [] then 0 else 10 * Value(s[..|s| - 1]) + (s[|s| - 1] as int - '0' as int)
  }

  ghost predicate IsNumeral(s: string) {
    && s != [] && (forall i :: 0 <= i < |s| ==> '0' <= s[i] <= '9')
    && (s[0] == '0' ==> |s| == 1)
  }

  lemma {:induction false} PrintedIsNumeral(n: nat)
    ensures IsNumeral(Decimal(n)) && Value(Decimal(n)) == n && (n > 0 ==> Decimal(n)[0] != '0')
    decreases n
  {
    if n < 10 {
      assert Decimal(n)[..0] == [];
    } else {
      PrintedIsNumeral(n / 10);
      assert Decimal(n)[..|Decimal(n)| - 1] == Decimal(n / 10);
      assert Decimal(n)[0] == Decimal(n / 10)[0];
    }
  }

  lemma {:induction false} NumeralIsPrinted(s: string)
    requires IsNumeral(s)
    ensures Value(s) >= 0 && Decimal(Value(s)) == s && (s[0] != '0' ==> Value(s) > 0)
    decreases |s|
  {
    var front, last := s[..|s| - 1], s[|s| - 1];
    if front == [] {
      assert Value(front) == 0;
    } else {
      assert front[0] == s[0];
      NumeralIsPrinted(front);
      var d := last as int - '0' as int;
      assert Value(s) == 10 * Value(front) + d && 0 <= d < 10;
      assert Value(s) / 10 == Value(front) && Value(s) % 10 == d;
      assert s == front + [last];
    }
  }

  /** A natural number is printed as the one text of decimal digits without leading zeros that stands for it. */
  lemma DecimalExactly(n: nat, s: string)
    ensures Decimal(n) == s <==> IsNumeral(s) && Value(s) == n
  {
    PrintedIsNumeral(n);
    if IsNumeral(s) && Value(s) == n {
      NumeralIsPrinted(s);
    }
  }
}
