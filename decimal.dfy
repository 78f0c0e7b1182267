/**
 * Decimal text of integers: how JSON numbers are written and read, and how
 * Redis stores the counters that INCR updates.
 */
module Decimal {
  import opened Wrappers

  predicate IsDigit(c: char) {
    '0' <= c <= '9'
  }

  predicate AllDigits(s: string) {
    forall i :: 0 <= i < |s| ==> IsDigit(s[i])
  }

  /** A digit string without superfluous leading zeros. */
  predicate Canonical(s: string) {
    |s| > 0 && AllDigits(s) && (s[0] == '0' ==> |s| == 1)
  }

  function DigitChar(d: int): (c: char)
    requires 0 <= d < 10
    ensures IsDigit(c) && c as int - '0' as int == d
  {
    (d + '0' as int) as char
  }

  function DigitValue(c: char): (d: int)
    requires IsDigit(c)
    ensures 0 <= d < 10 && DigitChar(d) == c
  {
    c as int - '0' as int
  }

  /** The digits of a natural number, most significant first. */
  function Digits(n: nat): (s: string)
    ensures Canonical(s)
    ensures s[0] == '0' <==> n == 0
  {
    if n < 10 then [DigitChar(n)] else Digits(n / 10) + [DigitChar(n % 10)]
  }

  /** The value of a digit string. */
  function ValueOf(s: string): nat
    requires AllDigits(s)
  {
    if s == [] then 0 else ValueOf(s[..|s| - 1]) * 10 + DigitValue(s[|s| - 1])
  }

  /** How an integer is printed: an optional minus sign and its digits. */
  function Show(n: int): string {
    if n < 0 then "-" + Digits(-n) else Digits(n)
  }

  /** Strict reading of an integer: `-`? followed by canonical digits. */
  function Read(s: string): Option<int> {
    if |s| > 0 && s[0] == '-' then
      if Canonical(s[1..]) then Some(-(ValueOf(s[1..]) as int)) else None
    else if Canonical(s) then Some(ValueOf(s))
    else None
  }

  lemma {:induction false} ValueOfDigits(n: nat)
    ensures ValueOf(Digits(n)) == n
  {
    if n >= 10 {
      ValueOfDigits(n / 10);
      var s := Digits(n);
      assert s[..|s| - 1] == Digits(n / 10);
    }
  }

  /** A canonical digit string that does not start with 0 has a positive value. */
  lemma {:induction false} ValueOfPositive(s: string)
    requires Canonical(s) && s[0] != '0'
    ensures ValueOf(s) > 0
  {
    if |s| > 1 {
      var p := s[..|s| - 1];
      assert p[0] == s[0];
      ValueOfPositive(p);
    }
  }

  lemma {:induction false} DigitsOfValue(s: string)
    requires Canonical(s)
    ensures Digits(ValueOf(s)) == s
  {
    if |s| > 1 {
      var p := s[..|s| - 1];
      assert p[0] == s[0];
      ValueOfPositive(p);
      DigitsOfValue(p);
      assert s == p + [s[|s| - 1]];
    }
  }

  /** Reading what was printed gives the number back. */
  lemma ReadShow(n: int)
    ensures Read(Show(n)) == Some(n)
  {
    if n < 0 {
      var d := Digits(-n);
      ValueOfDigits(-n);
      assert Show(n) == "-" + d;
      assert Show(n)[0] == '-' && Show(n)[1..] == d;
      assert Read(Show(n)) == Some(-(ValueOf(d) as int));
    } else {
      var d := Digits(n);
      ValueOfDigits(n);
      assert Show(n) == d && IsDigit(d[0]);
      assert Read(Show(n)) == Some(ValueOf(d));
    }
  }

  /** Printing what was read gives the text back, except for the spelling "-0". */
  lemma ShowRead(s: string, n: int)
    requires Read(s) == Some(n)
    ensures Show(n) == s || s == "-0"
  {
    if |s| > 0 && s[0] == '-' {
      DigitsOfValue(s[1..]);
      if ValueOf(s[1..]) == 0 {
        assert s[1..] == "0";
        assert s == "-0";
      } else {
        assert s == "-" + s[1..];
      }
    } else {
      DigitsOfValue(s);
    }
  }
}
