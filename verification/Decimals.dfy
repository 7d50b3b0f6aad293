/** Decimal notation of natural numbers. */
module Decimals {

  predicate IsDigit(c: char) {
    '0' <= c <= '9'
  }

  predicate AllDigits(s: string) {
    forall i | 0 <= i < |s| :: IsDigit(s[i])
  }

  function DigitOf(n: nat): (c: char)
    requires n < 10
    ensures IsDigit(c) && ValueOfDigit(c) == n
  {
    ['0', '1', '2', '3', '4', '5', '6', '7', '8', '9'][n]
  }

  function ValueOfDigit(c: char): (n: nat)
    requires IsDigit(c)
    ensures n < 10
  {
    c as int - '0' as int
  }

  lemma DigitOfValue(c: char)
    requires IsDigit(c)
    ensures DigitOf(ValueOfDigit(c)) == c
  {
    var n := ValueOfDigit(c);
    assert n == 0 || n == 1 || n == 2 || n == 3 || n == 4 || n == 5 || n == 6 || n == 7 || n == 8 || n == 9;
  }

  /** The notation without leading zeros. */
  function Decimal(n: nat): string {
    if n < 10 then [DigitOf(n)] else Decimal(n / 10) + [DigitOf(n % 10)]
  }

  function ValueOf(s: string): nat
    requires AllDigits(s)
  {
    if s == "" then 0 else ValueOf(s[..|s| - 1]) * 10 + ValueOfDigit(s[|s| - 1])
  }

  lemma {:induction false} ValueOfDecimal(n: nat)
    ensures AllDigits(Decimal(n)) && ValueOf(Decimal(n)) == n
    ensures Decimal(n) != "" && (Decimal(n)[0] == '0' <==> n == 0)
  {
    if n >= 10 {
      ValueOfDecimal(n / 10);
      assert Decimal(n)[..|Decimal(n)| - 1] == Decimal(n / 10);
    } else {
      assert [DigitOf(n)][..0] == "";
      assert ValueOf([DigitOf(n)]) == ValueOf("") * 10 + ValueOfDigit(DigitOf(n));
      if DigitOf(n) == '0' {
        assert ValueOfDigit('0') == 0;
      }
    }
  }

  lemma {:induction false} DecimalOfValue(s: string)
    requires AllDigits(s) && s != "" && (s[0] == '0' ==> |s| == 1)
    ensures Decimal(ValueOf(s)) == s && (s[0] != '0' ==> ValueOf(s) > 0)
  {
    var last := s[|s| - 1];
    DigitOfValue(last);
    if |s| == 1 {
      assert s[..0] == "";
      assert ValueOf(s) == ValueOfDigit(last);
      assert s == [last];
      if last != '0' {
        assert ValueOfDigit(last) > 0;
      }
    } else {
      var init := s[..|s| - 1];
      DecimalOfValue(init);
      assert ValueOf(s) / 10 == ValueOf(init) && ValueOf(s) % 10 == ValueOfDigit(last);
      assert s == init + [last];
    }
  }

  function PowerOfTen(k: nat): nat {
    if k == 0 then 1 else 10 * PowerOfTen(k - 1)
  }

  lemma {:induction false} DecimalLength(n: nat, k: nat)
    requires k >= 1 && n < PowerOfTen(k)
    ensures |Decimal(n)| <= k
  {
    if n >= 10 {
      assert PowerOfTen(1) == 10 * PowerOfTen(0);
      assert k > 1;
      DecimalLength(n / 10, k - 1);
    }
  }

  /** A digit more at the end is ten times the number and the digit. */
  lemma NextDigit(n: nat, d: nat)
    requires n > 0 && d < 10
    ensures Decimal(10 * n + d) == Decimal(n) + ["0123456789"[d]]
    ensures Decimal(d) == ["0123456789"[d]]
  {
    assert (10 * n + d) / 10 == n && (10 * n + d) % 10 == d;
    assert DigitOf(d) == "0123456789"[d];
  }
}
