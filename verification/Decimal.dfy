/** Canonical decimal text of naturals, as `std::to_string` prints it. */
module DecimalText {

  function Digit(d: int): char
    requires 0 <= d < 10
  {
    (d + '0' as int) as char
  }

  predicate IsDigit(c: char) {
    '0' <= c <= '9'
  }

  function DigitValue(c: char): nat
    requires IsDigit(c)
  {
    c as int - '0' as int
  }

  function Decimal(n: nat): string {
    if n < 10 then [Digit(n)] else Decimal(n / 10) + [Digit(n % 10)]
  }

  predicate AllDigits(s: string) {
    forall i :: 0 <= i < |s| ==> IsDigit(s[i])
  }

  function Value(s: string): nat
    requires AllDigits(s)
  {
    if s == "" then 0 else Value(s[..|s| - 1]) * 10 + DigitValue(s[|s| - 1])
  }

  /** Digits without a leading zero, except "0" itself. */
  predicate Canonical(s: string) {
    s != "" && AllDigits(s) && (|s| > 1 ==> s[0] != '0')
  }

  lemma {:induction false} DecimalIsCanonical(n: nat)
    ensures Canonical(Decimal(n)) && Value(Decimal(n)) == n
    ensures n > 0 ==> Decimal(n)[0] != '0'
  {
    if n >= 10 {
      DecimalIsCanonical(n / 10);
      var s := Decimal(n / 10);
      assert Decimal(n)[..|s|] == s;
    }
  }

  lemma DecimalLength(n: nat)
    requires n < 10000000
    ensures |Decimal(n)| <= 7
  {
    DecimalLengthBound(n, 7, 10000000);
  }

  lemma {:induction false} DecimalLengthBound(n: nat, k: nat, limit: nat)
    requires 1 <= k <= 7 && n < limit
    requires limit == [1, 10, 100, 1000, 10000, 100000, 1000000, 10000000][k]
    ensures |Decimal(n)| <= k
  {
    if n >= 10 {
      DecimalLengthBound(n / 10, k - 1, limit / 10);
    }
  }

  lemma {:induction false} ValuePositive(s: string)
    requires AllDigits(s) && s != "" && s[0] != '0'
    ensures Value(s) >= 1
  {
    if |s| > 1 {
      ValuePositive(s[..|s| - 1]);
    } else {
      assert s[..0] == "";
    }
  }

  /** Every canonical text is the printed form of its value. */
  lemma {:induction false} CanonicalIsDecimal(s: string)
    requires Canonical(s)
    ensures Decimal(Value(s)) == s
  {
    var init, last := s[..|s| - 1], s[|s| - 1];
    assert s == init + [last];
    if |s| == 1 {
      assert init == "";
    } else {
      assert init[0] == s[0];
      ValuePositive(init);
      CanonicalIsDecimal(init);
      assert Value(s) / 10 == Value(init) && Value(s) % 10 == DigitValue(last);
    }
  }

  /** Reading more digits never lowers the value. */
  lemma {:induction false} ValueGrows(s: string, k: nat)
    requires AllDigits(s) && k <= |s|
    ensures Value(s[..k]) <= Value(s)
  {
    if k == |s| {
      assert s[..k] == s;
    } else {
      ValueGrows(s[..|s| - 1], k);
      assert s[..|s| - 1][..k] == s[..k];
    }
  }
}
