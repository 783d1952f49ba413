/** Decimal numerals as Python prints them with `str(n)` and `f"{n:0wd}"`, and their value. */
module Decimal {

  predicate IsDigit(c: char) {
    '0' <= c <= '9'
  }

  predicate AllDigits(s: string) {
    forall i :: 0 <= i < |s| ==> IsDigit(s[i])
  }

  function DigitOf(d: nat): char
    requires d < 10
  {
    ('0' as int + d) as char
  }

  /** The numeral of `n` without leading zeros. */
  function Digits(n: nat): (s: string)
    ensures s != "" && AllDigits(s)
  {
    if n < 10 then [DigitOf(n)] else Digits(n / 10) + [DigitOf(n % 10)]
  }

  /** `Digits(n)` filled on the left with zeros up to `width` characters; longer numerals keep their length. */
  function Padded(n: nat, width: nat): (s: string)
    ensures s != "" && AllDigits(s)
    decreases width
  {
    if |Digits(n)| >= width then Digits(n) else Zeros(width - |Digits(n)|) + Digits(n)
  }

  function Zeros(n: nat): (s: string)
    ensures |s| == n && AllDigits(s)
  {
    if n == 0 then "" else "0" + Zeros(n - 1)
  }

  /** The number a string of digits denotes. */
  function Value(s: string): nat
    requires AllDigits(s)
  {
    if s == "" then 0 else 10 * Value(s[..|s| - 1]) + (s[|s| - 1] as int - '0' as int)
  }

  lemma {:induction false} ValueOfDigits(n: nat)
    ensures Value(Digits(n)) == n
  {
    if n >= 10 {
      ValueOfDigits(n / 10);
      assert Digits(n)[..|Digits(n)| - 1] == Digits(n / 10);
    }
  }

  lemma {:induction false} ValueIgnoresZeros(k: nat, s: string)
    requires AllDigits(s)
    ensures Value(Zeros(k) + s) == Value(s)
    decreases |s|, k
  {
    var z := Zeros(k) + s;
    if s != "" {
      assert z[..|z| - 1] == Zeros(k) + s[..|s| - 1];
      ValueIgnoresZeros(k, s[..|s| - 1]);
    } else if k > 0 {
      assert z == Zeros(k);
      ZerosAtTheEnd(k);
      assert z[..|z| - 1] == Zeros(k - 1) + s;
      ValueIgnoresZeros(k - 1, s);
    }
  }

  lemma {:induction false} ZerosAtTheEnd(k: nat)
    requires k > 0
    ensures Zeros(k) == Zeros(k - 1) + "0"
  {
    if k > 1 {
      ZerosAtTheEnd(k - 1);
    }
  }

  /** Padding never changes the value, and it fixes the length of every number that fits. */
  lemma PaddedIsFaithful(n: nat, width: nat)
    ensures Value(Padded(n, width)) == n
    ensures n < 100 && width == 2 ==> |Padded(n, width)| == 2
    ensures n >= 100 && width == 2 ==> |Padded(n, width)| > 2
    ensures n < 1000 && width == 3 ==> |Padded(n, width)| == 3
  {
    ValueOfDigits(n);
    if |Digits(n)| < width {
      ValueIgnoresZeros(width - |Digits(n)|, Digits(n));
    }
    if n >= 100 {
      assert |Digits(n)| >= 3 by {
        assert |Digits(n / 10)| >= 2;
      }
    }
  }
}
