/** The decimal numerals that `%zu` prints and `atol` reads back. */
module Decimal {
  import opened Machine

  predicate IsDigit(c: char) {
    '0' <= c <= '9'
  }

  function Digit(d: nat): (c: char)
    requires d < 10
    ensures IsDigit(c)
  {
    ('0' as int + d) as char
  }

  function DigitValue(c: char): nat
    requires IsDigit(c)
  {
    c as int - '0' as int
  }

  /** The digits and their values. */
  lemma DigitsAre(d: nat)
    requires d < 10
    ensures Digit(d) == "0123456789"[d] && DigitValue("0123456789"[d]) == d
  {
  }

  /** `printf("%zu", n)`. */
  function Numeral(n: nat): (s: string)
    ensures 1 <= |s| && forall c :: c in s ==> IsDigit(c)
  {
    if n < 10 then [Digit(n)] else Numeral(n / 10) + [Digit(n % 10)]
  }

  /** The digit loop of `atol`: stops at the first character that is no digit. */
  function ReadDigits(s: string, acc: nat): nat {
    if s == "" || !IsDigit(s[0]) then acc
    else ReadDigits(s[1..], 10 * acc + DigitValue(s[0]))
  }

  function Value(s: string): nat
    requires forall c :: c in s ==> IsDigit(c)
  {
    if s == "" then 0 else 10 * Value(s[..|s| - 1]) + DigitValue(s[|s| - 1])
  }

  lemma {:induction false} ReadDigitsAppend(s: string, rest: string, done: string)
    requires forall c :: c in s + done ==> IsDigit(c)
    requires rest == "" || !IsDigit(rest[0])
    ensures ReadDigits(s + rest, Value(done)) == Value(done + s)
    decreases |s|
  {
    if s == "" {
      assert s + rest == rest && done + s == done;
    } else {
      var d := done + [s[0]];
      assert d[..|d| - 1] == done;
      assert (s + rest)[1..] == s[1..] + rest;
      assert d + s[1..] == done + s;
      forall c | c in s[1..] + d ensures IsDigit(c) { assert c in s + done; }
      ReadDigitsAppend(s[1..], rest, d);
    }
  }

  lemma {:induction false} NumeralValue(n: nat)
    ensures Value(Numeral(n)) == n
  {
    if n < 10 {
      assert Numeral(n)[..0] == "";
    } else {
      NumeralValue(n / 10);
      assert Numeral(n)[..|Numeral(n)| - 1] == Numeral(n / 10);
    }
  }

  /** Reading stops exactly behind the numeral and returns the number printed. */
  lemma {:induction false} ReadNumeral(n: nat, rest: string)
    requires rest == "" || !IsDigit(rest[0])
    ensures ReadDigits(Numeral(n) + rest, 0) == n
  {
    ReadDigitsAppend(Numeral(n), rest, "");
    assert "" + Numeral(n) == Numeral(n);
    NumeralValue(n);
  }

  function Pow10(k: nat): nat {
    if k == 0 then 1 else 10 * Pow10(k - 1)
  }

  lemma {:induction false} NumeralLength(n: nat, k: nat)
    requires 0 < k && n < Pow10(k)
    ensures |Numeral(n)| <= k
  {
    if n >= 10 {
      assert k > 1;
      NumeralLength(n / 10, k - 1);
    }
  }

  /** A `size_t` has at most 20 digits. */
  lemma NumeralOfSize(n: nat)
    requires n <= SIZE_MAX
    ensures |Numeral(n)| <= 20
  {
    assert Pow10(2) == 100;
    assert Pow10(4) == 10000;
    assert Pow10(6) == 1000000;
    assert Pow10(8) == 100000000;
    assert Pow10(10) == 10000000000;
    assert Pow10(12) == 1000000000000;
    assert Pow10(14) == 100000000000000;
    assert Pow10(16) == 10000000000000000;
    assert Pow10(18) == 1000000000000000000;
    assert Pow10(20) == 100000000000000000000;
    NumeralLength(n, 20);
  }
}
