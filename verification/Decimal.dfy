/** Decimal numerals without leading zeros, shared by the JSON and bencode readers. */
module Decimal {

  type Digit = d: int | 48 <= d <= 57 witness 48

  function Digits(n: nat): (r: seq<Digit>)
    ensures |r| > 0
    decreases n
  {
    if n < 10 then [48 + n] else Digits(n / 10) + [48 + n % 10]
  }

  predicate AllDigits(d: seq<int>) { forall i :: 0 <= i < |d| ==> 48 <= d[i] <= 57 }

  predicate Canonical(d: seq<int>) {
    d != [] && AllDigits(d) && (|d| > 1 ==> d[0] != 48)
  }

  function DigitsValue(d: seq<int>): nat
    requires AllDigits(d)
  {
    if d == [] then 0 else DigitsValue(d[..|d| - 1]) * 10 + (d[|d| - 1] - 48)
  }

  lemma {:induction false} DigitsRead(n: nat)
    ensures Canonical(Digits(n)) && DigitsValue(Digits(n)) == n
    ensures n > 0 ==> Digits(n)[0] != 48
  {
    if n >= 10 {
      DigitsRead(n / 10);
      assert Digits(n)[..|Digits(n)| - 1] == Digits(n / 10);
      assert Digits(n)[0] == Digits(n / 10)[0];
    } else {
      assert Digits(n)[..0] == [];
    }
  }

  /** A canonical numeral is the only one for its number. */
  lemma {:induction false} DigitsUnique(d: seq<int>)
    requires Canonical(d)
    ensures Digits(DigitsValue(d)) == d
    ensures d[0] != 48 ==> DigitsValue(d) > 0
  {
    var init := d[..|d| - 1];
    if init == [] {
      assert d == [d[0]];
    } else {
      assert init[0] == d[0];
      DigitsUnique(init);
      assert DigitsValue(d) / 10 == DigitsValue(init);
      assert d == init + [d[|d| - 1]];
    }
  }

  function Pow10(n: nat): (p: nat)
    ensures p > 0
  {
    if n == 0 then 1 else 10 * Pow10(n - 1)
  }

  lemma {:induction false} LongNumeral(d: seq<int>)
    requires Canonical(d) && d[0] != 48
    ensures DigitsValue(d) >= Pow10(|d| - 1)
  {
    if |d| > 1 {
      assert d[..|d| - 1][0] == d[0];
      LongNumeral(d[..|d| - 1]);
    } else {
      assert d[..0] == [];
    }
  }

  lemma {:induction false} Pow10Grows(m: nat, n: nat)
    requires m <= n
    ensures Pow10(m) <= Pow10(n)
  {
    if m < n { Pow10Grows(m, n - 1); }
  }

  lemma Pow10Of19()
    ensures Pow10(19) == 1_0000_0000_0000_0000_000
  {
    assert Pow10(4) == 1_0000;
    assert Pow10(8) == 10 * (10 * (10 * (10 * Pow10(4)))) == 1_0000_0000;
    assert Pow10(12) == 10 * (10 * (10 * (10 * Pow10(8)))) == 1_0000_0000_0000;
    assert Pow10(16) == 10 * (10 * (10 * (10 * Pow10(12)))) == 1_0000_0000_0000_0000;
    assert Pow10(19) == 10 * (10 * (10 * Pow10(16)));
  }
}
