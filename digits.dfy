/**
 * Decimal spelling of natural numbers, as `Number.prototype.toString()` and
 * `parseInt` treat them for non-negative integers. The results screen
 * (components/Results.tsx, getXPpercent) uses these to drop the leading
 * digit of a point total: `points.toString().split('').splice(1).join('')`.
 */
module Digits {
  import opened Wrappers

  type Digit = d: int | 0 <= d < 10

  function Pow10(k: nat): (p: nat)
    ensures p >= 1
  {
    if k == 0 then 1 else 10 * Pow10(k - 1)
  }

  /** `n.toString()`: the digits of `n`, most significant first, without leading zeros. */
  function ToDecimal(n: nat): (ds: seq<Digit>)
    ensures |ds| >= 1
    ensures ds[0] == 0 ==> n == 0 && |ds| == 1
  {
    if n < 10 then [n] else ToDecimal(n / 10) + [n % 10]
  }

  /** The value of a digit string; leading zeros are allowed, as `parseInt("005")` is 5. */
  function FromDecimal(ds: seq<Digit>): nat {
    if ds == [] then 0 else 10 * FromDecimal(ds[..|ds| - 1]) + ds[|ds| - 1]
  }

  /** `parseInt` on a string of decimal digits: the empty string gives `NaN`, shown as `None`. */
  function ParseInt(ds: seq<Digit>): (r: Option<nat>)
    ensures r.None? <==> ds == []
  {
    if ds == [] then None else Some(FromDecimal(ds))
  }

  /** Printing then parsing gives the number back. */
  lemma {:induction false} FromToDecimal(n: nat)
    ensures FromDecimal(ToDecimal(n)) == n
  {
    if n >= 10 {
      var ds := ToDecimal(n);
      assert ds[..|ds| - 1] == ToDecimal(n / 10);
      FromToDecimal(n / 10);
    }
  }

  /** Parsing then printing gives the digit string back when it has no leading zero. */
  lemma {:induction false} ToFromDecimal(ds: seq<Digit>)
    requires |ds| >= 1 && (ds[0] == 0 ==> |ds| == 1)
    ensures ToDecimal(FromDecimal(ds)) == ds
  {
    if |ds| > 1 {
      var init := ds[..|ds| - 1];
      FromDecimalBounds(init);
      FromDecimalLowerBound(init);
      var n := FromDecimal(ds);
      assert n / 10 == FromDecimal(init) && n % 10 == ds[|ds| - 1];
      ToFromDecimal(init);
      assert ds == init + [ds[|ds| - 1]];
    }
  }

  /** A string of `k` digits spells a number below 10^k. */
  lemma {:induction false} FromDecimalBounds(ds: seq<Digit>)
    ensures FromDecimal(ds) < Pow10(|ds|)
  {
    if ds != [] {
      FromDecimalBounds(ds[..|ds| - 1]);
    }
  }

  /** A string of `k` digits whose first digit is not zero spells at least 10^(k-1). */
  lemma {:induction false} FromDecimalLowerBound(ds: seq<Digit>)
    requires |ds| >= 1 && ds[0] != 0
    ensures FromDecimal(ds) >= Pow10(|ds| - 1)
  {
    if |ds| > 1 {
      FromDecimalLowerBound(ds[..|ds| - 1]);
    }
  }

  /** The leading digit contributes its value times 10 to the power of the remaining length. */
  lemma {:induction false} FromDecimalCons(d: Digit, ds: seq<Digit>)
    ensures FromDecimal([d] + ds) == d * Pow10(|ds|) + FromDecimal(ds)
  {
    if ds != [] {
      var init := ds[..|ds| - 1];
      assert ([d] + ds)[..|ds|] == [d] + init;
      FromDecimalCons(d, init);
      calc {
        FromDecimal([d] + ds);
        10 * FromDecimal([d] + init) + ds[|ds| - 1];
        10 * (d * Pow10(|init|) + FromDecimal(init)) + ds[|ds| - 1];
        d * (10 * Pow10(|init|)) + (10 * FromDecimal(init) + ds[|ds| - 1]);
      }
    } else {
      assert [d] + ds == [d];
      assert ([d])[..0] == [];
    }
  }

  /** The number of decimal digits of `n` is the k with 10^(k-1) <= n < 10^k. */
  lemma DigitCountBounds(n: nat)
    ensures n < Pow10(|ToDecimal(n)|)
    ensures n >= 1 ==> Pow10(|ToDecimal(n)| - 1) <= n
  {
    FromToDecimal(n);
    FromDecimalBounds(ToDecimal(n));
    if n >= 1 {
      FromDecimalLowerBound(ToDecimal(n));
    }
  }

  /**
   * The digit drop of getXPpercent: parse the spelling of `n` without its first
   * digit. A one-digit `n` leaves the empty string, which parses to `NaN`.
   * Otherwise `n` is its leading digit times 10^(k-1) plus the result, where `k`
   * is the number of digits of `n`, and the result has fewer than k-1 digits' worth.
   */
  function DropLeadingDigit(n: nat): (r: Option<nat>)
    ensures r.None? <==> n < 10
    ensures r.Some? ==>
      var ds := ToDecimal(n);
      1 <= ds[0] && n == ds[0] * Pow10(|ds| - 1) + r.value && r.value < Pow10(|ds| - 1)
  {
    var ds := ToDecimal(n);
    var rest := ParseInt(ds[1..]);
    if rest.Some? then
      FromToDecimal(n);
      assert ds == [ds[0]] + ds[1..];
      FromDecimalCons(ds[0], ds[1..]);
      FromDecimalBounds(ds[1..]);
      rest
    else
      rest
  }

  /** For `n >= 10` the digit drop is strictly smaller than `n` and below 10^(k-1). */
  lemma DropLeadingDigitSmaller(n: nat)
    requires n >= 10
    ensures DropLeadingDigit(n).Some?
    ensures DropLeadingDigit(n).value < n
    ensures DropLeadingDigit(n).value < Pow10(|ToDecimal(n)| - 1)
  {
    var ds := ToDecimal(n);
    var r := DropLeadingDigit(n).value;
    ScaledAtLeast(ds[0], Pow10(|ds| - 1));
  }

  lemma ScaledAtLeast(d: int, p: nat)
    requires d >= 1
    ensures d * p >= p
  {
    assert d * p == (d - 1) * p + p;
  }

  /** For a three-digit `n` the digit drop is the remainder modulo 100. */
  lemma DropLeadingDigitOfThreeDigits(n: nat)
    requires 100 <= n <= 999
    ensures DropLeadingDigit(n) == Some(n % 100)
  {
    var ds := ToDecimal(n);
    assert |ds| == 3 by {
      assert ToDecimal(n / 100) == [n / 100];
      assert n / 10 / 10 == n / 100;
      assert |ToDecimal(n / 10)| == 2;
    }
    var r := DropLeadingDigit(n).value;
    assert Pow10(2) == 100;
    assert n == (ds[0] as int) * 100 + r && r < 100;
  }

  lemma DropLeadingDigitExamples()
    ensures DropLeadingDigit(130) == Some(30)
    ensures DropLeadingDigit(1005) == Some(5)
  {
    DropLeadingDigitOfThreeDigits(130);
    assert ToDecimal(1005) == [1, 0, 0, 5] by {
      assert ToDecimal(100) == [1, 0, 0] by {
        assert ToDecimal(10) == [1, 0];
      }
    }
    assert ToDecimal(1005)[1..] == [0, 0, 5];
    assert FromDecimal([0, 0, 5]) == 5 by {
      assert [0, 0, 5][..2] == [0, 0];
      assert [0, 0][..1] == [0];
      assert [0][..0] == [];
    }
  }
}
