/**
 * Covering the card fee of 2.9% plus 30 cents (src/lib/finance/fees.ts).
 * The rate is the exact fraction 29/1000.
 */
module Fees {
  /** `Math.ceil(a / b)`: the least integer that times `b` reaches `a`. */
  function CeilDiv(a: int, b: int): (q: int)
    requires b > 0
    ensures q * b >= a > (q - 1) * b
  {
    (a + b - 1) / b
  }

  const FIXED_CENTS := 30

  function ProcessingFee(amount: int): int {
    if amount <= 0 then 0 else CeilDiv(29 * amount + 1000 * FIXED_CENTS, 1000)
  }

  datatype Coverage = Coverage(totalCents: int, feeCents: int)

  function TotalWithFeeCoverage(base: int): Coverage {
    if base <= 0 then Coverage(0, 0) else
    var total := CeilDiv(1000 * (base + FIXED_CENTS), 971);
    Coverage(total, total - base)
  }

  function Net(total: int): int {
    total - ProcessingFee(total)
  }

  /** The fee is 29 thousandths and 30 cents, rounded up to whole cents; nothing is charged on nothing. */
  lemma FeeIsLeast(amount: int)
    ensures amount > 0 ==> 1000 * (ProcessingFee(amount) - 1) < 29 * amount + 30 * 1000 <= 1000 * ProcessingFee(amount)
    ensures amount <= 0 ==> ProcessingFee(amount) == 0 && TotalWithFeeCoverage(amount) == Coverage(0, 0)
  {
  }

  /** Ten dollars are quoted at $10.61. */
  lemma TenDollarsQuote()
    ensures TotalWithFeeCoverage(1000) == Coverage(1061, 61)
  {
  }

  /** The quoted fee is the fee charged on the covered total, so the net received is exactly the base. */
  lemma CoverageIsExact(base: int)
    requires base > 0
    ensures var c := TotalWithFeeCoverage(base);
      c.totalCents > 0 && c.feeCents == ProcessingFee(c.totalCents) && Net(c.totalCents) == base
  {
  }

  /** No smaller total nets the base, and larger ones net no less. */
  lemma CoverageIsLeast(base: int, total: int)
    requires base > 0
    ensures Net(total) >= base <==> total >= TotalWithFeeCoverage(base).totalCents
  {
  }

  /** A larger base has a strictly larger total, by at least the difference. */
  lemma CoverageGrows(base: int, more: int)
    requires 0 <= base < more
    ensures TotalWithFeeCoverage(more).totalCents - TotalWithFeeCoverage(base).totalCents >= more - base
  {
  }

  lemma CoverageSubadditive(a: int, b: int)
    requires a >= 0 && b >= 0
    ensures TotalWithFeeCoverage(a + b).totalCents
      <= TotalWithFeeCoverage(a).totalCents + TotalWithFeeCoverage(b).totalCents
  {
  }

  /** What subadditivity gives for `n` equal parts. */
  lemma {:induction false} PartsOfSubadditive(f: int -> int, unit: nat, n: nat)
    requires f(0) == 0 && forall a: nat, b: nat :: f(a + b) <= f(a) + f(b)
    ensures n * unit >= 0 && n * f(unit) >= f(n * unit)
  {
    if n == 0 {
    } else {
      PartsOfSubadditive(f, unit, n - 1);
      assert n * unit == unit + (n - 1) * unit;
      assert f(unit + (n - 1) * unit) <= f(unit) + f((n - 1) * unit);
      assert n * f(unit) == f(unit) + (n - 1) * f(unit);
    }
  }

  lemma FeeIsRest(base: nat)
    ensures TotalWithFeeCoverage(base).feeCents == TotalWithFeeCoverage(base).totalCents - base
  {
  }

  /** Charging the per-unit quote `n` times never falls short of covering the fee on `n` units at once. */
  lemma PerUnitQuoteSuffices(unit: nat, n: nat)
    ensures n * TotalWithFeeCoverage(unit).totalCents >= TotalWithFeeCoverage(n * unit).totalCents
    ensures n * TotalWithFeeCoverage(unit).feeCents >= TotalWithFeeCoverage(n * unit).feeCents
  {
    var total := (base: int) => TotalWithFeeCoverage(base).totalCents;
    forall a: nat, b: nat ensures total(a + b) <= total(a) + total(b) {
      CoverageSubadditive(a, b);
    }
    PartsOfSubadditive(total, unit, n);
    FeeIsRest(unit);
    FeeIsRest(n * unit);
    assert n * (total(unit) - unit) == n * total(unit) - n * unit;
  }
}
