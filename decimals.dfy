/**
 * `java.math.BigDecimal` as its two parts: an unscaled integer and a scale, the value being
 * `unscaled * 10^-scale`. The service calls `add` and `divide(divisor, RoundingMode.CEILING)`;
 * `multiply` and `compareTo` are here only to state what that division's result means.
 */
module Decimals {

  function Pow10(n: nat): (p: nat)
    ensures p >= 1
  {
    if n == 0 then 1 else 10 * Pow10(n - 1)
  }

  lemma {:induction false} Pow10Add(m: nat, n: nat)
    ensures Pow10(m + n) == Pow10(m) * Pow10(n)
  {
    if n > 0 {
      Pow10Add(m, n - 1);
      assert Pow10(m + n) == 10 * Pow10(m + n - 1);
    }
  }

  /** The value `unscaled * 10^-scale`; Java also allows negative scales, which the service never builds. */
  datatype Decimal = Decimal(unscaled: int, scale: nat)

  /** `BigDecimal.ZERO` */
  const Zero := Decimal(0, 0)

  /** The unscaled integer that stands for `d`'s value at the finer scale `k`. */
  function Rescale(d: Decimal, k: nat): int
    requires d.scale <= k
  {
    d.unscaled * Pow10(k - d.scale)
  }

  /** Rescaling to `k` and then to `j` is rescaling straight to `j`. */
  lemma RescaleTwice(d: Decimal, k: nat, j: nat)
    requires d.scale <= k <= j
    ensures Rescale(d, k) * Pow10(j - k) == Rescale(d, j)
  {
    var m, n := k - d.scale, j - k;
    Pow10Add(m, n);
    assert j - d.scale == m + n;
    MulAssociates(d.unscaled, Pow10(m), Pow10(n));
  }

  lemma MulAssociates(a: int, b: int, c: int)
    ensures (a * b) * c == a * (b * c)
  {
  }

  lemma MulDistributes(a: int, b: int, c: int)
    ensures (a + b) * c == a * c + b * c
  {
  }

  /** `a.add(b)`: exact, at the larger of the two scales. */
  function Add(a: Decimal, b: Decimal): (r: Decimal)
    ensures r.scale == if a.scale < b.scale then b.scale else a.scale
    ensures forall k: nat :: r.scale <= k ==> Rescale(r, k) == Rescale(a, k) + Rescale(b, k)
  {
    var s := if a.scale < b.scale then b.scale else a.scale;
    var r := Decimal(Rescale(a, s) + Rescale(b, s), s);
    AddExact(a, b, r);
    r
  }

  /** A sum formed at a common scale `s` stays exact at every finer scale. */
  lemma AddExact(a: Decimal, b: Decimal, r: Decimal)
    requires a.scale <= r.scale && b.scale <= r.scale
    requires r.unscaled == Rescale(a, r.scale) + Rescale(b, r.scale)
    ensures forall k: nat :: r.scale <= k ==> Rescale(r, k) == Rescale(a, k) + Rescale(b, k)
  {
    forall k: nat | r.scale <= k
      ensures Rescale(r, k) == Rescale(a, k) + Rescale(b, k)
    {
      RescaleTwice(a, r.scale, k);
      RescaleTwice(b, r.scale, k);
      MulDistributes(Rescale(a, r.scale), Rescale(b, r.scale), Pow10(k - r.scale));
    }
  }

  /** `a.multiply(b)`: exact, at the sum of the scales. */
  function Multiply(a: Decimal, b: Decimal): Decimal
  {
    Decimal(a.unscaled * b.unscaled, a.scale + b.scale)
  }

  /** `a.compareTo(b) <= 0`: the two values compared at a common scale. */
  predicate LessOrEqual(a: Decimal, b: Decimal)
  {
    a.unscaled * Pow10(b.scale) <= b.unscaled * Pow10(a.scale)
  }

  /** Integer division rounded toward positive infinity. */
  function CeilDiv(n: int, d: int): (q: int)
    requires d > 0
    ensures q * d >= n
    ensures (q - 1) * d < n
  {
    var f := (-n) / d;
    assert -n == d * f + (-n) % d;
    -f
  }

  /**
   * `a.divide(d, RoundingMode.CEILING)`: the quotient at `a`'s own scale, rounded up.
   * Its unscaled value is `ceil(a.unscaled * 10^d.scale / d.unscaled)`, because
   * `a / d * 10^a.scale == a.unscaled * 10^d.scale / d.unscaled`.
   */
  function DivideCeiling(a: Decimal, d: Decimal): (r: Decimal)
    requires d.unscaled > 0
    ensures r.scale == a.scale
    ensures r.unscaled * d.unscaled >= a.unscaled * Pow10(d.scale)
    ensures (r.unscaled - 1) * d.unscaled < a.unscaled * Pow10(d.scale)
  {
    Decimal(CeilDiv(a.unscaled * Pow10(d.scale), d.unscaled), a.scale)
  }

  /** Multiplying both sides by a positive number keeps an order, and only that order. */
  lemma MulMonotone(x: int, y: int, p: int)
    requires p > 0
    ensures x * p <= y * p <==> x <= y
  {
    if x <= y {
      assert y * p - x * p == (y - x) * p;
    } else {
      assert x * p - y * p == (x - y) * p;
    }
  }
}
