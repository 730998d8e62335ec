/** Interpolation D^(k / 2ⁿ) with nested square roots (ExpandInterp in geomalg/lib/Geomalg/Passes.cpp). */
module Interpolation {
  import opened Options
  import opened Metrics
  import opened Multivectors
  import opened ProductMeaning
  import opened CliffordProduct
  import opened VersorProducts
  import GP = GeometricProduct

  function Pow2(n: nat): (p: nat)
    ensures p > 0
  {
    if n == 0 then 1 else 2 * Pow2(n - 1)
  }

  /** Two ways of writing the same multivector. */
  ghost predicate Same(m: Metric, s: Sum, t: Sum) {
    AllFit(m.dim, s) && AllFit(m.dim, t) && Meaning(m.dim, s) == Meaning(m.dim, t)
  }

  function Power(m: Metric, r: Sum, k: nat): Sum {
    if k == 0 then UNIT else GP.Multiply(m, r, Power(m, r, k - 1))
  }

  /** Each root squares to the one before it. */
  ghost predicate AreRoots(m: Metric, roots: seq<Sum>) {
    && m.Valid()
    && (forall j :: 0 <= j < |roots| ==> AllFit(m.dim, roots[j]))
    && (forall j :: 0 < j < |roots| ==> Same(m, GP.Multiply(m, roots[j], roots[j]), roots[j - 1]))
  }

  lemma {:induction false} MultiplySame(m: Metric, s: Sum, s': Sum, t: Sum, t': Sum)
    requires m.Valid() && Same(m, s, s') && Same(m, t, t')
    ensures Same(m, GP.Multiply(m, s, t), GP.Multiply(m, s', t'))
  {
    MultiplyMeaning(m, s, t);
    MultiplyMeaning(m, s', t');
    MultiplyWellDefined(m, s, s', t, t');
  }

  lemma {:induction false} Associate(m: Metric, s: Sum, t: Sum, u: Sum)
    requires m.Valid() && AllFit(m.dim, s) && AllFit(m.dim, t) && AllFit(m.dim, u)
    ensures Same(m, GP.Multiply(m, GP.Multiply(m, s, t), u), GP.Multiply(m, s, GP.Multiply(m, t, u)))
  {
    MultiplyMeaning(m, s, t);
    MultiplyMeaning(m, t, u);
    MultiplyMeaning(m, GP.Multiply(m, s, t), u);
    MultiplyMeaning(m, s, GP.Multiply(m, t, u));
    MultiplyAssociative(m, s, t, u);
  }

  lemma {:induction false} PowerFits(m: Metric, r: Sum, k: nat)
    requires m.Valid() && AllFit(m.dim, r)
    ensures AllFit(m.dim, Power(m, r, k))
  {
    if k == 0 {
      UnitIsOne(m.dim);
    } else {
      PowerFits(m, r, k - 1);
      MultiplyMeaning(m, r, Power(m, r, k - 1));
    }
  }

  lemma {:induction false} PowerAdd(m: Metric, r: Sum, j: nat, k: nat)
    requires m.Valid() && AllFit(m.dim, r)
    ensures Same(m, Power(m, r, j + k), GP.Multiply(m, Power(m, r, j), Power(m, r, k)))
  {
    hide AllFit, Meaning, GP.Multiply;
    PowerFits(m, r, j + k);
    PowerFits(m, r, k);
    if j == 0 {
      UnitIsOne(m.dim);
      MultiplyMeaning(m, UNIT, Power(m, r, k));
      MultiplyUnit(m, Power(m, r, k));
    } else {
      var p, q := Power(m, r, j - 1), Power(m, r, k);
      PowerFits(m, r, j - 1);
      PowerAdd(m, r, j - 1, k);
      MultiplySame(m, r, r, Power(m, r, j - 1 + k), GP.Multiply(m, p, q));
      Associate(m, r, p, q);
    }
  }

  lemma {:induction false} PowerSame(m: Metric, r: Sum, r': Sum, k: nat)
    requires m.Valid() && Same(m, r, r')
    ensures Same(m, Power(m, r, k), Power(m, r', k))
  {
    PowerFits(m, r, k);
    if k > 0 {
      PowerSame(m, r, r', k - 1);
      MultiplySame(m, r, r', Power(m, r, k - 1), Power(m, r', k - 1));
    }
  }

  lemma {:induction false} PowerPower(m: Metric, r: Sum, j: nat, k: nat)
    requires m.Valid() && AllFit(m.dim, r)
    ensures Same(m, Power(m, Power(m, r, j), k), Power(m, r, j * k))
  {
    hide AllFit, Meaning, GP.Multiply;
    PowerFits(m, r, j);
    if k == 0 {
      UnitIsOne(m.dim);
    } else {
      PowerPower(m, r, j, k - 1);
      PowerPowerStep(m, r, j, k - 1, j * (k - 1), j * k);
    }
  }

  lemma {:induction false} PowerPowerStep(m: Metric, r: Sum, j: nat, k: nat, e: nat, f: nat)
    requires m.Valid() && AllFit(m.dim, r) && f == j + e && AllFit(m.dim, Power(m, r, j))
    requires Same(m, Power(m, Power(m, r, j), k), Power(m, r, e))
    ensures Same(m, Power(m, Power(m, r, j), k + 1), Power(m, r, f))
  {
    hide AllFit, Meaning;
    var x := Power(m, r, j);
    PowerAdd(m, r, j, e);
    MultiplySame(m, x, x, Power(m, x, k), Power(m, r, e));
  }

  lemma {:induction false} PowerOne(m: Metric, r: Sum)
    requires m.Valid() && AllFit(m.dim, r)
    ensures Same(m, Power(m, r, 1), r)
  {
    PowerFits(m, r, 1);
    assert Power(m, r, 1) == GP.Multiply(m, r, UNIT);
    MultiplyUnit(m, r);
  }

  /** Roots[j] is the last root to the 2ⁿ⁻ʲ. */
  lemma {:induction false} RootIsPower(m: Metric, roots: seq<Sum>, i: nat, j: nat)
    requires AreRoots(m, roots) && i <= j < |roots|
    ensures Same(m, roots[i], Power(m, roots[j], Pow2(j - i)))
    decreases j - i
  {
    if i == j {
      PowerOne(m, roots[j]);
    } else {
      var r, p := roots[j], Pow2(j - (i + 1));
      RootIsPower(m, roots, i + 1, j);
      var x := roots[i + 1];
      assert Same(m, GP.Multiply(m, x, x), roots[i]);
      MultiplySame(m, x, Power(m, r, p), x, Power(m, r, p));
      PowerAdd(m, r, p, p);
    }
  }

  /** Halving k and dropping a root does not change the power. */
  lemma {:induction false} ReductionKeeps(m: Metric, roots: seq<Sum>, i: nat, j: nat, k: nat)
    requires AreRoots(m, roots) && i <= j < |roots|
    ensures Same(m, Power(m, roots[i], k), Power(m, roots[j], Pow2(j - i) * k))
  {
    RootIsPower(m, roots, i, j);
    PowerSame(m, roots[i], Power(m, roots[j], Pow2(j - i)), k);
    PowerPower(m, roots[j], Pow2(j - i), k);
  }

  /** The k-th power of the n-th root is D^(k / 2ⁿ): its 2ⁿ-th power is D^k. */
  lemma {:induction false} DyadicPower(m: Metric, roots: seq<Sum>, n: nat, k: nat, s: Sum)
    requires AreRoots(m, roots) && |roots| == n + 1 && Same(m, s, Power(m, roots[n], k))
    ensures Same(m, Power(m, s, Pow2(n)), Power(m, roots[0], k))
  {
    var r := roots[n];
    PowerSame(m, s, Power(m, r, k), Pow2(n));
    PowerPower(m, r, k, Pow2(n));
    ReductionKeeps(m, roots, 0, n, k);
    assert k * Pow2(n) == Pow2(n) * k;
  }

  lemma {:induction false} Bits(k: nat, p: nat)
    requires p > 0
    ensures (k / p) * p == (k / (2 * p)) * (2 * p) + (if (k / p) % 2 == 1 then p else 0)
  {
    var q, s := k / p, k % p;
    var h, b := q / 2, q % 2;
    BitParts(k, p, q, s, h, b);
    Quotient(k, 2 * p, h, b * p + s);
  }

  lemma {:induction false} BitParts(k: nat, p: nat, q: nat, s: nat, h: nat, b: nat)
    requires k == p * q + s && s < p && q == 2 * h + b && b < 2
    ensures k == (2 * p) * h + (b * p + s) && b * p + s < 2 * p
    ensures q * p == h * (2 * p) + b * p
  {
    assert p * q == p * (2 * h) + p * b;
  }

  /** Bit i of k. */
  predicate Bit(k: nat, i: nat) { (k / Pow2(i)) % 2 == 1 }

  /** The bits of k from i up. */
  function High(k: nat, i: nat): int { k - k % Pow2(i) }

  lemma {:induction false} HighStep(k: nat, i: nat)
    ensures High(k, i) == High(k, i + 1) + (if Bit(k, i) then Pow2(i) else 0)
  {
    Bits(k, Pow2(i));
    Remainder(k, Pow2(i));
    Remainder(k, Pow2(i + 1));
  }

  lemma {:induction false} Remainder(k: nat, p: nat)
    requires p > 0
    ensures k - k % p == (k / p) * p
  {}

  lemma {:induction false} HighEnds(k: nat, n: nat)
    requires k < Pow2(n)
    ensures High(k, n) == 0 && High(k, 0) == k
  {
    Quotient(k, Pow2(n), 0, k);
  }

  lemma {:induction false} Quotient(k: nat, d: nat, q: nat, r: nat)
    requires d > 0 && k == d * q + r && r < d
    ensures k / d == q
  {
    var q', r' := k / d, k % d;
    assert k == d * q' + r';
    if q' < q {
      TimesAtLeast(d, q' + 1, q);
    } else if q < q' {
      TimesAtLeast(d, q + 1, q');
    }
  }

  lemma {:induction false} TimesAtLeast(d: nat, a: nat, b: nat)
    requires a <= b
    ensures d * a <= d * b
  {}

  /** Divide k by two while it is even and a root is left. */
  method Reduce(k0: nat, n0: nat) returns (k: nat, n: nat)
    ensures n <= n0 && k0 == Pow2(n0 - n) * k
    ensures k == 0 || k % 2 == 1 || n == 0
  {
    k, n := k0, n0;
    while k != 0 && k % 2 == 0 && n != 0
      invariant n <= n0 && k0 == Pow2(n0 - n) * k
      decreases n
    {
      Halve(Pow2(n0 - n), k);
      k, n := k / 2, n - 1;
    }
  }

  lemma {:induction false} Halve(p: nat, k: nat)
    requires k % 2 == 0
    ensures (2 * p) * (k / 2) == p * k
  {
    assert k == 2 * (k / 2);
  }

  lemma {:induction false} MultiplyPowers(m: Metric, r: Sum, s: Sum, e: nat, t: Sum, p: nat)
    requires m.Valid() && AllFit(m.dim, r) && Same(m, s, Power(m, r, e)) && Same(m, t, Power(m, r, p))
    ensures Same(m, GP.Multiply(m, s, t), Power(m, r, e + p))
  {
    MultiplySame(m, s, Power(m, r, e), t, Power(m, r, p));
    PowerAdd(m, r, e, p);
  }

  /** The product of the roots selected by the bits of k. */
  method SelectRoots(m: Metric, roots: seq<Sum>, k: nat, n: nat) returns (result: Option<Sum>)
    requires AreRoots(m, roots) && |roots| == n + 1 && k < Pow2(n + 1)
    ensures result.None? <==> k == 0
    ensures result.Some? ==> Same(m, result.value, Power(m, roots[n], k))
  {
    hide AllFit, Meaning, Power, Same, High, Bit;
    result := None;
    ghost var e: nat := 0;
    HighEnds(k, n + 1);
    for j := 0 to n + 1
      invariant e == High(k, n + 1 - j)
      invariant result.None? <==> e == 0
      invariant result.Some? ==> Same(m, result.value, Power(m, roots[n], e))
    {
      ghost var p := Pow2(n - j);
      HighStep(k, n - j);
      if Bit(k, n - j) {
        RootIsPower(m, roots, j, n);
        if result.None? {
          result := Some(roots[j]);
        } else {
          MultiplyPowers(m, roots[n], result.value, e, roots[j], p);
          result := Some(GP.Multiply(m, result.value, roots[j]));
        }
        e := e + p;
      }
    }
  }

  /** The interpolation for t = k0 / 2ⁿ⁰ with the roots of D = roots[0]. */
  method Interpolate(m: Metric, roots: seq<Sum>, k0: nat, n0: nat) returns (result: Sum)
    requires AreRoots(m, roots) && |roots| == n0 + 1 && k0 <= Pow2(n0)
    ensures Same(m, result, Power(m, roots[n0], k0))
    ensures Same(m, Power(m, result, Pow2(n0)), Power(m, roots[0], k0))
  {
    var k, n := Reduce(k0, n0);
    ReductionKeeps(m, roots, n, n0, k);
    if k == 0 {
      result := UNIT;
    } else {
      Smaller(k, n, k0, n0);
      var selected := SelectRoots(m, roots[..n + 1], k, n);
      result := selected.value;
    }
    DyadicPower(m, roots, n0, k0, result);
  }

  lemma {:induction false} Smaller(k: nat, n: nat, k0: nat, n0: nat)
    requires n <= n0 && k0 == Pow2(n0 - n) * k && k0 <= Pow2(n0)
    ensures k < Pow2(n + 1)
  {
    Pow2Add(n, n0 - n);
    TooLarge(Pow2(n0 - n), k, Pow2(n));
  }

  lemma {:induction false} TooLarge(d: nat, k: nat, p: nat)
    requires d > 0 && p > 0 && d * k <= p * d
    ensures k < 2 * p
  {
    if k >= 2 * p {
      TimesAtLeast(d, 2 * p, k);
    }
  }

  lemma {:induction false} Pow2Add(a: nat, b: nat)
    ensures Pow2(a + b) == Pow2(a) * Pow2(b)
  {
    if a > 0 {
      Pow2Add(a - 1, b);
    }
  }
}
