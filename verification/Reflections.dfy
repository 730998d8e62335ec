/** Reflection of multivectors in an invertible vector: S(x) == v x^ v⁻¹. */
module Reflections {
  import opened Multivectors
  import opened Clifford

  /** c u + v */
  function Axpy(c: real, u: Vec, v: Vec): (r: Vec)
    requires |u| == |v|
    ensures |r| == |u|
  {
    if |u| == 0 then [] else [c * u[0] + v[0]] + Axpy(c, u[1..], v[1..])
  }

  lemma {:induction false} AxpyCons(c: real, u: Vec, v: Vec, r: Vec)
    requires |u| == |v| > 0 && r == Axpy(c, u, v)
    ensures r[0] == c * u[0] + v[0] && r[1..] == Axpy(c, u[1..], v[1..])
  {}

  lemma {:induction false} ScaleSumScale(n: nat, c: real, a: real, b: real, e: real, x: MV)
    requires Has(n, x) && e == c * a + b
    ensures Scale(n, e, x) == Add(n, Scale(n, c, Scale(n, a, x)), Scale(n, b, x))
  {
    ScalePlus(n, c * a, b, x);
    ScaleScale(n, c, a, x);
  }

  lemma {:induction false} AxpyHi(n: nat, c: real, a: real, b: real, e: real, x: MV, p: MV, q: MV)
    requires Has(n, x) && Has(n, p) && Has(n, q) && e == c * a + b
    ensures Add(n, Scale(n, e, x), Neg(n, Add(n, Scale(n, c, p), q)))
         == Add(n, Scale(n, c, Add(n, Scale(n, a, x), Neg(n, p))), Add(n, Scale(n, b, x), Neg(n, q)))
  {
    ScaleSumScale(n, c, a, b, e, x);
    ScaleAdd(n, c, Scale(n, a, x), Neg(n, p));
    ScaleNeg(n, c, p);
    NegAdd(n, Scale(n, c, p), q);
    AddSwap(n, Scale(n, c, Scale(n, a, x)), Scale(n, b, x), Neg(n, Scale(n, c, p)), Neg(n, q));
  }

  lemma {:induction false} WedgeAxpy(c: real, u: Vec, v: Vec, x: MV)
    requires |u| == |v| && Has(|v|, x)
    ensures Wedge(Axpy(c, u, v), x) == Add(|v|, Scale(|v|, c, Wedge(u, x)), Wedge(v, x))
  {
    if |v| > 0 {
      var n, r := |v| - 1, Axpy(c, u, v);
      AxpyCons(c, u, v, r);
      WedgeAxpy(c, u[1..], v[1..], x.lo);
      WedgeAxpy(c, u[1..], v[1..], x.hi);
      AxpyHi(n, c, u[0], v[0], r[0], x.lo, Wedge(u[1..], x.hi), Wedge(v[1..], x.hi));
      AxpyWedgeParts(c, u, v, r, x);
    }
  }

  lemma {:induction false} AxpyWedgeParts(c: real, u: Vec, v: Vec, r: Vec, x: MV)
    requires |u| == |v| == |r| > 0 && Has(|v|, x)
    requires Wedge(r[1..], x.lo) == Add(|v| - 1, Scale(|v| - 1, c, Wedge(u[1..], x.lo)), Wedge(v[1..], x.lo))
    requires Wedge(r, x).hi == Add(|v| - 1, Scale(|v| - 1, c, Wedge(u, x).hi), Wedge(v, x).hi)
    ensures Wedge(r, x) == Add(|v|, Scale(|v|, c, Wedge(u, x)), Wedge(v, x))
  {}

  lemma {:induction false} AxpyLo(n: nat, c: real, a: real, b: real, e: real, x: MV, p: MV, q: MV)
    requires Has(n, x) && Has(n, p) && Has(n, q) && e == c * a + b
    ensures Add(n, Add(n, Scale(n, c, p), q), Scale(n, e, x))
         == Add(n, Scale(n, c, Add(n, p, Scale(n, a, x))), Add(n, q, Scale(n, b, x)))
  {
    ScaleSumScale(n, c, a, b, e, x);
    ScaleAdd(n, c, p, Scale(n, a, x));
    AddSwap(n, Scale(n, c, p), q, Scale(n, c, Scale(n, a, x)), Scale(n, b, x));
  }

  lemma {:induction false} ContractAxpy(c: real, g: Vec, h: Vec, x: MV)
    requires |g| == |h| && Has(|h|, x)
    ensures Contract(Axpy(c, g, h), x) == Add(|h|, Scale(|h|, c, Contract(g, x)), Contract(h, x))
  {
    if |h| > 0 {
      var n, r := |h| - 1, Axpy(c, g, h);
      AxpyCons(c, g, h, r);
      ContractAxpy(c, g[1..], h[1..], x.lo);
      ContractAxpy(c, g[1..], h[1..], x.hi);
      AxpyLo(n, c, g[0], h[0], r[0], x.hi, Contract(g[1..], x.lo), Contract(h[1..], x.lo));
      ScaleNeg(n, c, Contract(g[1..], x.hi));
      NegAdd(n, Scale(n, c, Contract(g[1..], x.hi)), Contract(h[1..], x.hi));
      AxpyContractParts(c, g, h, r, x);
    }
  }

  lemma {:induction false} AxpyContractParts(c: real, g: Vec, h: Vec, r: Vec, x: MV)
    requires |g| == |h| == |r| > 0 && Has(|h|, x)
    requires Contract(r, x).hi == Add(|h| - 1, Scale(|h| - 1, c, Contract(g, x).hi), Contract(h, x).hi)
    requires Contract(r, x).lo == Add(|h| - 1, Scale(|h| - 1, c, Contract(g, x).lo), Contract(h, x).lo)
    ensures Contract(r, x) == Add(|h|, Scale(|h|, c, Contract(g, x)), Contract(h, x))
  {}

  lemma {:induction false} LeftAxpy(c: real, u: Vec, v: Vec, g: Vec, h: Vec, x: MV)
    requires |u| == |v| == |g| == |h| && Has(|v|, x)
    ensures Left(Axpy(c, u, v), Axpy(c, g, h), x) == Add(|v|, Scale(|v|, c, Left(u, g, x)), Left(v, h, x))
  {
    var n := |v|;
    WedgeAxpy(c, u, v, x);
    ContractAxpy(c, g, h, x);
    ScaleAdd(n, c, Wedge(u, x), Contract(g, x));
    AddSwap(n, Scale(n, c, Wedge(u, x)), Wedge(v, x), Scale(n, c, Contract(g, x)), Contract(h, x));
  }

  lemma {:induction false} DotComm(v: Vec, g: Vec)
    requires |v| == |g|
    ensures Dot(v, g) == Dot(g, v)
  {
    if |v| > 0 {
      DotComm(v[1..], g[1..]);
    }
  }

  lemma {:induction false} DotStepSum(c: real, a: real, b: real, e: real, p: real, d: real, d': real)
    requires e == c * a + b
    ensures e * p + (c * d + d') == c * (a * p + d) + (b * p + d')
  {}

  lemma {:induction false} DotAxpy(c: real, u: Vec, v: Vec, g: Vec)
    requires |u| == |v| == |g|
    ensures Dot(Axpy(c, u, v), g) == c * Dot(u, g) + Dot(v, g)
  {
    if |v| > 0 {
      var r := Axpy(c, u, v);
      AxpyCons(c, u, v, r);
      DotAxpy(c, u[1..], v[1..], g[1..]);
      DotStepSum(c, u[0], v[0], r[0], g[0], Dot(u[1..], g[1..]), Dot(v[1..], g[1..]));
    }
  }

  // ---------------------------------------------------------------- reflected products

  predicate Opposite(k: real, q: real, e: real, f: real) { k * q == -(e + f) }

  lemma {:induction false} Cancelled(n: nat, k: real, q: real, e: real, f: real, x: MV, p: MV, z: MV)
    requires Has(n, x) && Has(n, p) && Has(n, z) && Opposite(k, q, e, f)
    requires Add(n, p, z) == Add(n, Scale(n, e, x), Scale(n, f, x))
    ensures Add(n, Scale(n, k, Scale(n, q, x)), p) == Neg(n, z)
  {
    ScaleScale(n, k, q, x);
    ScalePlus(n, e, f, x);
    ScaleNegated(n, k * q, e + f, x);
    Negated(n, Scale(n, e + f, x), p, z);
  }

  lemma {:induction false} ScaleNegated(n: nat, c: real, d: real, x: MV)
    requires Has(n, x) && c == -d
    ensures Scale(n, c, x) == Neg(n, Scale(n, d, x))
  {
    ScaleNeg(n, d, x);
  }

  lemma {:induction false} Negated(n: nat, s: MV, p: MV, z: MV)
    requires Has(n, s) && Has(n, p) && Has(n, z) && Add(n, p, z) == s
    ensures Add(n, Neg(n, s), p) == Neg(n, z)
  {
    if n > 0 {
      Negated(n - 1, s.lo, p.lo, z.lo);
      Negated(n - 1, s.hi, p.hi, z.hi);
    }
  }

  /** u (v x) + v (u x) == 2 (u·v) x */
  lemma {:induction false} LeftAnticommuteDot(u: Vec, g: Vec, v: Vec, h: Vec, d: real, x: MV)
    requires |u| == |g| == |v| == |h| && Has(|v|, x) && Dot(u, h) == d == Dot(v, g)
    ensures Add(|v|, Left(u, g, Left(v, h, x)), Left(v, h, Left(u, g, x))) == Scale(|v|, d + d, x)
  {
    LeftAnticommute(u, g, v, h, x);
    WedgeContract(u, h, x);
    WedgeContract(v, g, x);
    ScalePlus(|v|, d, d, x);
  }

  /** a' = a + k v is the reflection of a in v. */
  ghost predicate IsReflected(a: Vec, h: Vec, v: Vec, g: Vec, k: real, a': Vec, h': Vec) {
    && |a| == |h| == |v| == |g|
    && Dot(a, g) == Dot(v, h)
    && Opposite(k, Dot(v, g), Dot(a, g), Dot(v, h))
    && a' == Axpy(k, v, a) && h' == Axpy(k, g, h)
  }

  /** a' v == -(v a) */
  lemma {:induction false} LeftReflected(a: Vec, h: Vec, v: Vec, g: Vec, k: real, a': Vec, h': Vec, x: MV)
    requires IsReflected(a, h, v, g, k, a', h') && Has(|v|, x)
    ensures Left(a', h', Left(v, g, x)) == Neg(|v|, Left(v, g, Left(a, h, x)))
  {
    var n := |v|;
    LeftAxpy(k, v, a, g, h, Left(v, g, x));
    LeftSquare(v, g, x);
    LeftAnticommute(a, h, v, g, x);
    WedgeContract(a, g, x);
    WedgeContract(v, h, x);
    Cancelled(n, k, Dot(v, g), Dot(a, g), Dot(v, h), x, Left(a, h, Left(v, g, x)), Left(v, g, Left(a, h, x)));
  }

  /** v⁻¹ a' == -(a v⁻¹), as products on the right. */
  lemma {:induction false} RightReflected(a: Vec, h: Vec, v: Vec, g: Vec, k: real, a': Vec, h': Vec, x: MV)
    requires IsReflected(a, h, v, g, k, a', h') && Has(|v|, x)
    ensures Right(a', h', Right(v, g, x)) == Neg(|v|, Right(v, g, Right(a, h, x)))
  {
    var n, y := |v|, Reverse(|v|, x);
    LeftReflected(a, h, v, g, k, a', h', y);
    ReverseReverse(n, x);
    ReverseLeft(v, g, y);
    ReverseLeft(a, h, y);
    ReverseLeft(v, g, Left(a, h, y));
    ReverseLeft(a', h', Left(v, g, y));
    ReverseNeg(n, Left(v, g, Left(a, h, y)));
  }

  lemma {:induction false} ReflectedDot(a: Vec, h: Vec, v: Vec, g: Vec, k: real, a': Vec, h': Vec)
    requires IsReflected(a, h, v, g, k, a', h')
    ensures Dot(v, h') == Dot(a', g)
  {
    DotAxpy(k, v, a, g);
    DotComm(v, h');
    DotAxpy(k, g, h, v);
    DotComm(g, v);
    DotComm(h, v);
  }

  /** v x^ v */
  function Sandwich(v: Vec, g: Vec, x: MV): (z: MV)
    requires |v| == |g| && Has(|v|, x)
    ensures Has(|v|, z)
  {
    Left(v, g, Right(v, g, Invo(|v|, x)))
  }

  lemma {:induction false} SandwichAdd(v: Vec, g: Vec, x: MV, y: MV)
    requires |v| == |g| && Has(|v|, x) && Has(|v|, y)
    ensures Sandwich(v, g, Add(|v|, x, y)) == Add(|v|, Sandwich(v, g, x), Sandwich(v, g, y))
  {
    var n := |v|;
    InvoAdd(n, x, y);
    RightAdd(v, g, Invo(n, x), Invo(n, y));
    LeftAdd(v, g, Right(v, g, Invo(n, x)), Right(v, g, Invo(n, y)));
  }

  lemma {:induction false} SandwichScale(v: Vec, g: Vec, c: real, x: MV)
    requires |v| == |g| && Has(|v|, x)
    ensures Sandwich(v, g, Scale(|v|, c, x)) == Scale(|v|, c, Sandwich(v, g, x))
  {
    var n := |v|;
    InvoScale(n, c, x);
    RightScale(v, g, c, Invo(n, x));
    LeftScale(v, g, c, Right(v, g, Invo(n, x)));
  }

  lemma {:induction false} LeftNeg(v: Vec, g: Vec, x: MV)
    requires |v| == |g| && Has(|v|, x)
    ensures Left(v, g, Neg(|v|, x)) == Neg(|v|, Left(v, g, x))
  {
    LeftScale(v, g, -1.0, x);
    ScaleSpecial(|v|, x);
    ScaleSpecial(|v|, Left(v, g, x));
  }

  lemma {:induction false} NegNeg(n: nat, x: MV)
    requires Has(n, x)
    ensures Neg(n, Neg(n, x)) == x
  {
    ScaleSpecial(n, x);
  }

  /** v (a x)^ v == a' (v x^ v) */
  lemma {:induction false} SandwichLeft(a: Vec, h: Vec, v: Vec, g: Vec, k: real, a': Vec, h': Vec, x: MV)
    requires IsReflected(a, h, v, g, k, a', h') && Has(|v|, x)
    ensures Sandwich(v, g, Left(a, h, x)) == Left(a', h', Sandwich(v, g, x))
  {
    var n, y := |v|, Invo(|v|, x);
    InvoLeftRight(a, h, x);
    RightNeg(v, g, Left(a, h, y));
    LeftRight(a, h, v, g, y);
    LeftNeg(v, g, Left(a, h, Right(v, g, y)));
    LeftReflected(a, h, v, g, k, a', h', Right(v, g, y));
  }

  /** v (x^ a)^ v == (v x v) a' */
  lemma {:induction false} SandwichRight(a: Vec, h: Vec, v: Vec, g: Vec, k: real, a': Vec, h': Vec, x: MV)
    requires IsReflected(a, h, v, g, k, a', h') && Has(|v|, x)
    ensures Sandwich(v, g, Right(a, h, Invo(|v|, x))) == Right(a', h', Invo(|v|, Sandwich(v, g, x)))
  {
    var n, y := |v|, Invo(|v|, x);
    InvoInvo(n, x);
    InvoLeftRight(a, h, y);
    RightReflected(a, h, v, g, k, a', h', x);
    RightNeg(v, g, Right(a, h, x));
    ReflectedDot(a, h, v, g, k, a', h');
    LeftRight(v, g, a', h', Right(v, g, x));
    InvoSandwich(v, g, x);
  }

  /** (v x^ v)^ == v x v */
  lemma {:induction false} InvoSandwich(v: Vec, g: Vec, x: MV)
    requires |v| == |g| && Has(|v|, x)
    ensures Invo(|v|, Sandwich(v, g, x)) == Left(v, g, Right(v, g, x))
  {
    var n, y := |v|, Invo(|v|, x);
    InvoInvo(n, x);
    InvoLeftRight(v, g, Right(v, g, y));
    InvoLeftRight(v, g, y);
    LeftNeg(v, g, Right(v, g, x));
    NegNeg(n, Left(v, g, Right(v, g, x)));
  }

  lemma {:induction false} SandwichHalf(v: Vec, g: Vec, x: MV)
    requires |v| == |g| && Has(|v|, x)
    ensures Sandwich(v, g, Half(|v|, x)) == Half(|v|, Sandwich(v, g, x))
  {
    var half := 0.5;
    HalfIsScale(|v|, half, x);
    HalfIsScale(|v|, half, Sandwich(v, g, x));
    SandwichScale(v, g, half, x);
  }

  /** v (a ∧ x)^ v == a' ∧ (v x^ v) */
  lemma {:induction false} SandwichWedge(a: Vec, h: Vec, v: Vec, g: Vec, k: real, a': Vec, h': Vec, x: MV)
    requires IsReflected(a, h, v, g, k, a', h') && Has(|v|, x)
    ensures Sandwich(v, g, Wedge(a, x)) == Wedge(a', Sandwich(v, g, x))
  {
    var n, p, q := |v|, Left(a, h, x), Right(a, h, Invo(|v|, x));
    WedgeIsHalfSum(a, h, x);
    SandwichHalf(v, g, Add(n, p, q));
    SandwichAdd(v, g, p, q);
    SandwichLeft(a, h, v, g, k, a', h', x);
    SandwichRight(a, h, v, g, k, a', h', x);
    WedgeIsHalfSum(a', h', Sandwich(v, g, x));
  }

  /** v 1 v == v·v */
  lemma {:induction false} SandwichOne(v: Vec, g: Vec)
    requires |v| == |g|
    ensures Sandwich(v, g, Scalar(|v|, 1.0)) == Scale(|v|, Dot(v, g), Scalar(|v|, 1.0))
  {
    InvoOfScalar(|v|, 1.0);
    UnitLeftRight(v, g);
    LeftSquare(v, g, Scalar(|v|, 1.0));
  }

  /** A vector anticommutes with x^ when it has nothing to contract in x. */
  lemma {:induction false} SandwichOrthogonal(v: Vec, g: Vec, x: MV)
    requires |v| == |g| && Has(|v|, x) && Contract(g, x) == Zero(|v|)
    ensures Sandwich(v, g, x) == Scale(|v|, Dot(v, g), x)
  {
    var n := |v|;
    InvoInvo(n, x);
    ZeroFixed(n);
    AddZero(n, Wedge(v, x));
    LeftSquare(v, g, x);
  }
}
