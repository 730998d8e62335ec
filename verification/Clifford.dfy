/**
 Multiplication by vectors on the exterior algebra of a metric.

 A word a, b, ... is a list of basis vectors.  `Act(m, w, x)` multiplies x on the
 left by the blade a ∧ b ∧ ..., using (a ∧ B) C == 1/2 (a (B C) + B^ (a C)).
 */
module Clifford {
  import opened Multivectors
  import opened Metrics

  type Word = seq<nat>

  predicate Under(n: nat, w: Word) {
    forall i :: 0 <= i < |w| ==> w[i] < n
  }

  /** The i-th basis vector. */
  function E(n: nat, i: nat): (v: Vec)
    ensures |v| == n
  {
    seq(n, (j: nat) => if j == i then 1.0 else 0.0)
  }

  /** The covector that takes the product with the i-th basis vector. */
  function Row(m: Metric, i: nat): (g: Vec)
    ensures |g| == m.dim
  {
    seq(m.dim, (j: nat) => m.DotProduct(i, j) as real)
  }

  /** a ∧ b ∧ ... for the basis vectors of a word. */
  function BladeMV(n: nat, w: Word): (z: MV)
    ensures Has(n, z)
  {
    if w == [] then Scalar(n, 1.0) else Wedge(E(n, w[0]), BladeMV(n, w[1..]))
  }

  // ---------------------------------------------------------------- one vector

  /** v x for a vector v that is dual to g. */
  function Left(v: Vec, g: Vec, x: MV): (z: MV)
    requires |v| == |g| && Has(|v|, x)
    ensures Has(|v|, z)
  {
    Add(|v|, Wedge(v, x), Contract(g, x))
  }

  /** x v for a vector v that is dual to g. */
  function Right(v: Vec, g: Vec, x: MV): (z: MV)
    requires |v| == |g| && Has(|v|, x)
    ensures Has(|v|, z)
  {
    Add(|v|, Wedge(v, Invo(|v|, x)), Neg(|v|, Contract(g, Invo(|v|, x))))
  }

  lemma {:induction false} LeftAdd(v: Vec, g: Vec, x: MV, y: MV)
    requires |v| == |g| && Has(|v|, x) && Has(|v|, y)
    ensures Left(v, g, Add(|v|, x, y)) == Add(|v|, Left(v, g, x), Left(v, g, y))
  {
    WedgeAdd(v, x, y);
    ContractAdd(g, x, y);
    AddSwap(|v|, Wedge(v, x), Wedge(v, y), Contract(g, x), Contract(g, y));
  }

  lemma {:induction false} LeftScale(v: Vec, g: Vec, c: real, x: MV)
    requires |v| == |g| && Has(|v|, x)
    ensures Left(v, g, Scale(|v|, c, x)) == Scale(|v|, c, Left(v, g, x))
  {
    WedgeScale(v, c, x);
    ContractScale(g, c, x);
    ScaleAdd(|v|, c, Wedge(v, x), Contract(g, x));
  }

  lemma {:induction false} RightAdd(v: Vec, g: Vec, x: MV, y: MV)
    requires |v| == |g| && Has(|v|, x) && Has(|v|, y)
    ensures Right(v, g, Add(|v|, x, y)) == Add(|v|, Right(v, g, x), Right(v, g, y))
  {
    var n := |v|;
    var p, q := Invo(n, x), Invo(n, y);
    InvoAdd(n, x, y);
    WedgeAdd(v, p, q);
    ContractAdd(g, p, q);
    NegAdd(n, Contract(g, p), Contract(g, q));
    AddSwap(n, Wedge(v, p), Wedge(v, q), Neg(n, Contract(g, p)), Neg(n, Contract(g, q)));
  }

  lemma {:induction false} RightScale(v: Vec, g: Vec, c: real, x: MV)
    requires |v| == |g| && Has(|v|, x)
    ensures Right(v, g, Scale(|v|, c, x)) == Scale(|v|, c, Right(v, g, x))
  {
    var n := |v|;
    var p := Invo(n, x);
    InvoScale(n, c, x);
    WedgeScale(v, c, p);
    ContractScale(g, c, p);
    ScaleNeg(n, c, Contract(g, p));
    ScaleAdd(n, c, Wedge(v, p), Neg(n, Contract(g, p)));
  }

  lemma {:induction false} RightHalf(v: Vec, g: Vec, x: MV)
    requires |v| == |g| && Has(|v|, x)
    ensures Right(v, g, Half(|v|, x)) == Half(|v|, Right(v, g, x))
  {
    var half := 0.5;
    HalfIsScale(|v|, half, x);
    HalfIsScale(|v|, half, Right(v, g, x));
    RightScale(v, g, half, x);
  }

  /** v (u x) as four products. */
  lemma {:induction false} LeftLeft(v: Vec, g: Vec, u: Vec, h: Vec, x: MV)
    requires |v| == |g| == |u| == |h| && Has(|v|, x)
    ensures var n := |v|;
      Left(v, g, Left(u, h, x)) == Add(n, Add(n, Wedge(v, Wedge(u, x)), Wedge(v, Contract(h, x))),
                                       Add(n, Contract(g, Wedge(u, x)), Contract(g, Contract(h, x))))
  {
    WedgeAdd(v, Wedge(u, x), Contract(h, x));
    ContractAdd(g, Wedge(u, x), Contract(h, x));
  }

  /** v (u x) + u (v x) == (v·u) x + (u·v) x */
  lemma {:induction false} LeftAnticommute(v: Vec, g: Vec, u: Vec, h: Vec, x: MV)
    requires |v| == |g| == |u| == |h| && Has(|v|, x)
    ensures Add(|v|, Left(v, g, Left(u, h, x)), Left(u, h, Left(v, g, x)))
         == Add(|v|, Anticommutator(v, h, x), Anticommutator(u, g, x))
  {
    var n := |v|;
    var wu, cu, wv, cv := Wedge(u, x), Contract(h, x), Wedge(v, x), Contract(g, x);
    LeftLeft(v, g, u, h, x);
    LeftLeft(u, h, v, g, x);
    WedgeAnti(v, u, x);
    ContractAnti(g, h, x);
    AnticommuteSum(n, Wedge(v, wu), Wedge(v, cu), Contract(g, wu), Contract(g, cu),
                   Wedge(u, wv), Wedge(u, cv), Contract(h, wv), Contract(h, cv));
  }

  lemma {:induction false} AnticommuteSum(n: nat, a: MV, b: MV, c: MV, d: MV, a': MV, b': MV, c': MV, d': MV)
    requires Has(n, a) && Has(n, b) && Has(n, c) && Has(n, d)
    requires Has(n, a') && Has(n, b') && Has(n, c') && Has(n, d')
    requires a == Neg(n, a') && d == Neg(n, d')
    ensures Add(n, Add(n, Add(n, a, b), Add(n, c, d)), Add(n, Add(n, a', b'), Add(n, c', d')))
         == Add(n, Add(n, b, c'), Add(n, b', c))
  {
    if n > 0 {
      AnticommuteSum(n - 1, a.lo, b.lo, c.lo, d.lo, a'.lo, b'.lo, c'.lo, d'.lo);
      AnticommuteSum(n - 1, a.hi, b.hi, c.hi, d.hi, a'.hi, b'.hi, c'.hi, d'.hi);
    }
  }

  /** v (v x) == (v·v) x */
  lemma {:induction false} LeftSquare(v: Vec, g: Vec, x: MV)
    requires |v| == |g| && Has(|v|, x)
    ensures Left(v, g, Left(v, g, x)) == Scale(|v|, Dot(v, g), x)
  {
    LeftAnticommute(v, g, v, g, x);
    WedgeContract(v, g, x);
    Halves(|v|, Left(v, g, Left(v, g, x)), Anticommutator(v, g, x));
  }

  lemma {:induction false} Halves(n: nat, x: MV, y: MV)
    requires Has(n, x) && Has(n, y) && Add(n, x, x) == Add(n, y, y)
    ensures x == y
  {
    if n > 0 {
      Halves(n - 1, x.lo, y.lo);
      Halves(n - 1, x.hi, y.hi);
    }
  }

  /** Multiplication on the left and on the right commute: v (x u) == (v x) u. */
  lemma {:induction false} LeftRight(v: Vec, g: Vec, u: Vec, h: Vec, x: MV)
    requires |v| == |g| == |u| == |h| && Has(|v|, x)
    requires Dot(v, h) == Dot(u, g)
    ensures Left(v, g, Right(u, h, x)) == Right(u, h, Left(v, g, x))
  {
    var n, y := |v|, Invo(|v|, x);
    var wu, cu, wv, cv := Wedge(u, y), Contract(h, y), Wedge(v, y), Contract(g, y);
    // v (x u)
    WedgeAdd(v, wu, Neg(n, cu));
    ContractAdd(g, wu, Neg(n, cu));
    WedgeNeg(v, cu);
    ContractNeg(g, cu);
    // (v x) u
    InvoAdd(n, Wedge(v, x), Contract(g, x));
    InvoWedge(v, x);
    InvoContract(g, x);
    WedgeAdd(u, Neg(n, wv), Neg(n, cv));
    ContractAdd(h, Neg(n, wv), Neg(n, cv));
    WedgeNeg(u, wv);
    WedgeNeg(u, cv);
    ContractNeg(h, wv);
    ContractNeg(h, cv);
    WedgeAnti(v, u, y);
    ContractAnti(g, h, y);
    WedgeContract(v, h, y);
    WedgeContract(u, g, y);
    CommuteSum(n, Wedge(v, wu), Wedge(v, cu), Contract(g, wu), Contract(g, cu),
               Wedge(u, wv), Wedge(u, cv), Contract(h, wv), Contract(h, cv));
  }

  lemma {:induction false} CommuteSum(n: nat, a: MV, b: MV, c: MV, d: MV, a': MV, b': MV, c': MV, d': MV)
    requires Has(n, a) && Has(n, b) && Has(n, c) && Has(n, d)
    requires Has(n, a') && Has(n, b') && Has(n, c') && Has(n, d')
    requires a == Neg(n, a') && d == Neg(n, d') && Add(n, b, c') == Add(n, b', c)
    ensures Add(n, Add(n, a, Neg(n, b)), Add(n, c, Neg(n, d)))
         == Add(n, Add(n, Neg(n, a'), Neg(n, b')), Neg(n, Add(n, Neg(n, c'), Neg(n, d'))))
  {
    if n > 0 {
      CommuteSum(n - 1, a.lo, b.lo, c.lo, d.lo, a'.lo, b'.lo, c'.lo, d'.lo);
      CommuteSum(n - 1, a.hi, b.hi, c.hi, d.hi, a'.hi, b'.hi, c'.hi, d'.hi);
    }
  }

  /** v ∧ x == 1/2 (v x + x^ v) */
  lemma {:induction false} WedgeIsHalfSum(v: Vec, g: Vec, x: MV)
    requires |v| == |g| && Has(|v|, x)
    ensures Half(|v|, Add(|v|, Left(v, g, x), Right(v, g, Invo(|v|, x)))) == Wedge(v, x)
  {
    InvoInvo(|v|, x);
    HalfSum(|v|, Wedge(v, x), Contract(g, x));
  }

  lemma {:induction false} HalfSum(n: nat, w: MV, c: MV)
    requires Has(n, w) && Has(n, c)
    ensures Half(n, Add(n, Add(n, w, c), Add(n, w, Neg(n, c)))) == w
  {
    if n > 0 {
      HalfSum(n - 1, w.lo, c.lo);
      HalfSum(n - 1, w.hi, c.hi);
    }
  }

  /** x~ reverses products with a vector: (v x)~ == x~ v. */
  lemma {:induction false} ReverseLeft(v: Vec, g: Vec, x: MV)
    requires |v| == |g| && Has(|v|, x)
    ensures Reverse(|v|, Left(v, g, x)) == Right(v, g, Reverse(|v|, x))
  {
    ReverseAdd(|v|, Wedge(v, x), Contract(g, x));
    ReverseWedge(v, x);
    ReverseContract(g, x);
  }

  lemma {:induction false} InvoReverse(n: nat, x: MV)
    requires Has(n, x)
    ensures Invo(n, Reverse(n, x)) == Reverse(n, Invo(n, x))
  {
    if n > 0 {
      InvoReverse(n - 1, x.lo);
      InvoReverse(n - 1, x.hi);
      ReverseNeg(n - 1, Invo(n - 1, x.hi));
      InvoNeg(n - 1, Reverse(n - 1, Invo(n - 1, x.hi)));
    }
  }

  lemma {:induction false} ReverseReverse(n: nat, x: MV)
    requires Has(n, x)
    ensures Reverse(n, Reverse(n, x)) == x
  {
    if n > 0 {
      ReverseReverse(n - 1, x.lo);
      ReverseReverse(n - 1, x.hi);
      InvoReverse(n - 1, Reverse(n - 1, x.hi));
      InvoInvo(n - 1, x.hi);
    }
  }

  /** x~ exchanges left and right: (x v)~ == v x~. */
  lemma {:induction false} ReverseRight(v: Vec, g: Vec, x: MV)
    requires |v| == |g| && Has(|v|, x)
    ensures Reverse(|v|, Right(v, g, x)) == Left(v, g, Reverse(|v|, x))
  {
    ReverseLeft(v, g, Reverse(|v|, x));
    ReverseReverse(|v|, x);
    ReverseReverse(|v|, Left(v, g, Reverse(|v|, x)));
  }

  /** Grade involution is a homomorphism: (v x)^ == -(v x^), (x v)^ == -(x^ v). */
  lemma {:induction false} InvoLeftRight(v: Vec, g: Vec, x: MV)
    requires |v| == |g| && Has(|v|, x)
    ensures Invo(|v|, Left(v, g, x)) == Neg(|v|, Left(v, g, Invo(|v|, x)))
    ensures Invo(|v|, Right(v, g, x)) == Neg(|v|, Right(v, g, Invo(|v|, x)))
  {
    var n, y := |v|, Invo(|v|, x);
    InvoAdd(n, Wedge(v, x), Contract(g, x));
    InvoWedge(v, x);
    InvoContract(g, x);
    NegAdd(n, Wedge(v, y), Contract(g, y));
    InvoAdd(n, Wedge(v, y), Neg(n, Contract(g, y)));
    InvoWedge(v, y);
    InvoContract(g, y);
    InvoNeg(n, Contract(g, y));
    NegAdd(n, Wedge(v, Invo(n, y)), Neg(n, Contract(g, Invo(n, y))));
  }

  // ---------------------------------------------------------------- basis vectors

  lemma {:induction false} DotUnit(n: nat, i: nat, g: Vec)
    requires |g| == n && i < n
    ensures Dot(E(n, i), g) == g[i]
  {
    var v := E(n, i);
    if i == 0 {
      DotNone(v[1..], g[1..]);
    } else {
      assert v[1..] == E(n - 1, i - 1);
      DotUnit(n - 1, i - 1, g[1..]);
    }
  }

  lemma {:induction false} DotNone(v: Vec, g: Vec)
    requires forall i :: 0 <= i < |v| ==> v[i] == 0.0
    ensures Dot(v, g) == 0.0
  {
    if |v| > 0 && |g| > 0 {
      DotNone(v[1..], g[1..]);
    }
  }

  /** The products of basis vectors are the entries of the metric. */
  lemma {:induction false} DotBasis(m: Metric, i: nat, j: nat)
    requires i < m.dim && j < m.dim
    ensures Dot(E(m.dim, i), Row(m, j)) == m.DotProduct(i, j) as real == Dot(E(m.dim, j), Row(m, i))
  {
    DotUnit(m.dim, i, Row(m, j));
    DotUnit(m.dim, j, Row(m, i));
    DotProductSymmetric(m, i, j);
  }

  function LeftBy(m: Metric, i: nat, x: MV): (z: MV)
    requires Has(m.dim, x)
    ensures Has(m.dim, z)
  {
    Left(E(m.dim, i), Row(m, i), x)
  }

  function RightBy(m: Metric, i: nat, x: MV): (z: MV)
    requires Has(m.dim, x)
    ensures Has(m.dim, z)
  {
    Right(E(m.dim, i), Row(m, i), x)
  }

  // ---------------------------------------------------------------- blades

  /** Multiply by (-1)^k. */
  function Signed(n: nat, k: nat, x: MV): (z: MV)
    requires Has(n, x)
    ensures Has(n, z)
  {
    if k % 2 == 0 then x else Neg(n, x)
  }

  /** The product of the blade of w and x. */
  function Act(m: Metric, w: Word, x: MV): (z: MV)
    requires Has(m.dim, x)
    ensures Has(m.dim, z)
    decreases w
  {
    if w == [] then x else
      var n := m.dim;
      Half(n, Add(n, LeftBy(m, w[0], Act(m, w[1..], x)), Signed(n, |w| - 1, Act(m, w[1..], LeftBy(m, w[0], x)))))
  }

  lemma {:induction false} SignedAdd(n: nat, k: nat, x: MV, y: MV)
    requires Has(n, x) && Has(n, y)
    ensures Signed(n, k, Add(n, x, y)) == Add(n, Signed(n, k, x), Signed(n, k, y))
  {
    NegAdd(n, x, y);
  }

  lemma {:induction false} SignedScale(n: nat, k: nat, c: real, x: MV)
    requires Has(n, x)
    ensures Signed(n, k, Scale(n, c, x)) == Scale(n, c, Signed(n, k, x))
  {
    ScaleNeg(n, c, x);
  }

  lemma {:induction false} RightNeg(v: Vec, g: Vec, x: MV)
    requires |v| == |g| && Has(|v|, x)
    ensures Right(v, g, Neg(|v|, x)) == Neg(|v|, Right(v, g, x))
  {
    var n, p := |v|, Invo(|v|, x);
    InvoNeg(n, x);
    WedgeNeg(v, p);
    ContractNeg(g, p);
    NegAdd(n, Wedge(v, p), Neg(n, Contract(g, p)));
  }

  /** The two summands of the product of a nonempty blade. */
  function Front(m: Metric, w: Word, x: MV): (z: MV)
    requires Has(m.dim, x) && w != []
    ensures Has(m.dim, z)
  {
    LeftBy(m, w[0], Act(m, w[1..], x))
  }

  function Back(m: Metric, w: Word, x: MV): (z: MV)
    requires Has(m.dim, x) && w != []
    ensures Has(m.dim, z)
  {
    Signed(m.dim, |w| - 1, Act(m, w[1..], LeftBy(m, w[0], x)))
  }

  lemma {:induction false} ActCons(m: Metric, w: Word, x: MV)
    requires Has(m.dim, x) && w != []
    ensures Act(m, w, x) == Half(m.dim, Add(m.dim, Front(m, w, x), Back(m, w, x)))
  {}

  lemma {:induction false} HalfSums(n: nat, z: MV, p: MV, q: MV, s: MV, t: MV)
    requires Has(n, p) && Has(n, q) && Has(n, s) && Has(n, t)
    requires z == Half(n, Add(n, Add(n, p, q), Add(n, s, t)))
    ensures z == Add(n, Half(n, Add(n, p, s)), Half(n, Add(n, q, t)))
  {
    AddSwap(n, p, q, s, t);
    HalfAdd(n, Add(n, p, s), Add(n, q, t));
  }

  lemma {:induction false} ActAdd(m: Metric, w: Word, x: MV, y: MV)
    requires Has(m.dim, x) && Has(m.dim, y)
    ensures Act(m, w, Add(m.dim, x, y)) == Add(m.dim, Act(m, w, x), Act(m, w, y))
    decreases w
  {
    if w != [] {
      var n := m.dim;
      FrontBackAdd(m, w, x, y);
      ActCons(m, w, x);
      ActCons(m, w, y);
      ActCons(m, w, Add(n, x, y));
      HalfSums(n, Act(m, w, Add(n, x, y)), Front(m, w, x), Front(m, w, y), Back(m, w, x), Back(m, w, y));
    }
  }

  lemma {:induction false} FrontBackAdd(m: Metric, w: Word, x: MV, y: MV)
    requires Has(m.dim, x) && Has(m.dim, y) && w != []
    ensures Front(m, w, Add(m.dim, x, y)) == Add(m.dim, Front(m, w, x), Front(m, w, y))
    ensures Back(m, w, Add(m.dim, x, y)) == Add(m.dim, Back(m, w, x), Back(m, w, y))
    decreases w, 0
  {
    var n, a, r := m.dim, w[0], w[1..];
    ActAdd(m, r, x, y);
    LeftAdd(E(n, a), Row(m, a), Act(m, r, x), Act(m, r, y));
    LeftAdd(E(n, a), Row(m, a), x, y);
    ActAdd(m, r, LeftBy(m, a, x), LeftBy(m, a, y));
    SignedAdd(n, |r|, Act(m, r, LeftBy(m, a, x)), Act(m, r, LeftBy(m, a, y)));
  }

  lemma {:induction false} HalfScaled(n: nat, z: MV, c: real, p: MV, s: MV)
    requires Has(n, p) && Has(n, s) && z == Half(n, Add(n, Scale(n, c, p), Scale(n, c, s)))
    ensures z == Scale(n, c, Half(n, Add(n, p, s)))
  {
    ScaleAdd(n, c, p, s);
    HalfScale(n, c, Add(n, p, s));
  }

  lemma {:induction false} ActScale(m: Metric, w: Word, c: real, x: MV)
    requires Has(m.dim, x)
    ensures Act(m, w, Scale(m.dim, c, x)) == Scale(m.dim, c, Act(m, w, x))
    decreases w
  {
    if w != [] {
      var n := m.dim;
      FrontBackScale(m, w, c, x);
      ActCons(m, w, x);
      ActCons(m, w, Scale(n, c, x));
      HalfScaled(n, Act(m, w, Scale(n, c, x)), c, Front(m, w, x), Back(m, w, x));
    }
  }

  lemma {:induction false} FrontBackScale(m: Metric, w: Word, c: real, x: MV)
    requires Has(m.dim, x) && w != []
    ensures Front(m, w, Scale(m.dim, c, x)) == Scale(m.dim, c, Front(m, w, x))
    ensures Back(m, w, Scale(m.dim, c, x)) == Scale(m.dim, c, Back(m, w, x))
    decreases w, 0
  {
    var n, a, r := m.dim, w[0], w[1..];
    ActScale(m, r, c, x);
    LeftScale(E(n, a), Row(m, a), c, Act(m, r, x));
    LeftScale(E(n, a), Row(m, a), c, x);
    ActScale(m, r, c, LeftBy(m, a, x));
    SignedScale(n, |r|, c, Act(m, r, LeftBy(m, a, x)));
  }

  /** A blade acts on the left, so it commutes with products on the right. */
  lemma {:induction false} ActRight(m: Metric, w: Word, b: nat, x: MV)
    requires Has(m.dim, x) && Under(m.dim, w) && b < m.dim
    ensures Act(m, w, RightBy(m, b, x)) == RightBy(m, b, Act(m, w, x))
    decreases w
  {
    if w != [] {
      var n, a, r := m.dim, w[0], w[1..];
      var v, g := E(n, b), Row(m, b);
      DotBasis(m, a, b);
      ActRight(m, r, b, x);
      LeftRight(E(n, a), Row(m, a), v, g, Act(m, r, x));
      LeftRight(E(n, a), Row(m, a), v, g, x);
      ActRight(m, r, b, LeftBy(m, a, x));
      var p, s := LeftBy(m, a, Act(m, r, x)), Act(m, r, LeftBy(m, a, x));
      RightNeg(v, g, s);
      RightAdd(v, g, p, Signed(n, |r|, s));
      RightHalf(v, g, Add(n, p, Signed(n, |r|, s)));
    }
  }

  lemma {:induction false} InvoBlade(n: nat, w: Word)
    ensures Invo(n, BladeMV(n, w)) == Signed(n, |w|, BladeMV(n, w))
  {
    if w == [] {
      InvoOfScalar(n, 1.0);
    } else {
      InvoBlade(n, w[1..]);
      var v, y := E(n, w[0]), BladeMV(n, w[1..]);
      InvoWedge(v, y);
      WedgeNeg(v, y);
      ScaleSpecial(n, Wedge(v, y));
    }
  }

  lemma {:induction false} InvoOfScalar(n: nat, c: real)
    ensures Invo(n, Scalar(n, c)) == Scalar(n, c)
    ensures Reverse(n, Scalar(n, c)) == Scalar(n, c)
  {
    if n > 0 {
      InvoOfScalar(n - 1, c);
      ZeroFixed(n - 1);
    }
  }

  lemma {:induction false} ContractOfScalar(g: Vec, c: real)
    ensures Contract(g, Scalar(|g|, c)) == Zero(|g|)
  {
    if |g| > 0 {
      var n := |g| - 1;
      ContractOfScalar(g[1..], c);
      ContractOfZero(g[1..]);
      ZeroFixed(n);
      ScaleOfZero(n, g[0]);
      AddZero(n, Zero(n));
    }
  }

  lemma {:induction false} ContractOfZero(g: Vec)
    ensures Contract(g, Zero(|g|)) == Zero(|g|)
  {
    if |g| > 0 {
      var n := |g| - 1;
      ContractOfZero(g[1..]);
      ZeroFixed(n);
      ScaleOfZero(n, g[0]);
      AddZero(n, Zero(n));
    }
  }

  /** A vector times 1 is the vector, on either side. */
  lemma {:induction false} UnitLeftRight(v: Vec, g: Vec)
    requires |v| == |g|
    ensures Left(v, g, Scalar(|v|, 1.0)) == Right(v, g, Scalar(|v|, 1.0)) == Wedge(v, Scalar(|v|, 1.0))
  {
    var n := |v|;
    InvoOfScalar(n, 1.0);
    ContractOfScalar(g, 1.0);
    ZeroFixed(n);
    AddZero(n, Wedge(v, Scalar(n, 1.0)));
  }

  /** A blade times 1 is the blade. */
  lemma {:induction false} ActOne(m: Metric, w: Word)
    requires Under(m.dim, w)
    ensures Act(m, w, Scalar(m.dim, 1.0)) == BladeMV(m.dim, w)
    decreases w
  {
    if w != [] {
      var n, a, r := m.dim, w[0], w[1..];
      var v, g := E(n, a), Row(m, a);
      var one, y := Scalar(n, 1.0), BladeMV(n, r);
      ActOne(m, r);
      UnitLeftRight(v, g);
      ActRight(m, r, a, one);
      InvoBlade(n, r);
      RightNeg(v, g, y);
      WedgeIsHalfSum(v, g, y);
    }
  }
}
