/** The expanded product is the Clifford product of the metric. */
module CliffordProduct {
  import opened BladeTags
  import opened Metrics
  import opened Multivectors
  import opened Clifford
  import opened ProductMeaning
  import GP = GeometricProduct

  // ---------------------------------------------------------------- sums that act

  lemma {:induction false} ActSumAdd(m: Metric, s: Sum, y: MV, z: MV)
    requires Has(m.dim, y) && Has(m.dim, z)
    ensures ActSum(m, s, Add(m.dim, y, z)) == Add(m.dim, ActSum(m, s, y), ActSum(m, s, z))
  {
    var n := m.dim;
    if s == [] {
      AddZero(n, Zero(n));
    } else {
      var x, r := s[0], s[1..];
      ActTermAdd(m, x, y, z);
      ActSumAdd(m, r, y, z);
      AddSwap(n, ActTerm(m, x, y), ActTerm(m, x, z), ActSum(m, r, y), ActSum(m, r, z));
    }
  }

  lemma {:induction false} ActSumScale(m: Metric, s: Sum, c: real, z: MV)
    requires Has(m.dim, z)
    ensures ActSum(m, s, Scale(m.dim, c, z)) == Scale(m.dim, c, ActSum(m, s, z))
  {
    var n := m.dim;
    if s == [] {
      ScaleOfZero(n, c);
    } else {
      var x, r := s[0], s[1..];
      ActTermScale(m, x, c, z);
      ActSumScale(m, r, c, z);
      ScaleAdd(n, c, ActTerm(m, x, z), ActSum(m, r, z));
    }
  }

  /** A coefficient of the left operand. */
  lemma {:induction false} ActTermScaled(m: Metric, c: real, x: Term, z: MV)
    requires Has(m.dim, z)
    ensures ActTerm(m, TimesTerm(c, x), z) == Scale(m.dim, c, ActTerm(m, x, z))
  {
    hide Act, Factors, Scale;
    var y, w := GP.Canonical(x), GP.Canonical(TimesTerm(c, x));
    CoefficientScaled(c, x.c);
    ScaleTwice(m.dim, c, y.c, w.c, Act(m, Factors(y.blade), z));
  }

  lemma {:induction false} CoefficientScaled(c: real, d: real)
    ensures -(c * d) == c * -d
  {
  }

  lemma {:induction false} ActSumScaled(m: Metric, c: real, s: Sum, z: MV)
    requires Has(m.dim, z)
    ensures ActSum(m, GP.ScaleAll(c, s), z) == Scale(m.dim, c, ActSum(m, s, z))
  {
    hide ActTerm;
    var n := m.dim;
    if s == [] {
      ScaleOfZero(n, c);
    } else {
      var x, r := s[0], s[1..];
      ActTermScaled(m, c, x, z);
      ActSumScaled(m, c, r, z);
      ScaleAdd(n, c, ActTerm(m, x, z), ActSum(m, r, z));
      assert GP.ScaleAll(c, s) == [TimesTerm(c, x)] + GP.ScaleAll(c, r);
    }
  }

  lemma {:induction false} ActSumConcat(m: Metric, s: Sum, t: Sum, z: MV)
    requires Has(m.dim, z)
    ensures ActSum(m, s + t, z) == Add(m.dim, ActSum(m, s, z), ActSum(m, t, z))
  {
    if s == [] {
      assert s + t == t;
      AddZero(m.dim, ActSum(m, t, z));
    } else {
      assert (s + t)[1..] == s[1..] + t;
      ActSumConcat(m, s[1..], t, z);
      AddAssoc(m.dim, ActTerm(m, s[0], z), ActSum(m, s[1..], z), ActSum(m, t, z));
    }
  }

  /** Every multivector is itself times 1. */
  lemma {:induction false} ActSumOne(m: Metric, s: Sum)
    requires AllFit(m.dim, s)
    ensures ActSum(m, s, Scalar(m.dim, 1.0)) == Meaning(m.dim, s)
  {
    if s != [] {
      ActTermOne(m, s[0]);
      ActSumOne(m, s[1..]);
    }
  }

  lemma {:induction false} ActTermRight(m: Metric, x: Term, b: nat, z: MV)
    requires Has(m.dim, z) && Fits(m.dim, x.blade) && b < m.dim
    ensures ActTerm(m, x, RightBy(m, b, z)) == RightBy(m, b, ActTerm(m, x, z))
  {
    var k := GP.Canonical(x);
    var w := Factors(k.blade);
    CanonicalMeaning(m.dim, x);
    FactorsUnder(m.dim, k.blade);
    ActRight(m, w, b, z);
    RightScale(E(m.dim, b), Row(m, b), k.c, Act(m, w, z));
  }

  lemma {:induction false} RightZero(v: Vec, g: Vec)
    requires |v| == |g|
    ensures Right(v, g, Zero(|v|)) == Zero(|v|)
  {
    var z := Zero(|v|);
    ScaleOfZero(|v|, 0.0);
    RightScale(v, g, 0.0, z);
    ScaleSpecial(|v|, Right(v, g, z));
  }

  /** Multiplication on the left commutes with multiplication on the right. */
  lemma {:induction false} ActSumRight(m: Metric, s: Sum, b: nat, z: MV)
    requires Has(m.dim, z) && AllFit(m.dim, s) && b < m.dim
    ensures ActSum(m, s, RightBy(m, b, z)) == RightBy(m, b, ActSum(m, s, z))
  {
    var v, g := E(m.dim, b), Row(m, b);
    if s == [] {
      RightZero(v, g);
    } else {
      ActTermRight(m, s[0], b, z);
      ActSumRight(m, s[1..], b, z);
      RightAdd(v, g, ActTerm(m, s[0], z), ActSum(m, s[1..], z));
    }
  }

  // ---------------------------------------------------------------- associativity

  /** (s t) z == s (t z) */
  predicate Agree(m: Metric, s: Sum, t: Sum, z: MV)
    requires Has(m.dim, z)
  {
    ActSum(m, GP.Multiply(m, s, t), z) == ActSum(m, s, ActSum(m, t, z))
  }

  lemma {:induction false} AgreeOne(m: Metric, s: Sum, t: Sum)
    requires m.Valid() && AllFit(m.dim, s) && AllFit(m.dim, t)
    ensures Agree(m, s, t, Scalar(m.dim, 1.0))
  {
    MultiplyMeaning(m, s, t);
    ActSumOne(m, GP.Multiply(m, s, t));
    ActSumOne(m, t);
  }

  lemma {:induction false} AgreeAdd(m: Metric, s: Sum, t: Sum, y: MV, z: MV)
    requires Has(m.dim, y) && Has(m.dim, z) && Agree(m, s, t, y) && Agree(m, s, t, z)
    ensures Agree(m, s, t, Add(m.dim, y, z))
  {
    ActSumAdd(m, GP.Multiply(m, s, t), y, z);
    ActSumAdd(m, t, y, z);
    ActSumAdd(m, s, ActSum(m, t, y), ActSum(m, t, z));
  }

  lemma {:induction false} AgreeScale(m: Metric, s: Sum, t: Sum, c: real, z: MV)
    requires Has(m.dim, z) && Agree(m, s, t, z)
    ensures Agree(m, s, t, Scale(m.dim, c, z))
  {
    ActSumScale(m, GP.Multiply(m, s, t), c, z);
    ActSumScale(m, t, c, z);
    ActSumScale(m, s, c, ActSum(m, t, z));
  }

  lemma {:induction false} AgreeNeg(m: Metric, s: Sum, t: Sum, z: MV)
    requires Has(m.dim, z) && Agree(m, s, t, z)
    ensures Agree(m, s, t, Neg(m.dim, z))
  {
    AgreeScale(m, s, t, -1.0, z);
    ScaleSpecial(m.dim, z);
  }

  lemma {:induction false} AgreeZero(m: Metric, s: Sum, t: Sum, z: MV)
    requires Has(m.dim, z) && Agree(m, s, t, z)
    ensures Agree(m, s, t, Zero(m.dim))
  {
    AgreeScale(m, s, t, 0.0, z);
    ScaleSpecial(m.dim, z);
  }

  lemma {:induction false} AgreeRight(m: Metric, s: Sum, t: Sum, b: nat, z: MV)
    requires m.Valid() && AllFit(m.dim, s) && AllFit(m.dim, t) && b < m.dim
    requires Has(m.dim, z) && Agree(m, s, t, z)
    ensures Agree(m, s, t, RightBy(m, b, z))
  {
    MultiplyMeaning(m, s, t);
    ActSumRight(m, GP.Multiply(m, s, t), b, z);
    ActSumRight(m, t, b, z);
    ActSumRight(m, s, b, ActSum(m, t, z));
  }

  /** p ∧ x for a word p. */
  function WedgeWord(n: nat, p: Word, x: MV): (z: MV)
    requires Has(n, x)
    ensures Has(n, z)
  {
    if p == [] then x else Wedge(E(n, p[0]), WedgeWord(n, p[1..], x))
  }

  lemma {:induction false} WedgeWordBlade(n: nat, p: Word, w: Word)
    ensures WedgeWord(n, p, BladeMV(n, w)) == BladeMV(n, p + w)
  {
    if p == [] {
      assert p + w == w;
    } else {
      WedgeWordBlade(n, p[1..], w);
      assert p + w == [p[0]] + (p[1..] + w);
      BladeCons(n, p[0], p[1..] + w);
    }
  }

  lemma {:induction false} WedgeWordSnoc(n: nat, p: Word, a: nat, x: MV)
    requires Has(n, x)
    ensures WedgeWord(n, p + [a], x) == WedgeWord(n, p, Wedge(E(n, a), x))
  {
    if p == [] {
      assert p + [a] == [a] && [a][1..] == [];
    } else {
      assert (p + [a])[1..] == p[1..] + [a];
      WedgeWordSnoc(n, p[1..], a, x);
    }
  }

  lemma {:induction false} WedgeWordLinear(n: nat, p: Word, d: real, x: MV, y: MV)
    requires Has(n, x) && Has(n, y)
    ensures WedgeWord(n, p, Add(n, Scale(n, d, x), Neg(n, y)))
         == Add(n, Scale(n, d, WedgeWord(n, p, x)), Neg(n, WedgeWord(n, p, y)))
  {
    if p != [] {
      var v, r := E(n, p[0]), p[1..];
      WedgeWordLinear(n, r, d, x, y);
      WedgeAdd(v, Scale(n, d, WedgeWord(n, r, x)), Neg(n, WedgeWord(n, r, y)));
      WedgeScale(v, d, WedgeWord(n, r, x));
      WedgeNeg(v, WedgeWord(n, r, y));
    }
  }

  lemma {:induction false} WedgeWordZero(n: nat, p: Word)
    ensures WedgeWord(n, p, Zero(n)) == Zero(n)
  {
    if p != [] {
      WedgeWordZero(n, p[1..]);
      WedgeZero(E(n, p[0]));
    }
  }

  /** Agreement on 1 and on products on the right gives agreement on every blade. */
  lemma {:induction false} AgreeBlade(m: Metric, s: Sum, t: Sum, w: Word)
    requires m.Valid() && AllFit(m.dim, s) && AllFit(m.dim, t) && Under(m.dim, w)
    ensures Agree(m, s, t, BladeMV(m.dim, w))
    decreases |w|, 0
  {
    if w == [] {
      AgreeOne(m, s, t);
    } else {
      var n, b, r := m.dim, w[0], w[1..];
      var y := BladeMV(n, r);
      AgreeBlade(m, s, t, r);
      AgreeNeg(m, s, t, y);
      InvoBlade(n, r);
      AgreeRight(m, s, t, b, Invo(n, y));
      AgreeContract(m, s, t, [], r, b);
      AgreeAdd(m, s, t, RightBy(m, b, Invo(n, y)), Contract(Row(m, b), y));
      WedgeFromRight(E(n, b), Row(m, b), y);
    }
  }

  /** v ∧ y == y^ v + v ⌋ y */
  lemma {:induction false} WedgeFromRight(v: Vec, g: Vec, y: MV)
    requires |v| == |g| && Has(|v|, y)
    ensures Wedge(v, y) == Add(|v|, Right(v, g, Invo(|v|, y)), Contract(g, y))
  {
    InvoInvo(|v|, y);
    PutBack(|v|, Wedge(v, y), Contract(g, y));
  }

  lemma {:induction false} PutBack(n: nat, x: MV, y: MV)
    requires Has(n, x) && Has(n, y)
    ensures x == Add(n, Add(n, x, Neg(n, y)), y)
  {
    if n > 0 {
      PutBack(n - 1, x.lo, y.lo);
      PutBack(n - 1, x.hi, y.hi);
    }
  }

  lemma {:induction false} AgreeContract(m: Metric, s: Sum, t: Sum, p: Word, w: Word, b: nat)
    requires m.Valid() && AllFit(m.dim, s) && AllFit(m.dim, t)
    requires Under(m.dim, p) && Under(m.dim, w) && b < m.dim
    ensures Agree(m, s, t, WedgeWord(m.dim, p, Contract(Row(m, b), BladeMV(m.dim, w))))
    decreases |p| + |w|, 1 + |w|
  {
    var n, g := m.dim, Row(m, b);
    if w == [] {
      ContractOfScalar(g, 1.0);
      WedgeWordZero(n, p);
      AgreeOne(m, s, t);
      AgreeZero(m, s, t, Scalar(n, 1.0));
    } else {
      var a, r := w[0], w[1..];
      var y := BladeMV(n, r);
      var d := m.DotProduct(b, a) as real;
      AgreeBlade(m, s, t, p + r);
      WedgeWordBlade(n, p, r);
      AgreeScale(m, s, t, d, WedgeWord(n, p, y));
      AgreeContract(m, s, t, p + [a], r, b);
      WedgeWordSnoc(n, p, a, Contract(g, y));
      var z := Wedge(E(n, a), Contract(g, y));
      AgreeNeg(m, s, t, WedgeWord(n, p, z));
      AgreeAdd(m, s, t, Scale(n, d, WedgeWord(n, p, y)), Neg(n, WedgeWord(n, p, z)));
      ContractWedge(m, b, a, y, d);
      WedgeWordLinear(n, p, d, y, z);
    }
  }

  lemma {:induction false} AgreeMeaning(m: Metric, s: Sum, t: Sum, u: Sum)
    requires m.Valid() && AllFit(m.dim, s) && AllFit(m.dim, t) && AllFit(m.dim, u)
    ensures Agree(m, s, t, Meaning(m.dim, u))
  {
    var n := m.dim;
    if u == [] {
      AgreeOne(m, s, t);
      AgreeZero(m, s, t, Scalar(n, 1.0));
    } else {
      var x := u[0];
      FactorsUnder(n, x.blade);
      AgreeBlade(m, s, t, Factors(x.blade));
      AgreeScale(m, s, t, x.c, TagMV(n, x.blade));
      AgreeMeaning(m, s, t, u[1..]);
      AgreeAdd(m, s, t, TermMV(n, x), Meaning(n, u[1..]));
    }
  }

  /** (s t) u == s (t u) */
  lemma {:induction false} MultiplyAssociative(m: Metric, s: Sum, t: Sum, u: Sum)
    requires m.Valid() && AllFit(m.dim, s) && AllFit(m.dim, t) && AllFit(m.dim, u)
    ensures Meaning(m.dim, GP.Multiply(m, GP.Multiply(m, s, t), u))
         == Meaning(m.dim, GP.Multiply(m, s, GP.Multiply(m, t, u)))
  {
    MultiplyMeaning(m, s, t);
    MultiplyMeaning(m, t, u);
    MultiplyMeaning(m, GP.Multiply(m, s, t), u);
    MultiplyMeaning(m, s, GP.Multiply(m, t, u));
    AgreeMeaning(m, s, t, u);
  }

  /** The product distributes over sums on either side. */
  lemma {:induction false} MultiplyBilinear(m: Metric, s: Sum, s': Sum, t: Sum, t': Sum, c: real)
    requires m.Valid() && AllFit(m.dim, s) && AllFit(m.dim, s') && AllFit(m.dim, t) && AllFit(m.dim, t')
    ensures var n := m.dim;
      && Meaning(n, GP.Multiply(m, s + s', t)) == Add(n, Meaning(n, GP.Multiply(m, s, t)),
                                                      Meaning(n, GP.Multiply(m, s', t)))
      && Meaning(n, GP.Multiply(m, s, t + t')) == Add(n, Meaning(n, GP.Multiply(m, s, t)),
                                                      Meaning(n, GP.Multiply(m, s, t')))
      && Meaning(n, GP.Multiply(m, s, GP.ScaleAll(c, t))) == Scale(n, c, Meaning(n, GP.Multiply(m, s, t)))
      && Meaning(n, GP.Multiply(m, GP.ScaleAll(c, s), t)) == Scale(n, c, Meaning(n, GP.Multiply(m, s, t)))
  {
    var n := m.dim;
    AllFitConcat(n, s, s');
    AllFitConcat(n, t, t');
    AllFitMaps(n, c, t);
    MultiplyMeaning(m, s, t);
    MultiplyMeaning(m, s', t);
    MultiplyMeaning(m, s, t');
    MultiplyMeaning(m, s + s', t);
    MultiplyMeaning(m, s, t + t');
    MultiplyMeaning(m, s, GP.ScaleAll(c, t));
    ActSumConcat(m, s, s', Meaning(n, t));
    MeaningConcat(n, t, t');
    ActSumAdd(m, s, Meaning(n, t), Meaning(n, t'));
    MeaningScale(n, c, t);
    ActSumScale(m, s, c, Meaning(n, t));
    AllFitMaps(n, c, s);
    MultiplyMeaning(m, GP.ScaleAll(c, s), t);
    ActSumScaled(m, c, s, Meaning(n, t));
  }

  // ---------------------------------------------------------------- reversal

  predicate ReverseNegates(k: nat) { k % 4 == 2 || k % 4 == 3 }

  /** Reversal of a blade depends on its grade. */
  lemma {:induction false} ReverseBlade(n: nat, w: Word)
    ensures Reverse(n, BladeMV(n, w)) == if ReverseNegates(|w|) then Neg(n, BladeMV(n, w)) else BladeMV(n, w)
  {
    if w == [] {
      InvoOfScalar(n, 1.0);
    } else {
      var y := BladeMV(n, w[1..]);
      ReverseBlade(n, w[1..]);
      InvoBlade(n, w[1..]);
      ReverseWedge(E(n, w[0]), y);
      InvoNeg(n, y);
      WedgeNeg(E(n, w[0]), y);
      ScaleSpecial(n, y);
      ReverseSign(|w[1..]|);
    }
  }

  lemma {:induction false} ReverseSign(k: nat)
    ensures ReverseNegates(k + 1) == (ReverseNegates(k) != (k % 2 == 1))
  {
    if k >= 4 {
      ReverseSign(k - 4);
      assert k % 4 == (k - 4) % 4 && (k + 1) % 4 == (k - 4 + 1) % 4 && k % 2 == (k - 4) % 2;
    }
  }

  lemma {:induction false} ReverseTerm(n: nat, x: Term)
    ensures TermMV(n, if x.blade.ShouldReverseNegate() then GP.Negate(x) else x) == Reverse(n, TermMV(n, x))
  {
    ReverseScale(n, x.c, TagMV(n, x.blade));
    ReverseBlade(n, Factors(x.blade));
    TermNegate(n, x);
    ScaleNeg(n, x.c, TagMV(n, x.blade));
  }

  /** Negating by grade is reversal. */
  lemma {:induction false} ReverseMeaning(n: nat, s: Sum)
    ensures Meaning(n, GP.ReverseAll(s)) == Reverse(n, Meaning(n, s))
  {
    if s == [] {
      ZeroFixed(n);
    } else {
      var x := s[0];
      ReverseMeaning(n, s[1..]);
      ReverseTerm(n, x);
      ReverseAdd(n, TermMV(n, x), Meaning(n, s[1..]));
      MeaningCons(n, if x.blade.ShouldReverseNegate() then GP.Negate(x) else x, GP.ReverseAll(s[1..]));
    }
  }

  /** Right multiplication by the reverse of s. */
  function RightSum(m: Metric, s: Sum, z: MV): (r: MV)
    requires Has(m.dim, z)
    ensures Has(m.dim, r)
  {
    Reverse(m.dim, ActSum(m, s, Reverse(m.dim, z)))
  }

  lemma {:induction false} RightSumAdd(m: Metric, s: Sum, y: MV, z: MV)
    requires Has(m.dim, y) && Has(m.dim, z)
    ensures RightSum(m, s, Add(m.dim, y, z)) == Add(m.dim, RightSum(m, s, y), RightSum(m, s, z))
  {
    var n := m.dim;
    ReverseAdd(n, y, z);
    ActSumAdd(m, s, Reverse(n, y), Reverse(n, z));
    ReverseAdd(n, ActSum(m, s, Reverse(n, y)), ActSum(m, s, Reverse(n, z)));
  }

  lemma {:induction false} RightSumScale(m: Metric, s: Sum, c: real, z: MV)
    requires Has(m.dim, z)
    ensures RightSum(m, s, Scale(m.dim, c, z)) == Scale(m.dim, c, RightSum(m, s, z))
  {
    var n := m.dim;
    ReverseScale(n, c, z);
    ActSumScale(m, s, c, Reverse(n, z));
    ReverseScale(n, c, ActSum(m, s, Reverse(n, z)));
  }

  lemma {:induction false} RightSumSigned(m: Metric, s: Sum, k: nat, z: MV)
    requires Has(m.dim, z)
    ensures RightSum(m, s, Signed(m.dim, k, z)) == Signed(m.dim, k, RightSum(m, s, z))
  {
    RightSumScale(m, s, -1.0, z);
    ScaleSpecial(m.dim, z);
    ScaleSpecial(m.dim, RightSum(m, s, z));
  }

  lemma {:induction false} RightSumHalf(m: Metric, s: Sum, z: MV)
    requires Has(m.dim, z)
    ensures RightSum(m, s, Half(m.dim, z)) == Half(m.dim, RightSum(m, s, z))
  {
    var half := 0.5;
    RightSumScale(m, s, half, z);
    HalfIsScale(m.dim, half, z);
    HalfIsScale(m.dim, half, RightSum(m, s, z));
  }

  lemma {:induction false} RightSumLeft(m: Metric, s: Sum, b: nat, z: MV)
    requires Has(m.dim, z) && AllFit(m.dim, s) && b < m.dim
    ensures RightSum(m, s, LeftBy(m, b, z)) == LeftBy(m, b, RightSum(m, s, z))
  {
    var n, v, g := m.dim, E(m.dim, b), Row(m, b);
    ReverseLeft(v, g, z);
    ActSumRight(m, s, b, Reverse(n, z));
    ReverseRight(v, g, ActSum(m, s, Reverse(n, z)));
  }

  lemma {:induction false} RightSumAct(m: Metric, s: Sum, w: Word, z: MV)
    requires Has(m.dim, z) && AllFit(m.dim, s) && Under(m.dim, w)
    ensures RightSum(m, s, Act(m, w, z)) == Act(m, w, RightSum(m, s, z))
    decreases w
  {
    if w != [] {
      var n, a, r := m.dim, w[0], w[1..];
      var p, q := Front(m, w, z), Back(m, w, z);
      ActCons(m, w, z);
      ActCons(m, w, RightSum(m, s, z));
      RightSumHalf(m, s, Add(n, p, q));
      RightSumAdd(m, s, p, q);
      RightSumLeft(m, s, a, Act(m, r, z));
      RightSumAct(m, s, r, z);
      RightSumSigned(m, s, |r|, Act(m, r, LeftBy(m, a, z)));
      RightSumAct(m, s, r, LeftBy(m, a, z));
      RightSumLeft(m, s, a, z);
    }
  }

  lemma {:induction false} RightSumZero(m: Metric, s: Sum)
    ensures RightSum(m, s, Zero(m.dim)) == Zero(m.dim)
  {
    var z := Zero(m.dim);
    ScaleOfZero(m.dim, 0.0);
    RightSumScale(m, s, 0.0, z);
    ScaleSpecial(m.dim, RightSum(m, s, z));
  }

  /** t (z s~) == (t z) s~ */
  lemma {:induction false} RightSumActSum(m: Metric, s: Sum, t: Sum, z: MV)
    requires Has(m.dim, z) && AllFit(m.dim, s) && AllFit(m.dim, t)
    ensures RightSum(m, s, ActSum(m, t, z)) == ActSum(m, t, RightSum(m, s, z))
  {
    if t == [] {
      RightSumZero(m, s);
    } else {
      var k := GP.Canonical(t[0]);
      var w := Factors(k.blade);
      CanonicalMeaning(m.dim, t[0]);
      FactorsUnder(m.dim, k.blade);
      RightSumAct(m, s, w, z);
      RightSumScale(m, s, k.c, Act(m, w, z));
      RightSumActSum(m, s, t[1..], z);
      RightSumAdd(m, s, ActTerm(m, t[0], z), ActSum(m, t[1..], z));
    }
  }

  /** 1 s~ == s~ */
  lemma {:induction false} RightSumOne(m: Metric, s: Sum)
    requires AllFit(m.dim, s)
    ensures RightSum(m, s, Scalar(m.dim, 1.0)) == Reverse(m.dim, Meaning(m.dim, s))
  {
    InvoOfScalar(m.dim, 1.0);
    ActSumOne(m, s);
  }

  /** (s t)~ == t~ s~ */
  lemma {:induction false} ReverseOfProduct(m: Metric, s: Sum, t: Sum)
    requires m.Valid() && AllFit(m.dim, s) && AllFit(m.dim, t)
    ensures Meaning(m.dim, GP.ReverseAll(GP.Multiply(m, s, t)))
         == Meaning(m.dim, GP.Multiply(m, GP.ReverseAll(t), GP.ReverseAll(s)))
  {
    var n, t' := m.dim, GP.ReverseAll(t);
    AllFitMaps(n, 1.0, s);
    AllFitMaps(n, 1.0, t);
    ReverseMeaning(n, s);
    ReverseMeaning(n, t);
    ReverseMeaning(n, GP.Multiply(m, s, t));
    MultiplyMeaning(m, s, t);
    MultiplyMeaning(m, t', GP.ReverseAll(s));
    ReverseReverse(n, Meaning(n, t));
    ActSumOne(m, t');
    RightSumActSum(m, s, t', Scalar(n, 1.0));
    RightSumOne(m, s);
  }

  /** z times s is right multiplication by the reverse of s~. */
  lemma {:induction false} ProductFromRight(m: Metric, s: Sum, t: Sum)
    requires m.Valid() && AllFit(m.dim, s) && AllFit(m.dim, t)
    ensures Meaning(m.dim, GP.Multiply(m, s, t)) == RightSum(m, GP.ReverseAll(t), Meaning(m.dim, s))
  {
    var n, t' := m.dim, GP.ReverseAll(t);
    AllFitMaps(n, 1.0, t);
    ReverseMeaning(n, t);
    ReverseReverse(n, Meaning(n, t));
    RightSumOne(m, t');
    MultiplyMeaning(m, s, t);
    RightSumActSum(m, t', s, Scalar(n, 1.0));
    ActSumOne(m, s);
  }

  /** The product depends on what its operands denote, not on how they are written. */
  lemma {:induction false} MultiplyWellDefined(m: Metric, s: Sum, s': Sum, t: Sum, t': Sum)
    requires m.Valid() && AllFit(m.dim, s) && AllFit(m.dim, s') && AllFit(m.dim, t) && AllFit(m.dim, t')
    requires Meaning(m.dim, s) == Meaning(m.dim, s') && Meaning(m.dim, t) == Meaning(m.dim, t')
    ensures Meaning(m.dim, GP.Multiply(m, s, t)) == Meaning(m.dim, GP.Multiply(m, s', t'))
  {
    MultiplyMeaning(m, s, t);
    MultiplyMeaning(m, s, t');
    ProductFromRight(m, s, t');
    ProductFromRight(m, s', t');
  }

  // ---------------------------------------------------------------- grade involution

  lemma {:induction false} InvoHalf(n: nat, x: MV)
    requires Has(n, x)
    ensures Invo(n, Half(n, x)) == Half(n, Invo(n, x))
  {
    var half := 0.5;
    HalfIsScale(n, half, x);
    HalfIsScale(n, half, Invo(n, x));
    InvoScale(n, half, x);
  }

  lemma {:induction false} InvoSigned(n: nat, k: nat, x: MV)
    requires Has(n, x)
    ensures Invo(n, Signed(n, k, x)) == Signed(n, k, Invo(n, x))
  {
    InvoNeg(n, x);
  }

  lemma {:induction false} SignedHalf(n: nat, k: nat, p: MV, q: MV)
    requires Has(n, p) && Has(n, q)
    ensures Half(n, Add(n, Signed(n, k, p), Signed(n, k, q))) == Signed(n, k, Half(n, Add(n, p, q)))
  {
    SignedAdd(n, k, p, q);
    var half := 0.5;
    HalfIsScale(n, half, Signed(n, k, Add(n, p, q)));
    HalfIsScale(n, half, Add(n, p, q));
    SignedScale(n, k, half, Add(n, p, q));
  }

  lemma {:induction false} LeftSigned(m: Metric, a: nat, k: nat, x: MV)
    requires Has(m.dim, x)
    ensures Neg(m.dim, LeftBy(m, a, Signed(m.dim, k, x))) == Signed(m.dim, k + 1, LeftBy(m, a, x))
  {
    LeftScale(E(m.dim, a), Row(m, a), -1.0, x);
    ScaleSpecial(m.dim, x);
    ScaleSpecial(m.dim, LeftBy(m, a, x));
  }

  lemma {:induction false} ActOfSigned(m: Metric, w: Word, k: nat, x: MV)
    requires Has(m.dim, x)
    ensures Act(m, w, Signed(m.dim, k, x)) == Signed(m.dim, k, Act(m, w, x))
  {
    ActScale(m, w, -1.0, x);
    ScaleSpecial(m.dim, x);
    ScaleSpecial(m.dim, Act(m, w, x));
  }

  /** (A z)^ == (-1)^k A z^ for a k-blade A. */
  lemma {:induction false} InvoAct(m: Metric, w: Word, z: MV)
    requires Has(m.dim, z)
    ensures Invo(m.dim, Act(m, w, z)) == Signed(m.dim, |w|, Act(m, w, Invo(m.dim, z)))
    decreases w
  {
    if w != [] {
      var n, a, r := m.dim, w[0], w[1..];
      var y := Invo(n, z);
      ActCons(m, w, z);
      ActCons(m, w, y);
      InvoHalf(n, Add(n, Front(m, w, z), Back(m, w, z)));
      InvoAdd(n, Front(m, w, z), Back(m, w, z));
      InvoFront(m, w, z);
      InvoBack(m, w, z);
      SignedHalf(n, |w|, Front(m, w, y), Back(m, w, y));
    }
  }

  lemma {:induction false} InvoFront(m: Metric, w: Word, z: MV)
    requires Has(m.dim, z) && w != []
    ensures Invo(m.dim, Front(m, w, z)) == Signed(m.dim, |w|, Front(m, w, Invo(m.dim, z)))
    decreases w, 0
  {
    var n, a, r := m.dim, w[0], w[1..];
    InvoLeftRight(E(n, a), Row(m, a), Act(m, r, z));
    InvoAct(m, r, z);
    LeftSigned(m, a, |r|, Act(m, r, Invo(n, z)));
  }

  lemma {:induction false} InvoBack(m: Metric, w: Word, z: MV)
    requires Has(m.dim, z) && w != []
    ensures Invo(m.dim, Back(m, w, z)) == Signed(m.dim, |w|, Back(m, w, Invo(m.dim, z)))
    decreases w, 0
  {
    var n, a, r := m.dim, w[0], w[1..];
    var l := LeftBy(m, a, z);
    InvoSigned(n, |r|, Act(m, r, l));
    InvoAct(m, r, l);
    InvoLeftRight(E(n, a), Row(m, a), z);
    var y := LeftBy(m, a, Invo(n, z));
    ActOfSigned(m, r, 1, y);
    SignedSigned(n, |r|, 1, Act(m, r, y));
    SignedSigned(n, |r|, |w|, Act(m, r, y));
    SignedSigned(n, |w|, |r|, Act(m, r, y));
  }

  lemma {:induction false} InvoTerm(n: nat, x: Term)
    ensures TermMV(n, if x.blade.ShouldInvoNegate() then GP.Negate(x) else x) == Invo(n, TermMV(n, x))
  {
    TermInvo(n, x);
    TermNegate(n, x);
  }

  lemma {:induction false} InvoMeaning(n: nat, s: Sum)
    ensures Meaning(n, GP.InvoAll(s)) == Invo(n, Meaning(n, s))
  {
    if s == [] {
      ZeroFixed(n);
    } else {
      var x := s[0];
      InvoMeaning(n, s[1..]);
      InvoTerm(n, x);
      InvoAdd(n, TermMV(n, x), Meaning(n, s[1..]));
      MeaningCons(n, if x.blade.ShouldInvoNegate() then GP.Negate(x) else x, GP.InvoAll(s[1..]));
    }
  }

  lemma {:induction false} InvoActTerm(m: Metric, x: Term, z: MV)
    requires Has(m.dim, z)
    ensures Invo(m.dim, ActTerm(m, x, z))
         == ActTerm(m, if x.blade.ShouldInvoNegate() then GP.Negate(x) else x, Invo(m.dim, z))
  {
    var n, k := m.dim, GP.Canonical(x);
    var w := Factors(k.blade);
    InvoScale(n, k.c, Act(m, w, z));
    InvoAct(m, w, z);
    SignedScale(n, |w|, k.c, Act(m, w, Invo(n, z)));
    ScaleNeg(n, k.c, Act(m, w, Invo(n, z)));
  }

  lemma {:induction false} InvoActSum(m: Metric, s: Sum, z: MV)
    requires Has(m.dim, z)
    ensures Invo(m.dim, ActSum(m, s, z)) == ActSum(m, GP.InvoAll(s), Invo(m.dim, z))
  {
    if s == [] {
      ZeroFixed(m.dim);
    } else {
      InvoActTerm(m, s[0], z);
      InvoActSum(m, s[1..], z);
      InvoAdd(m.dim, ActTerm(m, s[0], z), ActSum(m, s[1..], z));
      assert GP.InvoAll(s)[1..] == GP.InvoAll(s[1..]);
    }
  }

  /** (s t)^ == s^ t^ */
  lemma {:induction false} InvoOfProduct(m: Metric, s: Sum, t: Sum)
    requires m.Valid() && AllFit(m.dim, s) && AllFit(m.dim, t)
    ensures Meaning(m.dim, GP.InvoAll(GP.Multiply(m, s, t)))
         == Meaning(m.dim, GP.Multiply(m, GP.InvoAll(s), GP.InvoAll(t)))
  {
    var n := m.dim;
    AllFitMaps(n, 1.0, s);
    AllFitMaps(n, 1.0, t);
    InvoMeaning(n, GP.Multiply(m, s, t));
    InvoMeaning(n, t);
    MultiplyMeaning(m, s, t);
    MultiplyMeaning(m, GP.InvoAll(s), GP.InvoAll(t));
    InvoActSum(m, s, Meaning(n, t));
  }
}
