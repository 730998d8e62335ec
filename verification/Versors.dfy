/**
 Versor products (ExpandVP, DistributeVP, ExpandVersorVP and ExpandVersorUnary in
 geomalg/lib/Geomalg/Passes.cpp, isOrthogonal in geomalg/include/geomalg/Metric.h).
 */
module Versors {
  import opened BladeTags
  import opened Metrics
  import opened Multivectors
  import opened Clifford
  import opened ProductMeaning
  import opened CliffordProduct
  import opened Reflections
  import GP = GeometricProduct

  /** A sum of 1-blades. */
  predicate IsVector(s: Sum) {
    s == [] || (s[0].Grade() == 1 && IsVector(s[1..]))
  }

  // ---------------------------------------------------------------- products of vectors

  /** The coefficient of x ⌋ y for 1-blades. */
  function DotTerm(m: Metric, x: Term, y: Term): real
    requires x.Grade() == 1 && y.Grade() == 1
  {
    GP.Coefficient(x, y) * m.DotProduct(Index(x), Index(y)) as real
  }

  function DotTermSum(m: Metric, x: Term, t: Sum): real
    requires x.Grade() == 1 && IsVector(t)
  {
    if t == [] then 0.0 else DotTerm(m, x, t[0]) + DotTermSum(m, x, t[1..])
  }

  /** The coefficient of s ⌋ t for vectors. */
  function DotSum(m: Metric, s: Sum, t: Sum): real
    requires IsVector(s) && IsVector(t)
  {
    if s == [] then 0.0 else DotTermSum(m, s[0], t) + DotSum(m, s[1..], t)
  }

  function NoVec(n: nat): (v: Vec)
    ensures |v| == n
  {
    if n == 0 then [] else [0.0] + NoVec(n - 1)
  }

  /** The components of a vector and of its dual. */
  function VecOf(n: nat, s: Sum): (v: Vec)
    requires IsVector(s)
    ensures |v| == n
  {
    if s == [] then NoVec(n) else Axpy(s[0].c, E(n, Index(s[0])), VecOf(n, s[1..]))
  }

  function CoOf(m: Metric, s: Sum): (g: Vec)
    requires IsVector(s)
    ensures |g| == m.dim
  {
    if s == [] then NoVec(m.dim) else Axpy(s[0].c, Row(m, Index(s[0])), CoOf(m, s[1..]))
  }

  lemma {:induction false} DotNoVec(g: Vec, v: Vec)
    requires v == NoVec(|g|)
    ensures Dot(v, g) == 0.0
  {
    if |g| > 0 {
      DotNoVec(g[1..], v[1..]);
    }
  }

  lemma {:induction false} DotVecOf(m: Metric, s: Sum, g: Vec, x: Term)
    requires IsVector(s) && |g| == m.dim && s != []
    ensures Dot(VecOf(m.dim, s), g) == s[0].c * Dot(E(m.dim, Index(s[0])), g) + Dot(VecOf(m.dim, s[1..]), g)
  {
    hide Dot, Axpy, E, Row, Factors;
    DotAxpy(s[0].c, E(m.dim, Index(s[0])), VecOf(m.dim, s[1..]), g);
  }

  lemma {:induction false} DotTermIs(m: Metric, x: Term, y: Term, d: real)
    requires x.Grade() == 1 && y.Grade() == 1 && d == m.DotProduct(Index(x), Index(y)) as real
    ensures DotTerm(m, x, y) == x.c * (y.c * d)
  {}

  lemma {:induction false} Regroup(a: real, b: real, d: real, e: real, t: real)
    requires t == a * e
    ensures a * (b * d) + t == a * (b * d + e)
  {}

  lemma {:induction false} DotTermSumIs(m: Metric, x: Term, t: Sum)
    requires x.Grade() == 1 && IsVector(t) && AllFit(m.dim, [x]) && AllFit(m.dim, t)
    ensures DotTermSum(m, x, t) == x.c * Dot(CoOf(m, t), E(m.dim, Index(x)))
  {
    hide Dot, Axpy, E, Row, Factors;
    var e := E(m.dim, Index(x));
    if t == [] {
      DotNoVec(e, CoOf(m, t));
    } else {
      var y, r := t[0], t[1..];
      var d := m.DotProduct(Index(x), Index(y)) as real;
      DotTermSumIs(m, x, r);
      VectorTag(m.dim, x);
      VectorTag(m.dim, y);
      DotAxpy(y.c, Row(m, Index(y)), CoOf(m, r), e);
      DotBasis(m, Index(x), Index(y));
      DotComm(e, Row(m, Index(y)));
      DotTermIs(m, x, y, d);
      Regroup(x.c, y.c, d, Dot(CoOf(m, r), e), DotTermSum(m, x, r));
    }
  }

  /** The sum over pairs of terms is the product of the components. */
  lemma {:induction false} DotSumIs(m: Metric, s: Sum, t: Sum)
    requires IsVector(s) && IsVector(t) && AllFit(m.dim, s) && AllFit(m.dim, t)
    ensures DotSum(m, s, t) == Dot(VecOf(m.dim, s), CoOf(m, t))
  {
    hide Dot, Axpy, E, Row, Factors;
    var g := CoOf(m, t);
    if s == [] {
      DotNoVec(g, VecOf(m.dim, s));
    } else {
      var x := s[0];
      DotSumIs(m, s[1..], t);
      AllFitOne(m.dim, x);
      DotTermSumIs(m, x, t);
      DotComm(g, E(m.dim, Index(x)));
      DotVecOf(m, s, g, x);
    }
  }

  lemma {:induction false} DotTermComm(m: Metric, x: Term, y: Term)
    requires x.Grade() == 1 && y.Grade() == 1
    ensures DotTerm(m, x, y) == DotTerm(m, y, x)
  {
    DotProductSymmetric(m, Index(x), Index(y));
    var d := m.DotProduct(Index(x), Index(y)) as real;
    DotTermIs(m, x, y, d);
    DotTermIs(m, y, x, d);
    Swap(x.c, y.c, d);
  }

  lemma {:induction false} Swap(a: real, b: real, d: real)
    ensures a * (b * d) == b * (a * d)
  {}

  lemma {:induction false} DotSumCons(m: Metric, s: Sum, y: Term, t: Sum)
    requires IsVector(s) && IsVector(t) && y.Grade() == 1 && IsVector([y] + t)
    ensures DotSum(m, s, [y] + t) == DotTermSum(m, y, s) + DotSum(m, s, t)
  {
    assert ([y] + t)[1..] == t;
    if s != [] {
      DotSumCons(m, s[1..], y, t);
      DotTermComm(m, y, s[0]);
    }
  }

  lemma {:induction false} DotSumNone(m: Metric, s: Sum)
    requires IsVector(s)
    ensures DotSum(m, s, []) == 0.0
  {
    if s != [] {
      DotSumNone(m, s[1..]);
    }
  }

  lemma {:induction false} DotSumSymmetric(m: Metric, s: Sum, t: Sum)
    requires IsVector(s) && IsVector(t)
    ensures DotSum(m, s, t) == DotSum(m, t, s)
  {
    if t == [] {
      DotSumNone(m, s);
    } else {
      DotSumSymmetric(m, s, t[1..]);
      assert t == [t[0]] + t[1..];
      DotSumCons(m, s, t[0], t[1..]);
    }
  }

  // ---------------------------------------------------------------- vectors act

  /** s ∧ z for a vector s. */
  function WedgeSum(n: nat, s: Sum, z: MV): (r: MV)
    requires IsVector(s) && Has(n, z)
    ensures Has(n, r)
  {
    if s == [] then Zero(n) else Add(n, Scale(n, s[0].c, Wedge(E(n, Index(s[0])), z)), WedgeSum(n, s[1..], z))
  }

  lemma {:induction false} NoVecActs(v: Vec, z: MV)
    requires v == NoVec(|v|) && Has(|v|, z)
    ensures Wedge(v, z) == Zero(|v|) && Contract(v, z) == Zero(|v|)
  {
    var n := |v|;
    if n > 0 {
      var w := v[1..];
      assert w == NoVec(n - 1);
      NoVecActs(w, z.lo);
      NoVecActs(w, z.hi);
      ScaleSpecial(n - 1, z.lo);
      ScaleSpecial(n - 1, z.hi);
      ZeroFixed(n - 1);
      AddZero(n - 1, Zero(n - 1));
    }
  }

  lemma {:induction false} WedgeVecOf(n: nat, s: Sum, z: MV)
    requires IsVector(s) && Has(n, z)
    ensures Wedge(VecOf(n, s), z) == WedgeSum(n, s, z)
  {
    hide Wedge, Axpy, E, Factors, Scale, Add;
    if s == [] {
      NoVecActs(NoVec(n), z);
    } else {
      WedgeAxpy(s[0].c, E(n, Index(s[0])), VecOf(n, s[1..]), z);
      WedgeVecOf(n, s[1..], z);
    }
  }

  lemma {:induction false} LeftNoVec(n: nat, z: MV)
    requires Has(n, z)
    ensures Left(NoVec(n), NoVec(n), z) == Zero(n)
  {
    NoVecActs(NoVec(n), z);
    AddZero(n, Zero(n));
  }

  /** A vector acts by its components. */
  lemma {:induction false} ActVecOf(m: Metric, s: Sum, z: MV)
    requires IsVector(s) && AllFit(m.dim, s) && Has(m.dim, z)
    ensures ActSum(m, s, z) == Left(VecOf(m.dim, s), CoOf(m, s), z)
  {
    hide Left, Axpy, E, Row, Factors, Scale, Add, Act;
    if s == [] {
      LeftNoVec(m.dim, z);
    } else {
      var i := Index(s[0]);
      ActVector(m, s[0], z);
      ActVecOf(m, s[1..], z);
      LeftAxpy(s[0].c, E(m.dim, i), VecOf(m.dim, s[1..]), Row(m, i), CoOf(m, s[1..]), z);
    }
  }

  /** v v == v·v */
  lemma {:induction false} VectorSquare(m: Metric, v: Sum)
    requires m.Valid() && IsVector(v) && AllFit(m.dim, v)
    ensures Meaning(m.dim, GP.Multiply(m, v, v)) == TermMV(m.dim, GP.Term(DotSum(m, v, v), SCALAR))
  {
    var n, one := m.dim, Scalar(m.dim, 1.0);
    MultiplyMeaning(m, v, v);
    ActSumOne(m, v);
    ActVecOf(m, v, one);
    ActVecOf(m, v, Meaning(n, v));
    LeftSquare(VecOf(n, v), CoOf(m, v), one);
    DotSumIs(m, v, v);
    ScalarTag(n, SCALAR);
  }

  /** u v + v u == 2 u·v */
  lemma {:induction false} VectorsAnticommute(m: Metric, u: Sum, v: Sum)
    requires m.Valid() && IsVector(u) && AllFit(m.dim, u) && IsVector(v) && AllFit(m.dim, v)
    ensures Meaning(m.dim, GP.Multiply(m, u, v) + GP.Multiply(m, v, u))
         == TermMV(m.dim, GP.Term(DotSum(m, u, v) + DotSum(m, u, v), SCALAR))
  {
    hide GP.Multiply, Left, VecOf, CoOf, Factors, Scale, Add, Scalar, Meaning, AllFit, DotSum, IsVector;
    var n, one := m.dim, Scalar(m.dim, 1.0);
    MeaningConcat(n, GP.Multiply(m, u, v), GP.Multiply(m, v, u));
    ProductOnOne(m, u, v);
    ProductOnOne(m, v, u);
    DotSumIs(m, u, v);
    DotSumIs(m, v, u);
    DotSumSymmetric(m, u, v);
    LeftAnticommuteDot(VecOf(n, u), CoOf(m, u), VecOf(n, v), CoOf(m, v), DotSum(m, u, v), one);
    ScalarTag(n, SCALAR);
  }

  lemma {:induction false} ProductOnOne(m: Metric, u: Sum, v: Sum)
    requires m.Valid() && IsVector(u) && AllFit(m.dim, u) && IsVector(v) && AllFit(m.dim, v)
    ensures Meaning(m.dim, GP.Multiply(m, u, v))
         == Left(VecOf(m.dim, u), CoOf(m, u), Left(VecOf(m.dim, v), CoOf(m, v), Scalar(m.dim, 1.0)))
  {
    MultiplyMeaning(m, u, v);
    ActSumOne(m, v);
    ActVecOf(m, v, Scalar(m.dim, 1.0));
    ActVecOf(m, u, Meaning(m.dim, v));
  }

  // ---------------------------------------------------------------- one vector

  /** Metric::isOrthogonal for the factors of two blades. */
  predicate IsOrthogonal(m: Metric, s: seq<nat>, t: seq<nat>) {
    forall i, j :: 0 <= i < |s| && 0 <= j < |t| ==> m.DotProduct(s[i], t[j]) == 0
  }

  /** The blade is known to be orthogonal to all the elements of the versor. */
  predicate OrthogonalToAll(m: Metric, t: BladeTag, v: Sum) {
    v == [] || (m.dim != 0 && IsOrthogonal(m, Factors(t), Factors(v[0].blade)) && OrthogonalToAll(m, t, v[1..]))
  }

  /** The outer product of two sums. */
  function OuterSums(s: Sum, t: Sum): Sum {
    if s == [] then [] else GP.OuterAll(s[0], t) + OuterSums(s[1..], t)
  }

  /** The expansion of v ⌋ x, distributed over the terms of v. */
  function ContractBy(m: Metric, v: Sum, x: Term): Sum {
    if v == [] then [] else GP.LeftContract(m, v[0], x) + ContractBy(m, v[1..], x)
  }

  lemma {:induction false} DotTermExpanded(m: Metric, x: Term, y: Term)
    requires m.Valid() && Fits(m.dim, x.blade) && Fits(m.dim, y.blade) && x.Grade() == 1 && y.Grade() == 1
    ensures Meaning(m.dim, GP.LeftContract(m, y, x)) == TermMV(m.dim, GP.Term(DotTerm(m, x, y), SCALAR))
    ensures AllFit(m.dim, GP.LeftContract(m, y, x))
  {
    hide Scale, Scalar, Factors, Meaning;
    var n, d := m.dim, m.DotProduct(Index(y), Index(x)) as real;
    assert GP.LeftContract(m, y, x) == GP.ApplyMetric(m, y, x);
    ApplyMetricMeaning(m, y, x, d);
    DotTermComm(m, x, y);
    ScalarTag(n, SCALAR);
    ScaleTwice(n, GP.Coefficient(y, x), d, DotTerm(m, y, x), Scalar(n, 1.0));
  }

  /** v ⌋ x expands to the scalar DotTermSum. */
  lemma {:induction false} DotTermSumExpanded(m: Metric, v: Sum, x: Term)
    requires m.Valid() && IsVector(v) && AllFit(m.dim, v) && Fits(m.dim, x.blade) && x.Grade() == 1
    ensures Meaning(m.dim, ContractBy(m, v, x)) == TermMV(m.dim, GP.Term(DotTermSum(m, x, v), SCALAR))
  {
    hide Scale, Scalar, Factors, GP.LeftContract, DotTerm, TagMV;
    var n := m.dim;
    if v == [] {
      ScaleSpecial(n, TagMV(n, SCALAR));
    } else {
      DotTermExpanded(m, x, v[0]);
      DotTermSumExpanded(m, v[1..], x);
      MeaningConcat(n, GP.LeftContract(m, v[0], x), ContractBy(m, v[1..], x));
      ScalePlus(n, DotTerm(m, x, v[0]), DotTermSum(m, x, v[1..]), TagMV(n, SCALAR));
    }
  }

  /** isOrthogonal factors both blades and compares the factors that are 1-blades. */
  method CheckOrthogonal(m: Metric, a: BladeTag, b: BladeTag) returns (r: bool)
    ensures r <==> m.dim != 0 && IsOrthogonal(m, Factors(a), Factors(b))
  {
    hide Factors;
    if m.dim == 0 { return false; }
    var s := Factorize(a);
    var t := Factorize(b);
    for i := 0 to |s|
      invariant forall k, j :: 0 <= k < i && 0 <= j < |t| ==> TagsOrthogonal(m, s[k], t[j])
    {
      for j := 0 to |t|
        invariant forall l :: 0 <= l < j ==> TagsOrthogonal(m, s[i], t[l])
      {
        if !TagsOrthogonal(m, s[i], t[j]) {
          FactorTags(m, a, s, b, t);
          return false;
        }
      }
    }
    FactorTags(m, a, s, b, t);
    return true;
  }

  /** Two tags of which one is no 1-blade, or 1-blades whose product is zero. */
  predicate TagsOrthogonal(m: Metric, a: BladeTag, b: BladeTag) {
    a.Grade() == 1 && b.Grade() == 1 ==> m.DotProduct(CountRZero(a.bits), CountRZero(b.bits)) == 0
  }

  /** The tags that Factorize lists. */
  predicate AreFactorTags(a: BladeTag, s: seq<BladeTag>) {
    s == if a.Grade() <= 1 then [a] else OneBlades(Factors(a))
  }

  lemma {:induction false} FactorTags(m: Metric, a: BladeTag, s: seq<BladeTag>, b: BladeTag, t: seq<BladeTag>)
    requires AreFactorTags(a, s) && AreFactorTags(b, t)
    ensures IsOrthogonal(m, Factors(a), Factors(b)) <==>
      forall i, j :: 0 <= i < |s| && 0 <= j < |t| ==> TagsOrthogonal(m, s[i], t[j])
  {
    hide Factors, CountRZero;
    FactorTag(a, s);
    FactorTag(b, t);
    if a.Grade() >= 1 && b.Grade() >= 1 {
      assert IsOrthogonal(m, Factors(a), Factors(b)) ==>
        forall i, j :: 0 <= i < |s| && 0 <= j < |t| ==> TagsOrthogonal(m, s[i], t[j]);
      if forall i, j :: 0 <= i < |s| && 0 <= j < |t| ==> TagsOrthogonal(m, s[i], t[j]) {
        forall i, j | 0 <= i < |Factors(a)| && 0 <= j < |Factors(b)|
          ensures m.DotProduct(Factors(a)[i], Factors(b)[j]) == 0
        {
          assert TagsOrthogonal(m, s[i], t[j]);
        }
      }
    }
  }

  lemma {:induction false} FactorTag(a: BladeTag, s: seq<BladeTag>)
    requires AreFactorTags(a, s)
    ensures if a.Grade() == 0 then |s| == 1 && s[0].Grade() == 0 && Factors(a) == []
            else |s| == |Factors(a)| &&
                 forall i :: 0 <= i < |s| ==> s[i].Grade() == 1 && CountRZero(s[i].bits) == Factors(a)[i]
  {
    if a.Grade() > 1 {
      forall i | 0 <= i < |s| ensures s[i].Grade() == 1 && CountRZero(s[i].bits) == Factors(a)[i] {
        LowestIs(s[i].bits, Factors(a)[i]);
      }
    }
  }

  /** InverseOp of a vector. */
  function InverseVector(m: Metric, v: Sum): Sum
    requires IsVector(v) && DotSum(m, v, v) != 0.0
  {
    GP.ScaleAll(1.0 / DotSum(m, v, v), v)
  }

  /** v[a] = a - 2 (v ⌋ a) v⁻¹ */
  function ReflectTerm(m: Metric, v: Sum, x: Term): Sum
    requires IsVector(v) && DotSum(m, v, v) != 0.0 && x.Grade() == 1
  {
    [x] + GP.NegateAll(GP.ScaleAll(2.0 * DotTermSum(m, x, v), InverseVector(m, v)))
  }

  /** ExpandVP for a vector: v[A], using v[a ∧ B] = v[a] ∧ v[B]. */
  function ApplyVector(m: Metric, v: Sum, x: Term): Sum
    requires IsVector(v) && DotSum(m, v, v) != 0.0
    decreases x.Grade()
  {
    if x.Grade() == 0 || OrthogonalToAll(m, x.blade, v) then [x]
    else if x.Grade() == 1 then ReflectTerm(m, v, x)
    else
      var (a, B) := GP.FactorBlade(x);
      OuterSums(ApplyVector(m, v, a), ApplyVector(m, v, B))
  }

  lemma {:induction false} IsVectorMaps(c: real, s: Sum)
    requires IsVector(s)
    ensures IsVector(GP.ScaleAll(c, s)) && IsVector(GP.NegateAll(s)) && GP.ReverseAll(s) == s
  {
    if s != [] {
      IsVectorMaps(c, s[1..]);
    }
  }

  lemma {:induction false} WedgeSumScaled(n: nat, c: real, s: Sum, z: MV)
    requires IsVector(s) && IsVector(GP.ScaleAll(c, s)) && Has(n, z)
    ensures WedgeSum(n, GP.ScaleAll(c, s), z) == Scale(n, c, WedgeSum(n, s, z))
  {
    hide Wedge, Scale, Add, E, Factors;
    if s == [] {
      ScaleOfZero(n, c);
    } else {
      var y := Wedge(E(n, Index(s[0])), z);
      var t := GP.ScaleAll(c, s);
      assert t[1..] == GP.ScaleAll(c, s[1..]);
      WedgeSumScaled(n, c, s[1..], z);
      ScaleTwice(n, c, s[0].c, t[0].c, y);
      ScaleAdd(n, c, Scale(n, s[0].c, y), WedgeSum(n, s[1..], z));
    }
  }

  lemma {:induction false} WedgeSumNegated(n: nat, s: Sum, z: MV)
    requires IsVector(s) && IsVector(GP.NegateAll(s)) && Has(n, z)
    ensures WedgeSum(n, GP.NegateAll(s), z) == Neg(n, WedgeSum(n, s, z))
  {
    hide Wedge, Scale, Add, E, Factors, Neg;
    if s == [] {
      ZeroFixed(n);
    } else {
      var y := Wedge(E(n, Index(s[0])), z);
      var t := GP.NegateAll(s);
      assert t[1..] == GP.NegateAll(s[1..]);
      WedgeSumNegated(n, s[1..], z);
      ScaleNeg(n, s[0].c, y);
      NegAdd(n, Scale(n, s[0].c, y), WedgeSum(n, s[1..], z));
    }
  }

  lemma {:induction false} WedgeSumScale(n: nat, s: Sum, c: real, z: MV)
    requires IsVector(s) && Has(n, z)
    ensures WedgeSum(n, s, Scale(n, c, z)) == Scale(n, c, WedgeSum(n, s, z))
  {
    WedgeVecOf(n, s, z);
    WedgeVecOf(n, s, Scale(n, c, z));
    WedgeScale(VecOf(n, s), c, z);
  }

  lemma {:induction false} VectorMeaning(n: nat, s: Sum)
    requires IsVector(s) && AllFit(n, s)
    ensures Meaning(n, s) == WedgeSum(n, s, Scalar(n, 1.0))
  {
    if s != [] {
      VectorTag(n, s[0]);
      VectorMeaning(n, s[1..]);
    }
  }

  lemma {:induction false} OuterSumsMeaning(n: nat, s: Sum, t: Sum)
    requires IsVector(s) && AllFit(n, s) && AllFit(n, t)
    ensures Meaning(n, OuterSums(s, t)) == WedgeSum(n, s, Meaning(n, t))
    ensures AllFit(n, OuterSums(s, t))
  {
    if s != [] {
      var p, q := GP.OuterAll(s[0], t), OuterSums(s[1..], t);
      OuterAllMeaning(n, s[0], t);
      OuterSumsMeaning(n, s[1..], t);
      MeaningConcat(n, p, q);
      AllFitConcat(n, p, q);
    }
  }

  // ---------------------------------------------------------------- reflection of terms

  lemma {:induction false} DotRow(m: Metric, v: Sum, i: nat)
    requires IsVector(v) && AllFit(m.dim, v) && i < m.dim
    ensures Dot(VecOf(m.dim, v), Row(m, i)) == Dot(CoOf(m, v), E(m.dim, i))
  {
    hide Dot, Axpy, E, Row, Factors;
    if v == [] {
      DotNoVec(Row(m, i), VecOf(m.dim, v));
      DotNoVec(E(m.dim, i), CoOf(m, v));
    } else {
      var j := Index(v[0]);
      VectorTag(m.dim, v[0]);
      DotRow(m, v[1..], i);
      DotAxpy(v[0].c, E(m.dim, j), VecOf(m.dim, v[1..]), Row(m, i));
      DotAxpy(v[0].c, Row(m, j), CoOf(m, v[1..]), E(m.dim, i));
      DotBasis(m, i, j);
      DotComm(Row(m, j), E(m.dim, i));
    }
  }

  /** v (e_i ∧ z)^ v == (e_i + k v) ∧ (v z^ v) */
  lemma {:induction false} SandwichBasis(m: Metric, v: Sum, i: nat, k: real, d: real, z: MV)
    requires IsVector(v) && AllFit(m.dim, v) && i < m.dim && Has(m.dim, z)
    requires d == Dot(CoOf(m, v), E(m.dim, i)) && k * DotSum(m, v, v) == -(d + d)
    ensures var r := Sandwich(VecOf(m.dim, v), CoOf(m, v), z);
      Sandwich(VecOf(m.dim, v), CoOf(m, v), Wedge(E(m.dim, i), z))
      == Add(m.dim, Scale(m.dim, k, WedgeSum(m.dim, v, r)), Wedge(E(m.dim, i), r))
  {
    hide Dot, Axpy, E, Row, Factors, Sandwich, Wedge, Scale, Add, VecOf, CoOf, WedgeSum;
    var n, V, G, a, h := m.dim, VecOf(m.dim, v), CoOf(m, v), E(m.dim, i), Row(m, i);
    var r := Sandwich(V, G, z);
    DotRow(m, v, i);
    DotComm(a, G);
    DotSumIs(m, v, v);
    SandwichWedge(a, h, V, G, k, Axpy(k, V, a), Axpy(k, G, h), z);
    WedgeAxpy(k, V, a, r);
    WedgeVecOf(n, v, r);
  }

  lemma {:induction false} ReflectCoefficient(c: real, d: real, t: real, q: real, k: real)
    requires q != 0.0 && t == c * d && k == -(d + d) / q
    ensures k * q == -(d + d) && -((2.0 * t) * (1.0 / q)) == c * k
  {
    assert k * q == -(d + d);
    assert (c * k) * q == c * (k * q) == -(2.0 * t);
    assert ((2.0 * t) * (1.0 / q)) * q == 2.0 * t;
    Cancel(c * k, -((2.0 * t) * (1.0 / q)), q);
  }

  lemma {:induction false} Cancel(a: real, b: real, q: real)
    requires q != 0.0 && a * q == b * q
    ensures a == b
  {
    assert (a - b) * q == 0.0;
  }

  lemma {:induction false} ReflectParts(n: nat, v: Sum, x: Term, c: real, d: real, w: Sum, z: MV)
    requires IsVector(v) && x.Grade() == 1 && Has(n, z)
    requires w == [x] + GP.NegateAll(GP.ScaleAll(c, GP.ScaleAll(d, v)))
    ensures IsVector(w)
    ensures WedgeSum(n, w, z) == Add(n, Scale(n, x.c, Wedge(E(n, Index(x)), z)),
                                        Neg(n, Scale(n, c, Scale(n, d, WedgeSum(n, v, z)))))
  {
    hide Wedge, Scale, Add, E, Factors, Neg, GP.ScaleAll, GP.NegateAll;
    var p := GP.ScaleAll(d, v);
    var q := GP.ScaleAll(c, p);
    IsVectorMaps(d, v);
    IsVectorMaps(c, p);
    IsVectorMaps(c, q);
    assert w[1..] == GP.NegateAll(q) && w[0] == x;
    WedgeSumScaled(n, d, v, z);
    WedgeSumScaled(n, c, p, z);
    WedgeSumNegated(n, q, z);
  }

  lemma {:induction false} ReflectSum(n: nat, c: real, t: real, r: real, k: real, a: MV, b: MV)
    requires Has(n, a) && Has(n, b) && -(t * r) == c * k
    ensures Add(n, Scale(n, c, a), Neg(n, Scale(n, t, Scale(n, r, b)))) == Scale(n, c, Add(n, Scale(n, k, b), a))
  {
    ScaleScale(n, t, r, b);
    ScaleNegated(n, c * k, t * r, b);
    ScaleScale(n, c, k, b);
    ScaleAdd(n, c, Scale(n, k, b), a);
    AddComm(n, Scale(n, c, a), Scale(n, c * k, b));
  }

  /** v z^ v for a vector given as a sum. */
  function SandwichBy(m: Metric, v: Sum, z: MV): (r: MV)
    requires IsVector(v) && Has(m.dim, z)
    ensures Has(m.dim, r)
  {
    Sandwich(VecOf(m.dim, v), CoOf(m, v), z)
  }

  /** `r` is the reflection of the 1-blade x in v: r ∧ (v z^ v) == v (x ∧ z)^ v. */
  ghost predicate Reflects(m: Metric, v: Sum, x: Term, r: Sum, z: MV)
    requires IsVector(v) && x.Grade() == 1 && Has(m.dim, z)
  {
    && IsVector(r) && AllFit(m.dim, r)
    && WedgeSum(m.dim, r, SandwichBy(m, v, z)) == SandwichBy(m, v, Scale(m.dim, x.c, Wedge(E(m.dim, Index(x)), z)))
  }

  lemma {:induction false} ReflectTermMeaning(m: Metric, v: Sum, x: Term, z: MV)
    requires IsVector(v) && AllFit(m.dim, v) && DotSum(m, v, v) != 0.0
    requires x.Grade() == 1 && Fits(m.dim, x.blade) && Has(m.dim, z)
    ensures Reflects(m, v, x, ReflectTerm(m, v, x), z)
  {
    hide DotSum, DotTermSum, VecOf, CoOf, WedgeSum, Sandwich, Wedge, Scale, Add, E, Dot, Factors, AllFit;
    var n, i := m.dim, Index(x);
    VectorTag(n, x);
    AllFitOne(n, x);
    DotTermSumIs(m, x, v);
    var d, q, t := Dot(CoOf(m, v), E(n, i)), DotSum(m, v, v), DotTermSum(m, x, v);
    var k := -(d + d) / q;
    ReflectCoefficient(x.c, d, t, q, k);
    SandwichBasis(m, v, i, k, d, z);
    SandwichScale(VecOf(n, v), CoOf(m, v), x.c, Wedge(E(n, i), z));
    ReflectTermParts(m, v, x, 2.0 * t, 1.0 / q, SandwichBy(m, v, z));
    ReflectSum(n, x.c, 2.0 * t, 1.0 / q, k, Wedge(E(n, i), SandwichBy(m, v, z)), WedgeSum(n, v, SandwichBy(m, v, z)));
  }

  lemma {:induction false} ReflectTermParts(m: Metric, v: Sum, x: Term, c: real, d: real, z: MV)
    requires IsVector(v) && AllFit(m.dim, v) && DotSum(m, v, v) != 0.0
    requires x.Grade() == 1 && Fits(m.dim, x.blade) && Has(m.dim, z)
    requires c == 2.0 * DotTermSum(m, x, v) && d == 1.0 / DotSum(m, v, v)
    ensures IsVector(ReflectTerm(m, v, x)) && AllFit(m.dim, ReflectTerm(m, v, x))
    ensures WedgeSum(m.dim, ReflectTerm(m, v, x), z)
         == Add(m.dim, Scale(m.dim, x.c, Wedge(E(m.dim, Index(x)), z)),
                       Neg(m.dim, Scale(m.dim, c, Scale(m.dim, d, WedgeSum(m.dim, v, z)))))
  {
    var p := GP.ScaleAll(d, v);
    var q := GP.ScaleAll(c, p);
    ReflectParts(m.dim, v, x, c, d, ReflectTerm(m, v, x), z);
    AllFitMaps(m.dim, d, v);
    AllFitMaps(m.dim, c, p);
    AllFitMaps(m.dim, c, q);
    AllFitOne(m.dim, x);
    AllFitConcat(m.dim, [x], GP.NegateAll(q));
  }

  // ---------------------------------------------------------------- orthogonality

  lemma {:induction false} OrthogonalDot(m: Metric, t: BladeTag, v: Sum, i: nat)
    requires OrthogonalToAll(m, t, v) && IsVector(v) && AllFit(m.dim, v) && i in Factors(t) && i < m.dim
    ensures Dot(CoOf(m, v), E(m.dim, i)) == 0.0
  {
    var e := E(m.dim, i);
    if v == [] {
      DotNoVec(e, CoOf(m, v));
    } else {
      OrthogonalDot(m, t, v[1..], i);
      OrthogonalHead(m, t, v[0], i);
      var j := Index(v[0]);
      DotAxpy(v[0].c, Row(m, j), CoOf(m, v[1..]), e);
      DotBasis(m, i, j);
      DotComm(Row(m, j), e);
    }
  }

  lemma {:induction false} OrthogonalHead(m: Metric, t: BladeTag, x: Term, i: nat)
    requires IsOrthogonal(m, Factors(t), Factors(x.blade)) && x.Grade() == 1 && Fits(m.dim, x.blade)
    requires i in Factors(t)
    ensures m.DotProduct(i, Index(x)) == 0 && Index(x) < m.dim
  {
    VectorTag(m.dim, x);
    var k :| 0 <= k < |Factors(t)| && Factors(t)[k] == i;
    assert m.DotProduct(Factors(t)[k], Factors(x.blade)[0]) == 0;
  }

  /** A covector that is zero on each factor contracts the blade to zero. */
  lemma {:induction false} ContractNothing(n: nat, g: Vec, w: Word)
    requires |g| == n && forall i :: 0 <= i < |w| ==> Dot(g, E(n, w[i])) == 0.0
    ensures Contract(g, BladeMV(n, w)) == Zero(n)
  {
    if w == [] {
      ContractOfScalar(g, 1.0);
    } else {
      var v, y := E(n, w[0]), BladeMV(n, w[1..]);
      forall i | 0 <= i < |w[1..]| ensures Dot(g, E(n, w[1..][i])) == 0.0 {
        assert w[1..][i] == w[i + 1];
      }
      ContractNothing(n, g, w[1..]);
      ContractFirst(v, g, y);
    }
  }

  lemma {:induction false} ContractFirst(v: Vec, g: Vec, y: MV)
    requires |v| == |g| && Has(|v|, y) && Dot(g, v) == 0.0 && Contract(g, y) == Zero(|v|)
    ensures Contract(g, Wedge(v, y)) == Zero(|v|)
  {
    DotComm(g, v);
    WedgeContract(v, g, y);
    ScaleSpecial(|v|, y);
    WedgeZero(v);
    AddZero(|v|, Contract(g, Wedge(v, y)));
  }

  /** A blade orthogonal to v is fixed: v A^ v == (v·v) A. */
  lemma {:induction false} OrthogonalFixed(m: Metric, v: Sum, x: Term)
    requires IsVector(v) && AllFit(m.dim, v) && Fits(m.dim, x.blade) && OrthogonalToAll(m, x.blade, v)
    ensures SandwichBy(m, v, TermMV(m.dim, x)) == Scale(m.dim, DotSum(m, v, v), TermMV(m.dim, x))
  {
    var n, V, G, w := m.dim, VecOf(m.dim, v), CoOf(m, v), Factors(x.blade);
    FactorsUnder(n, x.blade);
    forall i | 0 <= i < |w| ensures Dot(G, E(n, w[i])) == 0.0 {
      OrthogonalDot(m, x.blade, v, w[i]);
    }
    ContractNothing(n, G, w);
    SandwichOrthogonal(V, G, BladeMV(n, w));
    SandwichScale(V, G, x.c, BladeMV(n, w));
    ScaleComm(n, x.c, DotSum(m, v, v), BladeMV(n, w));
    DotSumIs(m, v, v);
  }

  // ---------------------------------------------------------------- v[A]

  lemma {:induction false} OrthogonalReflects(m: Metric, v: Sum, x: Term, z: MV)
    requires IsVector(v) && AllFit(m.dim, v) && DotSum(m, v, v) != 0.0
    requires x.Grade() == 1 && Fits(m.dim, x.blade) && Has(m.dim, z) && OrthogonalToAll(m, x.blade, v)
    ensures Reflects(m, v, x, [x], z)
  {
    hide DotSum, VecOf, CoOf, Sandwich, Wedge, Scale, Add, E, Dot;
    var n, i := m.dim, Index(x);
    var y := SandwichBy(m, v, z);
    VectorTag(n, x);
    AllFitOne(n, x);
    assert i in Factors(x.blade);
    OrthogonalDot(m, x.blade, v, i);
    var d, k := 0.0, 0.0;
    SandwichBasis(m, v, i, k, d, z);
    SandwichScale(VecOf(n, v), CoOf(m, v), x.c, Wedge(E(n, i), z));
    ScaleSpecial(n, WedgeSum(n, v, y));
    AddZero(n, Wedge(E(n, i), y));
    WedgeSumOne(n, x, y);
  }

  lemma {:induction false} WedgeSumOne(n: nat, x: Term, z: MV)
    requires x.Grade() == 1 && Has(n, z)
    ensures IsVector([x]) && WedgeSum(n, [x], z) == Scale(n, x.c, Wedge(E(n, Index(x)), z))
  {
    hide Wedge, Scale, Add, E, Factors;
    assert [x][1..] == [];
    AddZero(n, Scale(n, x.c, Wedge(E(n, Index(x)), z)));
  }

  lemma {:induction false} VectorReflects(m: Metric, v: Sum, x: Term, z: MV)
    requires IsVector(v) && AllFit(m.dim, v) && DotSum(m, v, v) != 0.0
    requires x.Grade() == 1 && Fits(m.dim, x.blade) && Has(m.dim, z)
    ensures Reflects(m, v, x, ApplyVector(m, v, x), z)
  {
    if OrthogonalToAll(m, x.blade, v) {
      OrthogonalReflects(m, v, x, z);
    } else {
      ReflectTermMeaning(m, v, x, z);
    }
  }

  lemma {:induction false} Divided(n: nat, q: real, x: MV, y: MV)
    requires Has(n, x) && q != 0.0 && y == Scale(n, q, x)
    ensures Scale(n, 1.0 / q, y) == x
  {
    var r := 1.0 / q;
    assert r * q == 1.0;
    ScaleScale(n, r, q, x);
    ScaleSpecial(n, x);
  }

  lemma {:induction false} ScalarFixed(m: Metric, v: Sum, x: Term)
    requires IsVector(v) && AllFit(m.dim, v) && Fits(m.dim, x.blade) && x.Grade() == 0
    ensures SandwichBy(m, v, TermMV(m.dim, x)) == Scale(m.dim, DotSum(m, v, v), TermMV(m.dim, x))
  {
    var n, V, G, one := m.dim, VecOf(m.dim, v), CoOf(m, v), Scalar(m.dim, 1.0);
    ScalarTag(n, x.blade);
    SandwichOne(V, G);
    SandwichScale(V, G, x.c, one);
    ScaleComm(n, x.c, DotSum(m, v, v), one);
    DotSumIs(m, v, v);
  }

  /** The recursive expansion computes v A^ v / (v·v). */
  lemma {:induction false} ApplyVectorMeaning(m: Metric, v: Sum, x: Term)
    requires IsVector(v) && AllFit(m.dim, v) && DotSum(m, v, v) != 0.0 && Fits(m.dim, x.blade)
    ensures Meaning(m.dim, ApplyVector(m, v, x))
         == Scale(m.dim, 1.0 / DotSum(m, v, v), SandwichBy(m, v, TermMV(m.dim, x)))
    ensures AllFit(m.dim, ApplyVector(m, v, x))
    decreases x.Grade()
  {
    var n, q := m.dim, DotSum(m, v, v);
    if x.Grade() == 0 || OrthogonalToAll(m, x.blade, v) {
      if x.Grade() == 0 {
        ScalarFixed(m, v, x);
      } else {
        OrthogonalFixed(m, v, x);
      }
      Divided(n, q, TermMV(n, x), SandwichBy(m, v, TermMV(n, x)));
      MeaningOne(n, x);
      AllFitOne(n, x);
    } else if x.Grade() == 1 {
      var one := Scalar(n, 1.0);
      var r := ApplyVector(m, v, x);
      VectorReflects(m, v, x, one);
      VectorTag(n, x);
      VectorMeaning(n, r);
      SandwichOne(VecOf(n, v), CoOf(m, v));
      DotSumIs(m, v, v);
      WedgeSumScale(n, r, q, one);
      Divided(n, q, Meaning(n, r), SandwichBy(m, v, TermMV(n, x)));
    } else {
      FactorBladeMeaning(n, x);
      var (a, B) := GP.FactorBlade(x);
      ApplyVectorMeaning(m, v, B);
      VectorReflects(m, v, a, TermMV(n, B));
      ScaleSpecial(n, Wedge(E(n, Index(a)), TermMV(n, B)));
      var r := ApplyVector(m, v, a);
      OuterSumsMeaning(n, r, ApplyVector(m, v, B));
      WedgeSumScale(n, r, 1.0 / q, SandwichBy(m, v, TermMV(n, B)));
    }
  }
}
