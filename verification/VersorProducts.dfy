/** Versors as products of invertible vectors, applied to multivectors one factor at a time. */
module VersorProducts {
  import opened BladeTags
  import opened Metrics
  import opened Multivectors
  import opened Clifford
  import opened ProductMeaning
  import opened CliffordProduct
  import opened Reflections
  import opened Versors
  import GP = GeometricProduct

  predicate IsFactor(m: Metric, v: Sum) {
    IsVector(v) && AllFit(m.dim, v) && DotSum(m, v, v) != 0.0
  }

  predicate AreFactors(m: Metric, vs: seq<Sum>) {
    vs == [] || (IsFactor(m, vs[0]) && AreFactors(m, vs[1..]))
  }

  /** The versor product of each term of a sum. */
  function ApplyEach(m: Metric, v: Sum, s: Sum): Sum
    requires IsFactor(m, v)
  {
    if s == [] then [] else ApplyVector(m, v, s[0]) + ApplyEach(m, v, s[1..])
  }

  /** ExpandVP and DistributeVP apply one versor at a time, the first one first. */
  function ApplyAll(m: Metric, vs: seq<Sum>, s: Sum): Sum
    requires AreFactors(m, vs)
    decreases vs
  {
    if vs == [] then s else ApplyAll(m, vs[1..], ApplyEach(m, vs[0], s))
  }

  function ReverseList(vs: seq<Sum>): seq<Sum> {
    if vs == [] then [] else ReverseList(vs[1..]) + [vs[0]]
  }

  const UNIT: Sum := [GP.Term(1.0, SCALAR)]

  /** The geometric product of a list of factors. */
  function ProductOf(m: Metric, vs: seq<Sum>): Sum {
    if vs == [] then UNIT else GP.Multiply(m, vs[0], ProductOf(m, vs[1..]))
  }

  /** ExpandVersorUnary: (f₁ ⋯ fₖ)⁻¹ = fₖ⁻¹ ⋯ f₁⁻¹ */
  function InverseList(m: Metric, vs: seq<Sum>): seq<Sum>
    requires AreFactors(m, vs)
  {
    if vs == [] then [] else InverseList(m, vs[1..]) + [InverseVector(m, vs[0])]
  }

  /** (f₁ ⋯ fₖ)^ = f₁^ ⋯ fₖ^ */
  function InvoList(vs: seq<Sum>): seq<Sum> {
    if vs == [] then [] else [GP.InvoAll(vs[0])] + InvoList(vs[1..])
  }

  /** -(f₁ ⋯ fₖ) = (-f₁) ⋯ fₖ */
  function NegateList(vs: seq<Sum>): seq<Sum>
    requires vs != []
  {
    [GP.NegateAll(vs[0])] + vs[1..]
  }

  // ---------------------------------------------------------------- one factor

  /** v⁻¹ as a factor 1/(v·v) for the right of a product. */
  function RightInverse(m: Metric, v: Sum, z: MV): (r: MV)
    requires IsFactor(m, v) && Has(m.dim, z)
    ensures Has(m.dim, r)
  {
    Scale(m.dim, 1.0 / DotSum(m, v, v), Right(VecOf(m.dim, v), CoOf(m, v), z))
  }

  function LeftVector(m: Metric, v: Sum, z: MV): (r: MV)
    requires IsFactor(m, v) && Has(m.dim, z)
    ensures Has(m.dim, r)
  {
    Left(VecOf(m.dim, v), CoOf(m, v), z)
  }

  lemma {:induction false} InverseFits(m: Metric, v: Sum)
    requires IsFactor(m, v)
    ensures IsVector(InverseVector(m, v)) && AllFit(m.dim, InverseVector(m, v))
    ensures GP.ReverseAll(v) == v
  {
    var c := 1.0 / DotSum(m, v, v);
    IsVectorMaps(c, v);
    AllFitMaps(m.dim, c, v);
  }

  /** Multiplying by v on the right. */
  lemma {:induction false} ProductVectorRight(m: Metric, s: Sum, v: Sum)
    requires m.Valid() && AllFit(m.dim, s) && IsFactor(m, v)
    ensures Meaning(m.dim, GP.Multiply(m, s, v)) == Right(VecOf(m.dim, v), CoOf(m, v), Meaning(m.dim, s))
  {
    var n, V, G, z := m.dim, VecOf(m.dim, v), CoOf(m, v), Meaning(m.dim, s);
    IsVectorMaps(1.0, v);
    ProductFromRight(m, s, v);
    ActVecOf(m, v, Reverse(n, z));
    ReverseLeft(V, G, Reverse(n, z));
    ReverseReverse(n, z);
  }

  /** Multiplying by v⁻¹ on the right. */
  lemma {:induction false} ProductInverseRight(m: Metric, s: Sum, v: Sum)
    requires m.Valid() && AllFit(m.dim, s) && IsFactor(m, v)
    ensures Meaning(m.dim, GP.Multiply(m, s, InverseVector(m, v))) == RightInverse(m, v, Meaning(m.dim, s))
  {
    ProductVectorRight(m, s, v);
    MultiplyBilinear(m, s, s, v, v, 1.0 / DotSum(m, v, v));
  }

  lemma {:induction false} ProductVectorLeft(m: Metric, v: Sum, s: Sum)
    requires m.Valid() && AllFit(m.dim, s) && IsFactor(m, v)
    ensures Meaning(m.dim, GP.Multiply(m, v, s)) == LeftVector(m, v, Meaning(m.dim, s))
  {
    MultiplyMeaning(m, v, s);
    ActVecOf(m, v, Meaning(m.dim, s));
  }

  lemma {:induction false} SandwichParts(m: Metric, v: Sum, z: MV)
    requires IsFactor(m, v) && Has(m.dim, z)
    ensures Scale(m.dim, 1.0 / DotSum(m, v, v), SandwichBy(m, v, z))
         == LeftVector(m, v, RightInverse(m, v, Invo(m.dim, z)))
  {
    LeftScale(VecOf(m.dim, v), CoOf(m, v), 1.0 / DotSum(m, v, v),
              Right(VecOf(m.dim, v), CoOf(m, v), Invo(m.dim, z)));
  }

  lemma {:induction false} ApplyEachMeaning(m: Metric, v: Sum, s: Sum)
    requires IsFactor(m, v) && AllFit(m.dim, s)
    ensures Meaning(m.dim, ApplyEach(m, v, s)) == LeftVector(m, v, RightInverse(m, v, Invo(m.dim, Meaning(m.dim, s))))
    ensures AllFit(m.dim, ApplyEach(m, v, s))
  {
    var n, V, G, r := m.dim, VecOf(m.dim, v), CoOf(m, v), 1.0 / DotSum(m, v, v);
    SandwichParts(m, v, Meaning(n, s));
    if s == [] {
      var z := Zero(n);
      ScaleOfZero(n, 0.0);
      SandwichScale(V, G, 0.0, z);
      ScaleSpecial(n, SandwichBy(m, v, z));
      ScaleOfZero(n, r);
    } else {
      var p, q := ApplyVector(m, v, s[0]), ApplyEach(m, v, s[1..]);
      ApplyVectorMeaning(m, v, s[0]);
      ApplyEachMeaning(m, v, s[1..]);
      SandwichParts(m, v, Meaning(n, s[1..]));
      SandwichAdd(V, G, TermMV(n, s[0]), Meaning(n, s[1..]));
      ScaleAdd(n, r, SandwichBy(m, v, TermMV(n, s[0])), SandwichBy(m, v, Meaning(n, s[1..])));
      MeaningConcat(n, p, q);
      AllFitConcat(n, p, q);
    }
  }

  /** v[A] == (-1)ᵏ v A v⁻¹ for a blade A of grade k. */
  lemma {:induction false} ApplyVectorIsProduct(m: Metric, v: Sum, x: Term)
    requires m.Valid() && IsFactor(m, v) && Fits(m.dim, x.blade)
    ensures var y := if x.blade.ShouldInvoNegate() then GP.Negate(x) else x;
      Meaning(m.dim, ApplyVector(m, v, x))
      == Meaning(m.dim, GP.Multiply(m, v, GP.Multiply(m, [y], InverseVector(m, v))))
  {
    var n := m.dim;
    var y := if x.blade.ShouldInvoNegate() then GP.Negate(x) else x;
    ApplyVectorMeaning(m, v, x);
    SandwichParts(m, v, TermMV(n, x));
    InvoTerm(n, x);
    MeaningOne(n, y);
    AllFitOne(n, y);
    ProductInverseRight(m, [y], v);
    InverseFits(m, v);
    MultiplyMeaning(m, [y], InverseVector(m, v));
    ProductVectorLeft(m, v, GP.Multiply(m, [y], InverseVector(m, v)));
  }

  // ---------------------------------------------------------------- lists of factors

  /** f₁ (⋯ (fₖ z)) */
  function LeftAll(m: Metric, vs: seq<Sum>, z: MV): (r: MV)
    requires AreFactors(m, vs) && Has(m.dim, z)
    ensures Has(m.dim, r)
  {
    if vs == [] then z else LeftVector(m, vs[0], LeftAll(m, vs[1..], z))
  }

  /** ((z fₖ⁻¹) ⋯) f₁⁻¹ */
  function RightAll(m: Metric, vs: seq<Sum>, z: MV): (r: MV)
    requires AreFactors(m, vs) && Has(m.dim, z)
    ensures Has(m.dim, r)
  {
    if vs == [] then z else RightInverse(m, vs[0], RightAll(m, vs[1..], z))
  }

  function InvoTimes(n: nat, k: nat, z: MV): (r: MV)
    requires Has(n, z)
    ensures Has(n, r)
  {
    if k % 2 == 0 then z else Invo(n, z)
  }

  lemma {:induction false} LeftVectorSigned(m: Metric, v: Sum, k: nat, z: MV)
    requires IsFactor(m, v) && Has(m.dim, z)
    ensures LeftVector(m, v, Signed(m.dim, k, z)) == Signed(m.dim, k, LeftVector(m, v, z))
  {
    LeftNeg(VecOf(m.dim, v), CoOf(m, v), z);
  }

  lemma {:induction false} RightInverseSigned(m: Metric, v: Sum, k: nat, z: MV)
    requires IsFactor(m, v) && Has(m.dim, z)
    ensures RightInverse(m, v, Signed(m.dim, k, z)) == Signed(m.dim, k, RightInverse(m, v, z))
  {
    var V, G := VecOf(m.dim, v), CoOf(m, v);
    RightNeg(V, G, z);
    ScaleNeg(m.dim, 1.0 / DotSum(m, v, v), Right(V, G, z));
  }

  lemma {:induction false} InvoLeftVector(m: Metric, v: Sum, z: MV)
    requires IsFactor(m, v) && Has(m.dim, z)
    ensures Invo(m.dim, LeftVector(m, v, z)) == Signed(m.dim, 1, LeftVector(m, v, Invo(m.dim, z)))
    ensures Invo(m.dim, RightInverse(m, v, z)) == Signed(m.dim, 1, RightInverse(m, v, Invo(m.dim, z)))
  {
    var n, V, G, c := m.dim, VecOf(m.dim, v), CoOf(m, v), 1.0 / DotSum(m, v, v);
    InvoLeftRight(V, G, z);
    InvoScale(n, c, Right(V, G, z));
    ScaleNeg(n, c, Right(V, G, Invo(n, z)));
  }

  lemma {:induction false} InvoLeftAll(m: Metric, vs: seq<Sum>, z: MV)
    requires AreFactors(m, vs) && Has(m.dim, z)
    ensures Invo(m.dim, LeftAll(m, vs, z)) == Signed(m.dim, |vs|, LeftAll(m, vs, Invo(m.dim, z)))
  {
    if vs != [] {
      var r := vs[1..];
      InvoLeftAll(m, r, z);
      InvoLeftVector(m, vs[0], LeftAll(m, r, z));
      LeftVectorSigned(m, vs[0], |r|, LeftAll(m, r, Invo(m.dim, z)));
      SignedSigned(m.dim, 1, |r|, LeftAll(m, vs, Invo(m.dim, z)));
    }
  }

  lemma {:induction false} InvoRightAll(m: Metric, vs: seq<Sum>, z: MV)
    requires AreFactors(m, vs) && Has(m.dim, z)
    ensures Invo(m.dim, RightAll(m, vs, z)) == Signed(m.dim, |vs|, RightAll(m, vs, Invo(m.dim, z)))
  {
    if vs != [] {
      var r := vs[1..];
      InvoRightAll(m, r, z);
      InvoLeftVector(m, vs[0], RightAll(m, r, z));
      RightInverseSigned(m, vs[0], |r|, RightAll(m, r, Invo(m.dim, z)));
      SignedSigned(m.dim, 1, |r|, RightAll(m, vs, Invo(m.dim, z)));
    }
  }

  lemma {:induction false} LeftAllSigned(m: Metric, vs: seq<Sum>, k: nat, z: MV)
    requires AreFactors(m, vs) && Has(m.dim, z)
    ensures LeftAll(m, vs, Signed(m.dim, k, z)) == Signed(m.dim, k, LeftAll(m, vs, z))
  {
    if vs != [] {
      LeftAllSigned(m, vs[1..], k, z);
      LeftVectorSigned(m, vs[0], k, LeftAll(m, vs[1..], z));
    }
  }

  /** The signs of the two sides cancel. */
  lemma {:induction false} InvoBothSides(m: Metric, vs: seq<Sum>, z: MV)
    requires AreFactors(m, vs) && Has(m.dim, z)
    ensures Invo(m.dim, LeftAll(m, vs, RightAll(m, vs, z))) == LeftAll(m, vs, RightAll(m, vs, Invo(m.dim, z)))
  {
    var n, k, y := m.dim, |vs|, RightAll(m, vs, Invo(m.dim, z));
    InvoLeftAll(m, vs, RightAll(m, vs, z));
    InvoRightAll(m, vs, z);
    LeftAllSigned(m, vs, k, y);
    SignedSigned(n, k, k, LeftAll(m, vs, y));
  }

  lemma {:induction false} RightInverseLeft(m: Metric, v: Sum, u: Sum, z: MV)
    requires IsFactor(m, v) && IsFactor(m, u) && Has(m.dim, z)
    ensures RightInverse(m, v, LeftVector(m, u, z)) == LeftVector(m, u, RightInverse(m, v, z))
  {
    var n, V, G, U, H := m.dim, VecOf(m.dim, v), CoOf(m, v), VecOf(m.dim, u), CoOf(m, u);
    DotSumIs(m, v, u);
    DotSumIs(m, u, v);
    DotSumSymmetric(m, u, v);
    LeftRight(U, H, V, G, z);
    LeftScale(U, H, 1.0 / DotSum(m, v, v), Right(V, G, z));
  }

  lemma {:induction false} RightInverseLeftAll(m: Metric, v: Sum, vs: seq<Sum>, z: MV)
    requires IsFactor(m, v) && AreFactors(m, vs) && Has(m.dim, z)
    ensures RightInverse(m, v, LeftAll(m, vs, z)) == LeftAll(m, vs, RightInverse(m, v, z))
  {
    if vs != [] {
      RightInverseLeftAll(m, v, vs[1..], z);
      RightInverseLeft(m, v, vs[0], LeftAll(m, vs[1..], z));
    }
  }

  lemma {:induction false} AreFactorsConcat(m: Metric, s: seq<Sum>, t: seq<Sum>)
    requires AreFactors(m, s) && AreFactors(m, t)
    ensures AreFactors(m, s + t)
  {
    if s == [] {
      assert s + t == t;
    } else {
      assert (s + t)[1..] == s[1..] + t;
      AreFactorsConcat(m, s[1..], t);
    }
  }

  lemma {:induction false} ReverseListFactors(m: Metric, vs: seq<Sum>)
    requires AreFactors(m, vs)
    ensures AreFactors(m, ReverseList(vs))
  {
    if vs != [] {
      ReverseListFactors(m, vs[1..]);
      assert [vs[0]][1..] == [];
      AreFactorsConcat(m, ReverseList(vs[1..]), [vs[0]]);
    }
  }

  lemma {:induction false} ApplyAllConcat(m: Metric, us: seq<Sum>, vs: seq<Sum>, s: Sum)
    requires AreFactors(m, us) && AreFactors(m, vs) && AreFactors(m, us + vs)
    ensures ApplyAll(m, us + vs, s) == ApplyAll(m, vs, ApplyAll(m, us, s))
    decreases us
  {
    if us == [] {
      assert us + vs == vs;
    } else {
      assert (us + vs)[1..] == us[1..] + vs;
      ApplyAllConcat(m, us[1..], vs, ApplyEach(m, us[0], s));
    }
  }

  /** Applying the factors from the last to the first surrounds the argument with all of them. */
  lemma {:induction false} ApplyReversedMeaning(m: Metric, vs: seq<Sum>, s: Sum)
    requires AreFactors(m, vs) && AreFactors(m, ReverseList(vs)) && AllFit(m.dim, s)
    ensures Meaning(m.dim, ApplyAll(m, ReverseList(vs), s))
         == LeftAll(m, vs, RightAll(m, vs, InvoTimes(m.dim, |vs|, Meaning(m.dim, s))))
    ensures AllFit(m.dim, ApplyAll(m, ReverseList(vs), s))
  {
    hide LeftVector, RightInverse, Meaning, AllFit, ApplyEach;
    if vs != [] {
      var n, v, r := m.dim, vs[0], vs[1..];
      ReverseListFactors(m, r);
      ApplyReversedMeaning(m, r, s);
      ApplyReversedCons(m, vs, s);
      ApplyEachMeaning(m, v, ApplyAll(m, ReverseList(r), s));
      InvoBothSides(m, r, InvoTimes(n, |r|, Meaning(n, s)));
      InvoTimesNext(n, |r|, Meaning(n, s));
      RightInverseLeftAll(m, v, r, RightAll(m, r, InvoTimes(n, |vs|, Meaning(n, s))));
    }
  }

  lemma {:induction false} InvoTimesNext(n: nat, k: nat, z: MV)
    requires Has(n, z)
    ensures Invo(n, InvoTimes(n, k, z)) == InvoTimes(n, k + 1, z)
  {
    InvoInvo(n, z);
  }

  lemma {:induction false} ApplyReversedCons(m: Metric, vs: seq<Sum>, s: Sum)
    requires vs != [] && AreFactors(m, vs) && AreFactors(m, ReverseList(vs)) && AreFactors(m, ReverseList(vs[1..]))
    ensures ApplyAll(m, ReverseList(vs), s) == ApplyEach(m, vs[0], ApplyAll(m, ReverseList(vs[1..]), s))
  {
    var v, r := vs[0], vs[1..];
    var y := ApplyAll(m, ReverseList(r), s);
    assert [v][1..] == [];
    ApplyAllConcat(m, ReverseList(r), [v], s);
    assert ApplyAll(m, [v], y) == ApplyEach(m, v, y);
  }

  // ---------------------------------------------------------------- products of factors

  predicate EachFits(n: nat, vs: seq<Sum>) {
    vs == [] || (AllFit(n, vs[0]) && EachFits(n, vs[1..]))
  }

  lemma {:induction false} UnitIsOne(n: nat)
    ensures AllFit(n, UNIT) && Meaning(n, UNIT) == Scalar(n, 1.0)
  {
    var x := GP.Term(1.0, SCALAR);
    AllFitOne(n, x);
    MeaningOne(n, x);
    ScalarTag(n, SCALAR);
    ScaleSpecial(n, Scalar(n, 1.0));
  }

  /** 1 s == s == s 1 */
  lemma {:induction false} MultiplyUnit(m: Metric, s: Sum)
    requires m.Valid() && AllFit(m.dim, s)
    ensures Meaning(m.dim, GP.Multiply(m, UNIT, s)) == Meaning(m.dim, s)
    ensures Meaning(m.dim, GP.Multiply(m, s, UNIT)) == Meaning(m.dim, s)
  {
    UnitIsOne(m.dim);
    MultiplyMeaning(m, s, UNIT);
    ActSumOne(m, s);
    MultiplyMeaning(m, UNIT, s);
    UnitActs(m, Meaning(m.dim, s));
  }

  lemma {:induction false} UnitActs(m: Metric, z: MV)
    requires Has(m.dim, z)
    ensures ActSum(m, UNIT, z) == z
  {
    ScalarTag(m.dim, SCALAR);
    ScaleSpecial(m.dim, z);
    AddZero(m.dim, z);
    assert UNIT[1..] == [];
  }

  lemma {:induction false} ProductFits(m: Metric, vs: seq<Sum>)
    requires m.Valid() && EachFits(m.dim, vs)
    ensures AllFit(m.dim, ProductOf(m, vs))
  {
    if vs == [] {
      UnitIsOne(m.dim);
    } else {
      ProductFits(m, vs[1..]);
      MultiplyMeaning(m, vs[0], ProductOf(m, vs[1..]));
    }
  }

  lemma {:induction false} EachFitsConcat(n: nat, us: seq<Sum>, vs: seq<Sum>)
    requires EachFits(n, us) && EachFits(n, vs)
    ensures EachFits(n, us + vs)
  {
    if us == [] {
      assert us + vs == vs;
    } else {
      assert (us + vs)[1..] == us[1..] + vs;
      EachFitsConcat(n, us[1..], vs);
    }
  }

  lemma {:induction false} EachFitsOne(n: nat, v: Sum)
    requires AllFit(n, v)
    ensures EachFits(n, [v])
  {
    assert [v][1..] == [];
  }

  lemma {:induction false} FactorsFit(m: Metric, vs: seq<Sum>)
    requires AreFactors(m, vs)
    ensures EachFits(m.dim, vs) && EachFits(m.dim, InverseList(m, vs))
  {
    if vs != [] {
      FactorsFit(m, vs[1..]);
      InverseFits(m, vs[0]);
      EachFitsOne(m.dim, InverseVector(m, vs[0]));
      EachFitsConcat(m.dim, InverseList(m, vs[1..]), [InverseVector(m, vs[0])]);
    }
  }

  lemma {:induction false} ListsFit(m: Metric, vs: seq<Sum>)
    requires EachFits(m.dim, vs)
    ensures EachFits(m.dim, ReverseList(vs)) && EachFits(m.dim, InvoList(vs))
  {
    if vs != [] {
      ListsFit(m, vs[1..]);
      AllFitMaps(m.dim, 1.0, vs[0]);
      EachFitsOne(m.dim, vs[0]);
      EachFitsConcat(m.dim, ReverseList(vs[1..]), [vs[0]]);
      assert InvoList(vs)[1..] == InvoList(vs[1..]);
    }
  }

  /** The last factor of a product may be multiplied last. */
  lemma {:induction false} ProductSnoc(m: Metric, vs: seq<Sum>, v: Sum)
    requires m.Valid() && EachFits(m.dim, vs) && AllFit(m.dim, v)
    ensures Meaning(m.dim, ProductOf(m, vs + [v])) == Meaning(m.dim, GP.Multiply(m, ProductOf(m, vs), v))
  {
    EachFitsOne(m.dim, v);
    if vs == [] {
      assert vs + [v] == [v] && [v][1..] == [];
      MultiplyUnit(m, v);
    } else {
      var w, r := vs[0], vs[1..];
      assert (vs + [v])[1..] == r + [v];
      ProductSnoc(m, r, v);
      EachFitsConcat(m.dim, r, [v]);
      ProductFits(m, r);
      ProductFits(m, r + [v]);
      MultiplyMeaning(m, ProductOf(m, r), v);
      MultiplyWellDefined(m, w, w, ProductOf(m, r + [v]), GP.Multiply(m, ProductOf(m, r), v));
      MultiplyAssociative(m, w, ProductOf(m, r), v);
    }
  }

  lemma {:induction false} LeftAllMeaning(m: Metric, vs: seq<Sum>, s: Sum)
    requires m.Valid() && AreFactors(m, vs) && AllFit(m.dim, s)
    ensures LeftAll(m, vs, Meaning(m.dim, s)) == Meaning(m.dim, GP.Multiply(m, ProductOf(m, vs), s))
  {
    if vs == [] {
      MultiplyUnit(m, s);
    } else {
      var v, r := vs[0], vs[1..];
      FactorsFit(m, r);
      ProductFits(m, r);
      LeftAllMeaning(m, r, s);
      MultiplyMeaning(m, ProductOf(m, r), s);
      ProductVectorLeft(m, v, GP.Multiply(m, ProductOf(m, r), s));
      MultiplyAssociative(m, v, ProductOf(m, r), s);
    }
  }

  lemma {:induction false} RightAllMeaning(m: Metric, vs: seq<Sum>, s: Sum)
    requires m.Valid() && AreFactors(m, vs) && AllFit(m.dim, s)
    ensures RightAll(m, vs, Meaning(m.dim, s)) == Meaning(m.dim, GP.Multiply(m, s, ProductOf(m, InverseList(m, vs))))
  {
    if vs == [] {
      MultiplyUnit(m, s);
    } else {
      var v, r := InverseVector(m, vs[0]), InverseList(m, vs[1..]);
      FactorsFit(m, vs);
      FactorsFit(m, vs[1..]);
      InverseFits(m, vs[0]);
      ProductFits(m, r);
      ProductFits(m, r + [v]);
      RightAllMeaning(m, vs[1..], s);
      MultiplyMeaning(m, s, ProductOf(m, r));
      ProductInverseRight(m, GP.Multiply(m, s, ProductOf(m, r)), vs[0]);
      RightAllStep(m, s, r, v);
    }
  }

  lemma {:induction false} RightAllStep(m: Metric, s: Sum, r: seq<Sum>, v: Sum)
    requires m.Valid() && AllFit(m.dim, s) && EachFits(m.dim, r) && AllFit(m.dim, v)
    requires AllFit(m.dim, ProductOf(m, r)) && AllFit(m.dim, ProductOf(m, r + [v]))
    ensures Meaning(m.dim, GP.Multiply(m, GP.Multiply(m, s, ProductOf(m, r)), v))
         == Meaning(m.dim, GP.Multiply(m, s, ProductOf(m, r + [v])))
  {
    MultiplyAssociative(m, s, ProductOf(m, r), v);
    ProductSnoc(m, r, v);
    MultiplyMeaning(m, ProductOf(m, r), v);
    MultiplyWellDefined(m, s, s, ProductOf(m, r + [v]), GP.Multiply(m, ProductOf(m, r), v));
  }

  /** V V⁻¹ == 1 */
  lemma {:induction false} VersorInverse(m: Metric, vs: seq<Sum>)
    requires m.Valid() && AreFactors(m, vs)
    ensures Meaning(m.dim, GP.Multiply(m, ProductOf(m, vs), ProductOf(m, InverseList(m, vs)))) == Meaning(m.dim, UNIT)
  {
    var w := ProductOf(m, InverseList(m, vs));
    FactorsFit(m, vs);
    ProductFits(m, InverseList(m, vs));
    UnitIsOne(m.dim);
    MultiplyUnit(m, w);
    RightAllMeaning(m, vs, UNIT);
    LeftAllMeaning(m, vs, w);
    BothSidesOfOne(m, vs);
  }

  lemma {:induction false} BothSidesOfOne(m: Metric, vs: seq<Sum>)
    requires AreFactors(m, vs)
    ensures LeftAll(m, vs, RightAll(m, vs, Scalar(m.dim, 1.0))) == Scalar(m.dim, 1.0)
  {
    if vs != [] {
      var one := Scalar(m.dim, 1.0);
      BothSidesOfOne(m, vs[1..]);
      RightInverseLeftAll(m, vs[0], vs[1..], RightAll(m, vs[1..], one));
      FactorInverse(m, vs[0]);
    }
  }

  /** v v⁻¹ == 1 */
  lemma {:induction false} FactorInverse(m: Metric, v: Sum)
    requires IsFactor(m, v)
    ensures LeftVector(m, v, RightInverse(m, v, Scalar(m.dim, 1.0))) == Scalar(m.dim, 1.0)
  {
    var one, V, G, q := Scalar(m.dim, 1.0), VecOf(m.dim, v), CoOf(m, v), DotSum(m, v, v);
    InvoOfScalar(m.dim, 1.0);
    SandwichParts(m, v, one);
    SandwichOne(V, G);
    DotSumIs(m, v, v);
    Divided(m.dim, q, one, SandwichBy(m, v, one));
  }

  /** V[X] == (-1)ᵏᵖ V X V⁻¹ for a versor V of parity p, applied one factor at a time, the last first. */
  lemma {:induction false} VersorAppliesLastFirst(m: Metric, vs: seq<Sum>, s: Sum)
    requires m.Valid() && AreFactors(m, vs) && AreFactors(m, ReverseList(vs)) && AllFit(m.dim, s)
    ensures var y := if |vs| % 2 == 0 then s else GP.InvoAll(s);
      Meaning(m.dim, ApplyAll(m, ReverseList(vs), s))
      == Meaning(m.dim, GP.Multiply(m, ProductOf(m, vs), GP.Multiply(m, y, ProductOf(m, InverseList(m, vs)))))
    ensures AllFit(m.dim, ApplyAll(m, ReverseList(vs), s))
  {
    var y := if |vs| % 2 == 0 then s else GP.InvoAll(s);
    var w := ProductOf(m, InverseList(m, vs));
    AllFitMaps(m.dim, 1.0, s);
    InvoMeaning(m.dim, s);
    ApplyReversedMeaning(m, vs, s);
    RightAllMeaning(m, vs, y);
    FactorsFit(m, vs);
    ProductFits(m, InverseList(m, vs));
    MultiplyMeaning(m, y, w);
    LeftAllMeaning(m, vs, GP.Multiply(m, y, w));
  }

  // ---------------------------------------------------------------- unary operations on versors

  lemma {:induction false} VersorReverse(m: Metric, vs: seq<Sum>)
    requires m.Valid() && AreFactors(m, vs)
    ensures Meaning(m.dim, ProductOf(m, ReverseList(vs))) == Meaning(m.dim, GP.ReverseAll(ProductOf(m, vs)))
  {
    FactorsFit(m, vs);
    ListsFit(m, vs);
    ProductFits(m, vs);
    ProductFits(m, ReverseList(vs));
    if vs == [] {
      UnitIsOne(m.dim);
      ReverseMeaning(m.dim, UNIT);
      InvoOfScalar(m.dim, 1.0);
    } else {
      var v, r := vs[0], vs[1..];
      FactorsFit(m, r);
      ListsFit(m, r);
      ProductFits(m, r);
      ProductFits(m, ReverseList(r));
      VersorReverse(m, r);
      ProductSnoc(m, ReverseList(r), v);
      InverseFits(m, v);
      ReverseOfProduct(m, v, ProductOf(m, r));
      AllFitMaps(m.dim, 1.0, ProductOf(m, r));
      MultiplyWellDefined(m, ProductOf(m, ReverseList(r)), GP.ReverseAll(ProductOf(m, r)), v, v);
    }
  }

  lemma {:induction false} VersorInvo(m: Metric, vs: seq<Sum>)
    requires m.Valid() && EachFits(m.dim, vs)
    ensures Meaning(m.dim, ProductOf(m, InvoList(vs))) == Meaning(m.dim, GP.InvoAll(ProductOf(m, vs)))
  {
    if vs == [] {
      UnitIsOne(m.dim);
      InvoMeaning(m.dim, UNIT);
      InvoOfScalar(m.dim, 1.0);
    } else {
      var v, r := vs[0], vs[1..];
      ListsFit(m, r);
      ProductFits(m, r);
      ProductFits(m, InvoList(r));
      VersorInvo(m, r);
      InvoOfProduct(m, v, ProductOf(m, r));
      AllFitMaps(m.dim, 1.0, ProductOf(m, r));
      AllFitMaps(m.dim, 1.0, v);
      MultiplyWellDefined(m, GP.InvoAll(v), GP.InvoAll(v), ProductOf(m, InvoList(r)), GP.InvoAll(ProductOf(m, r)));
      assert InvoList(vs)[0] == GP.InvoAll(v) && InvoList(vs)[1..] == InvoList(r);
    }
  }

  lemma {:induction false} VersorNegate(m: Metric, vs: seq<Sum>)
    requires m.Valid() && EachFits(m.dim, vs) && vs != []
    ensures Meaning(m.dim, ProductOf(m, NegateList(vs))) == Meaning(m.dim, GP.NegateAll(ProductOf(m, vs)))
  {
    var v, r := vs[0], ProductOf(m, vs[1..]);
    ProductFits(m, vs[1..]);
    assert NegateList(vs)[1..] == vs[1..];
    AllFitMaps(m.dim, 1.0, v);
    MeaningNegate(m.dim, GP.Multiply(m, v, r));
    NegateLeft(m, v, r);
  }

  /** (-s) t == -(s t) */
  lemma {:induction false} NegateLeft(m: Metric, s: Sum, t: Sum)
    requires m.Valid() && AllFit(m.dim, s) && AllFit(m.dim, t) && AllFit(m.dim, GP.NegateAll(s))
    ensures Meaning(m.dim, GP.Multiply(m, GP.NegateAll(s), t)) == Neg(m.dim, Meaning(m.dim, GP.Multiply(m, s, t)))
  {
    var n, t' := m.dim, GP.ReverseAll(t);
    AllFitMaps(n, 1.0, t);
    ProductFromRight(m, s, t);
    ProductFromRight(m, GP.NegateAll(s), t);
    MeaningNegate(n, s);
    RightSumSigned(m, t', 1, Meaning(n, s));
  }

  // ---------------------------------------------------------------- lists of versors

  /** An operand of a versor product. */
  datatype Operand = Vector(v: Sum) | Versor(factors: seq<Sum>)

  predicate AreOperands(m: Metric, ops: seq<Operand>) {
    ops == [] || (AreFactors(m, FactorsOf(ops[0])) && AreOperands(m, ops[1..]))
  }

  function FactorsOf(op: Operand): seq<Sum> {
    match op
    case Vector(v) => [v]
    case Versor(fs) => fs
  }

  /** ExpandVersorVP puts the factors of each versor in reverse. */
  function Flatten(ops: seq<Operand>): seq<Sum> {
    if ops == [] then [] else
      (match ops[0]
       case Vector(v) => [v]
       case Versor(fs) => ReverseList(fs)) + Flatten(ops[1..])
  }

  /** V[s] == (-1)ᵏᵖ V s V⁻¹ for each operand in turn, the first one first. */
  function Surround(m: Metric, ops: seq<Operand>, s: Sum): Sum
    requires AreOperands(m, ops)
    decreases ops
  {
    if ops == [] then s else
      var vs := FactorsOf(ops[0]);
      var y := if |vs| % 2 == 0 then s else GP.InvoAll(s);
      Surround(m, ops[1..], GP.Multiply(m, ProductOf(m, vs), GP.Multiply(m, y, ProductOf(m, InverseList(m, vs)))))
  }

  lemma {:induction false} FlattenFactors(m: Metric, ops: seq<Operand>)
    requires AreOperands(m, ops)
    ensures AreFactors(m, Flatten(ops))
  {
    if ops != [] {
      FlattenFactors(m, ops[1..]);
      ReverseListFactors(m, FactorsOf(ops[0]));
      OneReversed(ops[0]);
      AreFactorsConcat(m, ReverseList(FactorsOf(ops[0])), Flatten(ops[1..]));
    }
  }

  lemma {:induction false} OneReversed(op: Operand)
    ensures ReverseList(FactorsOf(op)) == if op.Vector? then [op.v] else ReverseList(op.factors)
  {
    if op.Vector? {
      assert [op.v][1..] == [];
    }
  }

  /** ApplyAll depends on what its argument denotes. */
  lemma {:induction false} ApplyAllWellDefined(m: Metric, vs: seq<Sum>, s: Sum, t: Sum)
    requires AreFactors(m, vs) && AllFit(m.dim, s) && AllFit(m.dim, t) && Meaning(m.dim, s) == Meaning(m.dim, t)
    ensures Meaning(m.dim, ApplyAll(m, vs, s)) == Meaning(m.dim, ApplyAll(m, vs, t))
    ensures AllFit(m.dim, ApplyAll(m, vs, s)) && AllFit(m.dim, ApplyAll(m, vs, t))
    decreases vs
  {
    if vs != [] {
      ApplyEachMeaning(m, vs[0], s);
      ApplyEachMeaning(m, vs[0], t);
      ApplyAllWellDefined(m, vs[1..], ApplyEach(m, vs[0], s), ApplyEach(m, vs[0], t));
    }
  }

  /** Applying the flattened list of factors is applying the versors. */
  lemma {:induction false} FlattenMeaning(m: Metric, ops: seq<Operand>, s: Sum)
    requires m.Valid() && AreOperands(m, ops) && AreFactors(m, Flatten(ops)) && AllFit(m.dim, s)
    ensures Meaning(m.dim, ApplyAll(m, Flatten(ops), s)) == Meaning(m.dim, Surround(m, ops, s))
    decreases ops
  {
    if ops != [] {
      var vs, r := FactorsOf(ops[0]), Flatten(ops[1..]);
      var y := if |vs| % 2 == 0 then s else GP.InvoAll(s);
      var w := ProductOf(m, InverseList(m, vs));
      var t := GP.Multiply(m, ProductOf(m, vs), GP.Multiply(m, y, w));
      OneReversed(ops[0]);
      ReverseListFactors(m, vs);
      FlattenFactors(m, ops[1..]);
      ApplyAllConcat(m, ReverseList(vs), r, s);
      VersorAppliesLastFirst(m, vs, s);
      SurroundFits(m, vs, y, w, s);
      ApplyAllWellDefined(m, r, ApplyAll(m, ReverseList(vs), s), t);
      FlattenMeaning(m, ops[1..], t);
    }
  }

  lemma {:induction false} SurroundFits(m: Metric, vs: seq<Sum>, y: Sum, w: Sum, s: Sum)
    requires m.Valid() && AreFactors(m, vs) && AllFit(m.dim, s)
    requires y == (if |vs| % 2 == 0 then s else GP.InvoAll(s)) && w == ProductOf(m, InverseList(m, vs))
    ensures AllFit(m.dim, GP.Multiply(m, ProductOf(m, vs), GP.Multiply(m, y, w)))
  {
    FactorsFit(m, vs);
    AllFitMaps(m.dim, 1.0, s);
    ProductFits(m, vs);
    ProductFits(m, InverseList(m, vs));
    MultiplyMeaning(m, y, w);
    MultiplyMeaning(m, ProductOf(m, vs), GP.Multiply(m, y, w));
  }
}
