/** The meaning of the expanded products. */
module ProductMeaning {
  import opened BladeTags
  import opened Metrics
  import opened Multivectors
  import opened Clifford
  import GP = GeometricProduct

  type Term = GP.Term
  type Sum = GP.Sum

  /** A blade of a space with n basis vectors. */
  predicate Fits(n: nat, t: BladeTag) {
    t.Valid() && !t.IsZero() && forall b :: b in t.bits ==> b < n
  }

  predicate AllFit(n: nat, s: Sum) {
    s == [] || (Fits(n, s[0].blade) && AllFit(n, s[1..]))
  }

  function TagMV(n: nat, t: BladeTag): (z: MV)
    ensures Has(n, z)
  {
    BladeMV(n, Factors(t))
  }

  function TermMV(n: nat, x: Term): (z: MV)
    ensures Has(n, z)
  {
    Scale(n, x.c, TagMV(n, x.blade))
  }

  function Meaning(n: nat, s: Sum): (z: MV)
    ensures Has(n, z)
  {
    if s == [] then Zero(n) else Add(n, TermMV(n, s[0]), Meaning(n, s[1..]))
  }

  // ---------------------------------------------------------------- sums

  lemma {:induction false} AllFitConcat(n: nat, s: Sum, t: Sum)
    requires AllFit(n, s) && AllFit(n, t)
    ensures AllFit(n, s + t)
  {
    if s == [] {
      assert s + t == t;
    } else {
      assert (s + t)[1..] == s[1..] + t;
      AllFitConcat(n, s[1..], t);
    }
  }

  lemma {:induction false} AllFitMaps(n: nat, c: real, s: Sum)
    requires AllFit(n, s)
    ensures AllFit(n, GP.ScaleAll(c, s)) && AllFit(n, GP.NegateAll(s))
    ensures AllFit(n, GP.ReverseAll(s)) && AllFit(n, GP.InvoAll(s))
  {
    if s != [] {
      AllFitMaps(n, c, s[1..]);
    }
  }

  lemma {:induction false} MeaningOne(n: nat, x: Term)
    ensures Meaning(n, [x]) == TermMV(n, x)
  {
    assert [x][1..] == [];
    AddZero(n, TermMV(n, x));
  }

  lemma {:induction false} MeaningConcat(n: nat, s: Sum, t: Sum)
    ensures Meaning(n, s + t) == Add(n, Meaning(n, s), Meaning(n, t))
  {
    if s == [] {
      assert s + t == t;
      AddZero(n, Meaning(n, t));
    } else {
      assert (s + t)[1..] == s[1..] + t;
      MeaningConcat(n, s[1..], t);
      AddAssoc(n, TermMV(n, s[0]), Meaning(n, s[1..]), Meaning(n, t));
    }
  }

  lemma {:induction false} MeaningCons(n: nat, x: Term, s: Sum)
    ensures Meaning(n, [x] + s) == Add(n, TermMV(n, x), Meaning(n, s))
  {
    assert ([x] + s)[1..] == s;
  }

  function TimesTerm(c: real, x: Term): Term { GP.Term(c * x.c, x.blade) }

  lemma {:induction false} TermScale(n: nat, c: real, x: Term)
    ensures TermMV(n, TimesTerm(c, x)) == Scale(n, c, TermMV(n, x))
  {
    ScaleTwice(n, c, x.c, TimesTerm(c, x).c, TagMV(n, x.blade));
  }

  lemma {:induction false} ScaleTwice(n: nat, c: real, d: real, e: real, x: MV)
    requires Has(n, x) && e == c * d
    ensures Scale(n, e, x) == Scale(n, c, Scale(n, d, x))
  {
    ScaleScale(n, c, d, x);
  }

  lemma {:induction false} MeaningScale(n: nat, c: real, s: Sum)
    ensures Meaning(n, GP.ScaleAll(c, s)) == Scale(n, c, Meaning(n, s))
  {
    if s == [] {
      ScaleOfZero(n, c);
    } else {
      var x, r := s[0], s[1..];
      MeaningScale(n, c, r);
      TermScale(n, c, x);
      ScaleAdd(n, c, TermMV(n, x), Meaning(n, r));
      MeaningCons(n, TimesTerm(c, x), GP.ScaleAll(c, r));
    }
  }

  lemma {:induction false} TermNegate(n: nat, x: Term)
    ensures TermMV(n, GP.Negate(x)) == Neg(n, TermMV(n, x))
  {
    ScaleNeg(n, x.c, TagMV(n, x.blade));
  }

  lemma {:induction false} MeaningNegate(n: nat, s: Sum)
    ensures Meaning(n, GP.NegateAll(s)) == Neg(n, Meaning(n, s))
  {
    if s == [] {
      ZeroFixed(n);
    } else {
      MeaningNegate(n, s[1..]);
      TermNegate(n, s[0]);
      NegAdd(n, TermMV(n, s[0]), Meaning(n, s[1..]));
      assert GP.NegateAll(s)[1..] == GP.NegateAll(s[1..]);
    }
  }

  // ---------------------------------------------------------------- order of factors

  /** The basis vectors of a set in ascending order. */
  function Sorted(bits: set<nat>): seq<nat> { Factors(BladeTag(bits, false)) }

  lemma {:induction false} SortedCons(bits: set<nat>)
    requires bits != {}
    ensures var a := CountRZero(bits);
      Sorted(bits) == [a] + Sorted(bits - {a})
  {
    var t := BladeTag(bits, false);
    if t.Grade() == 1 {
      var a := CountRZero(bits);
      assert |bits - {a}| == 0;
    } else {
      assert t.Grade() > 1;
    }
  }

  lemma {:induction false} WedgeSelf(n: nat, v: Vec, y: MV)
    requires |v| == n && Has(n, y)
    ensures Wedge(v, Wedge(v, y)) == Zero(n)
  {
    WedgeAnti(v, v, y);
    SelfNeg(n, Wedge(v, Wedge(v, y)));
  }

  lemma {:induction false} SelfNeg(n: nat, x: MV)
    requires Has(n, x) && x == Neg(n, x)
    ensures x == Zero(n)
  {
    if n > 0 {
      SelfNeg(n - 1, x.lo);
      SelfNeg(n - 1, x.hi);
    }
  }

  lemma {:induction false} WedgeZero(v: Vec)
    ensures Wedge(v, Zero(|v|)) == Zero(|v|)
  {
    if |v| > 0 {
      var n := |v| - 1;
      WedgeZero(v[1..]);
      ZeroFixed(n);
      ScaleOfZero(n, v[0]);
      AddZero(n, Zero(n));
    }
  }

  /** e_x ∧ (e_low ∧ y), when e_x ∧ y is known. */
  lemma {:induction false} InsertPast(v: Vec, w: Vec, y: MV, k: nat, z: MV)
    requires |v| == |w| && Has(|v|, y) && Has(|v|, z)
    requires Wedge(v, y) == Signed(|v|, k, z)
    ensures Wedge(v, Wedge(w, y)) == Signed(|v|, k + 1, Wedge(w, z))
  {
    WedgeAnti(v, w, y);
    WedgeNeg(w, z);
    ScaleSpecial(|v|, Wedge(w, z));
  }

  lemma {:induction false} SortedLowest(bits: set<nat>, x: nat)
    requires x !in bits && forall b :: b in bits ==> x < b
    ensures Sorted(bits + {x}) == [x] + Sorted(bits) && Below(Sorted(bits), x) == 0
  {
    SortedCons(bits + {x});
    LowestIs(bits + {x}, x);
    assert bits + {x} - {x} == bits;
    forall i | 0 <= i < |Sorted(bits)| ensures Sorted(bits)[i] >= x {
      assert Sorted(bits)[i] in ToSet(Sorted(bits));
    }
    NoneBelow(Sorted(bits), x);
  }

  lemma {:induction false} BladeCons(n: nat, a: nat, w: seq<nat>)
    ensures BladeMV(n, [a] + w) == Wedge(E(n, a), BladeMV(n, w))
  {
    assert ([a] + w)[1..] == w;
  }

  /** The blade of a set in ascending order. */
  function SetMV(n: nat, bits: set<nat>): (z: MV)
    ensures Has(n, z)
  {
    BladeMV(n, Sorted(bits))
  }

  function SetBelow(bits: set<nat>, x: nat): nat { Below(Sorted(bits), x) }

  lemma {:induction false} InsertLowest(n: nat, x: nat, bits: set<nat>)
    requires x !in bits && forall b :: b in bits ==> x < b
    ensures Wedge(E(n, x), SetMV(n, bits)) == SetMV(n, bits + {x}) && SetBelow(bits, x) == 0
  {
    SortedLowest(bits, x);
    BladeCons(n, x, Sorted(bits));
  }

  lemma {:induction false} SetMVCons(n: nat, low: nat, rest: set<nat>)
    requires low !in rest && forall b :: b in rest ==> low < b
    ensures SetMV(n, rest + {low}) == Wedge(E(n, low), SetMV(n, rest))
  {
    SortedLowest(rest, low);
    BladeCons(n, low, Sorted(rest));
  }

  /** Wedging e_x before a sorted blade: the sign counts the vectors below x. */
  lemma {:induction false} Insert(n: nat, x: nat, bits: set<nat>)
    requires x !in bits
    ensures Wedge(E(n, x), SetMV(n, bits)) == Signed(n, SetBelow(bits, x), SetMV(n, bits + {x}))
    decreases |bits|
  {
    hide SetMV, SetBelow, BladeMV, Wedge, Scale, Neg;
    if bits == {} || x < CountRZero(bits) {
      InsertLowest(n, x, bits);
    } else {
      var low := CountRZero(bits);
      var rest := bits - {low};
      Insert(n, x, rest);
      InsertAbove(n, x, low, rest);
      assert bits == rest + {low};
    }
  }

  lemma {:induction false} InsertAbove(n: nat, x: nat, low: nat, rest: set<nat>)
    requires x !in rest && low < x && low !in rest && forall b :: b in rest ==> low < b
    requires Wedge(E(n, x), SetMV(n, rest)) == Signed(n, SetBelow(rest, x), SetMV(n, rest + {x}))
    ensures Wedge(E(n, x), SetMV(n, rest + {low}))
         == Signed(n, SetBelow(rest + {low}, x), SetMV(n, rest + {low} + {x}))
  {
    hide SetMV, SetBelow;
    SetMVCons(n, low, rest);
    SetMVCons(n, low, rest + {x});
    assert rest + {x} + {low} == rest + {low} + {x};
    BelowCons(low, rest, x);
    InsertPast(E(n, x), E(n, low), SetMV(n, rest), SetBelow(rest, x), SetMV(n, rest + {x}));
  }

  lemma {:induction false} BelowCons(low: nat, rest: set<nat>, x: nat)
    requires low < x && low !in rest && forall b :: b in rest ==> low < b
    ensures SetBelow(rest + {low}, x) == SetBelow(rest, x) + 1
  {
    SortedLowest(rest, low);
    assert ([low] + Sorted(rest))[1..] == Sorted(rest);
  }

  /** Wedging e_x before a blade that has it already is zero. */
  lemma {:induction false} InsertRepeat(n: nat, x: nat, bits: set<nat>)
    requires x in bits
    ensures Wedge(E(n, x), BladeMV(n, Sorted(bits))) == Zero(n)
    decreases |bits|
  {
    SortedCons(bits);
    var low := CountRZero(bits);
    var rest := bits - {low};
    assert Sorted(bits)[1..] == Sorted(rest);
    var y := BladeMV(n, Sorted(rest));
    if low == x {
      WedgeSelf(n, E(n, x), y);
    } else {
      InsertRepeat(n, x, rest);
      WedgeAnti(E(n, x), E(n, low), y);
      WedgeZero(E(n, low));
      ZeroFixed(n);
    }
  }

  lemma {:induction false} SignedWedge(v: Vec, k: nat, x: MV)
    requires Has(|v|, x)
    ensures Wedge(v, Signed(|v|, k, x)) == Signed(|v|, k, Wedge(v, x))
  {
    WedgeNeg(v, x);
  }

  lemma {:induction false} SignedSigned(n: nat, j: nat, k: nat, x: MV)
    requires Has(n, x)
    ensures Signed(n, j, Signed(n, k, x)) == Signed(n, j + k, x)
  {
    ScaleSpecial(n, x);
  }

  lemma {:induction false} SortBladeStep(n: nat, x: nat, t: seq<nat>)
    requires Distinct(t) && x !in t
    requires BladeMV(n, t) == Signed(n, Inversions(t), SetMV(n, ToSet(t)))
    ensures Wedge(E(n, x), BladeMV(n, t))
         == Signed(n, Below(t, x) + Inversions(t), SetMV(n, ToSet(t) + {x}))
  {
    hide BladeMV, Wedge, Factors, Neg, Signed, E;
    var b := Sorted(ToSet(t));
    SignedWedge(E(n, x), Inversions(t), SetMV(n, ToSet(t)));
    Insert(n, x, ToSet(t));
    SameElements(t, b);
    BelowOfPermutation(t, b, x);
    SignedSigned(n, Inversions(t), Below(t, x), SetMV(n, ToSet(t) + {x}));
  }

  lemma {:induction false} SortBladeZero(n: nat, x: nat, t: seq<nat>)
    requires if Distinct(t) then x in t && BladeMV(n, t) == Signed(n, Inversions(t), BladeMV(n, Sorted(ToSet(t))))
                            else BladeMV(n, t) == Zero(n)
    ensures Wedge(E(n, x), BladeMV(n, t)) == Zero(n)
  {
    WedgeZero(E(n, x));
    if Distinct(t) {
      SignedWedge(E(n, x), Inversions(t), BladeMV(n, Sorted(ToSet(t))));
      InsertRepeat(n, x, ToSet(t));
      ZeroFixed(n);
    }
  }

  /** A wedge of basis vectors in any order is the sorted blade with the sign of the order. */
  lemma {:induction false} SortBlade(n: nat, s: seq<nat>)
    ensures BladeMV(n, s) == if Distinct(s) then Signed(n, Inversions(s), BladeMV(n, Sorted(ToSet(s)))) else Zero(n)
  {
    if s == [] {
      assert ToSet(s) == {};
    } else {
      var x, t := s[0], s[1..];
      SortBlade(n, t);
      if Distinct(t) && x !in t {
        SortBladeStep(n, x, t);
        assert ToSet(s) == ToSet(t) + {x};
      } else {
        SortBladeZero(n, x, t);
      }
    }
  }

  /** The tag of a wedge of basis vectors denotes that wedge. */
  lemma {:induction false} WedgeMeaning(n: nat, s: seq<nat>)
    ensures BladeMV(n, s) == if WedgeTag(s).IsZero() then Zero(n) else TagMV(n, WedgeTag(s))
  {
    var t := WedgeTag(s);
    SortBlade(n, s);
    if Distinct(s) {
      WedgeNotZero(s);
      WedgeValid(s);
      WedgeOfFactors(t);
      SortBlade(n, Factors(t));
    }
  }

  lemma {:induction false} WedgeNotZero(s: seq<nat>)
    requires Distinct(s)
    ensures !WedgeTag(s).IsZero()
  {
    SetSize(s);
    if |s| == 0 {
      assert Inversions(s) == 0;
    }
  }

  lemma {:induction false} CanonicalMeaning(n: nat, x: Term)
    requires Fits(n, x.blade)
    ensures TermMV(n, GP.Canonical(x)) == TermMV(n, x)
    ensures Fits(n, GP.Canonical(x).blade) && GP.Canonical(x).blade == BladeTag(x.blade.bits, false)
  {
    var t := x.blade;
    if !t.IsCanonical() {
      SwappedMeaning(n, t);
      ScaleNeg(n, x.c, TagMV(n, t.OSwap()));
    }
  }

  lemma {:induction false} SwappedMeaning(n: nat, t: BladeTag)
    requires Fits(n, t) && !t.IsCanonical()
    ensures t.OSwap() == BladeTag(t.bits, false) && Fits(n, t.OSwap())
    ensures TagMV(n, t) == Neg(n, TagMV(n, t.OSwap()))
  {
    assert t.Grade() > 1 by { assert t.bits != {}; }
    var s := Factors(t);
    SortBlade(n, s);
    FactorsOfSwapped(t);
  }

  lemma {:induction false} FactorsUnder(n: nat, t: BladeTag)
    requires Fits(n, t)
    ensures Under(n, Factors(t))
  {
    forall i | 0 <= i < |Factors(t)| ensures Factors(t)[i] < n {
      assert Factors(t)[i] in ToSet(Factors(t));
    }
  }

  lemma {:induction false} KeptMeaning(n: nat, c: real, w: seq<nat>)
    requires WedgeTag(w).IsZero() || Fits(n, WedgeTag(w))
    ensures Meaning(n, GP.Kept(c, WedgeTag(w))) == Scale(n, c, BladeMV(n, w))
    ensures AllFit(n, GP.Kept(c, WedgeTag(w)))
  {
    hide Factors, BladeMV, WedgeTag;
    WedgeMeaning(n, w);
    if WedgeTag(w).IsZero() {
      ScaleOfZero(n, c);
    } else {
      var z := GP.Term(c, WedgeTag(w));
      CanonicalMeaning(n, z);
      MeaningOne(n, GP.Canonical(z));
      AllFitOne(n, GP.Canonical(z));
    }
  }

  /** The outer product of terms denotes the wedge of all their factors. */
  lemma {:induction false} OuterMeaning(n: nat, x: Term, y: Term)
    requires Fits(n, x.blade) && Fits(n, y.blade)
    ensures Meaning(n, GP.Outer(x, y))
         == Scale(n, GP.Coefficient(x, y), BladeMV(n, Factors(x.blade) + Factors(y.blade)))
    ensures AllFit(n, GP.Outer(x, y))
  {
    var w := Factors(x.blade) + Factors(y.blade);
    if !WedgeTag(w).IsZero() {
      ProductFits(n, x.blade, y.blade);
    }
    KeptMeaning(n, GP.Coefficient(x, y), w);
  }

  lemma {:induction false} AllFitOne(n: nat, x: Term)
    requires Fits(n, x.blade)
    ensures AllFit(n, [x])
  {
    assert [x][1..] == [];
  }

  lemma {:induction false} ProductFits(n: nat, a: BladeTag, b: BladeTag)
    requires Fits(n, a) && Fits(n, b) && !Product(a, b).IsZero()
    ensures Fits(n, Product(a, b))
  {
    var w := Factors(a) + Factors(b);
    WedgeValid(w);
    forall i | i in Product(a, b).bits ensures i < n {
      assert i in ToSet(w);
      assert i in ToSet(Factors(a)) || i in ToSet(Factors(b));
    }
  }

  // ---------------------------------------------------------------- inner product

  /** The basis vector of a 1-blade. */
  function Index(x: Term): nat
    requires x.Grade() == 1
  {
    CountRZero(x.blade.bits)
  }

  /** Contraction by the vectors of a word, the last one first. */
  function ContractWord(m: Metric, w: Word, x: MV): (z: MV)
    requires Has(m.dim, x)
    ensures Has(m.dim, z)
  {
    if w == [] then x else Contract(Row(m, w[0]), ContractWord(m, w[1..], x))
  }

  lemma {:induction false} ScalarTag(n: nat, t: BladeTag)
    requires Fits(n, t) && t.Grade() == 0
    ensures t == SCALAR && Factors(t) == [] && TagMV(n, t) == Scalar(n, 1.0)
  {}

  lemma {:induction false} VectorTag(n: nat, x: Term)
    requires Fits(n, x.blade) && x.Grade() == 1
    ensures Index(x) < n && x.blade == BladeTag({Index(x)}, false) && Factors(x.blade) == [Index(x)]
    ensures TagMV(n, x.blade) == Wedge(E(n, Index(x)), Scalar(n, 1.0))
  {
    var s := Factors(x.blade);
    assert s == [Index(x)];
    assert ToSet(s) == {Index(x)};
    BladeCons(n, Index(x), []);
    assert s == [Index(x)] + [];
  }

  /** e_a ⌋ (e_b ∧ y) == (e_a·e_b) y - e_b ∧ (e_a ⌋ y) */
  lemma {:induction false} ContractWedge(m: Metric, a: nat, b: nat, y: MV, d: real)
    requires a < m.dim && b < m.dim && Has(m.dim, y) && d == m.DotProduct(a, b) as real
    ensures Contract(Row(m, a), Wedge(E(m.dim, b), y))
         == Add(m.dim, Scale(m.dim, d, y), Neg(m.dim, Wedge(E(m.dim, b), Contract(Row(m, a), y))))
  {
    var n, v, g := m.dim, E(m.dim, b), Row(m, a);
    DotBasis(m, b, a);
    WedgeContract(v, g, y);
    MoveOver(n, Wedge(v, Contract(g, y)), Contract(g, Wedge(v, y)), Scale(n, d, y));
  }

  lemma {:induction false} MoveOver(n: nat, p: MV, q: MV, z: MV)
    requires Has(n, p) && Has(n, q) && Add(n, p, q) == z
    ensures q == Add(n, z, Neg(n, p))
  {
    if n > 0 {
      MoveOver(n - 1, p.lo, q.lo, z.lo);
      MoveOver(n - 1, p.hi, q.hi, z.hi);
    }
  }

  /** e_a ⌋ e_b == e_a·e_b */
  lemma {:induction false} ContractVector(m: Metric, a: nat, b: nat, d: real)
    requires a < m.dim && b < m.dim && d == m.DotProduct(a, b) as real
    ensures Contract(Row(m, a), Wedge(E(m.dim, b), Scalar(m.dim, 1.0))) == Scale(m.dim, d, Scalar(m.dim, 1.0))
  {
    var n, v, g, one := m.dim, E(m.dim, b), Row(m, a), Scalar(m.dim, 1.0);
    ContractWedge(m, a, b, one, d);
    ContractOfScalar(g, 1.0);
    WedgeZero(v);
    ZeroFixed(n);
    AddZero(n, Scale(n, d, one));
  }

  /** The product of two 1-blades is the entry of the metric. */
  lemma {:induction false} ApplyMetricMeaning(m: Metric, x: Term, y: Term, d: real)
    requires m.Valid() && Fits(m.dim, x.blade) && Fits(m.dim, y.blade) && x.Grade() == 1 && y.Grade() == 1
    requires d == m.DotProduct(Index(x), Index(y)) as real
    ensures Meaning(m.dim, GP.ApplyMetric(m, x, y))
         == Scale(m.dim, GP.Coefficient(x, y), Scale(m.dim, d, Scalar(m.dim, 1.0)))
    ensures AllFit(m.dim, GP.ApplyMetric(m, x, y))
  {
    var n, c, one := m.dim, GP.Coefficient(x, y), Scalar(m.dim, 1.0);
    DotRange(m, Index(x), Index(y));
    ScaleSpecial(n, one);
    if d == 0.0 {
      ScaleOfZero(n, c);
    } else {
      var k := if d == -1.0 then -c else c;
      MeaningOne(n, GP.Term(k, SCALAR));
      AllFitOne(n, GP.Term(k, SCALAR));
      ScalarTag(n, SCALAR);
      ScaleNeg(n, c, one);
    }
  }

  lemma {:induction false} DotRange(m: Metric, a: nat, b: nat)
    requires m.Valid()
    ensures -1 <= m.DotProduct(a, b) <= 1
  {
    FindRange(m, a, b, 0);
    FindRange(m, b, a, 0);
  }

  lemma {:induction false} CoefficientScale(n: nat, x: Term, y: Term, z: MV)
    requires Has(n, z)
    ensures Scale(n, GP.Coefficient(x, y), z) == Scale(n, x.c, Scale(n, y.c, z))
  {
    ScaleTwice(n, x.c, y.c, GP.Coefficient(x, y), z);
  }

  lemma {:induction false} OuterVector(n: nat, x: Term, y: Term)
    requires Fits(n, x.blade) && x.Grade() == 1 && Fits(n, y.blade)
    ensures Meaning(n, GP.Outer(x, y)) == Scale(n, x.c, Wedge(E(n, Index(x)), TermMV(n, y)))
  {
    var a := Index(x);
    OuterMeaning(n, x, y);
    VectorTag(n, x);
    BladeCons(n, a, Factors(y.blade));
    WedgeScale(E(n, a), y.c, TagMV(n, y.blade));
    CoefficientScale(n, x, y, Wedge(E(n, a), TagMV(n, y.blade)));
  }

  lemma {:induction false} OuterScalar(n: nat, x: Term, y: Term)
    requires Fits(n, x.blade) && x.Grade() == 0 && Fits(n, y.blade)
    ensures Meaning(n, GP.Outer(x, y)) == Scale(n, x.c, TermMV(n, y))
  {
    OuterMeaning(n, x, y);
    ScalarTag(n, x.blade);
    assert [] + Factors(y.blade) == Factors(y.blade);
    CoefficientScale(n, x, y, TagMV(n, y.blade));
  }

  lemma {:induction false} OuterAllMeaning(n: nat, x: Term, s: Sum)
    requires Fits(n, x.blade) && x.Grade() == 1 && AllFit(n, s)
    ensures Meaning(n, GP.OuterAll(x, s)) == Scale(n, x.c, Wedge(E(n, Index(x)), Meaning(n, s)))
    ensures AllFit(n, GP.OuterAll(x, s))
  {
    var v := E(n, Index(x));
    if s == [] {
      WedgeZero(v);
      ScaleOfZero(n, x.c);
    } else {
      var y, r := s[0], s[1..];
      OuterAllMeaning(n, x, r);
      OuterVector(n, x, y);
      OuterMeaning(n, x, y);
      MeaningConcat(n, GP.Outer(x, y), GP.OuterAll(x, r));
      AllFitConcat(n, GP.Outer(x, y), GP.OuterAll(x, r));
      WedgeAdd(v, TermMV(n, y), Meaning(n, r));
      ScaleAdd(n, x.c, Wedge(v, TermMV(n, y)), Wedge(v, Meaning(n, r)));
    }
  }

  /** (x ⌋ y) ∧ z for 1-blades x and y. */
  lemma {:induction false} MetricOuter(m: Metric, x: Term, y: Term, z: Term, d: real)
    requires m.Valid() && Fits(m.dim, x.blade) && Fits(m.dim, y.blade) && x.Grade() == 1 && y.Grade() == 1
    requires d == m.DotProduct(Index(x), Index(y)) as real && Fits(m.dim, z.blade)
    ensures Meaning(m.dim, GP.AllOuter(GP.ApplyMetric(m, x, y), z))
         == Scale(m.dim, GP.Coefficient(x, y), Scale(m.dim, d, TermMV(m.dim, z)))
    ensures AllFit(m.dim, GP.AllOuter(GP.ApplyMetric(m, x, y), z))
  {
    var n, c := m.dim, GP.Coefficient(x, y);
    DotRange(m, Index(x), Index(y));
    ScaleSpecial(n, TermMV(n, z));
    if d == 0.0 {
      ScaleOfZero(n, c);
    } else {
      hide Scale;
      var k := if d == -1.0 then -c else c;
      assert GP.ApplyMetric(m, x, y) == [GP.Term(k, SCALAR)];
      ScalarOuter(n, k, z);
      ScaleNeg(n, c, TermMV(n, z));
    }
  }

  lemma {:induction false} ScalarOuter(n: nat, c: real, z: Term)
    requires Fits(n, z.blade)
    ensures Meaning(n, GP.AllOuter([GP.Term(c, SCALAR)], z)) == Scale(n, c, TermMV(n, z))
    ensures AllFit(n, GP.AllOuter([GP.Term(c, SCALAR)], z))
  {
    var k := GP.Term(c, SCALAR);
    AllOuterOne(k, z);
    OuterScalar(n, k, z);
    OuterMeaning(n, k, z);
  }

  lemma {:induction false} AllOuterOne(x: Term, y: Term)
    ensures GP.AllOuter([x], y) == GP.Outer(x, y)
  {
    assert [x][1..] == [];
    assert GP.Outer(x, y) + [] == GP.Outer(x, y);
  }

  /** The blade peeled off by factorBlade and the rest. */
  lemma {:induction false} FactorBladeMeaning(n: nat, y: Term)
    requires Fits(n, y.blade) && y.Grade() > 1
    ensures var (b, C) := GP.FactorBlade(y);
      && Fits(n, b.blade) && Fits(n, C.blade) && b.c == 1.0 && C.c == GP.Canonical(y).c
      && Factors(GP.Canonical(y).blade) == [Index(b)] + Factors(C.blade)
      && C.blade.IsCanonical()
      && TermMV(n, y) == Wedge(E(n, Index(b)), TermMV(n, C))
  {
    var z := GP.Canonical(y);
    CanonicalMeaning(n, y);
    var (b, C) := GP.FactorBlade(y);
    var a := Factor(z.blade).0;
    assert |C.blade.bits| == |z.blade.bits| - 1 > 0;
    LowestIs({a}, a);
    BladeCons(n, a, Factors(C.blade));
    WedgeScale(E(n, a), z.c, TagMV(n, C.blade));
  }

  /** 1-blade ⌋ blade is contraction by the vector. */
  lemma {:induction false} VectorContract(m: Metric, x: Term, y: Term)
    requires m.Valid() && Fits(m.dim, x.blade) && x.Grade() == 1 && Fits(m.dim, y.blade)
    ensures Meaning(m.dim, GP.LeftContract(m, x, y))
         == Scale(m.dim, x.c, Contract(Row(m, Index(x)), TermMV(m.dim, y)))
    ensures AllFit(m.dim, GP.LeftContract(m, x, y))
    decreases y.Grade()
  {
    var n, g := m.dim, Row(m, Index(x));
    if y.Grade() == 0 {
      ScalarTag(n, y.blade);
      ContractScale(g, y.c, Scalar(n, 1.0));
      ContractOfScalar(g, 1.0);
      ScaleOfZero(n, y.c);
      ScaleOfZero(n, x.c);
    } else {
      VectorTag(n, x);
      if y.Grade() == 1 {
        ContractVectorTerm(m, x, y);
      } else {
        FactorBladeMeaning(n, y);
        var (b, C) := GP.FactorBlade(y);
        VectorContract(m, x, C);
        VectorTag(n, b);
        ContractStep(m, x, y, b, C);
      }
    }
  }

  lemma {:induction false} ContractVectorTerm(m: Metric, x: Term, y: Term)
    requires m.Valid() && Fits(m.dim, x.blade) && x.Grade() == 1 && Fits(m.dim, y.blade) && y.Grade() == 1
    ensures Meaning(m.dim, GP.ApplyMetric(m, x, y))
         == Scale(m.dim, x.c, Contract(Row(m, Index(x)), TermMV(m.dim, y)))
    ensures AllFit(m.dim, GP.ApplyMetric(m, x, y))
  {
    var n, g, one := m.dim, Row(m, Index(x)), Scalar(m.dim, 1.0);
    var d := m.DotProduct(Index(x), Index(y)) as real;
    VectorTag(n, x);
    VectorTag(n, y);
    ApplyMetricMeaning(m, x, y, d);
    ContractVector(m, Index(x), Index(y), d);
    ContractScale(g, y.c, TagMV(n, y.blade));
    CoefficientScale(n, x, y, Scale(n, d, one));
  }

  lemma {:induction false} ContractStep(m: Metric, x: Term, y: Term, b: Term, C: Term)
    requires m.Valid() && Fits(m.dim, x.blade) && x.Grade() == 1 && Fits(m.dim, y.blade) && y.Grade() > 1
    requires (b, C) == GP.FactorBlade(y) && Fits(m.dim, b.blade) && Fits(m.dim, C.blade) && b.c == 1.0
    requires Index(x) < m.dim && Index(b) < m.dim
    requires TermMV(m.dim, y) == Wedge(E(m.dim, Index(b)), TermMV(m.dim, C))
    requires AllFit(m.dim, GP.LeftContract(m, x, C))
    requires Meaning(m.dim, GP.LeftContract(m, x, C))
          == Scale(m.dim, x.c, Contract(Row(m, Index(x)), TermMV(m.dim, C)))
    ensures Meaning(m.dim, GP.LeftContract(m, x, y))
         == Scale(m.dim, x.c, Contract(Row(m, Index(x)), TermMV(m.dim, y)))
    ensures AllFit(m.dim, GP.LeftContract(m, x, y))
  {
    var n, g, v := m.dim, Row(m, Index(x)), E(m.dim, Index(b));
    var d := m.DotProduct(Index(x), Index(b)) as real;
    var p := GP.AllOuter(GP.ApplyMetric(m, x, b), C);
    var q := GP.OuterAll(b, GP.LeftContract(m, x, C));
    MetricOuter(m, x, b, C, d);
    OuterAllMeaning(n, b, GP.LeftContract(m, x, C));
    AllFitMaps(n, 1.0, q);
    AllFitConcat(n, p, GP.NegateAll(q));
    MeaningNegate(n, q);
    MeaningConcat(n, p, GP.NegateAll(q));
    LeftContractStep(m, x, y, b, C);
    ContractStepSum(m, x.c, Index(x), Index(b), d, TermMV(n, C), Meaning(n, p), Meaning(n, q), GP.Coefficient(x, b));
  }

  lemma {:induction false} LeftContractStep(m: Metric, x: Term, y: Term, b: Term, C: Term)
    requires x.Grade() == 1 && y.Grade() > 1 && (b, C) == GP.FactorBlade(y)
    ensures GP.LeftContract(m, x, y)
         == GP.AllOuter(GP.ApplyMetric(m, x, b), C) + GP.NegateAll(GP.OuterAll(b, GP.LeftContract(m, x, C)))
  {}

  lemma {:induction false} ContractStepSum(m: Metric, c: real, a: nat, b: nat, d: real, y: MV, p: MV, q: MV, e: real)
    requires a < m.dim && b < m.dim && Has(m.dim, y) && d == m.DotProduct(a, b) as real && e == c
    requires p == Scale(m.dim, e, Scale(m.dim, d, y))
    requires Has(m.dim, q) && q == Scale(m.dim, 1.0, Wedge(E(m.dim, b), Scale(m.dim, c, Contract(Row(m, a), y))))
    ensures Add(m.dim, p, Neg(m.dim, q)) == Scale(m.dim, c, Contract(Row(m, a), Wedge(E(m.dim, b), y)))
  {
    var n, g, v := m.dim, Row(m, a), E(m.dim, b);
    var w := Wedge(v, Contract(g, y));
    ContractWedge(m, a, b, y, d);
    WedgeScale(v, c, Contract(g, y));
    ScaleSpecial(n, Scale(n, c, w));
    ScaleAdd(n, c, Scale(n, d, y), Neg(n, w));
    ScaleNeg(n, c, w);
  }

  // ---------------------------------------------------------------- geometric product

  /** Left multiplication by a term. */
  function ActTerm(m: Metric, x: Term, z: MV): (r: MV)
    requires Has(m.dim, z)
    ensures Has(m.dim, r)
  {
    var y := GP.Canonical(x);
    Scale(m.dim, y.c, Act(m, Factors(y.blade), z))
  }

  /** Left multiplication by a sum of terms. */
  function ActSum(m: Metric, s: Sum, z: MV): (r: MV)
    requires Has(m.dim, z)
    ensures Has(m.dim, r)
  {
    if s == [] then Zero(m.dim) else Add(m.dim, ActTerm(m, s[0], z), ActSum(m, s[1..], z))
  }

  lemma {:induction false} ActTermAdd(m: Metric, x: Term, y: MV, z: MV)
    requires Has(m.dim, y) && Has(m.dim, z)
    ensures ActTerm(m, x, Add(m.dim, y, z)) == Add(m.dim, ActTerm(m, x, y), ActTerm(m, x, z))
  {
    var k := GP.Canonical(x);
    var w := Factors(k.blade);
    ActAdd(m, w, y, z);
    ScaleAdd(m.dim, k.c, Act(m, w, y), Act(m, w, z));
  }

  lemma {:induction false} ActTermScale(m: Metric, x: Term, c: real, z: MV)
    requires Has(m.dim, z)
    ensures ActTerm(m, x, Scale(m.dim, c, z)) == Scale(m.dim, c, ActTerm(m, x, z))
  {
    var k := GP.Canonical(x);
    var w := Factors(k.blade);
    ActScale(m, w, c, z);
    ScaleComm(m.dim, k.c, c, Act(m, w, z));
  }

  lemma {:induction false} ActTermZero(m: Metric, x: Term)
    ensures ActTerm(m, x, Zero(m.dim)) == Zero(m.dim)
  {
    var z := Zero(m.dim);
    ScaleOfZero(m.dim, 0.0);
    ActTermScale(m, x, 0.0, z);
    ScaleSpecial(m.dim, ActTerm(m, x, z));
  }

  /** A term times 1 is the term. */
  lemma {:induction false} ActTermOne(m: Metric, x: Term)
    requires Fits(m.dim, x.blade)
    ensures ActTerm(m, x, Scalar(m.dim, 1.0)) == TermMV(m.dim, x)
  {
    CanonicalMeaning(m.dim, x);
    FactorsUnder(m.dim, GP.Canonical(x).blade);
    ActOne(m, Factors(GP.Canonical(x).blade));
  }

  lemma {:induction false} ActVector(m: Metric, x: Term, z: MV)
    requires Fits(m.dim, x.blade) && x.Grade() == 1 && Has(m.dim, z)
    ensures ActTerm(m, x, z) == Scale(m.dim, x.c, LeftBy(m, Index(x), z))
  {
    VectorTag(m.dim, x);
    ActLetter(m, Index(x), z);
  }

  lemma {:induction false} ActLetter(m: Metric, a: nat, z: MV)
    requires Has(m.dim, z)
    ensures Act(m, [a], z) == LeftBy(m, a, z)
  {
    assert [a][1..] == [];
    ActCons(m, [a], z);
    HalfDouble(m.dim, LeftBy(m, a, z));
  }

  lemma {:induction false} HalfDouble(n: nat, x: MV)
    requires Has(n, x)
    ensures Half(n, Add(n, x, x)) == x
  {
    if n > 0 {
      HalfDouble(n - 1, x.lo);
      HalfDouble(n - 1, x.hi);
    }
  }

  lemma {:induction false} ScalarTimes(m: Metric, x: Term, y: Term)
    requires Fits(m.dim, x.blade) && x.Grade() == 0 && Fits(m.dim, y.blade)
    ensures Meaning(m.dim, GP.LeftContract(m, x, y)) == Scale(m.dim, x.c, TermMV(m.dim, y))
    ensures AllFit(m.dim, GP.LeftContract(m, x, y))
  {
    var z := GP.Term(GP.Coefficient(x, y), y.blade);
    MeaningOne(m.dim, z);
    AllFitOne(m.dim, z);
    CoefficientScale(m.dim, x, y, TagMV(m.dim, y.blade));
  }

  lemma {:induction false} ExpandScalarLeft(m: Metric, x: Term, y: Term)
    requires Fits(m.dim, x.blade) && x.Grade() == 0 && Fits(m.dim, y.blade)
    ensures Meaning(m.dim, GP.Expand(m, x, y)) == ActTerm(m, x, TermMV(m.dim, y))
    ensures AllFit(m.dim, GP.Expand(m, x, y))
  {
    ScalarTimes(m, x, y);
    ScalarTag(m.dim, x.blade);
  }

  lemma {:induction false} ExpandScalarRight(m: Metric, x: Term, y: Term)
    requires Fits(m.dim, x.blade) && x.Grade() > 0 && Fits(m.dim, y.blade) && y.Grade() == 0
    ensures Meaning(m.dim, GP.Expand(m, x, y)) == ActTerm(m, x, TermMV(m.dim, y))
    ensures AllFit(m.dim, GP.Expand(m, x, y))
  {
    ScalarTimes(m, y, x);
    ScalarTag(m.dim, y.blade);
    ActTermScale(m, x, y.c, Scalar(m.dim, 1.0));
    ActTermOne(m, x);
  }

  lemma {:induction false} ExpandVectorLeft(m: Metric, x: Term, y: Term)
    requires m.Valid() && Fits(m.dim, x.blade) && x.Grade() == 1 && Fits(m.dim, y.blade) && y.Grade() > 0
    ensures Meaning(m.dim, GP.Expand(m, x, y)) == ActTerm(m, x, TermMV(m.dim, y))
    ensures AllFit(m.dim, GP.Expand(m, x, y))
  {
    var n, z := m.dim, TermMV(m.dim, y);
    var v, g := E(n, Index(x)), Row(m, Index(x));
    VectorContract(m, x, y);
    OuterVector(n, x, y);
    OuterMeaning(n, x, y);
    MeaningConcat(n, GP.LeftContract(m, x, y), GP.Outer(x, y));
    AllFitConcat(n, GP.LeftContract(m, x, y), GP.Outer(x, y));
    ActVector(m, x, z);
    AddComm(n, Wedge(v, z), Contract(g, z));
    ScaleAdd(n, x.c, Contract(g, z), Wedge(v, z));
  }

  /** A blade times a vector: multiply 1 by the vector on the right first. */
  lemma {:induction false} ActOnVector(m: Metric, w: Word, b: nat)
    requires Under(m.dim, w) && b < m.dim
    ensures Act(m, w, Wedge(E(m.dim, b), Scalar(m.dim, 1.0))) == RightBy(m, b, BladeMV(m.dim, w))
  {
    UnitLeftRight(E(m.dim, b), Row(m, b));
    ActRight(m, w, b, Scalar(m.dim, 1.0));
    ActOne(m, w);
  }

  /** z e_b for a z of grade k. */
  lemma {:induction false} GradeRight(m: Metric, k: nat, z: MV, b: nat)
    requires Has(m.dim, z) && Invo(m.dim, z) == Signed(m.dim, k, z)
    ensures RightBy(m, b, z) == if k % 2 == 0
            then Add(m.dim, Neg(m.dim, Contract(Row(m, b), z)), Wedge(E(m.dim, b), z))
            else Add(m.dim, Contract(Row(m, b), z), Neg(m.dim, Wedge(E(m.dim, b), z)))
  {
    var n, v, g := m.dim, E(m.dim, b), Row(m, b);
    if k % 2 == 0 {
      AddComm(n, Neg(n, Contract(g, z)), Wedge(v, z));
    } else {
      WedgeNeg(v, z);
      ContractNeg(g, z);
      ScaleSpecial(n, Contract(g, z));
      AddComm(n, Contract(g, z), Neg(n, Wedge(v, z)));
    }
  }

  lemma {:induction false} TermInvo(n: nat, x: Term)
    ensures Invo(n, TermMV(n, x)) == Signed(n, x.Grade(), TermMV(n, x))
  {
    InvoScale(n, x.c, TagMV(n, x.blade));
    InvoBlade(n, Factors(x.blade));
    SignedScale(n, x.Grade(), x.c, TagMV(n, x.blade));
  }

  lemma {:induction false} ActTermOnVector(m: Metric, x: Term, y: Term)
    requires Fits(m.dim, x.blade) && Fits(m.dim, y.blade) && y.Grade() == 1
    ensures ActTerm(m, x, TermMV(m.dim, y)) == Scale(m.dim, y.c, RightBy(m, Index(y), TermMV(m.dim, x)))
  {
    var n, b, z := m.dim, Index(y), GP.Canonical(x);
    var w := Factors(z.blade);
    VectorTag(n, y);
    CanonicalMeaning(n, x);
    FactorsUnder(n, z.blade);
    ActTermScale(m, x, y.c, TagMV(n, y.blade));
    ActOnVector(m, w, b);
    RightScale(E(n, b), Row(m, b), z.c, BladeMV(n, w));
  }

  lemma {:induction false} ExpandVectorRight(m: Metric, x: Term, y: Term)
    requires m.Valid() && Fits(m.dim, x.blade) && x.Grade() > 1 && Fits(m.dim, y.blade) && y.Grade() == 1
    ensures Meaning(m.dim, GP.Expand(m, x, y)) == ActTerm(m, x, TermMV(m.dim, y))
    ensures AllFit(m.dim, GP.Expand(m, x, y))
  {
    var n, b, z := m.dim, Index(y), TermMV(m.dim, x);
    var lc, wp := GP.LeftContract(m, y, x), GP.Outer(y, x);
    var c, w := Contract(Row(m, b), z), Wedge(E(n, b), z);
    ActTermOnVector(m, x, y);
    TermInvo(n, x);
    GradeRight(m, x.Grade(), z, b);
    VectorContract(m, y, x);
    OuterVector(n, y, x);
    OuterMeaning(n, y, x);
    MeaningNegate(n, lc);
    MeaningNegate(n, wp);
    AllFitMaps(n, 1.0, lc);
    AllFitMaps(n, 1.0, wp);
    ScaleNeg(n, y.c, c);
    ScaleNeg(n, y.c, w);
    if x.Grade() % 2 == 0 {
      MeaningConcat(n, GP.NegateAll(lc), wp);
      AllFitConcat(n, GP.NegateAll(lc), wp);
      ScaleAdd(n, y.c, Neg(n, c), w);
    } else {
      MeaningConcat(n, lc, GP.NegateAll(wp));
      AllFitConcat(n, lc, GP.NegateAll(wp));
      ScaleAdd(n, y.c, c, Neg(n, w));
    }
  }

  /** (a ∧ B) z == 1/2 (a (B z) + B^ (a z)) */
  lemma {:induction false} ActStep(m: Metric, x: Term, a: Term, B: Term, B': Term, z: MV)
    requires Fits(m.dim, x.blade) && x.Grade() > 1 && Has(m.dim, z) && (a, B) == GP.FactorBlade(x)
    requires B' == if B.blade.ShouldInvoNegate() then GP.Negate(B) else B
    ensures ActTerm(m, x, z)
         == Half(m.dim, Add(m.dim, ActTerm(m, a, ActTerm(m, B, z)), ActTerm(m, B', ActTerm(m, a, z))))
  {
    FactorBladeMeaning(m.dim, x);
    ActPeeled(m, a, z);
    ActPeeled(m, a, ActTerm(m, B, z));
    ActRest(m, B, B', z, Index(a));
    ActStepSum(m, Factors(GP.Canonical(x).blade), Index(a), Factors(B.blade), B.c, z);
  }

  lemma {:induction false} ActPeeled(m: Metric, a: Term, z: MV)
    requires Fits(m.dim, a.blade) && a.Grade() == 1 && a.c == 1.0 && Has(m.dim, z)
    ensures ActTerm(m, a, z) == LeftBy(m, Index(a), z)
  {
    ActVector(m, a, z);
    ScaleSpecial(m.dim, LeftBy(m, Index(a), z));
  }

  lemma {:induction false} ActRest(m: Metric, B: Term, B': Term, z: MV, i: nat)
    requires B.blade.IsCanonical() && Has(m.dim, z)
    requires B' == if B.blade.ShouldInvoNegate() then GP.Negate(B) else B
    ensures var r := Factors(B.blade);
      && LeftBy(m, i, ActTerm(m, B, z)) == Scale(m.dim, B.c, LeftBy(m, i, Act(m, r, z)))
      && ActTerm(m, B', LeftBy(m, i, z)) == Scale(m.dim, B.c, Signed(m.dim, |r|, Act(m, r, LeftBy(m, i, z))))
  {
    LeftScale(E(m.dim, i), Row(m, i), B.c, Act(m, Factors(B.blade), z));
    ActSigned(m, B, B', LeftBy(m, i, z));
  }

  lemma {:induction false} ActSigned(m: Metric, B: Term, B': Term, z: MV)
    requires B.blade.IsCanonical() && Has(m.dim, z)
    requires B' == if B.blade.ShouldInvoNegate() then GP.Negate(B) else B
    ensures ActTerm(m, B', z) == Scale(m.dim, B.c, Signed(m.dim, B.Grade(), Act(m, Factors(B.blade), z)))
  {
    ScaleNeg(m.dim, B.c, Act(m, Factors(B.blade), z));
  }

  lemma {:induction false} ActStepSum(m: Metric, w: Word, i: nat, r: Word, c: real, z: MV)
    requires w == [i] + r && Has(m.dim, z)
    ensures Scale(m.dim, c, Act(m, w, z))
         == Half(m.dim, Add(m.dim, Scale(m.dim, c, LeftBy(m, i, Act(m, r, z))),
                                   Scale(m.dim, c, Signed(m.dim, |r|, Act(m, r, LeftBy(m, i, z))))))
  {
    var n := m.dim;
    assert w[1..] == r;
    ActCons(m, w, z);
    HalfScale(n, c, Add(n, Front(m, w, z), Back(m, w, z)));
    ScaleAdd(n, c, Front(m, w, z), Back(m, w, z));
  }

  /** The expanded product of two terms is the first acting on the second. */
  lemma {:induction false} ExpandMeaning(m: Metric, x: Term, y: Term)
    requires m.Valid() && Fits(m.dim, x.blade) && Fits(m.dim, y.blade)
    ensures Meaning(m.dim, GP.Expand(m, x, y)) == ActTerm(m, x, TermMV(m.dim, y))
    ensures AllFit(m.dim, GP.Expand(m, x, y))
    decreases x.Grade(), 0
  {
    if x.Grade() == 0 {
      ExpandScalarLeft(m, x, y);
    } else if y.Grade() == 0 {
      ExpandScalarRight(m, x, y);
    } else if x.Grade() == 1 {
      ExpandVectorLeft(m, x, y);
    } else if y.Grade() == 1 {
      ExpandVectorRight(m, x, y);
    } else {
      FactorBladeMeaning(m.dim, x);
      var (a, B) := GP.FactorBlade(x);
      var B' := if B.blade.ShouldInvoNegate() then GP.Negate(B) else B;
      var p, q := GP.Expand(m, B, y), GP.Expand(m, a, y);
      ExpandMeaning(m, B, y);
      ExpandMeaning(m, a, y);
      ExpandAllMeaning(m, a, p);
      ExpandAllMeaning(m, B', q);
      ExpandStepSum(m, x, y, a, B, B', p, q);
    }
  }

  lemma {:induction false} ExpandStepSum(m: Metric, x: Term, y: Term, a: Term, B: Term, B': Term, p: Sum, q: Sum)
    requires Fits(m.dim, x.blade) && x.Grade() > 1 && y.Grade() > 1 && (a, B) == GP.FactorBlade(x)
    requires B' == if B.blade.ShouldInvoNegate() then GP.Negate(B) else B
    requires p == GP.Expand(m, B, y) && Meaning(m.dim, p) == ActTerm(m, B, TermMV(m.dim, y))
    requires q == GP.Expand(m, a, y) && Meaning(m.dim, q) == ActTerm(m, a, TermMV(m.dim, y))
    requires Meaning(m.dim, GP.ExpandAll(m, a, p)) == ActTerm(m, a, Meaning(m.dim, p)) &&
             AllFit(m.dim, GP.ExpandAll(m, a, p))
    requires Meaning(m.dim, GP.ExpandAll(m, B', q)) == ActTerm(m, B', Meaning(m.dim, q)) &&
             AllFit(m.dim, GP.ExpandAll(m, B', q))
    ensures Meaning(m.dim, GP.Expand(m, x, y)) == ActTerm(m, x, TermMV(m.dim, y))
    ensures AllFit(m.dim, GP.Expand(m, x, y))
  {
    var n, s, t, half := m.dim, GP.ExpandAll(m, a, p), GP.ExpandAll(m, B', q), 0.5;
    ActStep(m, x, a, B, B', TermMV(n, y));
    MeaningConcat(n, s, t);
    MeaningScale(n, half, s + t);
    HalfIsScale(n, half, Meaning(n, s + t));
    AllFitConcat(n, s, t);
    AllFitMaps(n, half, s + t);
  }

  lemma {:induction false} ExpandAllMeaning(m: Metric, x: Term, s: Sum)
    requires m.Valid() && Fits(m.dim, x.blade) && AllFit(m.dim, s)
    ensures Meaning(m.dim, GP.ExpandAll(m, x, s)) == ActTerm(m, x, Meaning(m.dim, s))
    ensures AllFit(m.dim, GP.ExpandAll(m, x, s))
    decreases x.Grade(), 1, |s|
  {
    if s == [] {
      ActTermZero(m, x);
    } else {
      var p, q := GP.Expand(m, x, s[0]), GP.ExpandAll(m, x, s[1..]);
      ExpandMeaning(m, x, s[0]);
      ExpandAllMeaning(m, x, s[1..]);
      MeaningConcat(m.dim, p, q);
      AllFitConcat(m.dim, p, q);
      ActTermAdd(m, x, TermMV(m.dim, s[0]), Meaning(m.dim, s[1..]));
    }
  }

  /** The expanded product of two multivectors is the first acting on the second. */
  lemma {:induction false} MultiplyMeaning(m: Metric, s: Sum, t: Sum)
    requires m.Valid() && AllFit(m.dim, s) && AllFit(m.dim, t)
    ensures Meaning(m.dim, GP.Multiply(m, s, t)) == ActSum(m, s, Meaning(m.dim, t))
    ensures AllFit(m.dim, GP.Multiply(m, s, t))
  {
    if s != [] {
      var p, q := GP.ExpandAll(m, s[0], t), GP.Multiply(m, s[1..], t);
      ExpandAllMeaning(m, s[0], t);
      MultiplyMeaning(m, s[1..], t);
      MeaningConcat(m.dim, p, q);
      AllFitConcat(m.dim, p, q);
    }
  }

  // ---------------------------------------------------------------- inner product of blades

  /** Contraction by a term, the last factor of its canonical blade first. */
  function ContractTerm(m: Metric, x: Term, z: MV): (r: MV)
    requires Has(m.dim, z)
    ensures Has(m.dim, r)
  {
    var y := GP.Canonical(x);
    Scale(m.dim, y.c, ContractWord(m, Factors(y.blade), z))
  }

  lemma {:induction false} ContractScalar(m: Metric, w: Word, z: MV, c: real)
    requires w != [] && z == Scale(m.dim, c, Scalar(m.dim, 1.0))
    ensures ContractWord(m, w, z) == Zero(m.dim)
  {
    var g := Row(m, w[|w| - 1]);
    if |w| == 1 {
      assert w[1..] == [];
      ContractScale(g, c, Scalar(m.dim, 1.0));
      ContractOfScalar(g, 1.0);
      ScaleOfZero(m.dim, c);
    } else {
      ContractScalar(m, w[1..], z, c);
      ContractOfZero(Row(m, w[0]));
    }
  }

  /** The expanded x ⌋ y contracts y by every factor of x. */
  lemma {:induction false} LeftContractMeaning(m: Metric, x: Term, y: Term)
    requires m.Valid() && Fits(m.dim, x.blade) && Fits(m.dim, y.blade)
    ensures Meaning(m.dim, GP.LeftContract(m, x, y)) == ContractTerm(m, x, TermMV(m.dim, y))
    ensures AllFit(m.dim, GP.LeftContract(m, x, y))
    decreases x.Grade(), 0
  {
    var n := m.dim;
    if x.Grade() == 0 {
      ScalarTimes(m, x, y);
      ScalarTag(n, x.blade);
    } else if y.Grade() == 0 {
      ScalarTag(n, y.blade);
      ContractScalar(m, Factors(GP.Canonical(x).blade), TermMV(n, y), y.c);
      ScaleOfZero(n, GP.Canonical(x).c);
    } else if x.Grade() == 1 {
      VectorContract(m, x, y);
      ContractOne(m, x, TermMV(n, y));
    } else {
      FactorBladeMeaning(n, x);
      var (a, B) := GP.FactorBlade(x);
      var p := GP.LeftContract(m, B, y);
      LeftContractMeaning(m, B, y);
      LeftContractAllMeaning(m, a, p);
      ContractPeel(m, x, a, B, TermMV(n, y));
    }
  }

  lemma {:induction false} ContractOne(m: Metric, x: Term, z: MV)
    requires Fits(m.dim, x.blade) && x.Grade() == 1 && Has(m.dim, z)
    ensures ContractTerm(m, x, z) == Scale(m.dim, x.c, Contract(Row(m, Index(x)), z))
  {
    VectorTag(m.dim, x);
    ContractLetter(m, Index(x), z);
  }

  lemma {:induction false} ContractLetter(m: Metric, a: nat, z: MV)
    requires Has(m.dim, z)
    ensures ContractWord(m, [a], z) == Contract(Row(m, a), z)
  {
    assert [a][1..] == [];
    assert ContractWord(m, [], z) == z;
  }

  lemma {:induction false} ContractPeel(m: Metric, x: Term, a: Term, B: Term, z: MV)
    requires Fits(m.dim, x.blade) && x.Grade() > 1 && (a, B) == GP.FactorBlade(x) && Has(m.dim, z)
    ensures ContractTerm(m, x, z) == ContractTerm(m, a, ContractTerm(m, B, z))
  {
    FactorBladeMeaning(m.dim, x);
    var w, r := Factors(GP.Canonical(x).blade), Factors(B.blade);
    assert w[0] == Index(a) && w[1..] == r;
    var y := ContractWord(m, r, z);
    ContractOne(m, a, ContractTerm(m, B, z));
    ContractScale(Row(m, Index(a)), B.c, y);
    ScaleSpecial(m.dim, Scale(m.dim, B.c, Contract(Row(m, Index(a)), y)));
  }

  lemma {:induction false} LeftContractAllMeaning(m: Metric, x: Term, s: Sum)
    requires m.Valid() && Fits(m.dim, x.blade) && x.Grade() == 1 && AllFit(m.dim, s)
    ensures Meaning(m.dim, GP.LeftContractAll(m, x, s)) == ContractTerm(m, x, Meaning(m.dim, s))
    ensures AllFit(m.dim, GP.LeftContractAll(m, x, s))
    decreases x.Grade(), 1, |s|
  {
    var n, g := m.dim, Row(m, Index(x));
    ContractOne(m, x, Meaning(n, s));
    if s == [] {
      ContractOfZero(g);
      ScaleOfZero(n, x.c);
    } else {
      var p, q := GP.LeftContract(m, x, s[0]), GP.LeftContractAll(m, x, s[1..]);
      VectorContract(m, x, s[0]);
      LeftContractAllMeaning(m, x, s[1..]);
      ContractOne(m, x, Meaning(n, s[1..]));
      MeaningConcat(n, p, q);
      AllFitConcat(n, p, q);
      ContractAdd(g, TermMV(n, s[0]), Meaning(n, s[1..]));
      ScaleAdd(n, x.c, Contract(g, TermMV(n, s[0])), Contract(g, Meaning(n, s[1..])));
    }
  }
}
