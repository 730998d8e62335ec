/**
 Expansion of inner, outer and geometric products of blade terms
 (ExpandGP, ExpandLC, ApplyMetric, Distribute, createOuterProd and factorBlade in
 geomalg/lib/Geomalg/Passes.cpp).

 A value of blade type is a coefficient and a tag.  A SumOp is a list of such
 terms; an operand of type zero is the empty list.
 */
module GeometricProduct {
  import opened BladeTags
  import opened Metrics

  datatype Term = Term(c: real, blade: BladeTag) {
    function Grade(): nat { blade.Grade() }
  }

  type Sum = seq<Term>

  function Negate(x: Term): Term { Term(-x.c, x.blade) }

  function NegateAll(s: Sum): (r: Sum)
    ensures |r| == |s|
  {
    if s == [] then [] else [Negate(s[0])] + NegateAll(s[1..])
  }

  /** α ⌋ s for a scalar α. */
  function ScaleAll(c: real, s: Sum): (r: Sum)
    ensures |r| == |s|
  {
    if s == [] then [] else [Term(c * s[0].c, s[0].blade)] + ScaleAll(c, s[1..])
  }

  /** OSwapOp changes the order of the basis vectors and so negates the coefficient. */
  function Canonical(x: Term): Term {
    if x.blade.IsCanonical() then x else Term(-x.c, x.blade.OSwap())
  }

  /** The coefficient of a product of terms. */
  function Coefficient(x: Term, y: Term): real { x.c * y.c }

  /** createOuterProd keeps its result canonical. */
  function Outer(x: Term, y: Term): Sum { Kept(Coefficient(x, y), Product(x.blade, y.blade)) }

  /** A coefficient and a tag as a sum of canonical terms. */
  function Kept(c: real, t: BladeTag): Sum {
    if t.IsZero() then [] else [Canonical(Term(c, t))]
  }

  /** The outer product distributes over a sum on the right. */
  function OuterAll(x: Term, s: Sum): Sum {
    if s == [] then [] else Outer(x, s[0]) + OuterAll(x, s[1..])
  }

  /** The outer product distributes over a sum on the left. */
  function AllOuter(s: Sum, y: Term): Sum {
    if s == [] then [] else Outer(s[0], y) + AllOuter(s[1..], y)
  }

  /** factorBlade peels a basis vector off a blade of grade two or more. */
  function FactorBlade(x: Term): (r: (Term, Term))
    requires x.Grade() > 1
    ensures r.0.Grade() == 1 && r.1.Grade() == x.Grade() - 1
  {
    var y := Canonical(x);
    var (a, rest) := Factor(y.blade);
    (Term(1.0, BladeTag({a}, false)), Term(y.c, rest))
  }

  /** ApplyMetric: the product of two 1-blades. */
  function ApplyMetric(m: Metric, x: Term, y: Term): Sum
    requires x.Grade() == 1 && y.Grade() == 1
  {
    var d := m.DotProduct(CountRZero(x.blade.bits), CountRZero(y.blade.bits));
    if d == 0 then []
    else if d == -1 then [Term(-Coefficient(x, y), SCALAR)]
    else [Term(Coefficient(x, y), SCALAR)]
  }

  /** ExpandLC with the results of type inference for scalars: x ⌋ y. */
  function LeftContract(m: Metric, x: Term, y: Term): Sum
    decreases x.Grade(), 0, y.Grade()
  {
    if x.Grade() == 0 then [Term(Coefficient(x, y), y.blade)]
    else if y.Grade() == 0 then []
    else if x.Grade() == 1 && y.Grade() == 1 then ApplyMetric(m, x, y)
    else if x.Grade() == 1 then
      // a ⌋ (b ∧ C) = (a ⌋ b) ∧ C - b ∧ (a ⌋ C)
      var (b, C) := FactorBlade(y);
      AllOuter(LeftContract(m, x, b), C) + NegateAll(OuterAll(b, LeftContract(m, x, C)))
    else
      // (a ∧ B) ⌋ C = a ⌋ (B ⌋ C)
      var (a, B) := FactorBlade(x);
      LeftContractAll(m, a, LeftContract(m, B, y))
  }

  function LeftContractAll(m: Metric, x: Term, s: Sum): Sum
    decreases x.Grade(), 1, |s|
  {
    if s == [] then [] else LeftContract(m, x, s[0]) + LeftContractAll(m, x, s[1..])
  }

  /** ExpandGP: x y. */
  function Expand(m: Metric, x: Term, y: Term): Sum
    decreases x.Grade(), 0
  {
    if x.Grade() == 0 then LeftContract(m, x, y)
    else if y.Grade() == 0 then LeftContract(m, y, x)
    else if x.Grade() == 1 then LeftContract(m, x, y) + Outer(x, y)
    else if y.Grade() == 1 then
      var lc, wp := LeftContract(m, y, x), Outer(y, x);
      if x.blade.ShouldInvoNegate() then lc + NegateAll(wp) else NegateAll(lc) + wp
    else
      // (a ∧ B) C = 1/2 (a (B C) + B^ (a C))
      var (a, B) := FactorBlade(x);
      var BInvo := if B.blade.ShouldInvoNegate() then Negate(B) else B;
      ScaleAll(0.5, ExpandAll(m, a, Expand(m, B, y)) + ExpandAll(m, BInvo, Expand(m, a, y)))
  }

  /** Distribute: the product of a blade and each term of a sum. */
  function ExpandAll(m: Metric, x: Term, s: Sum): Sum
    decreases x.Grade(), 1, |s|
  {
    if s == [] then [] else Expand(m, x, s[0]) + ExpandAll(m, x, s[1..])
  }

  /** The fully expanded product of two multivectors. */
  function Multiply(m: Metric, s: Sum, t: Sum): Sum {
    if s == [] then [] else ExpandAll(m, s[0], t) + Multiply(m, s[1..], t)
  }

  /** ExpandReverse and ExpandGradeInvo of each term. */
  function ReverseAll(s: Sum): Sum {
    if s == [] then [] else
      [if s[0].blade.ShouldReverseNegate() then Negate(s[0]) else s[0]] + ReverseAll(s[1..])
  }

  function InvoAll(s: Sum): Sum {
    if s == [] then [] else
      [if s[0].blade.ShouldInvoNegate() then Negate(s[0]) else s[0]] + InvoAll(s[1..])
  }
}
