/** Squares and products of vectors in the metrics of geomalg/include/geomalg/Metric.h. */
module Conformal {
  import opened Multivectors
  import opened Metrics
  import opened BladeTags
  import opened Clifford
  import opened ProductMeaning
  import opened Reflections
  import opened Versors
  import GP = GeometricProduct

  // ---------------------------------------------------------------- no entries

  function SumOfSquares(v: Vec): real { if v == [] then 0.0 else v[0] * v[0] + SumOfSquares(v[1..]) }

  lemma {:induction false} DotSelf(v: Vec)
    ensures Dot(v, v) == SumOfSquares(v)
  {
    if v != [] { DotSelf(v[1..]); }
  }

  lemma {:induction false} RowIsBasis(m: Metric, i: nat)
    requires m.entries == []
    ensures Row(m, i) == E(m.dim, i)
  {
    forall j | 0 <= j < m.dim
      ensures Row(m, i)[j] == E(m.dim, i)[j]
    {
      DotProductIs(m, i, j);
    }
  }

  lemma {:induction false} DualIsVector(m: Metric, v: Sum)
    requires m.entries == [] && IsVector(v)
    ensures CoOf(m, v) == VecOf(m.dim, v)
  {
    hide Axpy, Row, E;
    if v != [] {
      RowIsBasis(m, Index(v[0]));
      DualIsVector(m, v[1..]);
    }
  }

  /** Without entries a vector times itself is the sum of the squares of its components. */
  lemma {:induction false} EuclideanSquare(m: Metric, v: Sum)
    requires m.entries == [] && IsVector(v) && AllFit(m.dim, v)
    ensures Meaning(m.dim, GP.Multiply(m, v, v)) == TermMV(m.dim, GP.Term(SumOfSquares(VecOf(m.dim, v)), SCALAR))
  {
    VectorSquare(m, v);
    DotSumIs(m, v, v);
    DualIsVector(m, v);
    DotSelf(VecOf(m.dim, v));
  }

  // ---------------------------------------------------------------- conformal geometry

  /** The covector of a vector of conformal geometry. */
  function Dual(v: Vec): (g: Vec)
    requires |v| == 5
    ensures |g| == 5
  {
    [v[0], v[1], v[2], -v[4], -v[3]]
  }

  lemma {:induction false} AxpyAt(c: real, u: Vec, v: Vec)
    requires |u| == |v|
    ensures forall k :: 0 <= k < |u| ==> Axpy(c, u, v)[k] == c * u[k] + v[k]
  {
    if u != [] { AxpyAt(c, u[1..], v[1..]); }
  }

  lemma {:induction false} ConformalRow(i: nat, j: nat)
    requires i < 5 && j < 5
    ensures Row(Get(true), i)[j] == Dual(E(5, i))[j]
  {
    ConformalProducts(i, j);
  }

  lemma {:induction false} DualAxpy(c: real, i: nat, w: Vec)
    requires i < 5 && |w| == 5
    ensures Axpy(c, Row(Get(true), i), Dual(w)) == Dual(Axpy(c, E(5, i), w))
  {
    hide Row, E;
    var e := E(5, i);
    forall j | 0 <= j < 5
      ensures Axpy(c, Row(Get(true), i), Dual(w))[j] == Dual(Axpy(c, e, w))[j]
    {
      ConformalRow(i, j);
      AxpyAt(c, Row(Get(true), i), Dual(w));
      AxpyAt(c, e, w);
      var k := if j == 3 then 4 else if j == 4 then 3 else j;
      if j >= 3 { Negated(c, e[k], w[k]); }
    }
  }

  lemma {:induction false} Negated(c: real, x: real, y: real)
    ensures c * -x + -y == -(c * x + y)
  {}

  lemma {:induction false} ConformalDual(v: Sum)
    requires IsVector(v) && AllFit(5, v)
    ensures CoOf(Get(true), v) == Dual(VecOf(5, v))
  {
    hide Axpy, Row, E;
    if v == [] {
      assert NoVec(5) == [0.0, 0.0, 0.0, 0.0, 0.0];
    } else {
      ConformalDual(v[1..]);
      AllFitOne(5, v[0]);
      VectorTag(5, v[0]);
      DualAxpy(v[0].c, Index(v[0]), VecOf(5, v[1..]));
    }
  }

  /** The product of vectors of conformal geometry. */
  lemma {:induction false} ConformalDot(u: Sum, v: Sum)
    requires IsVector(u) && AllFit(5, u) && IsVector(v) && AllFit(5, v)
    ensures var x, y := VecOf(5, u), VecOf(5, v);
      DotSum(Get(true), u, v) == x[0] * y[0] + x[1] * y[1] + x[2] * y[2] - x[3] * y[4] - x[4] * y[3]
  {
    hide VecOf, CoOf, DotSum;
    DotSumIs(Get(true), u, v);
    ConformalDual(v);
    FiveTerms(VecOf(5, u), Dual(VecOf(5, v)));
  }

  lemma {:induction false} FiveTerms(x: Vec, g: Vec)
    requires |x| == |g| == 5
    ensures Dot(x, g) == x[0] * g[0] + x[1] * g[1] + x[2] * g[2] + x[3] * g[3] + x[4] * g[4]
  {
    assert Dot(x, g) == x[0] * g[0] + Dot(x[1..], g[1..]);
    assert Dot(x[1..], g[1..]) == x[1] * g[1] + Dot(x[2..], g[2..]) by {
      assert x[1..][1..] == x[2..] && g[1..][1..] == g[2..];
    }
    assert Dot(x[2..], g[2..]) == x[2] * g[2] + Dot(x[3..], g[3..]) by {
      assert x[2..][1..] == x[3..] && g[2..][1..] == g[3..];
    }
    assert Dot(x[3..], g[3..]) == x[3] * g[3] + Dot(x[4..], g[4..]) by {
      assert x[3..][1..] == x[4..] && g[3..][1..] == g[4..];
    }
    assert Dot(x[4..], g[4..]) == x[4] * g[4] by {
      assert x[4..][1..] == [] && g[4..][1..] == [];
    }
  }

  /** The components of the point (a, b, c): n0 + x + x·x/2 ni. */
  function Point(a: real, b: real, c: real): (v: Vec)
    ensures |v| == 5
  {
    [a, b, c, 1.0, (a * a + b * b + c * c) / 2.0]
  }

  /** The symmetric product of two points is minus the square of their distance; points are null vectors. */
  lemma {:induction false} ConformalDistance(u: Sum, v: Sum, a: real, b: real, c: real, d: real, e: real, f: real)
    requires IsVector(u) && AllFit(5, u) && IsVector(v) && AllFit(5, v)
    requires VecOf(5, u) == Point(a, b, c) && VecOf(5, v) == Point(d, e, f)
    ensures var m, r := Get(true), (a - d) * (a - d) + (b - e) * (b - e) + (c - f) * (c - f);
      Meaning(5, GP.Multiply(m, u, v) + GP.Multiply(m, v, u)) == TermMV(5, GP.Term(-r, SCALAR))
  {
    hide GP.Multiply, Meaning, VecOf, DotSum, TermMV, Point;
    var m := Get(true);
    assert m.Valid();
    VectorsAnticommute(m, u, v);
    ConformalDot(u, v);
    assert m.dim == 5;
    var p := DotSum(m, u, v);
    PointProduct(VecOf(5, u), VecOf(5, v), a, b, c, d, e, f);
    assert p + p == -((a - d) * (a - d) + (b - e) * (b - e) + (c - f) * (c - f));
    assert Meaning(5, GP.Multiply(m, u, v) + GP.Multiply(m, v, u)) == TermMV(5, GP.Term(p + p, SCALAR));
  }

  lemma {:induction false} PointProduct(x: Vec, y: Vec, a: real, b: real, c: real, d: real, e: real, f: real)
    requires x == Point(a, b, c) && y == Point(d, e, f)
    ensures var t := x[0] * y[0] + x[1] * y[1] + x[2] * y[2] - x[3] * y[4] - x[4] * y[3];
      t + t == -((a - d) * (a - d) + (b - e) * (b - e) + (c - f) * (c - f))
  {
    Squares(a, d);
    Squares(b, e);
    Squares(c, f);
    assert x[3] * y[4] == (d * d + e * e + f * f) / 2.0;
    assert x[4] * y[3] == (a * a + b * b + c * c) / 2.0;
  }

  lemma {:induction false} Squares(x: real, y: real)
    ensures (x - y) * (x - y) == x * x - 2.0 * (x * y) + y * y
  {}
}
