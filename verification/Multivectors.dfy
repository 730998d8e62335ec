/**
 The exterior algebra that gives multivector expressions their meaning.

 A multivector over n basis vectors is a binary tree of depth n.  A node splits
 it by its first basis vector e: `Node(lo, hi)` stands for lo + e ∧ hi, where lo
 and hi do not mention e.  Equal multivectors are equal trees.
 Vectors and rows of the metric are sequences of n reals.
 */
module Multivectors {

  datatype MV = Leaf(c: real) | Node(lo: MV, hi: MV)

  /** `x` is a multivector over n basis vectors. */
  predicate Has(n: nat, x: MV)
    decreases n
  {
    match x
    case Leaf(_) => n == 0
    case Node(lo, hi) => n > 0 && Has(n - 1, lo) && Has(n - 1, hi)
  }

  /** The real 0.  It is not written as a literal because the verifier unfolds
      functions of literal arguments without a bound. */
  function Nought(k: int): real { (k - k) as real }

  function Zero(n: nat): (z: MV)
    ensures Has(n, z)
  {
    if n == 0 then Leaf(Nought(n)) else Node(Zero(n - 1), Zero(n - 1))
  }

  function Scalar(n: nat, c: real): (z: MV)
    ensures Has(n, z)
  {
    if n == 0 then Leaf(c) else Node(Scalar(n - 1, c), Zero(n - 1))
  }

  function Add(n: nat, x: MV, y: MV): (z: MV)
    requires Has(n, x) && Has(n, y)
    ensures Has(n, z)
    decreases n
  {
    if n == 0 then Leaf(x.c + y.c) else Node(Add(n - 1, x.lo, y.lo), Add(n - 1, x.hi, y.hi))
  }

  function Scale(n: nat, c: real, x: MV): (z: MV)
    requires Has(n, x)
    ensures Has(n, z)
    decreases n
  {
    if n == 0 then Leaf(c * x.c) else Node(Scale(n - 1, c, x.lo), Scale(n - 1, c, x.hi))
  }

  function Neg(n: nat, x: MV): (z: MV)
    requires Has(n, x)
    ensures Has(n, z)
    decreases n
  {
    if n == 0 then Leaf(-x.c) else Node(Neg(n - 1, x.lo), Neg(n - 1, x.hi))
  }

  function Half(n: nat, x: MV): (z: MV)
    requires Has(n, x)
    ensures Has(n, z)
    decreases n
  {
    if n == 0 then Leaf(x.c / 2.0) else Node(Half(n - 1, x.lo), Half(n - 1, x.hi))
  }

  type Vec = seq<real>

  function Dot(v: Vec, g: Vec): real
    decreases |v|
  {
    if |v| == 0 || |g| == 0 then Nought(|v|) else v[0] * g[0] + Dot(v[1..], g[1..])
  }

  /** v ∧ x for a vector v. */
  function Wedge(v: Vec, x: MV): (z: MV)
    requires Has(|v|, x)
    ensures Has(|v|, z)
    decreases |v|
  {
    if |v| == 0 then Leaf(x.c - x.c) else
      var n := |v| - 1;
      Node(Wedge(v[1..], x.lo), Add(n, Scale(n, v[0], x.lo), Neg(n, Wedge(v[1..], x.hi))))
  }

  /** The contraction of x by the covector g. */
  function Contract(g: Vec, x: MV): (z: MV)
    requires Has(|g|, x)
    ensures Has(|g|, z)
    decreases |g|
  {
    if |g| == 0 then Leaf(x.c - x.c) else
      var n := |g| - 1;
      Node(Add(n, Contract(g[1..], x.lo), Scale(n, g[0], x.hi)), Neg(n, Contract(g[1..], x.hi)))
  }

  /** Grade involution: each grade-k part is multiplied by (-1)^k. */
  function Invo(n: nat, x: MV): (z: MV)
    requires Has(n, x)
    ensures Has(n, z)
    decreases n
  {
    if n == 0 then x else Node(Invo(n - 1, x.lo), Neg(n - 1, Invo(n - 1, x.hi)))
  }

  /** Reversal: lo + e ∧ hi is reversed to lo~ + hi~ ∧ e. */
  function Reverse(n: nat, x: MV): (z: MV)
    requires Has(n, x)
    ensures Has(n, z)
    decreases n
  {
    if n == 0 then x else Node(Reverse(n - 1, x.lo), Invo(n - 1, Reverse(n - 1, x.hi)))
  }

  // ---------------------------------------------------------------- vector space

  lemma {:induction false} AddComm(n: nat, x: MV, y: MV)
    requires Has(n, x) && Has(n, y)
    ensures Add(n, x, y) == Add(n, y, x)
  {
    if n > 0 {
      AddComm(n - 1, x.lo, y.lo);
      AddComm(n - 1, x.hi, y.hi);
    }
  }

  lemma {:induction false} AddAssoc(n: nat, x: MV, y: MV, z: MV)
    requires Has(n, x) && Has(n, y) && Has(n, z)
    ensures Add(n, Add(n, x, y), z) == Add(n, x, Add(n, y, z))
  {
    if n > 0 {
      AddAssoc(n - 1, x.lo, y.lo, z.lo);
      AddAssoc(n - 1, x.hi, y.hi, z.hi);
    }
  }

  lemma {:induction false} AddZero(n: nat, x: MV)
    requires Has(n, x)
    ensures Add(n, x, Zero(n)) == x && Add(n, Zero(n), x) == x
  {
    if n > 0 {
      AddZero(n - 1, x.lo);
      AddZero(n - 1, x.hi);
    }
  }

  lemma {:induction false} AddSwap(n: nat, a: MV, b: MV, c: MV, d: MV)
    requires Has(n, a) && Has(n, b) && Has(n, c) && Has(n, d)
    ensures Add(n, Add(n, a, b), Add(n, c, d)) == Add(n, Add(n, a, c), Add(n, b, d))
  {
    if n > 0 {
      AddSwap(n - 1, a.lo, b.lo, c.lo, d.lo);
      AddSwap(n - 1, a.hi, b.hi, c.hi, d.hi);
    }
  }

  lemma {:induction false} ScaleAdd(n: nat, c: real, x: MV, y: MV)
    requires Has(n, x) && Has(n, y)
    ensures Scale(n, c, Add(n, x, y)) == Add(n, Scale(n, c, x), Scale(n, c, y))
  {
    if n > 0 {
      ScaleAdd(n - 1, c, x.lo, y.lo);
      ScaleAdd(n - 1, c, x.hi, y.hi);
    }
  }

  lemma {:induction false} ScalePlus(n: nat, c: real, d: real, x: MV)
    requires Has(n, x)
    ensures Scale(n, c + d, x) == Add(n, Scale(n, c, x), Scale(n, d, x))
  {
    if n > 0 {
      ScalePlus(n - 1, c, d, x.lo);
      ScalePlus(n - 1, c, d, x.hi);
    }
  }

  lemma {:induction false} ScaleScale(n: nat, c: real, d: real, x: MV)
    requires Has(n, x)
    ensures Scale(n, c, Scale(n, d, x)) == Scale(n, c * d, x)
  {
    if n == 0 {
      assert c * (d * x.c) == c * d * x.c;
    } else {
      ScaleScale(n - 1, c, d, x.lo);
      ScaleScale(n - 1, c, d, x.hi);
    }
  }

  lemma {:induction false} ScaleComm(n: nat, c: real, d: real, x: MV)
    requires Has(n, x)
    ensures Scale(n, c, Scale(n, d, x)) == Scale(n, d, Scale(n, c, x))
  {
    ScaleScale(n, c, d, x);
    ScaleScale(n, d, c, x);
    assert c * d == d * c;
  }

  lemma {:induction false} ScaleSpecial(n: nat, x: MV)
    requires Has(n, x)
    ensures Scale(n, 1.0, x) == x
    ensures Scale(n, 0.0, x) == Zero(n)
    ensures Scale(n, -1.0, x) == Neg(n, x)
    ensures Neg(n, Neg(n, x)) == x
    ensures Add(n, x, Neg(n, x)) == Zero(n)
  {
    if n > 0 {
      ScaleSpecial(n - 1, x.lo);
      ScaleSpecial(n - 1, x.hi);
    }
  }

  lemma {:induction false} ScaleNeg(n: nat, c: real, x: MV)
    requires Has(n, x)
    ensures Scale(n, c, Neg(n, x)) == Neg(n, Scale(n, c, x)) == Scale(n, -c, x)
  {
    if n > 0 {
      ScaleNeg(n - 1, c, x.lo);
      ScaleNeg(n - 1, c, x.hi);
    }
  }

  lemma {:induction false} NegAdd(n: nat, x: MV, y: MV)
    requires Has(n, x) && Has(n, y)
    ensures Neg(n, Add(n, x, y)) == Add(n, Neg(n, x), Neg(n, y))
  {
    if n > 0 {
      NegAdd(n - 1, x.lo, y.lo);
      NegAdd(n - 1, x.hi, y.hi);
    }
  }

  lemma {:induction false} ZeroFixed(n: nat)
    ensures Neg(n, Zero(n)) == Zero(n)
    ensures Invo(n, Zero(n)) == Zero(n)
    ensures Reverse(n, Zero(n)) == Zero(n)
  {
    if n > 0 {
      ZeroFixed(n - 1);
    }
  }

  lemma {:induction false} ScaleOfZero(n: nat, c: real)
    ensures Scale(n, c, Zero(n)) == Zero(n)
  {
    if n > 0 {
      ScaleOfZero(n - 1, c);
    }
  }

  lemma {:induction false} HalfAdd(n: nat, x: MV, y: MV)
    requires Has(n, x) && Has(n, y)
    ensures Half(n, Add(n, x, y)) == Add(n, Half(n, x), Half(n, y))
  {
    if n > 0 {
      HalfAdd(n - 1, x.lo, y.lo);
      HalfAdd(n - 1, x.hi, y.hi);
    }
  }

  lemma {:induction false} HalfScale(n: nat, c: real, x: MV)
    requires Has(n, x)
    ensures Half(n, Scale(n, c, x)) == Scale(n, c, Half(n, x))
  {
    if n > 0 {
      HalfScale(n - 1, c, x.lo);
      HalfScale(n - 1, c, x.hi);
    }
  }

  lemma {:induction false} HalfIsScale(n: nat, c: real, x: MV)
    requires Has(n, x) && c == 0.5
    ensures Half(n, x) == Scale(n, c, x)
  {
    if n > 0 {
      HalfIsScale(n - 1, c, x.lo);
      HalfIsScale(n - 1, c, x.hi);
    }
  }

  // ---------------------------------------------------------------- linear maps

  lemma {:induction false} WedgeAdd(v: Vec, x: MV, y: MV)
    requires Has(|v|, x) && Has(|v|, y)
    ensures Wedge(v, Add(|v|, x, y)) == Add(|v|, Wedge(v, x), Wedge(v, y))
  {
    if |v| > 0 {
      var n, w := |v| - 1, v[1..];
      assert Add(|v|, x, y) == Node(Add(n, x.lo, y.lo), Add(n, x.hi, y.hi));
      WedgeAdd(w, x.lo, y.lo);
      WedgeAdd(w, x.hi, y.hi);
      ScaleAdd(n, v[0], x.lo, y.lo);
      NegAdd(n, Wedge(w, x.hi), Wedge(w, y.hi));
      AddSwap(n, Scale(n, v[0], x.lo), Scale(n, v[0], y.lo), Neg(n, Wedge(w, x.hi)), Neg(n, Wedge(w, y.hi)));
    }
  }

  lemma {:induction false} WedgeScale(v: Vec, c: real, x: MV)
    requires Has(|v|, x)
    ensures Wedge(v, Scale(|v|, c, x)) == Scale(|v|, c, Wedge(v, x))
  {
    if |v| > 0 {
      var n, w := |v| - 1, v[1..];
      WedgeScale(w, c, x.lo);
      WedgeScale(w, c, x.hi);
      ScaleAdd(n, c, Scale(n, v[0], x.lo), Neg(n, Wedge(w, x.hi)));
      ScaleComm(n, c, v[0], x.lo);
      ScaleNeg(n, c, Wedge(w, x.hi));
    }
  }

  lemma {:induction false} WedgeNeg(v: Vec, x: MV)
    requires Has(|v|, x)
    ensures Wedge(v, Neg(|v|, x)) == Neg(|v|, Wedge(v, x))
  {
    WedgeScale(v, -1.0, x);
    ScaleSpecial(|v|, x);
    ScaleSpecial(|v|, Wedge(v, x));
  }

  lemma {:induction false} ContractAdd(g: Vec, x: MV, y: MV)
    requires Has(|g|, x) && Has(|g|, y)
    ensures Contract(g, Add(|g|, x, y)) == Add(|g|, Contract(g, x), Contract(g, y))
  {
    if |g| > 0 {
      var n, h := |g| - 1, g[1..];
      assert Add(|g|, x, y) == Node(Add(n, x.lo, y.lo), Add(n, x.hi, y.hi));
      ContractAdd(h, x.lo, y.lo);
      ContractAdd(h, x.hi, y.hi);
      ScaleAdd(n, g[0], x.hi, y.hi);
      NegAdd(n, Contract(h, x.hi), Contract(h, y.hi));
      AddSwap(n, Contract(h, x.lo), Contract(h, y.lo), Scale(n, g[0], x.hi), Scale(n, g[0], y.hi));
    }
  }

  lemma {:induction false} ContractScale(g: Vec, c: real, x: MV)
    requires Has(|g|, x)
    ensures Contract(g, Scale(|g|, c, x)) == Scale(|g|, c, Contract(g, x))
  {
    if |g| > 0 {
      var n, h := |g| - 1, g[1..];
      ContractScale(h, c, x.lo);
      ContractScale(h, c, x.hi);
      ScaleAdd(n, c, Contract(h, x.lo), Scale(n, g[0], x.hi));
      ScaleComm(n, c, g[0], x.hi);
      ScaleNeg(n, c, Contract(h, x.hi));
    }
  }

  lemma {:induction false} ContractNeg(g: Vec, x: MV)
    requires Has(|g|, x)
    ensures Contract(g, Neg(|g|, x)) == Neg(|g|, Contract(g, x))
  {
    ContractScale(g, -1.0, x);
    ScaleSpecial(|g|, x);
    ScaleSpecial(|g|, Contract(g, x));
  }

  lemma {:induction false} InvoAdd(n: nat, x: MV, y: MV)
    requires Has(n, x) && Has(n, y)
    ensures Invo(n, Add(n, x, y)) == Add(n, Invo(n, x), Invo(n, y))
  {
    if n > 0 {
      InvoAdd(n - 1, x.lo, y.lo);
      InvoAdd(n - 1, x.hi, y.hi);
      NegAdd(n - 1, Invo(n - 1, x.hi), Invo(n - 1, y.hi));
    }
  }

  lemma {:induction false} InvoScale(n: nat, c: real, x: MV)
    requires Has(n, x)
    ensures Invo(n, Scale(n, c, x)) == Scale(n, c, Invo(n, x))
  {
    if n > 0 {
      InvoScale(n - 1, c, x.lo);
      InvoScale(n - 1, c, x.hi);
      ScaleNeg(n - 1, c, Invo(n - 1, x.hi));
    }
  }

  lemma {:induction false} InvoNeg(n: nat, x: MV)
    requires Has(n, x)
    ensures Invo(n, Neg(n, x)) == Neg(n, Invo(n, x))
  {
    InvoScale(n, -1.0, x);
    ScaleSpecial(n, x);
    ScaleSpecial(n, Invo(n, x));
  }

  lemma {:induction false} InvoInvo(n: nat, x: MV)
    requires Has(n, x)
    ensures Invo(n, Invo(n, x)) == x
  {
    if n > 0 {
      InvoInvo(n - 1, x.lo);
      InvoInvo(n - 1, x.hi);
      InvoNeg(n - 1, Invo(n - 1, x.hi));
      ScaleSpecial(n - 1, x.hi);
    }
  }

  lemma {:induction false} ReverseAdd(n: nat, x: MV, y: MV)
    requires Has(n, x) && Has(n, y)
    ensures Reverse(n, Add(n, x, y)) == Add(n, Reverse(n, x), Reverse(n, y))
  {
    if n > 0 {
      ReverseAdd(n - 1, x.lo, y.lo);
      ReverseAdd(n - 1, x.hi, y.hi);
      InvoAdd(n - 1, Reverse(n - 1, x.hi), Reverse(n - 1, y.hi));
    }
  }

  lemma {:induction false} ReverseScale(n: nat, c: real, x: MV)
    requires Has(n, x)
    ensures Reverse(n, Scale(n, c, x)) == Scale(n, c, Reverse(n, x))
  {
    if n > 0 {
      ReverseScale(n - 1, c, x.lo);
      ReverseScale(n - 1, c, x.hi);
      InvoScale(n - 1, c, Reverse(n - 1, x.hi));
    }
  }

  lemma {:induction false} ReverseNeg(n: nat, x: MV)
    requires Has(n, x)
    ensures Reverse(n, Neg(n, x)) == Neg(n, Reverse(n, x))
  {
    ReverseScale(n, -1.0, x);
    ScaleSpecial(n, x);
    ScaleSpecial(n, Reverse(n, x));
  }

  // ---------------------------------------------------------------- anticommutation

  /** u ∧ (v ∧ x) + v ∧ (u ∧ x) == 0 */
  lemma {:induction false} WedgeAnti(u: Vec, v: Vec, x: MV)
    requires |u| == |v| && Has(|v|, x)
    ensures Wedge(u, Wedge(v, x)) == Neg(|v|, Wedge(v, Wedge(u, x)))
  {
    if |v| > 0 {
      var n := |v| - 1;
      var u', v' := u[1..], v[1..];
      WedgeAnti(u', v', x.lo);
      WedgeAnti(u', v', x.hi);
      var a, b := Wedge(u', x.hi), Wedge(v', x.hi);
      WedgeAdd(u', Scale(n, v[0], x.lo), Neg(n, b));
      WedgeAdd(v', Scale(n, u[0], x.lo), Neg(n, a));
      WedgeScale(u', v[0], x.lo);
      WedgeScale(v', u[0], x.lo);
      WedgeNeg(u', b);
      WedgeNeg(v', a);
      WedgeAntiHi(n, Scale(n, u[0], Wedge(v', x.lo)), Scale(n, v[0], Wedge(u', x.lo)),
                  Wedge(u', b), Wedge(v', a));
    }
  }

  lemma {:induction false} WedgeAntiHi(n: nat, a: MV, b: MV, s: MV, t: MV)
    requires Has(n, a) && Has(n, b) && Has(n, s) && Has(n, t) && s == Neg(n, t)
    ensures Add(n, a, Neg(n, Add(n, b, Neg(n, s)))) == Neg(n, Add(n, b, Neg(n, Add(n, a, Neg(n, t)))))
  {
    if n > 0 {
      WedgeAntiHi(n - 1, a.lo, b.lo, s.lo, t.lo);
      WedgeAntiHi(n - 1, a.hi, b.hi, s.hi, t.hi);
    }
  }

  /** The parts of a repeated contraction. */
  lemma {:induction false} ContractTwice(g: Vec, h: Vec, x: MV)
    requires |g| == |h| > 0 && Has(|h|, x)
    ensures var n := |h| - 1;
      var z := Contract(g, Contract(h, x));
      && z.lo == Add(n, Add(n, Contract(g[1..], Contract(h[1..], x.lo)), Scale(n, h[0], Contract(g[1..], x.hi))),
                     Neg(n, Scale(n, g[0], Contract(h[1..], x.hi))))
      && z.hi == Contract(g[1..], Contract(h[1..], x.hi))
  {
    var n := |h| - 1;
    var g', h' := g[1..], h[1..];
    var b := Contract(h', x.hi);
    ContractAdd(g', Contract(h', x.lo), Scale(n, h[0], x.hi));
    ContractScale(g', h[0], x.hi);
    ContractNeg(g', b);
    ScaleNeg(n, g[0], b);
    ScaleSpecial(n, Contract(g', b));
  }

  /** g⌋(h⌋x) + h⌋(g⌋x) == 0 */
  lemma {:induction false} ContractAnti(g: Vec, h: Vec, x: MV)
    requires |g| == |h| && Has(|h|, x)
    ensures Contract(g, Contract(h, x)) == Neg(|h|, Contract(h, Contract(g, x)))
  {
    if |h| > 0 {
      var n := |h| - 1;
      var g', h' := g[1..], h[1..];
      ContractAnti(g', h', x.lo);
      ContractAnti(g', h', x.hi);
      ContractTwice(g, h, x);
      ContractTwice(h, g, x);
      ContractAntiLo(n, Contract(g', Contract(h', x.lo)), Contract(h', Contract(g', x.lo)),
                     Scale(n, h[0], Contract(g', x.hi)), Scale(n, g[0], Contract(h', x.hi)));
    }
  }

  lemma {:induction false} ContractAntiLo(n: nat, s: MV, t: MV, a: MV, b: MV)
    requires Has(n, a) && Has(n, b) && Has(n, s) && Has(n, t) && s == Neg(n, t)
    ensures Add(n, Add(n, s, a), Neg(n, b)) == Neg(n, Add(n, Add(n, t, b), Neg(n, a)))
  {
    if n > 0 {
      ContractAntiLo(n - 1, s.lo, t.lo, a.lo, b.lo);
      ContractAntiLo(n - 1, s.hi, t.hi, a.hi, b.hi);
    }
  }

  lemma {:induction false} WedgeNode(v: Vec, lo: MV, hi: MV)
    requires |v| > 0 && Has(|v| - 1, lo) && Has(|v| - 1, hi)
    ensures var n := |v| - 1;
      Wedge(v, Node(lo, hi)) == Node(Wedge(v[1..], lo), Add(n, Scale(n, v[0], lo), Neg(n, Wedge(v[1..], hi))))
  {}

  lemma {:induction false} ContractNode(g: Vec, lo: MV, hi: MV)
    requires |g| > 0 && Has(|g| - 1, lo) && Has(|g| - 1, hi)
    ensures var n := |g| - 1;
      Contract(g, Node(lo, hi)) == Node(Add(n, Contract(g[1..], lo), Scale(n, g[0], hi)), Neg(n, Contract(g[1..], hi)))
  {}

  lemma {:induction false} AddNode(n: nat, a: MV, b: MV, c: MV, d: MV)
    requires Has(n, a) && Has(n, b) && Has(n, c) && Has(n, d)
    ensures Add(n + 1, Node(a, b), Node(c, d)) == Node(Add(n, a, c), Add(n, b, d))
  {}

  /** v ∧ (g⌋x) + g⌋(v ∧ x) */
  function Anticommutator(v: Vec, g: Vec, x: MV): (z: MV)
    requires |v| == |g| && Has(|v|, x)
    ensures Has(|v|, z)
  {
    Add(|v|, Wedge(v, Contract(g, x)), Contract(g, Wedge(v, x)))
  }

  lemma {:induction false} AnticommutatorLo(v: Vec, g: Vec, x: MV)
    requires |v| == |g| > 0 && Has(|v|, x)
    ensures Anticommutator(v, g, x).lo
         == Add(|v| - 1, Anticommutator(v[1..], g[1..], x.lo), Scale(|v| - 1, g[0], Scale(|v| - 1, v[0], x.lo)))
  {
    var n, w, h := |v| - 1, v[1..], g[1..];
    var y := Scale(n, v[0], x.lo);
    var a := Scale(n, g[0], Wedge(w, x.hi));
    hide Scale, Add, Neg, Wedge, Contract;
    WedgeNode(v, x.lo, x.hi);
    ContractNode(g, x.lo, x.hi);
    var c, d := Contract(g, x), Wedge(v, x);
    WedgeNode(v, c.lo, c.hi);
    ContractNode(g, d.lo, d.hi);
    var l, r := Wedge(v, c), Contract(g, d);
    AddNode(n, l.lo, l.hi, r.lo, r.hi);
    WedgeAdd(w, Contract(h, x.lo), Scale(n, g[0], x.hi));
    WedgeScale(w, g[0], x.hi);
    ScaleAdd(n, g[0], y, Neg(n, Wedge(w, x.hi)));
    ScaleNeg(n, g[0], Wedge(w, x.hi));
    CancelLo(n, Wedge(w, Contract(h, x.lo)), Contract(h, Wedge(w, x.lo)), a, Scale(n, g[0], y));
  }

  lemma {:induction false} CancelLo(n: nat, s: MV, t: MV, a: MV, y: MV)
    requires Has(n, s) && Has(n, t) && Has(n, a) && Has(n, y)
    ensures Add(n, Add(n, s, a), Add(n, t, Add(n, y, Neg(n, a)))) == Add(n, Add(n, s, t), y)
  {
    if n > 0 {
      CancelLo(n - 1, s.lo, t.lo, a.lo, y.lo);
      CancelLo(n - 1, s.hi, t.hi, a.hi, y.hi);
    }
  }

  lemma {:induction false} AnticommutatorHi(v: Vec, g: Vec, x: MV)
    requires |v| == |g| > 0 && Has(|v|, x)
    ensures Anticommutator(v, g, x).hi
         == Add(|v| - 1, Anticommutator(v[1..], g[1..], x.hi), Scale(|v| - 1, v[0], Scale(|v| - 1, g[0], x.hi)))
  {
    var n, w, h := |v| - 1, v[1..], g[1..];
    var y := Scale(n, g[0], x.hi);
    var p := Scale(n, v[0], Contract(h, x.lo));
    hide Scale, Add, Neg, Wedge, Contract;
    WedgeNode(v, x.lo, x.hi);
    ContractNode(g, x.lo, x.hi);
    var c, d := Contract(g, x), Wedge(v, x);
    WedgeNode(v, c.lo, c.hi);
    ContractNode(g, d.lo, d.hi);
    var l, r := Wedge(v, c), Contract(g, d);
    AddNode(n, l.lo, l.hi, r.lo, r.hi);
    WedgeNeg(w, Contract(h, x.hi));
    ContractAdd(h, Scale(n, v[0], x.lo), Neg(n, Wedge(w, x.hi)));
    ContractScale(h, v[0], x.lo);
    ContractNeg(h, Wedge(w, x.hi));
    ScaleAdd(n, v[0], Contract(h, x.lo), y);
    CancelHi(n, p, Scale(n, v[0], y), Wedge(w, Contract(h, x.hi)), Contract(h, Wedge(w, x.hi)));
  }

  lemma {:induction false} CancelHi(n: nat, p: MV, y: MV, s: MV, t: MV)
    requires Has(n, p) && Has(n, y) && Has(n, s) && Has(n, t)
    ensures Add(n, Add(n, Add(n, p, y), Neg(n, Neg(n, s))), Neg(n, Add(n, p, Neg(n, t)))) == Add(n, Add(n, s, t), y)
  {
    if n > 0 {
      CancelHi(n - 1, p.lo, y.lo, s.lo, t.lo);
      CancelHi(n - 1, p.hi, y.hi, s.hi, t.hi);
    }
  }

  lemma {:induction false} DotStep(n: nat, a: real, b: real, d: real, x: MV)
    requires Has(n, x)
    ensures Scale(n, a * b + d, x) == Add(n, Scale(n, d, x), Scale(n, a, Scale(n, b, x)))
                                   == Add(n, Scale(n, d, x), Scale(n, b, Scale(n, a, x)))
  {
    hide Scale, Add, Has;
    ScalePlus(n, d, a * b, x);
    assert d + a * b == a * b + d;
    ScaleScale(n, a, b, x);
    ScaleComm(n, a, b, x);
  }

  lemma {:induction false} ScaleNode(n: nat, c: real, lo: MV, hi: MV)
    requires Has(n, lo) && Has(n, hi)
    ensures Scale(n + 1, c, Node(lo, hi)) == Node(Scale(n, c, lo), Scale(n, c, hi))
  {}

  lemma {:induction false} WedgeContractStep(v: Vec, g: Vec, x: MV, v0: real, g0: real, d: real, e: real)
    requires |v| == |g| > 0 && Has(|v|, x)
    requires v0 == v[0] && g0 == g[0] && d == Dot(v[1..], g[1..]) && e == v0 * g0 + d
    requires Anticommutator(v[1..], g[1..], x.lo) == Scale(|v| - 1, d, x.lo)
    requires Anticommutator(v[1..], g[1..], x.hi) == Scale(|v| - 1, d, x.hi)
    ensures Anticommutator(v, g, x) == Scale(|v|, e, x)
  {
    hide Scale, Add, Dot, Anticommutator;
    var n := |v| - 1;
    AnticommutatorLo(v, g, x);
    AnticommutatorHi(v, g, x);
    DotStep(n, v0, g0, d, x.lo);
    DotStep(n, v0, g0, d, x.hi);
    ScaleNode(n, v0 * g0 + d, x.lo, x.hi);
  }

  /** v ∧ (g⌋x) + g⌋(v ∧ x) == (v·g) x */
  lemma {:induction false} WedgeContract(v: Vec, g: Vec, x: MV)
    requires |v| == |g| && Has(|v|, x)
    ensures Anticommutator(v, g, x) == Scale(|v|, Dot(v, g), x)
  {
    hide Add, Neg, Wedge, Contract;
    if |v| > 0 {
      hide Scale, Anticommutator;
      WedgeContract(v[1..], g[1..], x.lo);
      WedgeContract(v[1..], g[1..], x.hi);
      WedgeContractStep(v, g, x, v[0], g[0], Dot(v[1..], g[1..]), Dot(v, g));
    } else {
      AnticommutatorOfScalar(v, g, x);
    }
  }

  lemma {:induction false} AnticommutatorOfScalar(v: Vec, g: Vec, x: MV)
    requires |v| == |g| == 0 && Has(0, x)
    ensures Anticommutator(v, g, x) == Scale(0, Dot(v, g), x)
  {}

  lemma {:induction false} InvoWedge(v: Vec, x: MV)
    requires Has(|v|, x)
    ensures Invo(|v|, Wedge(v, x)) == Neg(|v|, Wedge(v, Invo(|v|, x)))
  {
    if |v| > 0 {
      var n, w := |v| - 1, v[1..];
      InvoWedge(w, x.lo);
      InvoWedge(w, x.hi);
      InvoAdd(n, Scale(n, v[0], x.lo), Neg(n, Wedge(w, x.hi)));
      InvoScale(n, v[0], x.lo);
      InvoNeg(n, Wedge(w, x.hi));
      WedgeNeg(w, Invo(n, x.hi));
    }
  }

  lemma {:induction false} InvoContract(g: Vec, x: MV)
    requires Has(|g|, x)
    ensures Invo(|g|, Contract(g, x)) == Neg(|g|, Contract(g, Invo(|g|, x)))
  {
    if |g| > 0 {
      var n, h := |g| - 1, g[1..];
      InvoContract(h, x.lo);
      InvoContract(h, x.hi);
      InvoAdd(n, Contract(h, x.lo), Scale(n, g[0], x.hi));
      InvoScale(n, g[0], x.hi);
      InvoNeg(n, Contract(h, x.hi));
      ContractNeg(h, Invo(n, x.hi));
      var a, b := Contract(h, Invo(n, x.lo)), Scale(n, g[0], Invo(n, x.hi));
      ScaleNeg(n, g[0], Invo(n, x.hi));
      NegAdd(n, a, Neg(n, b));
      ScaleSpecial(n, b);
    }
  }

  /** (v ∧ x)~ == x~ ∧ v, where y ∧ v == v ∧ y^. */
  lemma {:induction false} ReverseWedge(v: Vec, x: MV)
    requires Has(|v|, x)
    ensures Reverse(|v|, Wedge(v, x)) == Wedge(v, Invo(|v|, Reverse(|v|, x)))
  {
    if |v| > 0 {
      var n, w := |v| - 1, v[1..];
      var lo, hi := Reverse(n, x.lo), Reverse(n, x.hi);
      ReverseWedge(w, x.lo);
      ReverseWedge(w, x.hi);
      ReverseAdd(n, Scale(n, v[0], x.lo), Neg(n, Wedge(w, x.hi)));
      ReverseScale(n, v[0], x.lo);
      ReverseNeg(n, Wedge(w, x.hi));
      InvoAdd(n, Scale(n, v[0], lo), Neg(n, Wedge(w, Invo(n, hi))));
      InvoScale(n, v[0], lo);
      InvoNeg(n, Wedge(w, Invo(n, hi)));
      InvoWedge(w, Invo(n, hi));
      InvoInvo(n, hi);
      WedgeNeg(w, hi);
    }
  }

  /** (g⌋x)~ == x~⌞g, where y⌞g == -(g⌋y^). */
  lemma {:induction false} ReverseContract(g: Vec, x: MV)
    requires Has(|g|, x)
    ensures Reverse(|g|, Contract(g, x)) == Neg(|g|, Contract(g, Invo(|g|, Reverse(|g|, x))))
  {
    if |g| > 0 {
      var n, h := |g| - 1, g[1..];
      var lo, hi := Reverse(n, x.lo), Reverse(n, x.hi);
      ReverseContract(h, x.lo);
      ReverseContract(h, x.hi);
      ReverseAdd(n, Contract(h, x.lo), Scale(n, g[0], x.hi));
      ReverseScale(n, g[0], x.hi);
      ReverseNeg(n, Contract(h, x.hi));
      InvoNeg(n, Neg(n, Contract(h, Invo(n, hi))));
      InvoNeg(n, Contract(h, Invo(n, hi)));
      InvoContract(h, Invo(n, hi));
      InvoInvo(n, hi);
      ContractNeg(h, hi);
      ScaleNeg(n, g[0], hi);
      var a, b := Contract(h, Invo(n, lo)), Scale(n, g[0], hi);
      NegAdd(n, a, Neg(n, b));
      ScaleSpecial(n, b);
      ScaleSpecial(n, Contract(h, hi));
    }
  }
}
