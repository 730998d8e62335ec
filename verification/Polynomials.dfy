/**
 Polynomials over atoms (Monomial, Polynomial and the arithmetic of PolynomialBuilder
 in geomalg/lib/Geomalg/Passes.cpp), in exact arithmetic.

 A monomial gives atoms their nonzero exponents, a polynomial gives monomials
 their nonzero coefficients.
 */
module Polynomials {
  import opened Options
  import opened RealProducts

  type Monomial = map<nat, int>

  type Polynomial = map<Monomial, real>

  /** The values of the atoms. */
  type Env = seq<real>

  // ---------------------------------------------------------------- powers

  function Pow(x: real, e: int): real
    decreases if e < 0 then -e else e
  {
    if e == 0 then 1.0
    else if e > 0 then Mul(x, Pow(x, e - 1))
    else if x == 0.0 then 0.0
    else Pow(x, e + 1) / x
  }

  lemma {:induction false} PowUp(x: real, e: int)
    requires x != 0.0
    ensures Pow(x, e + 1) == Mul(x, Pow(x, e))
  {
    if e < 0 {
      var p := Pow(x, e + 1);
      assert Mul(x, p / x) == p;
    }
  }

  /** x^(a+b) == x^a x^b, unless 0 is to be inverted. */
  lemma {:induction false} PowAdd(x: real, a: int, b: int)
    requires x != 0.0 || (a >= 0 && b >= 0)
    ensures Pow(x, a + b) == Mul(Pow(x, a), Pow(x, b))
    decreases if a < 0 then -a else a
  {
    hide Mul;
    if a == 0 {
      MulUnit(Pow(x, b));
    } else if a > 0 {
      PowAdd(x, a - 1, b);
      MulAssoc(x, Pow(x, a - 1), Pow(x, b));
      if x != 0.0 {
        PowUp(x, a - 1 + b);
      }
    } else {
      PowAdd(x, a + 1, b);
      PowUp(x, a + b);
      PowUp(x, a);
      MulAssoc(x, Pow(x, a), Pow(x, b));
      CancelLeft(x, Pow(x, a + b), Mul(Pow(x, a), Pow(x, b)));
    }
  }

  lemma {:induction false} CancelLeft(x: real, a: real, b: real)
    requires x != 0.0 && Mul(x, a) == Mul(x, b)
    ensures a == b
  {
    assert x * (a - b) == 0.0;
  }

  lemma {:induction false} MulNonzero(a: real, b: real)
    ensures Mul(a, b) != 0.0 <==> a != 0.0 && b != 0.0
  {
    if a != 0.0 && Mul(a, b) == 0.0 {
      CancelLeft(a, b, 0.0);
    }
  }

  lemma {:induction false} PowNonzero(x: real, e: int)
    ensures e > 0 ==> (Pow(x, e) != 0.0 <==> x != 0.0)
    ensures x != 0.0 ==> Pow(x, e) != 0.0
    decreases if e < 0 then -e else e
  {
    hide Mul;
    if e > 0 {
      PowNonzero(x, e - 1);
      MulNonzero(x, Pow(x, e - 1));
    } else if e < 0 && x != 0.0 {
      PowNonzero(x, e + 1);
      PowUp(x, e);
      MulNonzero(x, Pow(x, e));
    }
  }

  // ---------------------------------------------------------------- monomials

  function At(env: Env, id: nat): real { if id < |env| then env[id] else 0.0 }

  ghost predicate IsMonomial(m: Monomial) { forall id :: id in m ==> m[id] != 0 }

  function Exponent(m: Monomial, id: nat): int { if id in m then m[id] else 0 }

  /** The monomial with another exponent. */
  function WithExponent(m: Monomial, id: nat, e: int): (r: Monomial)
    ensures IsMonomial(m) ==> IsMonomial(r)
    ensures forall j :: Exponent(r, j) == if j == id then e else Exponent(m, j)
  {
    if e == 0 then m - {id} else m[id := e]
  }

  /** m times a power of an atom. */
  function Times(m: Monomial, id: nat, e: int): (r: Monomial)
    ensures IsMonomial(m) ==> IsMonomial(r)
    ensures forall j :: Exponent(r, j) == if j == id then Exponent(m, id) + e else Exponent(m, j)
  {
    WithExponent(m, id, Exponent(m, id) + e)
  }

  lemma {:induction false} SameMonomial(m: Monomial, k: Monomial)
    requires IsMonomial(m) && IsMonomial(k) && forall j :: Exponent(m, j) == Exponent(k, j)
    ensures m == k
  {
    forall j ensures j in m <==> j in k {
      assert Exponent(m, j) == Exponent(k, j);
    }
    assert forall j :: j in m ==> m[j] == k[j] by {
      forall j | j in m ensures m[j] == k[j] {
        assert Exponent(m, j) == Exponent(k, j);
      }
    }
  }

  /** No atom that is zero is inverted. */
  ghost predicate Defined(env: Env, m: Monomial) {
    forall id :: id in m && m[id] < 0 ==> At(env, id) != 0.0
  }

  ghost function MonomialValue(env: Env, m: Monomial): real
    decreases |m|
  {
    if m == map[] then 1.0 else
      var id :| id in m;
      Mul(Pow(At(env, id), m[id]), MonomialValue(env, m - {id}))
  }

  lemma {:induction false} DropBoth<V>(m: map<nat, V>, i: nat, j: nat)
    ensures m - {i} - {j} == m - {j} - {i}
  {}

  lemma {:induction false} MonomialRemove(env: Env, m: Monomial, id: nat)
    requires id in m
    ensures MonomialValue(env, m) == Mul(Pow(At(env, id), m[id]), MonomialValue(env, m - {id}))
    decreases |m|
  {
    hide Mul, Pow;
    var j :| j in m && MonomialValue(env, m) == Mul(Pow(At(env, j), m[j]), MonomialValue(env, m - {j}));
    if id != j {
      MonomialRemove(env, m - {j}, id);
      MonomialRemove(env, m - {id}, j);
      DropBoth(m, id, j);
      MulSwap(Pow(At(env, id), m[id]), Pow(At(env, j), m[j]), MonomialValue(env, m - {id} - {j}));
    }
  }

  /** The value of a monomial by the power of one atom, which may not occur. */
  lemma {:induction false} MonomialSplit(env: Env, m: Monomial, id: nat)
    ensures MonomialValue(env, m) == Mul(Pow(At(env, id), Exponent(m, id)), MonomialValue(env, m - {id}))
  {
    if id in m {
      MonomialRemove(env, m, id);
    } else {
      assert m - {id} == m;
      MulUnit(MonomialValue(env, m));
    }
  }

  lemma {:induction false} DropWith(m: Monomial, id: nat, e: int)
    ensures WithExponent(m, id, e) - {id} == m - {id}
  {}

  lemma {:induction false} TimesValue(env: Env, m: Monomial, id: nat, e: int)
    requires At(env, id) != 0.0 || (Exponent(m, id) >= 0 && e >= 0)
    ensures MonomialValue(env, Times(m, id, e)) == Mul(Pow(At(env, id), e), MonomialValue(env, m))
  {
    hide Mul, Pow;
    var r, x, rest := Times(m, id, e), At(env, id), MonomialValue(env, m - {id});
    MonomialSplit(env, m, id);
    MonomialSplit(env, r, id);
    DropWith(m, id, Exponent(m, id) + e);
    PowAdd(x, e, Exponent(m, id));
    MulAssoc(Pow(x, e), Pow(x, Exponent(m, id)), rest);
  }

  /** A monomial that is not zero has no atom that is zero. */
  lemma {:induction false} AtomsNonzero(env: Env, m: Monomial, id: nat)
    requires IsMonomial(m) && Defined(env, m) && id in m && MonomialValue(env, m) != 0.0
    ensures At(env, id) != 0.0
  {
    MonomialRemove(env, m, id);
    MulNonzero(Pow(At(env, id), m[id]), MonomialValue(env, m - {id}));
    PowNonzero(At(env, id), m[id]);
  }

  /** The product of two monomials. */
  ghost function Product(m: Monomial, k: Monomial): (r: Monomial)
    ensures IsMonomial(m) && IsMonomial(k) ==> IsMonomial(r)
    ensures forall j :: Exponent(r, j) == Exponent(m, j) + Exponent(k, j)
    decreases |k|
  {
    if k == map[] then m else
      var id :| id in k;
      Times(Product(m, k - {id}), id, k[id])
  }

  lemma {:induction false} ProductDefined(env: Env, m: Monomial, k: Monomial)
    requires Defined(env, m) && Defined(env, k)
    ensures Defined(env, Product(m, k))
  {
    var r := Product(m, k);
    forall id | id in r && r[id] < 0 ensures At(env, id) != 0.0 {
      assert Exponent(r, id) == Exponent(m, id) + Exponent(k, id);
    }
  }

  lemma {:induction false} PickFactor(m: Monomial, k: Monomial) returns (id: nat)
    requires k != map[]
    ensures id in k && Product(m, k) == Times(Product(m, k - {id}), id, k[id])
  {
    hide Times, Exponent;
    id :| id in k && Product(m, k) == Times(Product(m, k - {id}), id, k[id]);
  }

  lemma {:induction false} ProductStep(env: Env, m: Monomial, k: Monomial, id: nat)
    requires Defined(env, m) && Defined(env, k) && id in k
    ensures Defined(env, k - {id})
    ensures At(env, id) != 0.0 || (Exponent(Product(m, k - {id}), id) >= 0 && k[id] >= 0)
  {
    assert Exponent(k - {id}, id) == 0;
  }

  lemma {:induction false} ProductValue(env: Env, m: Monomial, k: Monomial)
    requires Defined(env, m) && Defined(env, k)
    ensures MonomialValue(env, Product(m, k)) == Mul(MonomialValue(env, m), MonomialValue(env, k))
    decreases |k|
  {
    hide Mul, Pow, Times, At, Defined;
    if k == map[] {
      MulUnit(MonomialValue(env, m));
    } else {
      hide MonomialValue, Product;
      var id := PickFactor(m, k);
      var rest := k - {id};
      ProductStep(env, m, k, id);
      ProductValue(env, m, rest);
      TimesValue(env, Product(m, rest), id, k[id]);
      MonomialRemove(env, k, id);
      MulSwap(Pow(At(env, id), k[id]), MonomialValue(env, m), MonomialValue(env, rest));
    }
  }

  // ---------------------------------------------------------------- polynomials

  /** Coefficients are not zero and nothing that is zero is inverted. */
  ghost predicate WellFormed(env: Env, p: Polynomial) {
    forall m :: m in p ==> p[m] != 0.0 && IsMonomial(m) && Defined(env, m)
  }

  ghost function Value(env: Env, p: Polynomial): real
    decreases |p|
  {
    if p == map[] then 0.0 else
      var m :| m in p;
      Mul(p[m], MonomialValue(env, m)) + Value(env, p - {m})
  }

  lemma {:induction false} DropTwo(p: Polynomial, m: Monomial, k: Monomial)
    ensures p - {m} - {k} == p - {k} - {m}
  {}

  lemma {:induction false} PickTerm(env: Env, p: Polynomial) returns (m: Monomial)
    requires p != map[]
    ensures m in p && Value(env, p) == Mul(p[m], MonomialValue(env, m)) + Value(env, p - {m})
  {
    m :| m in p && Value(env, p) == Mul(p[m], MonomialValue(env, m)) + Value(env, p - {m});
  }

  lemma {:induction false} ValueRemove(env: Env, p: Polynomial, m: Monomial)
    requires m in p
    ensures Value(env, p) == Mul(p[m], MonomialValue(env, m)) + Value(env, p - {m})
    decreases |p|
  {
    hide Mul, MonomialValue, Value;
    var k := PickTerm(env, p);
    if k != m {
      ValueRemove(env, p - {k}, m);
      ValueRemove(env, p - {m}, k);
      DropTwo(p, m, k);
    }
  }

  function Coefficient(p: Polynomial, m: Monomial): real { if m in p then p[m] else 0.0 }

  /** p with another coefficient of m: a zero coefficient removes the monomial. */
  function WithCoefficient(p: Polynomial, m: Monomial, c: real): Polynomial {
    if c == 0.0 then p - {m} else p[m := c]
  }

  lemma {:induction false} ValueSplit(env: Env, p: Polynomial, m: Monomial)
    ensures Value(env, p) == Mul(Coefficient(p, m), MonomialValue(env, m)) + Value(env, p - {m})
  {
    if m in p {
      ValueRemove(env, p, m);
    } else {
      assert p - {m} == p;
      MulUnit(MonomialValue(env, m));
    }
  }

  /** Adding c to the coefficient of a monomial adds c times the monomial. */
  lemma {:induction false} AddTermValue(env: Env, p: Polynomial, m: Monomial, c: real)
    ensures Value(env, WithCoefficient(p, m, Coefficient(p, m) + c)) == Value(env, p) + Mul(c, MonomialValue(env, m))
  {
    hide Mul, MonomialValue, Value;
    var d := Coefficient(p, m) + c;
    var r := WithCoefficient(p, m, d);
    assert Coefficient(r, m) == d;
    assert r - {m} == p - {m};
    ValueSplit(env, p, m);
    ValueSplit(env, r, m);
    MulAdd(MonomialValue(env, m), Coefficient(p, m), c);
  }

  /** The value does not depend on atoms that do not occur. */
  lemma {:induction false} MonomialOverAtoms(env: Env, more: Env, m: Monomial)
    requires env <= more && forall id :: id in m ==> id < |env|
    ensures MonomialValue(env, m) == MonomialValue(more, m) && (Defined(env, m) ==> Defined(more, m))
    decreases |m|
  {
    hide Mul, Pow;
    if m != map[] {
      var id :| id in m;
      MonomialRemove(env, m, id);
      MonomialRemove(more, m, id);
      MonomialOverAtoms(env, more, m - {id});
    }
  }

  /** All the atoms of a polynomial are among the first n. */
  ghost predicate Over(n: nat, p: Polynomial) {
    forall m, id :: m in p && id in m ==> id < n
  }

  lemma {:induction false} ValueOverAtoms(env: Env, more: Env, p: Polynomial)
    requires env <= more && Over(|env|, p)
    ensures Value(env, p) == Value(more, p) && (WellFormed(env, p) ==> WellFormed(more, p))
    decreases |p|
  {
    hide Mul, MonomialValue;
    if p != map[] {
      var m :| m in p;
      ValueRemove(env, p, m);
      ValueRemove(more, p, m);
      MonomialOverAtoms(env, more, m);
      ValueOverAtoms(env, more, p - {m});
      WellFormedParts(env, p, m);
      WellFormedParts(more, p, m);
    }
  }

  lemma {:induction false} WellFormedParts(env: Env, p: Polynomial, m: Monomial)
    requires m in p
    ensures WellFormed(env, p) <==> WellFormed(env, p - {m}) && p[m] != 0.0 && IsMonomial(m) && Defined(env, m)
  {
    forall k | k in p && k != m ensures k in p - {m} && (p - {m})[k] == p[k] {}
  }

  // ---------------------------------------------------------------- sums and products

  /** Coefficients and exponents are not zero. */
  ghost predicate IsPolynomial(p: Polynomial) { forall m :: m in p ==> p[m] != 0.0 && IsMonomial(m) }

  lemma {:induction false} SamePolynomial(p: Polynomial, q: Polynomial)
    requires IsPolynomial(p) && IsPolynomial(q) && forall m :: Coefficient(p, m) == Coefficient(q, m)
    ensures p == q
  {
    forall m ensures m in p <==> m in q {
      assert Coefficient(p, m) == Coefficient(q, m);
    }
    forall m | m in p ensures p[m] == q[m] {
      assert Coefficient(p, m) == Coefficient(q, m);
    }
  }

  /** P + C Q, coefficient by coefficient. */
  ghost function Plus(p: Polynomial, q: Polynomial, c: real): (r: Polynomial)
    ensures forall m :: Coefficient(r, m) == Coefficient(p, m) + Mul(c, Coefficient(q, m))
    ensures IsPolynomial(p) && IsPolynomial(q) ==> IsPolynomial(r)
  {
    assert Mul(c, 0.0) == 0.0;
    map m | m in p.Keys + q.Keys && Coefficient(p, m) + Mul(c, Coefficient(q, m)) != 0.0 ::
      Coefficient(p, m) + Mul(c, Coefficient(q, m))
  }

  function Inverted(m: Monomial): (r: Monomial)
    ensures IsMonomial(m) ==> IsMonomial(r)
    ensures forall j :: Exponent(r, j) == -Exponent(m, j)
  {
    map id | id in m :: -m[id]
  }

  lemma {:induction false} Undone(m: Monomial, k: Monomial)
    requires IsMonomial(m) && IsMonomial(k)
    ensures Product(Product(m, k), Inverted(m)) == k && Product(m, Product(k, Inverted(m))) == k
  {
    SameMonomial(Product(Product(m, k), Inverted(m)), k);
    SameMonomial(Product(m, Product(k, Inverted(m))), k);
  }

  /** C M Q, one monomial at a time. */
  ghost function Shifted(m: Monomial, c: real, q: Polynomial): Polynomial {
    map x | x in (set k | k in q :: Product(m, k)) && Product(x, Inverted(m)) in q ::
      Mul(c, q[Product(x, Inverted(m))])
  }

  lemma {:induction false} ShiftedAt(m: Monomial, c: real, q: Polynomial, k: Monomial)
    requires IsMonomial(m) && IsMonomial(k) && k in q
    ensures Product(m, k) in Shifted(m, c, q) && Shifted(m, c, q)[Product(m, k)] == Mul(c, q[k])
  {
    hide Mul, Product, Inverted, IsMonomial;
    Undone(m, k);
  }

  lemma {:induction false} ShiftedFrom(m: Monomial, c: real, q: Polynomial, x: Monomial) returns (k: Monomial)
    requires x in Shifted(m, c, q)
    ensures k in q && x == Product(m, k)
  {
    hide Mul, Product, Inverted;
    k :| k in q && x == Product(m, k);
  }

  lemma {:induction false} ShiftedIs(m: Monomial, c: real, q: Polynomial)
    requires IsMonomial(m) && IsPolynomial(q) && c != 0.0
    ensures IsPolynomial(Shifted(m, c, q))
  {
    hide Mul, Shifted, Product;
    forall x | x in Shifted(m, c, q)
      ensures IsMonomial(x) && Shifted(m, c, q)[x] != 0.0
    {
      var k := ShiftedFrom(m, c, q, x);
      ShiftedAt(m, c, q, k);
      ProductIsMonomial(m, k);
      MulNonzero(c, q[k]);
    }
  }

  lemma {:induction false} ProductIsMonomial(m: Monomial, k: Monomial)
    requires IsMonomial(m) && IsMonomial(k)
    ensures IsMonomial(Product(m, k))
  {}

  /** The sum of some rows of a product, and its rows so far. */
  ghost function Partial(p: Polynomial, q: Polynomial, ms: seq<Monomial>): Polynomial {
    if ms == [] then map[]
    else
      var m := ms[|ms| - 1];
      Plus(Partial(p, q, ms[..|ms| - 1]), Shifted(m, Coefficient(p, m), q), 1.0)
  }

  const MAX_TERMS := 64

  /** The product of P and Q with the monomials of P in the order of ms, which ends when it is too large. */
  ghost predicate IsProduct(p: Polynomial, q: Polynomial, ms: seq<Monomial>, r: Option<Polynomial>) {
    && (forall i :: 0 <= i < |ms| ==> ms[i] in p && |Partial(p, q, ms[..i])| <= 64)
    && (forall i, j :: 0 <= i < j < |ms| ==> ms[i] != ms[j])
    && if |Partial(p, q, ms)| > 64 then r.None? else r == Some(Partial(p, q, ms)) && |ms| == |p|
  }

  // ---------------------------------------------------------------- cancellation

  /** An addition of C Q to P, or of C M Q one monomial at a time. */
  datatype Event =
    | Added(p: Polynomial, q: Polynomial, c: real)
    | Row(p: Polynomial, m: Monomial, c: real, q: Polynomial)

  /** A coefficient that is there becomes zero. */
  ghost predicate TermCancels(p: Polynomial, m: Monomial, c: real) { m in p && p[m] + c == 0.0 }

  /** An exponent becomes zero. */
  ghost predicate FactorCancels(m: Monomial, k: Monomial) { exists id :: id in m && id in k && m[id] + k[id] == 0 }

  ghost predicate Cancels(e: Event) {
    match e
    case Added(p, q, c) => exists m :: m in q && TermCancels(p, m, Mul(c, q[m]))
    case Row(p, m, c, q) =>
      exists k :: k in q && (FactorCancels(m, k) || TermCancels(p, Product(m, k), Mul(c, q[k])))
  }

  /** A term cancels exactly when a monomial of an operand is missing in the sum. */
  lemma {:induction false} AddedCancels(p: Polynomial, q: Polynomial, c: real)
    requires IsPolynomial(p) && IsPolynomial(q) && c != 0.0
    ensures Cancels(Added(p, q, c)) <==> exists m :: m in p.Keys + q.Keys && m !in Plus(p, q, c)
  {
    hide IsMonomial, Mul;
    var r := Plus(p, q, c);
    MulUnit(c);
    forall m | m in q
      ensures TermCancels(p, m, Mul(c, q[m])) <==> m !in r
    {
      MulNonzero(c, q[m]);
      assert Coefficient(r, m) == Coefficient(p, m) + Mul(c, Coefficient(q, m));
      assert m in r ==> r[m] != 0.0;
    }
    forall m | m in p && m !in q
      ensures m in r
    {
      assert Coefficient(r, m) == p[m];
    }
    if Cancels(Added(p, q, c)) {
      var m :| m in q && TermCancels(p, m, Mul(c, q[m]));
      assert m in p.Keys + q.Keys && m !in r;
    }
  }

  /** A factor cancels exactly when an atom of an operand is missing in the product. */
  lemma {:induction false} FactorCancelsExactly(m: Monomial, k: Monomial)
    requires IsMonomial(m) && IsMonomial(k)
    ensures FactorCancels(m, k) <==> exists id :: id in m.Keys + k.Keys && id !in Product(m, k)
  {
    var r := Product(m, k);
    ProductIsMonomial(m, k);
    forall id | id in m.Keys + k.Keys
      ensures id !in r <==> id in m && id in k && m[id] + k[id] == 0
    {
      assert Exponent(r, id) == Exponent(m, id) + Exponent(k, id);
    }
    if FactorCancels(m, k) {
      var id :| id in m && id in k && m[id] + k[id] == 0;
      assert id in m.Keys + k.Keys && id !in r;
    }
  }

  ghost predicate AnyCancels(log: seq<Event>) { exists i :: 0 <= i < |log| && Cancels(log[i]) }

  lemma {:induction false} AnyCancelsSnoc(log: seq<Event>, e: Event)
    ensures AnyCancels(log + [e]) <==> AnyCancels(log) || Cancels(e)
  {
    hide Cancels;
    var more := log + [e];
    if AnyCancels(log) {
      var i :| 0 <= i < |log| && Cancels(log[i]);
      assert Cancels(more[i]);
    }
    if Cancels(e) { assert Cancels(more[|log|]); }
  }

  /** The rows of a product. */
  ghost function Rows(p: Polynomial, q: Polynomial, ms: seq<Monomial>): seq<Event> {
    if ms == [] then []
    else
      var k := |ms| - 1;
      Rows(p, q, ms[..k]) + [Row(Partial(p, q, ms[..k]), ms[k], Coefficient(p, ms[k]), q)]
  }
}
