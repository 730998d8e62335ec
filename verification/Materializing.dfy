/**
 Turning a polynomial back into operations (materializeAtom, materialize and the end of
 SimplifyPolynomial in geomalg/lib/Geomalg/Passes.cpp), in exact arithmetic.
 */
module Materializing {
  import opened Options
  import opened RealProducts
  import opened Polynomials
  import opened PolynomialBuilders

  /** Emitted operations over the values of a block. The original sorts factors and shares the value of an
      atom between its uses. */
  datatype Code =
    | Existing(v: nat)
    | Constant(ty: nat, c: real)
    | Multiplied(ty: nat, args: seq<Code>)
    | Inverse(arg: Code)
    | Negated(ty: nat, arg: Code)
    | Summed(ty: nat, args: seq<Code>)

  const SCALAR_TYPE: nat := 0

  /** The blade type of emitted operations. */
  function TypeOf(b: Block, e: Code): nat {
    match e
    case Existing(v) => if v < |b.types| then b.types[v] else SCALAR_TYPE
    case Constant(ty, _) => ty
    case Multiplied(ty, _) => ty
    case Inverse(_) => SCALAR_TYPE
    case Negated(ty, _) => ty
    case Summed(ty, _) => ty
  }

  /** The value of emitted operations. */
  ghost function CodeValue(b: Block, e: Code): real
    requires IsBlock(b)
    decreases e, 0
  {
    match e
    case Existing(v) => if v < |b.ops| then Eval(b, v) else 0.0
    case Constant(_, c) => c
    case Multiplied(_, args) => ProductValue(b, args)
    case Inverse(arg) => if CodeValue(b, arg) == 0.0 then 0.0 else 1.0 / CodeValue(b, arg)
    case Negated(_, arg) => -CodeValue(b, arg)
    case Summed(_, args) => SumValue(b, args)
  }

  ghost function ProductValue(b: Block, es: seq<Code>): real
    requires IsBlock(b)
    decreases es, 1
  {
    if es == [] then 1.0 else Mul(ProductValue(b, es[..|es| - 1]), CodeValue(b, es[|es| - 1]))
  }

  ghost function SumValue(b: Block, es: seq<Code>): real
    requires IsBlock(b)
    decreases es, 1
  {
    if es == [] then 0.0 else SumValue(b, es[..|es| - 1]) + CodeValue(b, es[|es| - 1])
  }

  lemma {:induction false} ProductSnoc(b: Block, es: seq<Code>, e: Code)
    requires IsBlock(b)
    ensures ProductValue(b, es + [e]) == Mul(ProductValue(b, es), CodeValue(b, e))
  {
    assert (es + [e])[..|es|] == es;
  }

  lemma {:induction false} ProductOne(b: Block, e: Code)
    requires IsBlock(b)
    ensures ProductValue(b, [e]) == CodeValue(b, e)
  {
    ProductSnoc(b, [], e);
    assert [] + [e] == [e];
    MulUnit(CodeValue(b, e));
  }

  lemma {:induction false} ProductConcat(b: Block, s: seq<Code>, t: seq<Code>)
    requires IsBlock(b)
    ensures ProductValue(b, s + t) == Mul(ProductValue(b, s), ProductValue(b, t))
    decreases |t|
  {
    hide Mul, CodeValue;
    if t == [] {
      assert s + t == s;
      MulUnit(ProductValue(b, s));
    } else {
      var r, e := t[..|t| - 1], t[|t| - 1];
      assert (s + t)[..|s + t| - 1] == s + r && (s + t)[|s + t| - 1] == e;
      ProductConcat(b, s, r);
      MulAssoc(ProductValue(b, s), ProductValue(b, r), CodeValue(b, e));
    }
  }

  // ---------------------------------------------------------------- terms

  /** createSumTerm for the type, the factors and the coefficient of a term: a single factor stands alone if it
      has the type. */
  function CreateTerm(b: Block, ty: nat, factors: seq<Code>, c: real): (r: Code)
    ensures TypeOf(b, r) == ty
  {
    if factors == [] then Constant(ty, c)
    else
      var a := if c < 0.0 then -c else c;
      var e :=
        if a == 1.0 && |factors| == 1 && TypeOf(b, factors[0]) == ty then factors[0]
        else Multiplied(ty, (if a != 1.0 then [Constant(SCALAR_TYPE, a)] else []) + factors);
      if c < 0.0 then Negated(ty, e) else e
  }

  lemma {:induction false} TermValue(b: Block, ty: nat, factors: seq<Code>, c: real)
    requires IsBlock(b)
    ensures CodeValue(b, CreateTerm(b, ty, factors, c)) == Mul(c, ProductValue(b, factors))
  {
    hide Mul, ProductValue;
    var p := ProductValue(b, factors);
    if factors == [] {
      EmptyProduct(b);
      MulUnit(c);
    } else {
      var a := if c < 0.0 then -c else c;
      MulNeg(c, p);
      MulUnit(p);
      MagnitudeValue(b, ty, factors, a);
      if |factors| == 1 {
        assert factors == [factors[0]];
        ProductOne(b, factors[0]);
      }
    }
  }

  /** A product with its magnitude, which is left out when it is 1. */
  lemma {:induction false} MagnitudeValue(b: Block, ty: nat, factors: seq<Code>, a: real)
    requires IsBlock(b)
    ensures CodeValue(b, Multiplied(ty, (if a != 1.0 then [Constant(SCALAR_TYPE, a)] else []) + factors)) ==
      Mul(a, ProductValue(b, factors))
  {
    hide Mul, ProductValue;
    if a != 1.0 {
      ProductConcat(b, [Constant(SCALAR_TYPE, a)], factors);
      ProductOne(b, Constant(SCALAR_TYPE, a));
    } else {
      assert [] + factors == factors;
      MulUnit(ProductValue(b, factors));
    }
  }

  // ---------------------------------------------------------------- atoms

  /** materializeAtom: an existing value, or the sum u + t w of earlier atoms. */
  function AtomCode(b: Block, atoms: seq<Atom>, id: nat): Code
    decreases id
  {
    if id >= |atoms| then Constant(SCALAR_TYPE, 0.0)
    else
      match atoms[id]
      case Value(v) => Existing(v)
      case Combined(u, w, t) =>
        if u < id && w < id then
          Summed(SCALAR_TYPE, [CreateTerm(b, SCALAR_TYPE, [AtomCode(b, atoms, u)], 1.0),
                               CreateTerm(b, SCALAR_TYPE, [AtomCode(b, atoms, w)], t)])
        else Constant(SCALAR_TYPE, 0.0)
  }

  lemma {:induction false} AtomValue(b: Block, atoms: seq<Atom>, env: Env, id: nat)
    requires IsBlock(b) && AreAtoms(b, atoms, env) && id < |atoms|
    ensures CodeValue(b, AtomCode(b, atoms, id)) == env[id]
    decreases id
  {
    hide Mul, CreateTerm, Eval;
    assert IsAtom(b, env[..id], atoms[id], env[id]);
    match atoms[id]
    case Value(v) =>
    case Combined(u, w, t) =>
      AtomValue(b, atoms, env, u);
      AtomValue(b, atoms, env, w);
      var x, y := AtomCode(b, atoms, u), AtomCode(b, atoms, w);
      TermValue(b, SCALAR_TYPE, [x], 1.0);
      TermValue(b, SCALAR_TYPE, [y], t);
      ProductOne(b, x);
      ProductOne(b, y);
      MulUnit(env[u]);
      TwoTerms(b, CreateTerm(b, SCALAR_TYPE, [x], 1.0), CreateTerm(b, SCALAR_TYPE, [y], t));
  }

  lemma {:induction false} TwoTerms(b: Block, x: Code, y: Code)
    requires IsBlock(b)
    ensures CodeValue(b, Summed(SCALAR_TYPE, [x, y])) == CodeValue(b, x) + CodeValue(b, y)
  {
    SumOne(b, x);
    SumSnoc(b, [x], y);
    assert [x] + [y] == [x, y];
  }

  lemma {:induction false} SumSnoc(b: Block, es: seq<Code>, e: Code)
    requires IsBlock(b)
    ensures SumValue(b, es + [e]) == SumValue(b, es) + CodeValue(b, e)
  {
    assert (es + [e])[..|es|] == es;
  }

  lemma {:induction false} SumOne(b: Block, e: Code)
    requires IsBlock(b)
    ensures SumValue(b, [e]) == CodeValue(b, e)
  {
    var none: seq<Code> := [];
    SumSnoc(b, none, e);
    assert none + [e] == [e];
  }

  // ---------------------------------------------------------------- monomials

  /** n copies of a factor at the end of a product. */
  method PushFactor(b: Block, es: seq<Code>, e: Code, n: nat) returns (r: seq<Code>)
    requires IsBlock(b)
    ensures ProductValue(b, r) == Mul(ProductValue(b, es), Pow(CodeValue(b, e), n))
    ensures n > 0 ==> r != []
  {
    r := es;
    MulUnit(ProductValue(b, es));
    for i := 0 to n
      invariant ProductValue(b, r) == Mul(ProductValue(b, es), Pow(CodeValue(b, e), i))
      invariant i > 0 ==> r != []
    {
      NextPower(CodeValue(b, e), i, ProductValue(b, es));
      ProductSnoc(b, r, e);
      r := r + [e];
    }
  }

  lemma {:induction false} NextPower(x: real, i: nat, y: real)
    ensures Mul(Mul(y, Pow(x, i)), x) == Mul(y, Pow(x, i + 1))
  {
    assert Pow(x, i + 1) == Mul(x, Pow(x, i));
    MulRegroup(y, Pow(x, i), x);
    MulSwap(y, x, Pow(x, i));
    MulComm(Mul(y, Pow(x, i)), x);
    MulSwap(x, y, Pow(x, i));
  }

  /** The product of the rest of a monomial with the factors so far stands for the monomial, when multiplied
      with the denominator. */
  ghost predicate Partial(env: Env, m: Monomial, rest: Monomial, n: real, d: real) {
    d != 0.0 && Mul(MonomialValue(env, m), d) == Mul(MonomialValue(env, rest), n)
  }

  lemma {:induction false} MoreNumerator(env: Env, m: Monomial, rest: Monomial, id: nat, n: real, d: real, p: real)
    requires Partial(env, m, rest, n, d) && id in rest && p == Pow(At(env, id), rest[id])
    ensures Partial(env, m, rest - {id}, Mul(n, p), d)
  {
    MonomialRemove(env, rest, id);
    MulRegroup(p, MonomialValue(env, rest - {id}), n);
  }

  lemma {:induction false} MulRegroup(p: real, r: real, n: real)
    ensures Mul(Mul(p, r), n) == Mul(r, Mul(n, p))
  {}

  lemma {:induction false} MoreDenominator(env: Env, m: Monomial, rest: Monomial, id: nat, n: real, d: real, p: real)
    requires Partial(env, m, rest, n, d) && id in rest && rest[id] < 0 && At(env, id) != 0.0
    requires p == Pow(At(env, id), -rest[id])
    ensures Partial(env, m, rest - {id}, n, Mul(d, p))
  {
    var x, e := At(env, id), rest[id];
    var q, r, v := Pow(x, e), MonomialValue(env, rest - {id}), MonomialValue(env, m);
    MonomialRemove(env, rest, id);
    PowAdd(x, e, -e);
    assert Pow(x, e + -e) == 1.0;
    PowNonzero(x, -e);
    MulNonzero(d, p);
    CancelPower(v, d, p, q, r, n);
  }

  lemma {:induction false} CancelPower(v: real, d: real, p: real, q: real, r: real, n: real)
    requires Mul(v, d) == Mul(Mul(q, r), n) && Mul(q, p) == 1.0
    ensures Mul(v, Mul(d, p)) == Mul(r, n)
  {
    assert v * (d * p) == (v * d) * p;
    assert ((q * r) * n) * p == (q * p) * (r * n);
  }

  /** materialize: the atoms with positive exponents, and the inverse of the product of the others. */
  method Materialize(b: Block, atoms: seq<Atom>, m: Monomial, k: real, ty: nat, ghost env: Env)
    returns (code: Code)
    requires IsBlock(b) && AreAtoms(b, atoms, env)
    requires IsMonomial(m) && Defined(env, m) && forall id :: id in m ==> id < |env|
    ensures CodeValue(b, code) == Mul(k, MonomialValue(env, m)) && TypeOf(b, code) == ty
  {
    hide Mul, CodeValue, CreateTerm, AreAtoms, ProductValue, MonomialValue, Pow;
    var factors: seq<Code>, denominator: seq<Code> := [], [];
    var rest: Monomial := m;
    NothingYet(b, env, m);
    while rest != map[]
      invariant IsMonomial(rest) && Defined(env, rest) && forall id :: id in rest ==> id < |env|
      invariant Partial(env, m, rest, ProductValue(b, factors), ProductValue(b, denominator))
      decreases |rest|
    {
      var id :| id in rest;
      AtomsCount(b, atoms, env);
      AtomValue(b, atoms, env, id);
      ghost var n, d := ProductValue(b, factors), ProductValue(b, denominator);
      if rest[id] > 0 {
        factors := PushFactor(b, factors, AtomCode(b, atoms, id), rest[id]);
        MoreNumerator(env, m, rest, id, n, d, Pow(At(env, id), rest[id]));
      } else {
        denominator := PushFactor(b, denominator, AtomCode(b, atoms, id), -rest[id]);
        MoreDenominator(env, m, rest, id, n, d, Pow(At(env, id), -rest[id]));
      }
      rest := rest - {id};
    }
    ghost var n, d := ProductValue(b, factors), ProductValue(b, denominator);
    EmptyMonomial(env, rest);
    if denominator != [] {
      var product := Denominator(b, denominator);
      ProductCode(b, denominator);
      InverseCode(b, product);
      ProductSnoc(b, factors, Code.Inverse(product));
      factors := factors + [Code.Inverse(product)];
      DividedBy(MonomialValue(env, m), n, d);
    } else {
      EmptyProduct(b);
      MulUnit(MonomialValue(env, m));
      MulUnit(n);
    }
    TermValue(b, ty, factors, k);
    code := CreateTerm(b, ty, factors, k);
  }

  /** The product of some factors, which a single scalar is by itself. */
  function Denominator(b: Block, es: seq<Code>): (r: Code)
    ensures TypeOf(b, r) == SCALAR_TYPE
  {
    if |es| == 1 && TypeOf(b, es[0]) == SCALAR_TYPE then es[0] else Multiplied(SCALAR_TYPE, es)
  }

  lemma {:induction false} NothingYet(b: Block, env: Env, m: Monomial)
    requires IsBlock(b)
    ensures Partial(env, m, m, ProductValue(b, []), ProductValue(b, []))
  {
    MulUnit(MonomialValue(env, m));
  }

  lemma {:induction false} EmptyMonomial(env: Env, m: Monomial)
    requires m == map[]
    ensures MonomialValue(env, m) == 1.0
  {}

  lemma {:induction false} EmptyProduct(b: Block)
    requires IsBlock(b)
    ensures ProductValue(b, []) == 1.0
  {}

  lemma {:induction false} ProductCode(b: Block, es: seq<Code>)
    requires IsBlock(b) && es != []
    ensures CodeValue(b, Denominator(b, es)) == ProductValue(b, es)
  {
    if |es| == 1 {
      assert es == [es[0]];
      ProductOne(b, es[0]);
    }
  }

  lemma {:induction false} InverseCode(b: Block, e: Code)
    requires IsBlock(b)
    ensures CodeValue(b, Code.Inverse(e)) == if CodeValue(b, e) == 0.0 then 0.0 else 1.0 / CodeValue(b, e)
  {}

  lemma {:induction false} DividedBy(v: real, n: real, d: real)
    requires d != 0.0 && Mul(v, d) == Mul(1.0, n)
    ensures Mul(n, 1.0 / d) == v
  {
    assert n == v * d;
    assert v * d * (1.0 / d) == v * (d * (1.0 / d));
    assert d * (1.0 / d) == 1.0;
  }

  // ---------------------------------------------------------------- polynomials

  /** The operations for a sum whose polynomial is p. */
  method MaterializeSum(b: Block, ty: nat, atoms: seq<Atom>, p: Polynomial, ghost env: Env, ghost x: real)
    returns (code: Code, terms: seq<Code>)
    requires IsBlock(b) && AreAtoms(b, atoms, env) && Denotes(env, p, x)
    ensures CodeValue(b, code) == x && |terms| == |p| && code == SumOf(ty, terms) && TypeOf(b, code) == ty
    ensures forall i :: 0 <= i < |terms| ==> TypeOf(b, terms[i]) == ty
  {
    hide Mul, AreAtoms, MonomialValue, Polynomials.Value, CodeValue;
    terms := [];
    var rest := p;
    ghost var y := x;
    while rest != map[]
      invariant Denotes(env, rest, y) && SumValue(b, terms) == x - y && |terms| + |rest| == |p|
      invariant forall i :: 0 <= i < |terms| ==> TypeOf(b, terms[i]) == ty
      decreases |rest|
    {
      var m :| m in rest;
      DenotesRest(env, rest, y, m);
      var term := Materialize(b, atoms, m, rest[m], ty, env);
      SumSnoc(b, terms, term);
      terms := terms + [term];
      y := y - Mul(rest[m], MonomialValue(env, m));
      rest := rest - {m};
    }
    EndOf(env, y);
    code := SumOf(ty, terms);
    SumCode(b, ty, terms);
  }

  /** The sum of some terms. */
  function SumOf(ty: nat, es: seq<Code>): Code {
    if es == [] then Constant(ty, 0.0) else if |es| == 1 then es[0] else Summed(ty, es)
  }

  lemma {:induction false} SumCode(b: Block, ty: nat, es: seq<Code>)
    requires IsBlock(b)
    ensures CodeValue(b, SumOf(ty, es)) == SumValue(b, es)
  {
    if |es| == 1 {
      assert es == [es[0]];
      SumOne(b, es[0]);
    }
  }

  /** What a builder has done for v and its operands. */
  ghost predicate HasBuilt(b: Block, builder: PolynomialBuilder, v: nat)
    reads builder
  {
    && AreBuilt(b, builder.atoms, builder.cache, builder.work) && v in builder.cache
    && AllGenuine(b, builder.atoms, builder.cache, builder.log) && Contained(builder.work[v], builder.log)
  }

  /** SimplifyPolynomial: the operations that replace a sum have its value, and there are no more terms than
      operands. A sum is replaced exactly when it has a polynomial in which something cancelled or that has a
      square, and that is small enough with all squares completed. */
  method SimplifyPolynomial(b: Block, v: nat)
    returns (code: Option<Code>, terms: seq<Code>, builder: PolynomialBuilder, ghost q: Polynomial)
    requires IsBlock(b) && InversesDefined(b) && v < |b.ops| && b.ops[v].Sum?
    ensures fresh(builder) && HasBuilt(b, builder, v)
    ensures code.Some? ==> CodeValue(b, code.value) == Eval(b, v) && |terms| == |q| <= |b.ops[v].args|
    ensures code.Some? ==> code.value == SumOf(b.types[v], terms) && TypeOf(b, code.value) == b.types[v]
    ensures code.Some? <==>
      builder.cache[v].Some? && (AnyCancels(builder.log) || HasSquare(builder.cache[v].value)) &&
      |q| <= |b.ops[v].args|
    ensures builder.cache[v].Some? ==>
      !HasSquare(q) && (q == builder.cache[v].value <==> !HasSquare(builder.cache[v].value))
  {
    hide CodeValue, Denotes, AreAtoms, IsCache, AreBuilt, AllGenuine, Contained, HasSquare, AnyCancels;
    builder := new PolynomialBuilder(b);
    var p;
    p, q := builder.SimplifySum(v);
    code, terms := None, [];
    if p.None? { return; }
    var c, ts := MaterializeSum(b, b.types[v], builder.atoms, p.value, builder.env, Eval(b, v));
    code, terms := Some(c), ts;
  }
}
