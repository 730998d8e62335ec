/**
 Cancelling inverses in a product and combining like terms of a sum (cancelInverses,
 getSumTerm, createSumTerm and SimplifySum in geomalg/lib/Geomalg/Passes.cpp), in
 exact arithmetic.
 */
module LikeTerms {
  import opened Options
  import opened RealProducts
  import opened Factorings
  import opened PolynomialBuilders

  /** The values of a block. */
  ghost function Values(b: Block): (env: nat -> real)
    requires IsBlock(b)
    ensures forall v: nat :: v < |b.ops| ==> env(v) == Eval(b, v)
  {
    (v: nat) => if v < |b.ops| then Eval(b, v) else 0.0
  }

  // ---------------------------------------------------------------- inverses

  /** The factors that are not null. */
  ghost function Present(s: seq<Option<nat>>): Product {
    if s == [] then multiset{}
    else
      var last := |s| - 1;
      Present(s[..last]) + if s[last].Some? then multiset{s[last].value} else multiset{}
  }

  lemma {:induction false} PresentWithout(s: seq<Option<nat>>, i: nat)
    requires i < |s| && s[i].Some?
    ensures s[i].value in Present(s) && Present(s[i := None]) == Present(s) - multiset{s[i].value}
  {
    var last := |s| - 1;
    if i < last {
      PresentWithout(s[..last], i);
      assert s[i := None][..last] == s[..last][i := None];
    } else {
      assert s[i := None][..last] == s[..last];
    }
  }

  /** getInvertedScalar */
  function InvertedScalar(b: Block, v: Option<nat>): Option<nat> {
    if v.Some? && v.value < |b.ops| && b.ops[v.value].Inverse? && b.ops[v.value].isScalar
    then Some(b.ops[v.value].arg) else None
  }

  /** Factor i is the inverse of factor j. */
  predicate Cancels(b: Block, s: seq<Option<nat>>, i: int, j: int)
    requires 0 <= i < |s| && 0 <= j < |s|
  {
    InvertedScalar(b, s[i]).Some? && s[j] == InvertedScalar(b, s[i])
  }

  /** A part of the factors is left. */
  ghost predicate Fewer(s: seq<Option<nat>>, was: seq<Option<nat>>) {
    |s| == |was| && forall i :: 0 <= i < |s| ==> s[i] == None || s[i] == was[i]
  }

  lemma {:induction false} CancelledPair(x: real, r: real)
    requires x != 0.0
    ensures Mul(1.0 / x, Mul(x, r)) == r
  {
    assert (1.0 / x) * x == 1.0;
    assert 1.0 / x * (x * r) == (1.0 / x * x) * r;
  }

  /** Removing a factor and its inverse keeps the product. */
  lemma {:induction false} PairRemoved(b: Block, s: seq<Option<nat>>, i: nat, j: nat)
    requires IsBlock(b) && InversesDefined(b) && i < |s| && j < |s| && Cancels(b, s, i, j)
    ensures ProductOf(b, s[i := None][j := None]) == ProductOf(b, s)
  {
    hide Eval, Mul, Present;
    var v, a := s[i].value, s[j].value;
    var env := Values(b);
    var all := Present(s);
    PresentWithout(s, i);
    PresentWithout(s[i := None], j);
    ValueRemove(env, all, v);
    ValueRemove(env, all - multiset{v}, a);
    InverseValue(b, v);
    CancelledPair(env(a), Factorings.Value(env, all - multiset{v} - multiset{a}));
  }

  lemma {:induction false} InverseValue(b: Block, v: nat)
    requires IsBlock(b) && InversesDefined(b) && InvertedScalar(b, Some(v)).Some?
    ensures var a := b.ops[v].arg; a < v && Eval(b, a) != 0.0 && Eval(b, v) == 1.0 / Eval(b, a)
  {
    assert OpBelow(b.ops[v], v);
  }

  ghost function ProductOf(b: Block, s: seq<Option<nat>>): real
    requires IsBlock(b)
  {
    Factorings.Value(Values(b), Present(s))
  }

  method Find(factors: array<Option<nat>>, v: nat) returns (j: nat)
    ensures j <= factors.Length && (j < factors.Length ==> factors[j] == Some(v))
    ensures j == factors.Length ==> forall k :: 0 <= k < factors.Length ==> factors[k] != Some(v)
  {
    j := 0;
    while j < factors.Length && factors[j] != Some(v)
      invariant 0 <= j <= factors.Length && forall k :: 0 <= k < j ==> factors[k] != Some(v)
    {
      j := j + 1;
    }
  }

  /** Replaces each scalar and its inverse by null in place: the product stays the same, no such pair is
      left, and the result tells whether there was one. */
  method CancelInverses(b: Block, factors: array<Option<nat>>) returns (changed: bool)
    requires IsBlock(b)
    modifies factors
    ensures Fewer(factors[..], old(factors[..]))
    ensures InversesDefined(b) ==> ProductOf(b, factors[..]) == ProductOf(b, old(factors[..]))
    ensures forall i, j :: 0 <= i < factors.Length && 0 <= j < factors.Length ==> !Cancels(b, factors[..], i, j)
    ensures changed <==>
      exists i, j :: 0 <= i < factors.Length && 0 <= j < factors.Length && Cancels(b, old(factors[..]), i, j)
  {
    changed := false;
    ghost var was := factors[..];
    for i := 0 to factors.Length
      invariant Fewer(factors[..], was)
      invariant InversesDefined(b) ==> ProductOf(b, factors[..]) == ProductOf(b, was)
      invariant forall k, j :: 0 <= k < i && 0 <= j < factors.Length ==> !Cancels(b, factors[..], k, j)
      invariant !changed ==> factors[..] == was
      invariant changed ==> exists k, j :: 0 <= k < |was| && 0 <= j < |was| && Cancels(b, was, k, j)
    {
      var s := InvertedScalar(b, factors[i]);
      if s.Some? {
        var j := Find(factors, s.value);
        if j < factors.Length {
          ghost var before := factors[..];
          assert Cancels(b, before, i, j) && Cancels(b, was, i, j);
          if InversesDefined(b) { PairRemoved(b, before, i, j); }
          factors[j] := None;
          factors[i] := None;
          changed := true;
          assert factors[..] == before[i := None][j := None];
          NoPairAppears(b, before, factors[..], i);
        }
      }
    }
  }

  lemma {:induction false} NoPairAppears(b: Block, before: seq<Option<nat>>, s: seq<Option<nat>>, i: nat)
    requires Fewer(s, before) && i < |s| && s[i].None?
    requires forall k, j :: 0 <= k < i && 0 <= j < |s| ==> !Cancels(b, before, k, j)
    ensures forall k, j :: 0 <= k < i + 1 && 0 <= j < |s| ==> !Cancels(b, s, k, j)
  {
    forall k, j | 0 <= k < i + 1 && 0 <= j < |s|
      ensures !Cancels(b, s, k, j)
    {
      if k < i { assert !Cancels(b, before, k, j); }
    }
  }

  // ---------------------------------------------------------------- terms of a sum

  /** A constant times a product of coefficients, of a blade type. */
  datatype SumTerm = SumTerm(ty: nat, factors: Product, coefficient: real)

  ghost function TermValue(b: Block, t: SumTerm): real
    requires IsBlock(b)
  {
    Mul(t.coefficient, Factorings.Value(Values(b), t.factors))
  }

  /** A value without the negation of a blade. */
  function Stripped(b: Block, f: nat): nat
    requires IsBlock(b) && f < |b.ops|
    ensures Stripped(b, f) <= f
  {
    assert OpBelow(b.ops[f], f);
    if b.ops[f].Negate? && b.ops[f].isBlade then b.ops[f].arg else f
  }

  function SignOf(b: Block, f: nat): real
    requires IsBlock(b) && f < |b.ops|
  {
    if Stripped(b, f) != f then -1.0 else 1.0
  }

  /** The factors that are not constants, without their negations. */
  ghost function FactorsIn(b: Block, args: seq<nat>): Product
    requires IsBlock(b) && AllBelow(args, |b.ops|)
  {
    if args == [] then multiset{}
    else
      var g := Stripped(b, args[|args| - 1]);
      FactorsIn(b, args[..|args| - 1]) + if b.ops[g].Blade? then multiset{} else multiset{g}
  }

  /** The signs of the factors and their constants. */
  ghost function ConstantIn(b: Block, args: seq<nat>): real
    requires IsBlock(b) && AllBelow(args, |b.ops|)
  {
    if args == [] then 1.0
    else
      var f := args[|args| - 1];
      var g := Stripped(b, f);
      Mul(ConstantIn(b, args[..|args| - 1]), if b.ops[g].Blade? then Mul(SignOf(b, f), b.ops[g].c) else SignOf(b, f))
  }

  /** The operands of a product, or the only factor. */
  ghost function Operands(b: Block, u: nat): (args: seq<nat>)
    requires IsBlock(b) && u < |b.ops|
    ensures AllBelow(args, |b.ops|)
  {
    assert OpBelow(b.ops[u], u);
    if b.ops[u].CMul? then b.ops[u].args else [u]
  }

  /** The nonconstant factors of a term, and its constant. */
  ghost function FactorsOf(b: Block, v: nat): Product
    requires IsBlock(b) && v < |b.ops|
  {
    FactorsIn(b, Operands(b, Stripped(b, v)))
  }

  ghost function ConstantOf(b: Block, v: nat): real
    requires IsBlock(b) && v < |b.ops|
  {
    Mul(SignOf(b, v), ConstantIn(b, Operands(b, Stripped(b, v))))
  }

  /** No factor of a term is a constant. */
  lemma {:induction false} NoConstantIn(b: Block, args: seq<nat>, f: nat)
    requires IsBlock(b) && AllBelow(args, |b.ops|) && f in FactorsIn(b, args)
    ensures f < |b.ops| && !b.ops[f].Blade?
  {
    if f in FactorsIn(b, args[..|args| - 1]) { NoConstantIn(b, args[..|args| - 1], f); }
  }

  /** A factor, with a negation and a constant taken out. */
  method AddFactor(b: Block, t: SumTerm, ghost args: seq<nat>, f: nat) returns (r: SumTerm)
    requires IsBlock(b) && f < |b.ops| && AllBelow(args, |b.ops|)
    ensures TermValue(b, r) == Mul(TermValue(b, t), Eval(b, f)) && r.ty == t.ty
    ensures t.factors == FactorsIn(b, args) ==> r.factors == FactorsIn(b, args + [f])
    ensures forall c :: t.coefficient == Mul(c, ConstantIn(b, args)) ==>
      r.coefficient == Mul(c, ConstantIn(b, args + [f]))
  {
    hide Mul, FactorsIn, ConstantIn, Factorings.Value, Eval;
    var g, c := f, t.coefficient;
    if b.ops[f].Negate? && b.ops[f].isBlade {
      c := -c;
      g := b.ops[f].arg;
      assert OpBelow(b.ops[f], f);
    }
    ghost var env := Values(b);
    assert g == Stripped(b, f);
    StrippedValue(b, f);
    FactorsNext(b, args, f);
    if b.ops[g].Blade? {
      r := SumTerm(t.ty, t.factors, c * b.ops[g].c);
      ProductByName(c, b.ops[g].c);
      ConstantFactor(t.coefficient, c, Eval(b, f), Eval(b, g), Factorings.Value(env, t.factors));
    } else {
      r := SumTerm(t.ty, t.factors + multiset{g}, c);
      OneFactor(env, t.factors, g);
      OtherFactor(t.coefficient, c, Eval(b, f), Eval(b, g), Factorings.Value(env, t.factors));
    }
    MulUnit(c);
    ConstantNext(b, args, f, t.coefficient, r.coefficient);
  }

  lemma {:induction false} ProductByName(c: real, d: real)
    ensures c * d == Mul(c, d)
  {}

  lemma {:induction false} StrippedValue(b: Block, f: nat)
    requires IsBlock(b) && f < |b.ops|
    ensures var g := Stripped(b, f);
      Eval(b, f) == (if g == f then Eval(b, g) else -Eval(b, g)) && (b.ops[g].Blade? ==> Eval(b, g) == b.ops[g].c)
  {}

  lemma {:induction false} FactorsNext(b: Block, args: seq<nat>, f: nat)
    requires IsBlock(b) && f < |b.ops| && AllBelow(args, |b.ops|)
    ensures var g := Stripped(b, f);
      FactorsIn(b, args + [f]) == FactorsIn(b, args) + if b.ops[g].Blade? then multiset{} else multiset{g}
  {
    hide Eval;
    assert (args + [f])[..|args|] == args;
  }

  lemma {:induction false} ConstantNext(b: Block, args: seq<nat>, f: nat, c: real, d: real)
    requires IsBlock(b) && f < |b.ops| && AllBelow(args, |b.ops|)
    requires var g := Stripped(b, f);
      d == Mul(if g == f then c else -c, if b.ops[g].Blade? then b.ops[g].c else 1.0)
    ensures forall x :: c == Mul(x, ConstantIn(b, args)) ==> d == Mul(x, ConstantIn(b, args + [f]))
  {
    hide Eval, Mul;
    var g := Stripped(b, f);
    assert (args + [f])[..|args|] == args;
    MulUnit(SignOf(b, f));
    forall x | c == Mul(x, ConstantIn(b, args))
      ensures d == Mul(x, ConstantIn(b, args + [f]))
    {
      SignedConstant(c, x, ConstantIn(b, args), SignOf(b, f), if b.ops[g].Blade? then b.ops[g].c else 1.0);
    }
  }

  lemma {:induction false} SignedConstant(c: real, d: real, k: real, sign: real, x: real)
    requires c == Mul(d, k) && sign in {1.0, -1.0}
    ensures Mul(if sign == 1.0 then c else -c, x) == Mul(d, Mul(k, Mul(sign, x)))
  {
    if sign == 1.0 {
      assert d * k * x == d * (k * x);
    } else {
      assert -(d * k) * x == d * (k * -x);
    }
  }

  lemma {:induction false} OneFactor(env: nat -> real, t: Product, g: nat)
    ensures Factorings.Value(env, t + multiset{g}) == Mul(Factorings.Value(env, t), env(g))
  {
    hide Mul;
    ValueRemove(env, t + multiset{g}, g);
    assert t + multiset{g} - multiset{g} == t;
    MulComm(env(g), Factorings.Value(env, t));
  }

  lemma {:induction false} ConstantFactor(c: real, d: real, x: real, y: real, p: real)
    requires (d == c && x == y) || (d == -c && x == -y)
    ensures Mul(Mul(d, y), p) == Mul(Mul(c, p), x)
  {
    if d == c { assert c * y * p == c * p * y; } else { assert -c * y * p == c * p * -y; }
  }

  lemma {:induction false} OtherFactor(c: real, d: real, x: real, y: real, p: real)
    requires (d == c && x == y) || (d == -c && x == -y)
    ensures Mul(d, Mul(p, y)) == Mul(Mul(c, p), x)
  {
    if d == c { assert c * (p * y) == c * p * y; } else { assert -c * (p * y) == c * p * -y; }
  }

  /** getSumTerm splits a term into a constant and its other factors. */
  method GetSumTerm(b: Block, v: nat) returns (t: SumTerm)
    requires IsBlock(b) && v < |b.ops|
    ensures TermValue(b, t) == Eval(b, v) && t == SumTerm(b.types[v], FactorsOf(b, v), ConstantOf(b, v))
  {
    hide Eval, FactorsIn, ConstantIn, Mul;
    var u := v;
    t := SumTerm(b.types[v], multiset{}, 1.0);
    if b.ops[v].Negate? && b.ops[v].isBlade {
      t := t.(coefficient := -1.0);
      u := b.ops[v].arg;
      assert OpBelow(b.ops[v], v);
    }
    ghost var sign := t.coefficient;
    NoFactorsIn(b, sign);
    if b.ops[u].CMul? {
      var args := b.ops[u].args;
      assert OpBelow(b.ops[u], u);
      NoProduct(b, u);
      assert args[..0] == [];
      for i := 0 to |args|
        invariant t.ty == b.types[v] && t.factors == FactorsIn(b, args[..i])
        invariant t.coefficient == Mul(sign, ConstantIn(b, args[..i]))
        invariant TermValue(b, t) == Mul(sign, EvalProduct(b, args[..i], u))
      {
        assert args[..i + 1] == args[..i] + [args[i]];
        ProductUpTo(b, args, u, i);
        MulAssoc(sign, EvalProduct(b, args[..i], u), Eval(b, args[i]));
        t := AddFactor(b, t, args[..i], args[i]);
      }
      assert args[..|args|] == args;
    } else {
      var none: seq<nat> := [];
      assert none + [u] == [u];
      t := AddFactor(b, t, none, u);
    }
    SignedProduct(b, v, u, sign);
  }

  lemma {:induction false} NoFactorsIn(b: Block, sign: real)
    requires IsBlock(b)
    ensures FactorsIn(b, []) == multiset{} && sign == Mul(sign, ConstantIn(b, []))
    ensures forall ty :: TermValue(b, SumTerm(ty, multiset{}, sign)) == sign
  {
    MulUnit(sign);
  }

  lemma {:induction false} NoProduct(b: Block, u: nat)
    requires IsBlock(b) && u <= |b.ops|
    ensures EvalProduct(b, [], u) == 1.0 && forall c: real :: Mul(c, 1.0) == c
  {}

  lemma {:induction false} ProductUpTo(b: Block, args: seq<nat>, u: nat, i: nat)
    requires IsBlock(b) && u <= |b.ops| && AllBelow(args, u) && i < |args|
    ensures EvalProduct(b, args[..i + 1], u) == Mul(EvalProduct(b, args[..i], u), Eval(b, args[i]))
  {
    assert args[..i + 1][..i] == args[..i];
  }

  /** The value of v from that of u without its negation. */
  lemma {:induction false} SignedProduct(b: Block, v: nat, u: nat, sign: real)
    requires IsBlock(b) && v < |b.ops| && u == Stripped(b, v) && sign == SignOf(b, v)
    ensures Mul(sign, Eval(b, u)) == Eval(b, v)
    ensures b.ops[u].CMul? ==> Mul(sign, EvalProduct(b, b.ops[u].args, u)) == Eval(b, v)
  {
    SignedValue(sign, Eval(b, u));
  }

  lemma {:induction false} SignedValue(sign: real, x: real)
    ensures sign == 1.0 ==> Mul(sign, x) == x
    ensures sign == -1.0 ==> Mul(sign, x) == -x
  {
  }

  lemma {:induction false} OnlyFactor(env: nat -> real, t: Product, x: nat)
    requires x in t && |t| == 1
    ensures Factorings.Value(env, t) == env(x)
  {
    ValueRemove(env, t, x);
    assert |t - multiset{x}| == 0;
    assert t - multiset{x} == multiset{};
    MulUnit(env(x));
  }

  // ---------------------------------------------------------------- like terms

  /** An operand of a sum, with its term if it is a blade. */
  datatype Operand = Operand(v: nat, term: Option<SumTerm>, isCombined: bool)

  /** What the new sum has in place of an operand: the operand as it was, or a new term. */
  datatype NewOperand = Kept(v: nat) | Created(term: SumTerm)

  ghost predicate IsOperand(b: Block, o: Operand)
    requires IsBlock(b)
  {
    o.v < |b.ops| && (o.isCombined ==> o.term.Some?) &&
    (o.term.Some? ==>
       o.term.value.ty == b.types[o.v] && o.term.value.factors == FactorsOf(b, o.v) &&
       (!o.isCombined ==> TermValue(b, o.term.value) == Eval(b, o.v)))
  }

  ghost function OperandValue(b: Block, o: Operand): real
    requires IsBlock(b) && IsOperand(b, o)
  {
    if o.isCombined then TermValue(b, o.term.value) else Eval(b, o.v)
  }

  ghost predicate AreOperands(b: Block, os: seq<Operand>)
    requires IsBlock(b)
  {
    forall i :: 0 <= i < |os| ==> IsOperand(b, os[i])
  }

  /** The component of type ty of a sum of operands, and of a list of values. */
  ghost function OperandsSum(b: Block, os: seq<Operand>, ty: nat): real
    requires IsBlock(b) && AreOperands(b, os)
  {
    if os == [] then 0.0
    else
      var o := os[|os| - 1];
      OperandsSum(b, os[..|os| - 1], ty) + if b.types[o.v] == ty then OperandValue(b, o) else 0.0
  }

  ghost function TypedSum(b: Block, args: seq<nat>, ty: nat): real
    requires IsBlock(b) && AllBelow(args, |b.ops|)
  {
    if args == [] then 0.0
    else
      var v := args[|args| - 1];
      TypedSum(b, args[..|args| - 1], ty) + if b.types[v] == ty then Eval(b, v) else 0.0
  }

  ghost predicate AreNew(b: Block, ns: seq<NewOperand>) {
    forall i :: 0 <= i < |ns| && ns[i].Kept? ==> ns[i].v < |b.ops| && ns[i].v < |b.types|
  }

  ghost function NewSum(b: Block, ns: seq<NewOperand>, ty: nat): real
    requires IsBlock(b) && AreNew(b, ns)
  {
    if ns == [] then 0.0
    else
      NewSum(b, ns[..|ns| - 1], ty) +
      match ns[|ns| - 1]
      case Kept(v) => if b.types[v] == ty then Eval(b, v) else 0.0
      case Created(t) => if t.ty == ty then TermValue(b, t) else 0.0
  }

  lemma {:induction false} OperandChanged(b: Block, os: seq<Operand>, i: nat, o: Operand, ty: nat)
    requires IsBlock(b) && AreOperands(b, os) && i < |os| && IsOperand(b, o) && o.v == os[i].v
    ensures AreOperands(b, os[i := o])
    ensures OperandsSum(b, os[i := o], ty) - OperandsSum(b, os, ty) ==
      if b.types[o.v] == ty then OperandValue(b, o) - OperandValue(b, os[i]) else 0.0
  {
    var last := |os| - 1;
    if i < last {
      OperandChanged(b, os[..last], i, o, ty);
      assert os[i := o][..last] == os[..last][i := o];
    } else {
      assert os[i := o][..last] == os[..last];
    }
  }

  predicate IsLike(o: Operand, t: SumTerm) {
    o.term.Some? && o.term.value.ty == t.ty && o.term.value.factors == t.factors
  }

  /** No two terms of the same type have the same factors. */
  ghost predicate NoneAlike(os: seq<Operand>) {
    forall i, j :: 0 <= i < j < |os| && os[j].term.Some? ==> !IsLike(os[i], os[j].term.value)
  }

  lemma {:induction false} ZeroValue(b: Block, v: nat)
    requires IsBlock(b) && v < |b.ops| && b.ops[v].Zero?
    ensures Eval(b, v) == 0.0
  {
  }

  lemma {:induction false} AppendedOperand(b: Block, os: seq<Operand>, o: Operand)
    requires IsBlock(b) && AreOperands(b, os) && o.v < |b.ops| && !o.isCombined
    requires o.term.Some? ==>
      TermValue(b, o.term.value) == Eval(b, o.v) &&
      o.term.value == SumTerm(b.types[o.v], FactorsOf(b, o.v), ConstantOf(b, o.v))
    ensures AreOperands(b, os + [o])
    ensures forall ty ::
      OperandsSum(b, os + [o], ty) == OperandsSum(b, os, ty) + if b.types[o.v] == ty then Eval(b, o.v) else 0.0
  {
    assert (os + [o])[..|os|] == os;
  }

  method FindLike(os: seq<Operand>, t: SumTerm) returns (i: nat)
    ensures i <= |os| && (i < |os| ==> IsLike(os[i], t))
    ensures i == |os| ==> forall k :: 0 <= k < |os| ==> !IsLike(os[k], t)
  {
    i := 0;
    while i < |os| && !IsLike(os[i], t)
      invariant i <= |os| && forall k :: 0 <= k < i ==> !IsLike(os[k], t)
    {
      i := i + 1;
    }
  }

  method Combine(b: Block, os: seq<Operand>, i: nat, t: SumTerm) returns (r: seq<Operand>)
    requires IsBlock(b) && AreOperands(b, os) && i < |os| && IsLike(os[i], t) && NoneAlike(os)
    ensures AreOperands(b, r) && |r| == |os| && NoneAlike(r)
    ensures forall k :: 0 <= k < |r| ==> r[k].v == os[k].v && (r[k].term.Some? <==> os[k].term.Some?)
    ensures forall ty :: OperandsSum(b, r, ty) == OperandsSum(b, os, ty) + if t.ty == ty then TermValue(b, t) else 0.0
  {
    var mine := os[i].term.value;
    var o := os[i].(term := Some(mine.(coefficient := mine.coefficient + t.coefficient)), isCombined := true);
    r := os[i := o];
    MulAdd(Factorings.Value(Values(b), t.factors), mine.coefficient, t.coefficient);
    assert OperandValue(b, os[i]) == TermValue(b, mine);
    forall ty
      ensures AreOperands(b, r)
      ensures OperandsSum(b, r, ty) == OperandsSum(b, os, ty) + if t.ty == ty then TermValue(b, t) else 0.0
    {
      OperandChanged(b, os, i, o, ty);
    }
    forall k, j | 0 <= k < j < |r| && r[j].term.Some?
      ensures !IsLike(r[k], r[j].term.value)
    {
      assert !IsLike(os[k], os[j].term.value);
    }
  }

  /** Operands that are blades have terms. */
  ghost predicate HaveTerms(os: seq<Operand>, isBlade: seq<bool>) {
    forall i :: 0 <= i < |os| ==> os[i].v < |isBlade| && (isBlade[os[i].v] ==> os[i].term.Some?)
  }

  /** One more operand, which is left out if it is zero or combined with one that is like it. */
  method AddTerm(b: Block, isBlade: seq<bool>, os: seq<Operand>, v: nat) returns (r: seq<Operand>, merged: bool)
    requires IsBlock(b) && v < |b.ops| && |isBlade| == |b.ops|
    requires AreOperands(b, os) && NoneAlike(os) && HaveTerms(os, isBlade)
    ensures AreOperands(b, r) && NoneAlike(r) && HaveTerms(r, isBlade)
    ensures forall ty :: OperandsSum(b, r, ty) == OperandsSum(b, os, ty) + if b.types[v] == ty then Eval(b, v) else 0.0
    ensures if merged then |r| == |os|
      else |r| == |os| + 1 && r[..|os|] == os && r[|os|].v == v && !r[|os|].isCombined && !b.ops[v].Zero?
  {
    hide Eval, TermValue, IsOperand, OperandValue, FactorsOf, ConstantOf;
    r, merged := os, false;
    if b.ops[v].Zero? {
      ZeroValue(b, v);
      merged := true;
    } else if !isBlade[v] {
      r := os + [Operand(v, None, false)];
      AppendedOperand(b, os, Operand(v, None, false));
    } else {
      var t := GetSumTerm(b, v);
      var i := FindLike(os, t);
      if i == |os| {
        r := os + [Operand(v, Some(t), false)];
        AppendedOperand(b, os, Operand(v, Some(t), false));
      } else {
        r := Combine(b, os, i, t);
        merged := true;
      }
    }
  }

  /** Combines the terms with the same factors and leaves out zeros. Each component of the sum keeps its
      value; unless something changed, the operands are the same, and otherwise there are fewer. */
  method CombineTerms(b: Block, args: seq<nat>, isBlade: seq<bool>) returns (os: seq<Operand>, changed: bool)
    requires IsBlock(b) && AllBelow(args, |b.ops|) && |isBlade| == |b.ops|
    ensures AreOperands(b, os) && NoneAlike(os)
    ensures forall ty :: OperandsSum(b, os, ty) == TypedSum(b, args, ty)
    ensures if changed then |os| < |args|
      else |os| == |args| && forall i :: 0 <= i < |os| ==> os[i].v == args[i] && !os[i].isCombined
    ensures !changed ==> forall i :: 0 <= i < |args| ==> !b.ops[args[i]].Zero?
    ensures HaveTerms(os, isBlade)
  {
    hide Eval, AreOperands, NoneAlike, HaveTerms;
    os, changed := [], false;
    NoOperands(b, isBlade);
    for n := 0 to |args|
      invariant AreOperands(b, os) && NoneAlike(os) && HaveTerms(os, isBlade)
      invariant forall ty :: OperandsSum(b, os, ty) == TypedSum(b, args[..n], ty)
      invariant if changed then |os| < n
        else |os| == n && forall i :: 0 <= i < n ==> os[i].v == args[i] && !os[i].isCombined
      invariant !changed ==> forall i :: 0 <= i < n ==> !b.ops[args[i]].Zero?
    {
      assert args[..n + 1][..n] == args[..n];
      var merged;
      os, merged := AddTerm(b, isBlade, os, args[n]);
      changed := changed || merged;
    }
    assert args[..|args|] == args;
  }

  lemma {:induction false} NoOperands(b: Block, isBlade: seq<bool>)
    requires IsBlock(b)
    ensures AreOperands(b, []) && NoneAlike([]) && HaveTerms([], isBlade)
  {}

  /** Two operands are terms of the same type with the same factors. */
  ghost predicate AreAlike(b: Block, isBlade: seq<bool>, v: nat, w: nat)
    requires IsBlock(b) && v < |b.ops| && w < |b.ops| && |isBlade| == |b.ops|
  {
    isBlade[v] && isBlade[w] && b.types[v] == b.types[w] && FactorsOf(b, v) == FactorsOf(b, w)
  }

  /** No operand is zero and no two are alike. */
  ghost predicate IsSettled(b: Block, args: seq<nat>, isBlade: seq<bool>)
    requires IsBlock(b) && AllBelow(args, |b.ops|) && |isBlade| == |b.ops|
  {
    (forall i :: 0 <= i < |args| ==> !b.ops[args[i]].Zero?) &&
    forall i, j :: 0 <= i < j < |args| ==> !AreAlike(b, isBlade, args[i], args[j])
  }

  lemma {:induction false} NoneAreAlike(b: Block, args: seq<nat>, isBlade: seq<bool>, os: seq<Operand>)
    requires IsBlock(b) && AllBelow(args, |b.ops|) && |isBlade| == |b.ops| && AreOperands(b, os) && NoneAlike(os)
    requires |os| == |args| && forall i :: 0 <= i < |os| ==> os[i].v == args[i]
    requires HaveTerms(os, isBlade)
    ensures forall i, j :: 0 <= i < j < |args| ==> !AreAlike(b, isBlade, args[i], args[j])
  {
    hide FactorsOf, TermValue, Eval;
    forall i, j | 0 <= i < j < |args|
      ensures !AreAlike(b, isBlade, args[i], args[j])
    {
      assert IsOperand(b, os[i]) && IsOperand(b, os[j]);
      if os[j].term.Some? { assert !IsLike(os[i], os[j].term.value); }
    }
  }

  /** SimplifySum: the new operands have the sum of the old ones in each component, are no more, and the
      created ones are not zero. Something changes unless no operand is zero and no two are alike. */
  method SimplifySum(b: Block, args: seq<nat>, isBlade: seq<bool>) returns (ns: seq<NewOperand>, changed: bool)
    requires IsBlock(b) && AllBelow(args, |b.ops|) && |isBlade| == |b.ops|
    ensures AreNew(b, ns) && forall ty :: NewSum(b, ns, ty) == TypedSum(b, args, ty)
    ensures if changed then |ns| < |args| else |ns| == |args| && forall i :: 0 <= i < |ns| ==> ns[i] == Kept(args[i])
    ensures forall i :: 0 <= i < |ns| && ns[i].Created? ==> ns[i].term.coefficient != 0.0
    ensures forall i, j :: 0 <= i < j < |ns| && ns[i].Created? && ns[j].Created? ==> Unlike(ns[i].term, ns[j].term)
    ensures !changed ==> IsSettled(b, args, isBlade)
  {
    hide Eval, TermValue, IsOperand, OperandValue, OperandsSum, NewSum, TypedSum, HasTerm, NoneAlike, AreNew;
    var os;
    os, changed := CombineTerms(b, args, isBlade);
    ns := [];
    for n := 0 to |os|
      invariant ns == NewOperands(os[..n])
    {
      var o := os[n];
      assert os[..n + 1][..n] == os[..n];
      if !o.isCombined {
        ns := ns + [Kept(o.v)];
      } else if o.term.Some? && o.term.value.coefficient != 0.0 {
        ns := ns + [Created(o.term.value)];
      }
    }
    assert os[..|os|] == os;
    NewOperandsSum(b, os, 0);
    forall ty
      ensures NewSum(b, ns, ty) == TypedSum(b, args, ty)
    {
      NewOperandsSum(b, os, ty);
    }
    NewOperandsUnlike(os);
    if !changed {
      NewOperandsKept(os);
      NoneAreAlike(b, args, isBlade, os);
    }
  }

  /** The operands of the new sum. */
  function NewOperands(os: seq<Operand>): (ns: seq<NewOperand>)
    ensures |ns| <= |os|
  {
    if os == [] then []
    else
      var o := os[|os| - 1];
      NewOperands(os[..|os| - 1]) +
      if !o.isCombined then [Kept(o.v)]
      else if o.term.Some? && o.term.value.coefficient != 0.0 then [Created(o.term.value)]
      else []
  }

  lemma {:induction false} NewOperandsSum(b: Block, os: seq<Operand>, ty: nat)
    requires IsBlock(b) && AreOperands(b, os)
    ensures AreNew(b, NewOperands(os)) && NewSum(b, NewOperands(os), ty) == OperandsSum(b, os, ty)
  {
    hide Eval, FactorsOf;
    if os != [] {
      var last := |os| - 1;
      var o := os[last];
      NewOperandsSum(b, os[..last], ty);
      var before := NewOperands(os[..last]);
      assert IsOperand(b, o);
      assert NewOperands(os) != before ==> NewOperands(os)[..|NewOperands(os)| - 1] == before;
      if o.isCombined { MulUnit(Factorings.Value(Values(b), o.term.value.factors)); }
    }
  }

  lemma {:induction false} NewOperandsKept(os: seq<Operand>)
    requires forall i :: 0 <= i < |os| ==> !os[i].isCombined
    ensures |NewOperands(os)| == |os| && forall i :: 0 <= i < |os| ==> NewOperands(os)[i] == Kept(os[i].v)
  {
    if os != [] { NewOperandsKept(os[..|os| - 1]); }
  }

  predicate HasTerm(os: seq<Operand>, t: SumTerm) { exists k :: 0 <= k < |os| && os[k].term == Some(t) }

  /** The created operands are not zero, are terms of the sum, and have different factors. */
  ghost predicate CreatedOk(os: seq<Operand>, ns: seq<NewOperand>) {
    (forall i :: 0 <= i < |ns| && ns[i].Created? ==> ns[i].term.coefficient != 0.0 && HasTerm(os, ns[i].term)) &&
    forall i, j :: 0 <= i < j < |ns| && ns[i].Created? && ns[j].Created? ==> Unlike(ns[i].term, ns[j].term)
  }

  lemma {:induction false} NewOperandsUnlike(os: seq<Operand>)
    requires NoneAlike(os)
    ensures CreatedOk(os, NewOperands(os))
  {
    if os != [] {
      var last := |os| - 1;
      NewOperandsUnlike(os[..last]);
      var ns, before := NewOperands(os), NewOperands(os[..last]);
      forall i | 0 <= i < |ns| && ns[i].Created?
        ensures ns[i].term.coefficient != 0.0 && HasTerm(os, ns[i].term)
      {
        if i < |before| {
          assert ns[i] == before[i] && HasTerm(os[..last], before[i].term);
          EarlierTerm(os, before[i].term);
        } else {
          assert os[last].term == Some(ns[i].term);
        }
      }
      forall i, j | 0 <= i < j < |ns| && ns[i].Created? && ns[j].Created?
        ensures Unlike(ns[i].term, ns[j].term)
      {
        assert ns[i] == before[i];
        if j == |before| { LastUnlike(os, before[i].term); } else { assert ns[j] == before[j]; }
      }
    }
  }

  lemma {:induction false} EarlierTerm(os: seq<Operand>, t: SumTerm)
    requires os != [] && HasTerm(os[..|os| - 1], t)
    ensures HasTerm(os, t)
  {
    var k :| 0 <= k < |os| - 1 && os[..|os| - 1][k].term == Some(t);
    assert os[k].term == Some(t);
  }

  lemma {:induction false} LastUnlike(os: seq<Operand>, t: SumTerm)
    requires os != [] && NoneAlike(os) && HasTerm(os[..|os| - 1], t) && os[|os| - 1].term.Some?
    ensures Unlike(t, os[|os| - 1].term.value)
  {
    var k :| 0 <= k < |os| - 1 && os[..|os| - 1][k].term == Some(t);
    assert !IsLike(os[k], os[|os| - 1].term.value);
  }

  predicate Unlike(t: SumTerm, u: SumTerm) { t.ty != u.ty || t.factors != u.factors }

  // ---------------------------------------------------------------- the rewritten sum

  /** An ExpandOp: its argument and the values of its blades. */
  datatype Expansion = Expansion(arg: nat, results: seq<nat>)

  /** What takes the place of a sum. */
  datatype Rewrite =
    | Unchanged
    | Expanded(e: Expansion)
    | Single(operand: NewOperand)
    | Summed(operands: seq<NewOperand>)

  function TypeOf(b: Block, n: NewOperand): nat {
    match n
    case Kept(v) => if v < |b.types| then b.types[v] else 0
    case Created(t) => t.ty
  }

  /** The results of an expansion as operands. */
  function AllKept(vs: seq<nat>): seq<NewOperand> { seq(|vs|, i requires 0 <= i < |vs| => Kept(vs[i])) }

  lemma {:induction false} KeptSum(b: Block, vs: seq<nat>, ty: nat)
    requires IsBlock(b) && AllBelow(vs, |b.ops|)
    ensures AreNew(b, AllKept(vs)) && NewSum(b, AllKept(vs), ty) == TypedSum(b, vs, ty)
  {
    if vs != [] {
      var last := |vs| - 1;
      KeptSum(b, vs[..last], ty);
      assert AllKept(vs)[..last] == AllKept(vs[..last]);
    }
  }

  /** A term that is an existing value of the same type. */
  ghost predicate Settled(b: Block, n: NewOperand, m: NewOperand)
    requires IsBlock(b)
  {
    AreNew(b, [m]) && TypeOf(b, m) == TypeOf(b, n) &&
    (n == m || (n.Created? && m.Kept? && m.v < |b.ops| && TermValue(b, n.term) == Eval(b, m.v)))
  }

  method Settle(b: Block, n: NewOperand) returns (m: NewOperand)
    requires IsBlock(b) && AreNew(b, [n])
    ensures Settled(b, n, m)
    ensures n.Kept? ==> m == n
  {
    m := n;
    if n.Created? && n.term.coefficient == 1.0 && |n.term.factors| == 1 {
      var x :| x in n.term.factors;
      if x < |b.ops| && x < |b.types| && b.types[x] == n.term.ty {
        OnlyFactor(Values(b), n.term.factors, x);
        MulUnit(Eval(b, x));
        m := Kept(x);
      }
    }
  }

  lemma {:induction false} NewSumSnoc(b: Block, ns: seq<NewOperand>, n: NewOperand)
    requires IsBlock(b) && AreNew(b, ns) && AreNew(b, [n])
    ensures AreNew(b, ns + [n]) && forall ty :: NewSum(b, ns + [n], ty) == NewSum(b, ns, ty) + NewSum(b, [n], ty)
  {
    var one := [n];
    assert one[..0] == [] && one[0] == n;
    assert (ns + [n])[..|ns|] == ns;
  }

  lemma {:induction false} SettledSum(b: Block, n: NewOperand, m: NewOperand)
    requires IsBlock(b) && AreNew(b, [n]) && Settled(b, n, m)
    ensures forall ty :: NewSum(b, [m], ty) == NewSum(b, [n], ty)
  {
    var s, t := [n], [m];
    assert s[..0] == [] && t[..0] == [] && s[0] == n && t[0] == m;
  }

  method SettleAll(b: Block, ns: seq<NewOperand>) returns (ms: seq<NewOperand>)
    requires IsBlock(b) && AreNew(b, ns)
    ensures AreNew(b, ms) && |ms| == |ns| && forall ty :: NewSum(b, ms, ty) == NewSum(b, ns, ty)
    ensures forall i :: 0 <= i < |ns| && ns[i].Kept? ==> ms[i] == ns[i]
  {
    hide NewSum, Settled;
    ms := [];
    for i := 0 to |ns|
      invariant AreNew(b, ms) && |ms| == i && forall ty :: NewSum(b, ms, ty) == NewSum(b, ns[..i], ty)
      invariant forall k :: 0 <= k < i && ns[k].Kept? ==> ms[k] == ns[k]
    {
      assert ns[..i + 1] == ns[..i] + [ns[i]];
      var m := Settle(b, ns[i]);
      SettledIsNew(b, ns[i], m);
      NewSumSnoc(b, ns[..i], ns[i]);
      NewSumSnoc(b, ms, m);
      SettledSum(b, ns[i], m);
      ms := ms + [m];
    }
    assert ns[..|ns|] == ns;
  }

  lemma {:induction false} SettledIsNew(b: Block, n: NewOperand, m: NewOperand)
    requires IsBlock(b) && Settled(b, n, m)
    ensures AreNew(b, [m])
  {}

  /** What takes the place of a sum has its components. Unless something does, no operand is zero, no
      two are alike, and the sum is not one of a single operand of the same type. */
  ghost predicate Replaces(b: Block, args: seq<nat>, isBlade: seq<bool>, ty: nat,
                           expansionOf: seq<Option<Expansion>>, r: Rewrite)
    requires IsBlock(b) && AllBelow(args, |b.ops|) && |isBlade| == |b.ops|
  {
    match r
    case Unchanged =>
      IsSettled(b, args, isBlade) && !(|args| == 1 && b.types[args[0]] == ty)
    case Expanded(e) =>
      Some(e) in expansionOf && AllBelow(e.results, |b.ops|) &&
      forall c :: TypedSum(b, e.results, c) == TypedSum(b, args, c)
    case Single(n) =>
      AreNew(b, [n]) && TypeOf(b, n) == ty && forall c :: NewSum(b, [n], c) == TypedSum(b, args, c)
    case Summed(ns) =>
      AreNew(b, ns) && |ns| < |args| && forall c :: NewSum(b, ns, c) == TypedSum(b, args, c)
  }

  /** SimplifySum: operands that are the blades of one value give way to that value, a single operand of the
      same type takes the place of the sum, and otherwise there is a new sum when something changed. */
  method RewriteSum(b: Block, args: seq<nat>, isBlade: seq<bool>, ty: nat, expansionOf: seq<Option<Expansion>>)
    returns (r: Rewrite)
    requires IsBlock(b) && AllBelow(args, |b.ops|) && |isBlade| == |expansionOf| == |b.ops|
    requires forall v :: 0 <= v < |b.ops| && expansionOf[v].Some? ==>
      AllBelow(expansionOf[v].value.results, |b.ops|)
    ensures Replaces(b, args, isBlade, ty, expansionOf, r)
  {
    hide NewSum, TypedSum, AreNew, IsSettled;
    var simplified, changed := SimplifySum(b, args, isBlade);
    var ns := SettleAll(b, simplified);
    SameKinds(b, ns);
    if ns != [] && ns[0].Kept? && expansionOf[ns[0].v].Some? {
      var e := expansionOf[ns[0].v].value;
      if ns == AllKept(e.results) {
        forall c ensures TypedSum(b, e.results, c) == TypedSum(b, args, c) {
          KeptSum(b, e.results, c);
        }
        return Expanded(e);
      }
    }
    if |ns| == 1 && TypeOf(b, ns[0]) == ty {
      assert ns == [ns[0]];
      return Single(ns[0]);
    }
    if !changed { return Unchanged; }
    return Summed(ns);
  }

  lemma {:induction false} SameKinds(b: Block, ns: seq<NewOperand>)
    requires AreNew(b, ns)
    ensures forall i :: 0 <= i < |ns| && ns[i].Kept? ==> ns[i].v < |b.ops| && ns[i].v < |b.types|
  {
  }
}
