/**
 Numbering the factors of a sum and factoring the chosen cube out of it (FactorSum in
 geomalg/lib/Geomalg/Passes.cpp), in exact arithmetic.
 */
module FactorRewriting {
  import opened Options
  import opened RealProducts
  import opened PolynomialBuilders
  import opened Factorings
  import opened FactorSearches
  import LikeTerms
  import Materializing

  type SumTerm = LikeTerms.SumTerm

  type Code = Materializing.Code

  const SCALAR_TYPE := Materializing.SCALAR_TYPE

  /** A factor of a term is a value or a magnitude. */
  datatype SumFactor = Factor(v: nat) | Magnitude(c: real)

  // ---------------------------------------------------------------- numbered factors

  /** Each factor has one number, and magnitudes are positive and not 1. */
  ghost predicate IsTable(table: seq<SumFactor>) {
    && (forall i :: 0 <= i < |table| && table[i].Magnitude? ==> table[i].c > 0.0 && table[i].c != 1.0)
    && forall i, j :: 0 <= i < j < |table| ==> table[i] != table[j]
  }

  ghost predicate InTable(table: seq<SumFactor>, ids: Ids) { forall id :: id in ids ==> id < |table| }

  lemma {:induction false} InTail(table: seq<SumFactor>, ids: Ids)
    requires InTable(table, ids) && ids != []
    ensures ids[0] < |table| && InTable(table, ids[1..])
  {
    assert ids[0] in ids && forall id :: id in ids[1..] ==> id in ids;
  }

  lemma {:induction false} InCons(table: seq<SumFactor>, x: nat, ids: Ids)
    requires InTable(table, ids) && x < |table|
    ensures InTable(table, [x] + ids)
  {}

  lemma {:induction false} NoneIn(table: seq<SumFactor>)
    ensures InTable(table, [])
  {}

  /** The values of some factors, the product of their magnitudes, and how many magnitudes there are. */
  datatype Parts = Parts(factors: Product, magnitude: real, count: nat)

  ghost function AddPart(p: Parts, table: seq<SumFactor>, id: nat): Parts {
    if id >= |table| then p else
      match table[id]
      case Factor(v) => p.(factors := p.factors + multiset{v})
      case Magnitude(c) => p.(magnitude := Mul(c, p.magnitude), count := p.count + 1)
  }

  /** The parts of numbered factors. */
  ghost function PartsOf(table: seq<SumFactor>, ids: Ids): Parts {
    if ids == [] then Parts(multiset{}, 1.0, 0) else AddPart(PartsOf(table, ids[1..]), table, ids[0])
  }

  lemma {:induction false} AddPartsSwap(p: Parts, table: seq<SumFactor>, x: nat, y: nat)
    ensures AddPart(AddPart(p, table, x), table, y) == AddPart(AddPart(p, table, y), table, x)
  {
    hide Mul;
    if x < |table| && y < |table| && table[x].Magnitude? && table[y].Magnitude? {
      MulSwap(table[x].c, table[y].c, p.magnitude);
    }
  }

  /** The value of each number. */
  ghost function FactorValues(b: Block, table: seq<SumFactor>): nat -> real
    requires IsBlock(b)
  {
    var env := LikeTerms.Values(b);
    (id: nat) => if id < |table| then (match table[id] case Factor(v) => env(v) case Magnitude(c) => c) else 1.0
  }

  lemma {:induction false} ValueCons(env: nat -> real, x: nat, s: Product)
    ensures Factorings.Value(env, multiset{x} + s) == Mul(env(x), Factorings.Value(env, s))
  {
    ValueRemove(env, multiset{x} + s, x);
    assert multiset{x} + s - multiset{x} == s;
  }

  ghost function PartsValue(env: nat -> real, p: Parts): real { Mul(p.magnitude, Factorings.Value(env, p.factors)) }

  lemma {:induction false} PartAdded(b: Block, table: seq<SumFactor>, p: Parts, id: nat)
    requires IsBlock(b)
    ensures var env := LikeTerms.Values(b);
      PartsValue(env, AddPart(p, table, id)) == Mul(FactorValues(b, table)(id), PartsValue(env, p))
  {
    hide Mul;
    var env := LikeTerms.Values(b);
    var x := Factorings.Value(env, p.factors);
    MulUnit(Mul(p.magnitude, x));
    if id < |table| {
      match table[id]
      case Factor(v) =>
        ValueCons(env, v, p.factors);
        assert multiset{v} + p.factors == p.factors + multiset{v};
        MulSwap(env(v), p.magnitude, x);
      case Magnitude(c) =>
        MulAssoc(c, p.magnitude, x);
    }
  }

  lemma {:induction false} ValueOfIds(b: Block, table: seq<SumFactor>, ids: Ids)
    requires IsBlock(b)
    ensures Factorings.Value(FactorValues(b, table), multiset(ids)) ==
      PartsValue(LikeTerms.Values(b), PartsOf(table, ids))
  {
    hide Mul, AddPart;
    if ids == [] {
      MulUnit(1.0);
    } else {
      HeadTail(ids);
      ValueCons(FactorValues(b, table), ids[0], multiset(ids[1..]));
      ValueOfIds(b, table, ids[1..]);
      PartAdded(b, table, PartsOf(table, ids[1..]), ids[0]);
    }
  }

  /** How many numbers there are. */
  lemma {:induction false} CountIds(table: seq<SumFactor>, ids: Ids)
    requires InTable(table, ids)
    ensures var p := PartsOf(table, ids); |ids| == |p.factors| + p.count
  {
    hide InTable;
    if ids != [] {
      InTail(table, ids);
      CountIds(table, ids[1..]);
    }
  }

  /** The magnitude of numbered factors is other than 1 when one is among them. */
  lemma {:induction false} OneMagnitude(table: seq<SumFactor>, ids: Ids)
    requires IsTable(table)
    ensures var p := PartsOf(table, ids);
      (p.count == 0 ==> p.magnitude == 1.0) && (p.count == 1 ==> p.magnitude > 0.0 && p.magnitude != 1.0)
  {
    if ids != [] {
      OneMagnitude(table, ids[1..]);
      if ids[0] < |table| && table[ids[0]].Magnitude? {
        MulUnit(table[ids[0]].c);
      }
    }
  }

  lemma {:induction false} MoreNumbers(table: seq<SumFactor>, more: seq<SumFactor>, ids: Ids)
    requires InTable(table, ids) && table <= more
    ensures InTable(more, ids) && PartsOf(more, ids) == PartsOf(table, ids)
  {
    hide InTable, Mul;
    if ids == [] {
      NoneIn(more);
    } else {
      InTail(table, ids);
      MoreNumbers(table, more, ids[1..]);
      assert more[ids[0]] == table[ids[0]];
      InCons(more, ids[0], ids[1..]);
      assert [ids[0]] + ids[1..] == ids;
    }
  }

  // ---------------------------------------------------------------- sorted numbers

  /** Sorting by insertion. */
  function Insert(ids: Ids, x: nat): Ids {
    if ids == [] || x <= ids[0] then [x] + ids else [ids[0]] + Insert(ids[1..], x)
  }

  lemma {:induction false} InsertSorted(ids: Ids, x: nat, low: nat)
    requires IsSorted(ids) && NotBelow(ids, low) && low <= x
    ensures IsSorted(Insert(ids, x)) && NotBelow(Insert(ids, x), low)
  {
    if ids == [] || x <= ids[0] {
      if ids != [] { NotBelowLess(ids[1..], ids[0], x); }
      NotBelowLess(ids, x, x);
      assert Insert(ids, x)[1..] == ids;
    } else {
      InsertSorted(ids[1..], x, ids[0]);
      assert Insert(ids, x)[1..] == Insert(ids[1..], x);
      NotBelowLess(Insert(ids[1..], x), ids[0], low);
    }
  }

  lemma {:induction false} InsertParts(table: seq<SumFactor>, ids: Ids, x: nat)
    requires InTable(table, ids) && x < |table|
    ensures InTable(table, Insert(ids, x))
    ensures PartsOf(table, Insert(ids, x)) == AddPart(PartsOf(table, ids), table, x)
  {
    hide AddPart, InTable;
    if ids == [] || x <= ids[0] {
      InCons(table, x, ids);
      assert Insert(ids, x)[1..] == ids;
    } else {
      var rest := ids[1..];
      InTail(table, ids);
      InsertParts(table, rest, x);
      InCons(table, ids[0], Insert(rest, x));
      assert Insert(ids, x)[1..] == Insert(rest, x);
      AddPartsSwap(PartsOf(table, rest), table, x, ids[0]);
    }
  }

  // ---------------------------------------------------------------- numbering terms

  ghost function Sign(c: real): real { if c < 0.0 then -1.0 else if c == 0.0 then 0.0 else 1.0 }

  /** The numbers stand for the factors of a term and its magnitude. */
  ghost predicate Stands(table: seq<SumFactor>, t: SumTerm, sign: real, ids: Ids) {
    InTable(table, ids) && IsTerm(t, sign, PartsOf(table, ids))
  }

  ghost predicate IsTerm(t: SumTerm, sign: real, p: Parts) {
    t.factors == p.factors && t.coefficient == Mul(sign, p.magnitude) && p.count <= 1
  }

  /** The first number of a factor, or a new one. */
  method GetId(table: seq<SumFactor>, f: SumFactor) returns (id: nat, more: seq<SumFactor>)
    requires IsTable(table) && (f.Magnitude? ==> f.c > 0.0 && f.c != 1.0)
    ensures IsTable(more) && table <= more && id < |more| && more[id] == f
    ensures f in table ==> more == table
  {
    id := 0;
    while id < |table| && table[id] != f
      invariant 0 <= id <= |table| && forall k :: 0 <= k < id ==> table[k] != f
    {
      id := id + 1;
    }
    more := if id < |table| then table else table + [f];
  }

  /** Numbers the factors of a term, counting a magnitude other than 0 or 1 as a factor. */
  method NumberTerm(table: seq<SumFactor>, t: SumTerm) returns (ids: Ids, more: seq<SumFactor>)
    requires IsTable(table)
    ensures IsTable(more) && table <= more && IsSorted(ids) && Stands(more, t, Sign(t.coefficient), ids)
  {
    hide Mul, PartsOf, IsTable, InTable, Insert;
    ids, more := [], table;
    var c := if t.coefficient < 0.0 then -t.coefficient else t.coefficient;
    MagnitudeAlone(t.coefficient, c);
    NoneIn(more);
    NoParts(more);
    ghost var m, n := 1.0, 0;
    if c != 0.0 && c != 1.0 {
      ids, more := AddNumber(more, ids, Magnitude(c));
      m, n := c, 1;
      MulUnit(c);
    }
    var rest := t.factors;
    while rest != multiset{}
      invariant IsTable(more) && table <= more && IsSorted(ids) && InTable(more, ids)
      invariant var p := PartsOf(more, ids); p.factors + rest == t.factors && p.magnitude == m && p.count == n
      decreases |rest|
    {
      var v :| v in rest;
      ids, more := AddNumber(more, ids, Factor(v));
      rest := rest - multiset{v};
    }
  }

  lemma {:induction false} NoParts(table: seq<SumFactor>)
    ensures PartsOf(table, []) == Parts(multiset{}, 1.0, 0)
  {}

  /** One more factor of a term. */
  method AddNumber(table: seq<SumFactor>, ids: Ids, f: SumFactor) returns (r: Ids, more: seq<SumFactor>)
    requires IsTable(table) && (f.Magnitude? ==> f.c > 0.0 && f.c != 1.0) && IsSorted(ids) && InTable(table, ids)
    ensures IsTable(more) && table <= more && IsSorted(r) && InTable(more, r)
    ensures var p, q := PartsOf(table, ids), PartsOf(more, r);
      match f
      case Factor(v) => q == p.(factors := p.factors + multiset{v})
      case Magnitude(c) => q == p.(magnitude := Mul(c, p.magnitude), count := p.count + 1)
  {
    hide Mul, PartsOf, IsTable, InTable;
    var id;
    id, more := GetId(table, f);
    MoreNumbers(table, more, ids);
    InsertParts(more, ids, id);
    NotBelowZero(ids);
    InsertSorted(ids, id, 0);
    r := Insert(ids, id);
  }

  lemma {:induction false} MagnitudeAlone(x: real, c: real)
    requires c == if x < 0.0 then -x else x
    ensures c >= 0.0 && x == Mul(Sign(x), if c != 0.0 && c != 1.0 then c else 1.0)
  {}

  /** The numbered terms of the operands of a sum. */
  ghost predicate AllStand(b: Block, args: seq<nat>, table: seq<SumFactor>, terms: seq<SumTerm>, ids: Terms)
    requires IsBlock(b)
  {
    |terms| == |ids| == |args| && IsTable(table) && AllBelow(args, |b.ops|) &&
    forall i :: 0 <= i < |args| ==> TermStands(b, args[i], table, terms[i], ids[i])
  }

  ghost predicate TermStands(b: Block, v: nat, table: seq<SumFactor>, t: SumTerm, ids: Ids)
    requires IsBlock(b)
  {
    v < |b.ops| && LikeTerms.TermValue(b, t) == Eval(b, v) && IsSorted(ids) &&
    Stands(table, t, Sign(t.coefficient), ids)
  }

  lemma {:induction false} MoreTermStands(b: Block, v: nat, table: seq<SumFactor>, more: seq<SumFactor>, t: SumTerm,
                                          ids: Ids)
    requires IsBlock(b) && TermStands(b, v, table, t, ids) && table <= more
    ensures TermStands(b, v, more, t, ids)
  {
    MoreNumbers(table, more, ids);
  }

  method NumberTerms(b: Block, args: seq<nat>) returns (table: seq<SumFactor>, terms: seq<SumTerm>, ids: Terms)
    requires IsBlock(b) && AllBelow(args, |b.ops|)
    ensures AllStand(b, args, table, terms, ids) && AllSorted(ids)
  {
    hide TermStands, IsTable;
    table, terms, ids := [], [], [];
    NoNumbers();
    for n := 0 to |args|
      invariant |terms| == |ids| == n && IsTable(table)
      invariant forall i :: 0 <= i < n ==> TermStands(b, args[i], table, terms[i], ids[i])
    {
      var t := LikeTerms.GetSumTerm(b, args[n]);
      ghost var before := table;
      var s;
      s, table := NumberTerm(table, t);
      forall i | 0 <= i < n
        ensures TermStands(b, args[i], table, terms[i], ids[i])
      {
        MoreTermStands(b, args[i], before, table, terms[i], ids[i]);
      }
      StandsNow(b, args[n], table, t, s);
      terms, ids := terms + [t], ids + [s];
    }
    forall i | 0 <= i < |ids|
      ensures IsSorted(ids[i])
    {
      StandsSorted(b, args[i], table, terms[i], ids[i]);
    }
  }

  lemma {:induction false} NoNumbers()
    ensures IsTable([])
  {}

  lemma {:induction false} StandsNow(b: Block, v: nat, table: seq<SumFactor>, t: SumTerm, ids: Ids)
    requires IsBlock(b) && v < |b.ops| && LikeTerms.TermValue(b, t) == Eval(b, v) && IsSorted(ids)
    requires Stands(table, t, Sign(t.coefficient), ids)
    ensures TermStands(b, v, table, t, ids)
  {}

  lemma {:induction false} StandsSorted(b: Block, v: nat, table: seq<SumFactor>, t: SumTerm, ids: Ids)
    requires IsBlock(b) && TermStands(b, v, table, t, ids)
    ensures IsSorted(ids)
  {}

  // ---------------------------------------------------------------- removing the cube

  /** What is left when the number at index i is removed. */
  lemma {:induction false} Erased(table: seq<SumFactor>, ids: Ids, i: nat)
    requires i < |ids| && InTable(table, ids)
    ensures var left := ids[..i] + ids[i + 1..];
      ids[i] < |table| && InTable(table, left) && PartsOf(table, ids) == AddPart(PartsOf(table, left), table, ids[i])
  {
    hide AddPart, InTable;
    var left := ids[..i] + ids[i + 1..];
    InTail(table, ids);
    if i == 0 {
      assert left == ids[1..];
    } else {
      var rest := ids[1..];
      var others := rest[..i - 1] + rest[i..];
      Erased(table, rest, i - 1);
      assert left == [ids[0]] + others;
      InCons(table, ids[0], others);
      assert left[1..] == others && left[0] == ids[0];
      AddPartsSwap(PartsOf(table, others), table, ids[i], ids[0]);
    }
  }

  lemma {:induction false} ErasedMultiset(ids: Ids, i: nat)
    requires i < |ids|
    ensures multiset(ids[..i] + ids[i + 1..]) == multiset(ids) - multiset{ids[i]}
  {
    assert ids == ids[..i] + [ids[i]] + ids[i + 1..];
  }

  lemma {:induction false} Divided(x: real, c: real, sign: real, m: real)
    requires c != 0.0 && x == Mul(sign, Mul(c, m))
    ensures x / c == Mul(sign, m)
  {
    assert x == c * (sign * m);
    Quotient(c, sign * m);
  }

  lemma {:induction false} Quotient(c: real, y: real)
    requires c != 0.0
    ensures (c * y) / c == y
  {}

  /** A term without a factor. */
  method WithoutFactor(table: seq<SumFactor>, t: SumTerm, ghost sign: real, ghost ids: Ids, id: nat)
    returns (r: SumTerm, ghost left: Ids)
    requires IsTable(table) && Stands(table, t, sign, ids) && id in multiset(ids)
    ensures r.ty == t.ty && Stands(table, r, sign, left) && multiset(left) == multiset(ids) - multiset{id}
  {
    hide Mul, PartsOf;
    ghost var i :| 0 <= i < |ids| && ids[i] == id;
    Erased(table, ids, i);
    ErasedMultiset(ids, i);
    left := ids[..i] + ids[i + 1..];
    match table[id] {
      case Factor(v) =>
        r := t.(factors := t.factors - multiset{v});
      case Magnitude(c) =>
        Divided(t.coefficient, c, sign, PartsOf(table, left).magnitude);
        r := t.(coefficient := t.coefficient / c);
    }
  }

  /** A term without the factors of the cube, as a scalar. */
  method WithoutFactors(table: seq<SumFactor>, t: SumTerm, ghost sign: real, ghost ids: Ids, cube: Ids)
    returns (r: SumTerm, ghost left: Ids)
    requires IsTable(table) && Stands(table, t, sign, ids) && multiset(cube) <= multiset(ids)
    ensures r.ty == 0 && Stands(table, r, sign, left) && multiset(left) == multiset(ids) - multiset(cube)
  {
    hide Stands, IsTable;
    TypeFree(table, t, sign, ids, 0);
    r, left := t.(ty := 0), ids;
    for j := 0 to |cube|
      invariant r.ty == 0 && Stands(table, r, sign, left)
      invariant multiset(left) == multiset(ids) - multiset(cube[..j])
    {
      assert cube[..j + 1] == cube[..j] + [cube[j]];
      PartOf(cube, j);
      r, left := WithoutFactor(table, r, sign, left, cube[j]);
    }
    assert cube[..|cube|] == cube;
  }

  lemma {:induction false} TypeFree(table: seq<SumFactor>, t: SumTerm, sign: real, ids: Ids, ty: nat)
    requires Stands(table, t, sign, ids)
    ensures Stands(table, t.(ty := ty), sign, ids)
  {}

  lemma {:induction false} PartOf(cube: Ids, j: nat)
    requires j < |cube|
    ensures multiset(cube[..j]) + multiset{cube[j]} <= multiset(cube)
  {
    assert cube == cube[..j] + [cube[j]] + cube[j + 1..];
  }

  // ---------------------------------------------------------------- emitted operations

  /** The multiplications in emitted operations. */
  ghost function Multiplications(e: Code): nat
    decreases e, 0
  {
    match e
    case Multiplied(_, args) => (if args == [] then 0 else |args| - 1) + AllMultiplications(args)
    case Inverse(arg) => Multiplications(arg)
    case Negated(_, arg) => Multiplications(arg)
    case Summed(_, args) => AllMultiplications(args)
    case _ => 0
  }

  ghost function AllMultiplications(es: seq<Code>): nat
    decreases es, 1
  {
    if es == [] then 0 else AllMultiplications(es[..|es| - 1]) + Multiplications(es[|es| - 1])
  }

  ghost predicate IsSimple(e: Code) { e.Existing? || e.Constant? }

  lemma {:induction false} SnocMultiplications(es: seq<Code>, e: Code)
    ensures AllMultiplications(es + [e]) == AllMultiplications(es) + Multiplications(e)
  {
    assert (es + [e])[..|es|] == es;
  }

  lemma {:induction false} NoMultiplications(es: seq<Code>)
    requires forall i :: 0 <= i < |es| ==> IsSimple(es[i])
    ensures AllMultiplications(es) == 0
  {
    if es != [] { NoMultiplications(es[..|es| - 1]); }
  }

  /** The values of the factors of a term. */
  method FactorCodes(b: Block, p: Product) returns (es: seq<Code>)
    requires IsBlock(b)
    ensures Materializing.ProductValue(b, es) == Factorings.Value(LikeTerms.Values(b), p)
    ensures |es| == |p| && forall i :: 0 <= i < |es| ==> es[i].Existing?
  {
    hide Mul;
    ghost var env := LikeTerms.Values(b);
    es := [];
    var rest := p;
    MulUnit(Factorings.Value(env, p));
    while rest != multiset{}
      invariant Mul(Materializing.ProductValue(b, es), Factorings.Value(env, rest)) == Factorings.Value(env, p)
      invariant |es| + |rest| == |p| && forall i :: 0 <= i < |es| ==> es[i].Existing?
      decreases |rest|
    {
      var v :| v in rest;
      ValueRemove(env, rest, v);
      MulAssoc(Materializing.ProductValue(b, es), env(v), Factorings.Value(env, rest - multiset{v}));
      Materializing.ProductSnoc(b, es, Materializing.Existing(v));
      es := es + [Materializing.Existing(v)];
      rest := rest - multiset{v};
    }
    MulUnit(Materializing.ProductValue(b, es));
  }

  /** createSumTerm: the operations for a term, with a multiplication less than it has factors, a magnitude
      other than 1 among them. */
  method CreateSumTerm(b: Block, t: SumTerm) returns (e: Code)
    requires IsBlock(b)
    ensures Materializing.CodeValue(b, e) == LikeTerms.TermValue(b, t) && Materializing.TypeOf(b, e) == t.ty
    ensures var n := |t.factors| + if t.coefficient in {1.0, -1.0} then 0 else 1;
      t.coefficient != 0.0 ==> Multiplications(e) == if n == 0 then 0 else n - 1
  {
    hide Mul, Materializing.ProductValue;
    var es := FactorCodes(b, t.factors);
    e := Materializing.CreateTerm(b, t.ty, es, t.coefficient);
    Materializing.TermValue(b, t.ty, es, t.coefficient);
    TermMultiplications(b, t.ty, es, t.coefficient);
  }

  lemma {:induction false} TermMultiplications(b: Block, ty: nat, es: seq<Code>, c: real)
    requires forall i :: 0 <= i < |es| ==> es[i].Existing?
    ensures var n := |es| + if c in {1.0, -1.0} then 0 else 1;
      Multiplications(Materializing.CreateTerm(b, ty, es, c)) == if es == [] then 0 else n - 1
  {
    var a := if c < 0.0 then -c else c;
    NoMultiplications((if a != 1.0 then [Materializing.Constant(SCALAR_TYPE, a)] else []) + es);
  }

  // ---------------------------------------------------------------- the factored sum

  lemma {:induction false} StandsValue(b: Block, table: seq<SumFactor>, t: SumTerm, sign: real, ids: Ids)
    requires IsBlock(b) && Stands(table, t, sign, ids)
    ensures LikeTerms.TermValue(b, t) == Mul(sign, Factorings.Value(FactorValues(b, table), multiset(ids)))
  {
    hide Mul, PartsOf, FactorValues;
    ValueOfIds(b, table, ids);
    MulAssoc(sign, PartsOf(table, ids).magnitude, Factorings.Value(LikeTerms.Values(b), t.factors));
  }

  /** A term has a magnitude other than 1 when one is numbered. */
  lemma {:induction false} StandsCount(table: seq<SumFactor>, t: SumTerm, sign: real, ids: Ids)
    requires IsTable(table) && Stands(table, t, sign, ids) && sign in {1.0, -1.0}
    ensures t.coefficient != 0.0
    ensures |ids| == |t.factors| + if t.coefficient in {1.0, -1.0} then 0 else 1
  {
    hide PartsOf, IsTable;
    CountIds(table, ids);
    OneMagnitude(table, ids);
  }

  /** The term of an operand with the cube removed. */
  method InnerTerm(b: Block, v: nat, table: seq<SumFactor>, t: SumTerm, ghost ids: Ids, cube: Ids) returns (e: Code)
    requires IsBlock(b) && IsTable(table) && TermStands(b, v, table, t, ids) && multiset(cube) <= multiset(ids)
    ensures Mul(Factorings.Value(FactorValues(b, table), multiset(cube)), Materializing.CodeValue(b, e)) == Eval(b, v)
    ensures Materializing.TypeOf(b, e) == SCALAR_TYPE
    ensures t.coefficient != 0.0 ==> Multiplications(e) == ProductCost(multiset(ids) - multiset(cube))
  {
    hide Mul, Stands, IsTable, Eval, FactorValues;
    ghost var sign, env := Sign(t.coefficient), FactorValues(b, table);
    StandsValue(b, table, t, sign, ids);
    var r; ghost var left;
    r, left := WithoutFactors(table, t, sign, ids, cube);
    StandsValue(b, table, r, sign, left);
    ghost var a, x := multiset(cube), multiset(ids) - multiset(cube);
    assert multiset(ids) == a + x;
    ValueAdd(env, a, x);
    MulSwap(Factorings.Value(env, a), sign, Factorings.Value(env, x));
    if t.coefficient != 0.0 { StandsCount(table, r, sign, left); }
    assert |x| == |left|;
    e := CreateSumTerm(b, r);
  }

  lemma {:induction false} FactorCode(b: Block, table: seq<SumFactor>, id: nat)
    requires IsBlock(b) && id < |table|
    ensures FactorValues(b, table)(id) ==
      Materializing.CodeValue(b, if table[id].Factor? then Materializing.Existing(table[id].v)
                                 else Materializing.Constant(SCALAR_TYPE, table[id].c))
  {}

  lemma {:induction false} ValueSnoc(env: nat -> real, ids: Ids, x: nat)
    ensures Factorings.Value(env, multiset(ids + [x])) == Mul(Factorings.Value(env, multiset(ids)), env(x))
  {
    hide Mul;
    ValueCons(env, x, multiset(ids));
    assert multiset(ids + [x]) == multiset{x} + multiset(ids);
    MulComm(env(x), Factorings.Value(env, multiset(ids)));
  }

  lemma {:induction false} EmptyValue(env: nat -> real)
    ensures Factorings.Value(env, multiset{}) == 1.0
  {}

  /** The factors of the cube. */
  method CubeCodes(b: Block, table: seq<SumFactor>, cube: Ids) returns (es: seq<Code>)
    requires IsBlock(b) && InTable(table, cube)
    ensures Materializing.ProductValue(b, es) == Factorings.Value(FactorValues(b, table), multiset(cube))
    ensures |es| == |cube| && forall i :: 0 <= i < |es| ==> IsSimple(es[i])
  {
    hide Mul, FactorValues, Materializing.CodeValue, Factorings.Value, Materializing.ProductValue;
    ghost var env := FactorValues(b, table);
    es := [];
    EmptyValue(env);
    Materializing.EmptyProduct(b);
    for j := 0 to |cube|
      invariant Materializing.ProductValue(b, es) == Factorings.Value(env, multiset(cube[..j]))
      invariant |es| == j && forall i :: 0 <= i < |es| ==> IsSimple(es[i])
    {
      var id := cube[j];
      assert cube[..j + 1] == cube[..j] + [id];
      assert id in cube && id < |table|;
      var f := table[id];
      var e := if f.Factor? then Materializing.Existing(f.v) else Materializing.Constant(SCALAR_TYPE, f.c);
      FactorCode(b, table, id);
      ValueSnoc(env, cube[..j], id);
      Materializing.ProductSnoc(b, es, e);
      es := es + [e];
    }
    assert cube[..|cube|] == cube;
  }

  lemma {:induction false} SumCons(b: Block, e: Code, es: seq<Code>)
    requires IsBlock(b)
    ensures Materializing.SumValue(b, [e] + es) == Materializing.CodeValue(b, e) + Materializing.SumValue(b, es)
    ensures AllMultiplications([e] + es) == Multiplications(e) + AllMultiplications(es)
  {
    var all := [e] + es;
    if es == [] {
      var none: seq<Code> := all[..0];
      assert all == none + [e];
      Materializing.SumSnoc(b, none, e);
      SnocMultiplications(none, e);
    } else {
      assert all[..|es|] == [e] + es[..|es| - 1];
      SumCons(b, e, es[..|es| - 1]);
    }
  }

  /** The cube times the inner sum, with the operands that are kept. */
  function Factored(ty: nat, cube: seq<Code>, inner: seq<Code>, kept: seq<Code>): Code {
    var product := Materializing.Multiplied(ty, cube + [Materializing.Summed(SCALAR_TYPE, inner)]);
    if kept == [] then product else Materializing.Summed(ty, [product] + kept)
  }

  lemma {:induction false} FactoredValue(b: Block, ty: nat, cube: seq<Code>, inner: seq<Code>, kept: seq<Code>)
    requires IsBlock(b)
    ensures Materializing.CodeValue(b, Factored(ty, cube, inner, kept)) ==
      Mul(Materializing.ProductValue(b, cube), Materializing.SumValue(b, inner)) + Materializing.SumValue(b, kept)
  {
    hide Mul;
    var sum := Materializing.Summed(SCALAR_TYPE, inner);
    Materializing.ProductSnoc(b, cube, sum);
    SumCons(b, Materializing.Multiplied(ty, cube + [sum]), kept);
  }

  lemma {:induction false} FactoredMultiplications(b: Block, ty: nat, cube: seq<Code>, inner: seq<Code>,
                                                   kept: seq<Code>)
    requires IsBlock(b)
    requires forall i :: 0 <= i < |cube| ==> IsSimple(cube[i])
    requires forall i :: 0 <= i < |kept| ==> IsSimple(kept[i])
    ensures Multiplications(Factored(ty, cube, inner, kept)) == |cube| + AllMultiplications(inner)
  {
    var sum := Materializing.Summed(SCALAR_TYPE, inner);
    NoMultiplications(cube);
    NoMultiplications(kept);
    SnocMultiplications(cube, sum);
    SumCons(b, Materializing.Multiplied(ty, cube + [sum]), kept);
  }

  /** The multiplications n of the emitted operations and those of the operands that are kept: the choice
      saves what it says. */
  ghost predicate Saves(terms: seq<Product>, choice: CubeChoice, n: nat) {
    exists id, skip :: IsChoice(terms, choice, id, skip) &&
      n + ProductsCost(Others(terms, id, skip)) == ProductsCost(terms) - choice.savings
  }

  lemma {:induction false} ChoiceSaves(terms: seq<Product>, choice: CubeChoice, id: nat, skip: bool)
    requires IsChoice(terms, choice, id, skip)
    ensures Saves(terms, choice, |choice.cube| + ProductsCost(Inner(terms, id, skip)))
  {
    hide Chosen, Others, Cube, Savings, ProductsCost, WithoutCube, MaskOf;
    var cube := multiset(choice.cube);
    SavingsExact(terms, id, skip, 0);
    CostConcat(Others(terms, id, skip), [cube + multiset{0}]);
    CostOfProduct(cube, 0);
  }

  /** A cube is part of each chosen term. */
  lemma {:induction false} CubeInChosen(terms: seq<Product>, id: nat, skip: bool, i: nat)
    requires i < |terms| && IsChosen(terms[i], id, skip)
    ensures Chosen(terms, id, skip) != [] && Cube(Chosen(terms, id, skip)) <= terms[i]
  {
    if i == 0 {
      assert Chosen(terms, id, skip)[0] == terms[0];
    } else {
      CubeInChosen(terms[1..], id, skip, i - 1);
      if IsChosen(terms[0], id, skip) {
        assert Chosen(terms, id, skip)[1..] == Chosen(terms[1..], id, skip);
      }
    }
  }

  /** Numbered terms. */
  datatype Numbered = Numbered(table: seq<SumFactor>, terms: seq<SumTerm>, ids: Terms)

  ghost predicate IsNumbered(b: Block, args: seq<nat>, n: Numbered)
    requires IsBlock(b)
  {
    AllStand(b, args, n.table, n.terms, n.ids)
  }

  /** No coefficient is zero. */
  ghost predicate NoneZero(terms: seq<SumTerm>) { forall i :: 0 <= i < |terms| ==> terms[i].coefficient != 0.0 }

  /** What is known of the inner terms and the kept operands when those up to the i-th operand are split: a
      is the value of the cube and x that of the operands. */
  ghost predicate IsSplit(b: Block, terms: seq<Product>, cube: Product, exact: bool, a: real, x: real, inner: seq<Code>,
                          kept: seq<Code>, id: nat, skip: bool)
    requires IsBlock(b)
  {
    && Mul(a, Materializing.SumValue(b, inner)) + Materializing.SumValue(b, kept) == x
    && (exact ==> AllMultiplications(inner) == ProductsCost(WithoutCube(Chosen(terms, id, skip), cube)))
    && forall k :: 0 <= k < |kept| ==> IsSimple(kept[k])
  }

  lemma {:induction false} SplitNone(b: Block, cube: Product, exact: bool, a: real, id: nat, skip: bool)
    requires IsBlock(b)
    ensures IsSplit(b, [], cube, exact, a, 0.0, [], [], id, skip)
  {
    MulUnit(a);
  }

  lemma {:induction false} SplitKept(b: Block, terms: seq<Product>, cube: Product, exact: bool, a: real, x: real,
                                     inner: seq<Code>, kept: seq<Code>, id: nat, skip: bool, t: Product, v: nat)
    requires IsBlock(b) && IsSplit(b, terms, cube, exact, a, x, inner, kept, id, skip) && v < |b.ops|
    requires !IsChosen(t, id, skip)
    ensures IsSplit(b, terms + [t], cube, exact, a, x + Eval(b, v), inner, kept + [Materializing.Existing(v)], id, skip)
  {
    hide Mul, Chosen, ProductsCost, WithoutCube, Eval, Materializing.CodeValue;
    ChosenSnoc(terms, t, id, skip);
    Materializing.SumSnoc(b, kept, Materializing.Existing(v));
    ExistingValue(b, v);
  }

  lemma {:induction false} SplitInner(b: Block, terms: seq<Product>, cube: Product, exact: bool, a: real, x: real,
                                      inner: seq<Code>, kept: seq<Code>, id: nat, skip: bool, t: Product, e: Code)
    requires IsBlock(b) && IsSplit(b, terms, cube, exact, a, x, inner, kept, id, skip)
    requires IsChosen(t, id, skip) && (exact ==> Multiplications(e) == ProductCost(t - cube))
    ensures IsSplit(b, terms + [t], cube, exact, a, x + Mul(a, Materializing.CodeValue(b, e)), inner + [e], kept, id,
      skip)
  {
    hide Mul, Chosen, ProductsCost, WithoutCube, Multiplications, Materializing.CodeValue, Materializing.SumValue;
    hide AllMultiplications, ProductCost, IsChosen;
    Materializing.SumSnoc(b, inner, e);
    MulAdd(a, Materializing.SumValue(b, inner), Materializing.CodeValue(b, e));
    SnocMultiplications(inner, e);
    InnerCost(terms, cube, id, skip, t);
  }

  /** One more chosen term. */
  lemma {:induction false} InnerCost(terms: seq<Product>, cube: Product, id: nat, skip: bool, t: Product)
    requires IsChosen(t, id, skip)
    ensures ProductsCost(WithoutCube(Chosen(terms + [t], id, skip), cube)) ==
      ProductsCost(WithoutCube(Chosen(terms, id, skip), cube)) + ProductCost(t - cube)
  {
    hide Chosen, ProductsCost, WithoutCube;
    ChosenSnoc(terms, t, id, skip);
    var chosen := Chosen(terms, id, skip);
    WithoutSnoc(chosen, t, cube);
    CostConcat(WithoutCube(chosen, cube), [t - cube]);
    CostOne(t - cube);
  }

  /** The inner terms and the operands that are kept. */
  method SplitOperands(b: Block, args: seq<nat>, n: Numbered, choice: CubeChoice, ghost id: nat, ghost skip: bool,
                       ghost v: nat)
    returns (inner: seq<Code>, kept: seq<Code>)
    requires IsBlock(b) && IsNumbered(b, args, n) && v <= |b.ops| && AllBelow(args, v)
    requires IsChoice(Abs(n.ids), choice, id, skip)
    ensures IsSplit(b, Abs(n.ids), multiset(choice.cube), NoneZero(n.terms),
      Factorings.Value(FactorValues(b, n.table), multiset(choice.cube)), EvalSum(b, args, v), inner, kept, id, skip)
  {
    hide Chosen, Cube, Savings, TermStands, IsTable, FactorValues, IsSplit, EvalSum, Eval, Factorings.Value, Worthwhile;
    inner, kept := [], [];
    ghost var cube, exact := multiset(choice.cube), NoneZero(n.terms);
    ghost var a := Factorings.Value(FactorValues(b, n.table), cube);
    SplitNone(b, cube, exact, a, id, skip);
    assert Abs(n.ids[..0]) == [];
    NoSum(b, v);
    for i := 0 to |args|
      invariant IsSplit(b, Abs(n.ids[..i]), cube, exact, a, EvalSum(b, args[..i], v), inner, kept, id, skip)
    {
      SumUpTo(b, args, v, i);
      AbsSnoc(n.ids, i);
      ghost var t, x, terms := multiset(n.ids[i]), EvalSum(b, args[..i], v), Abs(n.ids[..i]);
      assert choice.mask[i] == IsChosen(t, id, skip);
      StandsBelow(b, args[i], n.table, n.terms[i], n.ids[i]);
      if !choice.mask[i] {
        SplitKept(b, terms, cube, exact, a, x, inner, kept, id, skip, t, args[i]);
        kept := kept + [Materializing.Existing(args[i])];
      } else {
        CubeInChosen(Abs(n.ids), id, skip, i);
        var e := InnerTerm(b, args[i], n.table, n.terms[i], n.ids[i], choice.cube);
        SplitInner(b, terms, cube, exact, a, x, inner, kept, id, skip, t, e);
        inner := inner + [e];
      }
    }
    assert args[..|args|] == args && n.ids[..|args|] == n.ids;
  }

  lemma {:induction false} NoSum(b: Block, v: nat)
    requires IsBlock(b) && v <= |b.ops|
    ensures EvalSum(b, [], v) == 0.0
  {}

  lemma {:induction false} SumUpTo(b: Block, args: seq<nat>, v: nat, i: nat)
    requires IsBlock(b) && v <= |b.ops| && AllBelow(args, v) && i < |args|
    ensures EvalSum(b, args[..i + 1], v) == EvalSum(b, args[..i], v) + Eval(b, args[i])
  {
    assert args[..i + 1][..i] == args[..i];
  }

  lemma {:induction false} StandsBelow(b: Block, v: nat, table: seq<SumFactor>, t: SumTerm, ids: Ids)
    requires IsBlock(b) && TermStands(b, v, table, t, ids)
    ensures v < |b.ops| && InTable(table, ids)
  {}

  lemma {:induction false} ExistingValue(b: Block, v: nat)
    requires IsBlock(b) && v < |b.ops|
    ensures Materializing.CodeValue(b, Materializing.Existing(v)) == Eval(b, v)
  {}

  lemma {:induction false} CubeInTable(b: Block, args: seq<nat>, n: Numbered, choice: CubeChoice, id: nat, skip: bool)
    requires IsBlock(b) && IsNumbered(b, args, n) && IsChoice(Abs(n.ids), choice, id, skip)
    ensures InTable(n.table, choice.cube)
  {
    hide Savings, Cube, IsTable;
    var chosen := Chosen(Abs(n.ids), id, skip);
    ChosenCount(Abs(n.ids), id, skip, chosen[0]);
    assert chosen[0] in multiset(chosen);
    assert chosen[0] in multiset(Abs(n.ids));
    var i :| 0 <= i < |n.ids| && Abs(n.ids)[i] == chosen[0];
    StandsBelow(b, args[i], n.table, n.terms[i], n.ids[i]);
    forall x | x in choice.cube
      ensures x < |n.table|
    {
      assert x in multiset(choice.cube) && x in chosen[0] && x in n.ids[i];
    }
  }

  /** Factors the chosen cube out of a sum. */
  method FactorOut(b: Block, args: seq<nat>, n: Numbered, choice: CubeChoice, ghost id: nat, ghost skip: bool,
                   ty: nat, ghost v: nat)
    returns (code: Code)
    requires IsBlock(b) && IsNumbered(b, args, n) && v <= |b.ops| && AllBelow(args, v)
    requires IsChoice(Abs(n.ids), choice, id, skip)
    ensures Materializing.CodeValue(b, code) == EvalSum(b, args, v) && Materializing.TypeOf(b, code) == ty
    ensures NoneZero(n.terms) ==> Saves(Abs(n.ids), choice, Multiplications(code))
  {
    hide Mul, Saves, Multiplications, AllMultiplications, Materializing.CodeValue, IsNumbered, FactorValues;
    hide Cube, Chosen, Savings, MaskOf;
    var inner, kept := SplitOperands(b, args, n, choice, id, skip, v);
    CubeInTable(b, args, n, choice, id, skip);
    var cube := CubeCodes(b, n.table, choice.cube);
    code := Factored(ty, cube, inner, kept);
    FactoredValue(b, ty, cube, inner, kept);
    FactoredMultiplications(b, ty, cube, inner, kept);
    ChoiceSaves(Abs(n.ids), choice, id, skip);
  }

  /** FactorSum: the operations that replace a sum have its value, and unless a coefficient is zero they have
      as many multiplications less as the choice says. The choice is the best one found by the search. */
  method FactorSum(b: Block, v: nat, budget: nat)
    returns (code: Option<Code>, n: Numbered, best: Option<CubeChoice>, cost: nat, left: nat, ghost tries: set<Try>)
    requires IsBlock(b) && v < |b.ops| && b.ops[v].Sum? && b.ops[v].areBlades
    ensures IsNumbered(b, b.ops[v].args, n) && IsBest(Abs(n.ids), best, cost, left == 0)
    ensures IsSpent(Abs(n.ids), tries, budget, left)
    ensures code.Some? <==> HasChoice(Abs(n.ids))
    ensures code.Some? ==>
      Materializing.CodeValue(b, code.value) == Eval(b, v) && Materializing.TypeOf(b, code.value) == b.types[v]
    ensures code.Some? && NoneZero(n.terms) ==> best.Some? && Saves(Abs(n.ids), best.value, Multiplications(code.value))
  {
    hide Saves, Multiplications, Materializing.CodeValue, IsChoice, AllStand, IsCost, HasChoice, IsSpent, Achieves;
    hide NoneCheaper;
    var args := b.ops[v].args;
    assert OpBelow(b.ops[v], v);
    var table, terms, ids := NumberTerms(b, args);
    n := Numbered(table, terms, ids);
    best, cost, left, tries := FactorSearches.FactorSum(ids, budget);
    code := None;
    if best.Some? {
      ghost var id, skip := BestIsChoice(Abs(ids), best.value, cost, left == 0);
      var c := FactorOut(b, args, n, best.value, id, skip, b.types[v], v);
      code := Some(c);
    }
  }

  lemma {:induction false} BestIsChoice(terms: seq<Product>, c: CubeChoice, cost: nat, greedy: bool)
    returns (id: nat, skip: bool)
    requires IsBest(terms, Some(c), cost, greedy)
    ensures IsChoice(terms, c, id, skip)
  {
    hide Achievable, IsCost, Inner, Outer, Chosen, Cube, Savings, MaskOf, NoneCheaper;
    var p: nat, q: nat :| SplitCosts(terms, c, p, q) && p + q == cost;
    id, skip :| IsChoice(terms, c, id, skip) &&
      Achievable(Inner(terms, id, skip), p) && Achievable(Outer(terms, id, skip, NewId(terms)), q);
  }
}
