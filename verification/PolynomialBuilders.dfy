/**
 Building the polynomial of an expression and completing its squares
 (PolynomialBuilder and SimplifyPolynomial in geomalg/lib/Geomalg/Passes.cpp).

 Expressions are values of a block: a value is the index of the operation that
 defines it, and its operands come before it.
 */
module PolynomialBuilders {
  import opened Options
  import opened RealProducts
  import opened Polynomials

  /** `Input` is any operation that is not taken apart. */
  datatype Op =
    | Input
    | Zero
    | Blade(c: real)
    | Negate(arg: nat, isBlade: bool)
    | CMul(args: seq<nat>)
    | Sum(args: seq<nat>, areBlades: bool)
    | Dot(lhs: Option<seq<nat>>, rhs: Option<seq<nat>>)
    | Inverse(arg: nat, isScalar: bool)

  /** Operations, the blade types of their results, and results that are given. */
  datatype Block = Block(ops: seq<Op>, types: seq<nat>, inputs: seq<real>)

  predicate AllBelow(args: seq<nat>, n: nat) { forall i :: 0 <= i < |args| ==> args[i] < n }

  predicate OpBelow(op: Op, n: nat) {
    match op
    case Negate(a, _) => a < n
    case CMul(args) => AllBelow(args, n)
    case Sum(args, _) => AllBelow(args, n)
    case Dot(l, r) => (l.Some? ==> AllBelow(l.value, n)) && (r.Some? ==> AllBelow(r.value, n))
    case Inverse(a, _) => a < n
    case _ => true
  }

  ghost predicate IsBlock(b: Block) {
    && |b.ops| == |b.types| == |b.inputs|
    && forall v :: 0 <= v < |b.ops| ==> OpBelow(b.ops[v], v)
  }

  /** The value of an expression. */
  ghost function Eval(b: Block, v: nat): real
    requires IsBlock(b) && v < |b.ops|
    decreases v + 1, 0
  {
    match b.ops[v]
    case Zero => 0.0
    case Blade(c) => c
    case Negate(a, true) => -Eval(b, a)
    case CMul(args) => EvalProduct(b, args, v)
    case Sum(args, true) => EvalSum(b, args, v)
    case Dot(Some(l), Some(r)) => EvalDot(b, l, r, v)
    case Inverse(a, true) => if Eval(b, a) == 0.0 then 0.0 else 1.0 / Eval(b, a)
    case _ => b.inputs[v]
  }

  ghost function EvalProduct(b: Block, args: seq<nat>, v: nat): real
    requires IsBlock(b) && v <= |b.ops| && AllBelow(args, v)
    decreases v, |args|
  {
    if args == [] then 1.0 else Mul(EvalProduct(b, args[..|args| - 1], v), Eval(b, args[|args| - 1]))
  }

  ghost function EvalSum(b: Block, args: seq<nat>, v: nat): real
    requires IsBlock(b) && v <= |b.ops| && AllBelow(args, v)
    decreases v, |args|
  {
    if args == [] then 0.0 else EvalSum(b, args[..|args| - 1], v) + Eval(b, args[|args| - 1])
  }

  /** x times each component of the same blade type. */
  ghost function EvalRow(b: Block, x: nat, r: seq<nat>, v: nat): real
    requires IsBlock(b) && v <= |b.ops| && x < v && AllBelow(r, v)
    decreases v, |r|, 0
  {
    if r == [] then 0.0 else
      var y := r[|r| - 1];
      EvalRow(b, x, r[..|r| - 1], v) + if b.types[x] == b.types[y] then Mul(Eval(b, x), Eval(b, y)) else 0.0
  }

  ghost function EvalDot(b: Block, l: seq<nat>, r: seq<nat>, v: nat): real
    requires IsBlock(b) && v <= |b.ops| && AllBelow(l, v) && AllBelow(r, v)
    decreases v, |l| + |r|, 1
  {
    if l == [] then 0.0 else EvalDot(b, l[..|l| - 1], r, v) + EvalRow(b, l[|l| - 1], r, v)
  }

  /** Nothing that is zero is inverted. */
  ghost predicate InversesDefined(b: Block)
    requires IsBlock(b)
  {
    forall v :: 0 <= v < |b.ops| && b.ops[v].Inverse? && b.ops[v].isScalar ==> Eval(b, b.ops[v].arg) != 0.0
  }

  /** An atom is a value or the sum U + T·V of earlier atoms. */
  datatype Atom = Value(v: nat) | Combined(u: nat, w: nat, t: real)

  /** `p` is a polynomial with the value x. */
  ghost predicate Denotes(env: Env, p: Polynomial, x: real) {
    WellFormed(env, p) && Over(|env|, p) && Polynomials.Value(env, p) == x
  }

  lemma {:induction false} DenotesMore(env: Env, more: Env, p: Polynomial, x: real)
    requires Denotes(env, p, x) && env <= more
    ensures Denotes(more, p, x)
  {
    ValueOverAtoms(env, more, p);
  }

  lemma {:induction false} DenotesTerm(env: Env, m: Monomial, c: real)
    requires c != 0.0 && IsMonomial(m) && Defined(env, m) && forall id :: id in m ==> id < |env|
    ensures Denotes(env, map[m := c], Mul(c, MonomialValue(env, m)))
  {
    var p: Polynomial := map[m := c];
    ValueRemove(env, p, m);
    assert p - {m} == map[];
  }

  lemma {:induction false} DenotesNone(env: Env)
    ensures Denotes(env, map[], 0.0)
  {}

  lemma {:induction false} DenotesConstant(env: Env, c: real)
    requires c != 0.0
    ensures Denotes(env, map[map[] := c], c)
  {
    DenotesTerm(env, map[], c);
    MulUnit(c);
  }

  /** A term added to a polynomial. */
  lemma {:induction false} DenotesAdd(env: Env, p: Polynomial, x: real, m: Monomial, c: real)
    requires Denotes(env, p, x)
    requires IsMonomial(m) && Defined(env, m) && forall id :: id in m ==> id < |env|
    ensures Denotes(env, WithCoefficient(p, m, Coefficient(p, m) + c), x + Mul(c, MonomialValue(env, m)))
  {
    AddTermValue(env, p, m, c);
  }

  /** The rest of a polynomial after one of its terms. */
  lemma {:induction false} DenotesRest(env: Env, p: Polynomial, x: real, m: Monomial)
    requires Denotes(env, p, x) && m in p
    ensures IsMonomial(m) && Defined(env, m) && (forall id :: id in m ==> id < |env|) && p[m] != 0.0
    ensures Denotes(env, p - {m}, x - Mul(p[m], MonomialValue(env, m)))
  {
    ValueRemove(env, p, m);
    WellFormedParts(env, p, m);
  }

  /** x is the value of an atom over the atoms with the values of env. */
  ghost predicate IsAtom(b: Block, env: Env, a: Atom, x: real)
    requires IsBlock(b)
  {
    match a
    case Value(v) => v < |b.ops| && x == Eval(b, v)
    case Combined(u, w, t) => u < |env| && w < |env| && x == env[u] + Mul(t, env[w])
  }

  ghost predicate AreAtoms(b: Block, atoms: seq<Atom>, env: Env)
    requires IsBlock(b)
  {
    && |atoms| == |env|
    && forall i :: 0 <= i < |atoms| ==> IsAtom(b, env[..i], atoms[i], env[i])
  }

  ghost predicate IsCache(b: Block, cache: map<nat, Option<Polynomial>>, env: Env)
    requires IsBlock(b)
  {
    forall v :: v in cache && cache[v].Some? ==> v < |b.ops| && Denotes(env, cache[v].value, Eval(b, v))
  }

  lemma {:induction false} AtomsMore(b: Block, atoms: seq<Atom>, env: Env, a: Atom, x: real)
    requires IsBlock(b) && AreAtoms(b, atoms, env) && IsAtom(b, env, a, x)
    ensures AreAtoms(b, atoms + [a], env + [x])
  {
    forall i | 0 <= i < |atoms + [a]| ensures IsAtom(b, (env + [x])[..i], (atoms + [a])[i], (env + [x])[i]) {
      if i < |atoms| {
        assert (env + [x])[..i] == env[..i];
      } else {
        assert (env + [x])[..i] == env;
      }
    }
  }

  lemma {:induction false} CacheMore(b: Block, cache: map<nat, Option<Polynomial>>, env: Env, more: Env)
    requires IsBlock(b) && IsCache(b, cache, env) && env <= more
    ensures IsCache(b, cache, more)
  {
    forall v | v in cache && cache[v].Some? ensures Denotes(more, cache[v].value, Eval(b, v)) {
      DenotesMore(env, more, cache[v].value, Eval(b, v));
    }
  }

  // ---------------------------------------------------------------- how polynomials are built

  type Cache = map<nat, Option<Polynomial>>

  const ONE: Polynomial := map[map[] := 1.0]

  /** r is the polynomial of v as an atom. */
  ghost predicate IsAtomOf(atoms: seq<Atom>, v: nat, p: Polynomial) {
    exists id :: 0 <= id < |atoms| && atoms[id] == Value(v) && p == map[map[id := 1] := 1.0]
  }

  /** A sum of constants and atoms. */
  predicate IsLinear(p: Polynomial) {
    forall m :: m in p ==> |m| <= 1 && forall id :: id in m ==> m[id] == 1
  }

  /** A factor that is kept as an atom: one without a polynomial, or a sum of several atoms. */
  predicate IsKept(b: Block, v: nat, r: Option<Polynomial>) {
    r.None? || (v < |b.ops| && b.ops[v].Sum? && IsLinear(r.value) && |r.value| > 1)
  }

  ghost predicate IsFactor(b: Block, atoms: seq<Atom>, cache: Cache, v: nat, p: Polynomial) {
    v in cache && if IsKept(b, v, cache[v]) then IsAtomOf(atoms, v, p) else cache[v] == Some(p)
  }

  /** The sum of the polynomials of operands, if none is missing and it is not too large on the way. */
  ghost predicate IsTotal(cache: Cache, args: seq<nat>, r: Option<Polynomial>, es: seq<Event>)
    decreases |args|, 0
  {
    if args == [] then r == Some(map[]) && es == []
    else TotalFrom(cache, args[..|args| - 1], args[|args| - 1], r, es)
  }

  ghost predicate TotalFrom(cache: Cache, front: seq<nat>, v: nat, r: Option<Polynomial>, es: seq<Event>)
    decreases |front|, 1
  {
    exists x: Option<Polynomial>, fs: seq<Event> ::
      IsTotal(cache, front, x, fs) && TotalStep(cache, v, x, fs, r, es)
  }

  ghost predicate TotalStep(cache: Cache, v: nat, x: Option<Polynomial>, fs: seq<Event>, r: Option<Polynomial>,
                            es: seq<Event>)
  {
    if x.None? then r.None? && es == fs
    else
      v in cache &&
      if cache[v].None? then r.None? && es == fs
      else
        var sum := Plus(x.value, cache[v].value, 1.0);
        es == fs + [Added(x.value, cache[v].value, 1.0)] && r == if |sum| > 64 then None else Some(sum)
  }

  /** The product of factors, if it is not too large on the way. */
  ghost predicate IsChain(b: Block, atoms: seq<Atom>, cache: Cache, args: seq<nat>, r: Option<Polynomial>,
                          es: seq<Event>)
    decreases |args|, 0
  {
    if args == [] then r == Some(ONE) && es == []
    else ChainFrom(b, atoms, cache, args[..|args| - 1], args[|args| - 1], r, es)
  }

  ghost predicate ChainFrom(b: Block, atoms: seq<Atom>, cache: Cache, front: seq<nat>, v: nat, r: Option<Polynomial>,
                            es: seq<Event>)
    decreases |front|, 1
  {
    exists x: Option<Polynomial>, fs: seq<Event> ::
      IsChain(b, atoms, cache, front, x, fs) && ChainStep(b, atoms, cache, v, x, fs, r, es)
  }

  ghost predicate ChainStep(b: Block, atoms: seq<Atom>, cache: Cache, v: nat, x: Option<Polynomial>, fs: seq<Event>,
                            r: Option<Polynomial>, es: seq<Event>)
  {
    if x.None? then r.None? && es == fs
    else
      exists f: Polynomial, ms: seq<Monomial> ::
        IsFactor(b, atoms, cache, v, f) && IsProduct(x.value, f, ms, r) && es == fs + Rows(x.value, f, ms)
  }

  /** The components of the same blade type. */
  function RowPairs(b: Block, x: nat, r: seq<nat>): seq<(nat, nat)> {
    if r == [] then []
    else
      var y := r[|r| - 1];
      RowPairs(b, x, r[..|r| - 1]) +
      if x < |b.types| && y < |b.types| && b.types[x] == b.types[y] then [(x, y)] else []
  }

  function DotPairs(b: Block, l: seq<nat>, r: seq<nat>): seq<(nat, nat)> {
    if l == [] then [] else DotPairs(b, l[..|l| - 1], r) + RowPairs(b, l[|l| - 1], r)
  }

  /** The sum of products of factors, if none is too large. */
  ghost predicate IsDot(b: Block, atoms: seq<Atom>, cache: Cache, pairs: seq<(nat, nat)>, r: Option<Polynomial>,
                        es: seq<Event>)
    decreases |pairs|, 0
  {
    if pairs == [] then r == Some(map[]) && es == []
    else DotFrom(b, atoms, cache, pairs[..|pairs| - 1], pairs[|pairs| - 1], r, es)
  }

  ghost predicate DotFrom(b: Block, atoms: seq<Atom>, cache: Cache, front: seq<(nat, nat)>, pair: (nat, nat),
                          r: Option<Polynomial>, es: seq<Event>)
    decreases |front|, 1
  {
    exists x: Option<Polynomial>, fs: seq<Event> ::
      IsDot(b, atoms, cache, front, x, fs) && DotStep(b, atoms, cache, pair, x, fs, r, es)
  }

  ghost predicate DotStep(b: Block, atoms: seq<Atom>, cache: Cache, pair: (nat, nat), x: Option<Polynomial>,
                          fs: seq<Event>, r: Option<Polynomial>, es: seq<Event>)
  {
    if x.None? then r.None? && es == fs
    else
      exists f: Polynomial, g: Polynomial, ms: seq<Monomial>, fg: Option<Polynomial> ::
        IsFactor(b, atoms, cache, pair.0, f) && IsFactor(b, atoms, cache, pair.1, g) && IsProduct(f, g, ms, fg) &&
        DotAdds(x.value, f, g, ms, fg, fs, r, es)
  }

  ghost predicate DotAdds(x: Polynomial, f: Polynomial, g: Polynomial, ms: seq<Monomial>, fg: Option<Polynomial>,
                          fs: seq<Event>, r: Option<Polynomial>, es: seq<Event>)
  {
    if fg.None? then r.None? && es == fs + Rows(f, g, ms)
    else
      r == Some(Plus(x, fg.value, 1.0)) && es == fs + Rows(f, g, ms) + [Added(x, fg.value, 1.0)]
  }

  /** 1 / (k m) for the only term k m. */
  ghost predicate IsInverse(p: Polynomial, r: Polynomial) {
    exists m :: m in p && p[m] != 0.0 && r == map[Inverted(m) := 1.0 / p[m]]
  }

  /** r is the polynomial of v over the polynomials of its operands, or nothing if there is none, and es are the
      additions it takes. */
  ghost predicate IsBuilt(b: Block, atoms: seq<Atom>, cache: Cache, v: nat, r: Option<Polynomial>, es: seq<Event>) {
    v < |b.ops| &&
    match b.ops[v]
    case Zero => r == Some(map[]) && es == []
    case Blade(c) => r == Some(Plus(map[], ONE, c)) && es == [Added(map[], ONE, c)]
    case Negate(a, isBlade) =>
      if !isBlade then r.None? && es == []
      else
        a in cache &&
        if cache[a].None? then r.None? && es == []
        else r == Some(Plus(map[], cache[a].value, -1.0)) && es == [Added(map[], cache[a].value, -1.0)]
    case CMul(args) => IsChain(b, atoms, cache, args, r, es)
    case Sum(args, areBlades) =>
      if areBlades then IsTotal(cache, args, r, es) else r.None? && es == []
    case Dot(Some(l), Some(k)) =>
      exists x: Option<Polynomial>, fs: seq<Event> ::
        IsDot(b, atoms, cache, DotPairs(b, l, k), x, fs) &&
        if x.Some? then r == x && es == fs else r.Some? && IsAtomOf(atoms, v, r.value) && es == []
    case Inverse(a, true) =>
      a in cache && r.Some? && es == [] &&
      if cache[a].Some? && |cache[a].value| == 1 then IsInverse(cache[a].value, r.value)
      else IsAtomOf(atoms, v, r.value)
    case _ => r.Some? && IsAtomOf(atoms, v, r.value) && es == []
  }

  /** The additions up to some operand of v. */
  ghost predicate IsWork(b: Block, atoms: seq<Atom>, cache: Cache, v: nat, i: nat, r: Option<Polynomial>,
                         es: seq<Event>)
  {
    v < |b.ops| &&
    match b.ops[v]
    case CMul(args) => i <= |args| && IsChain(b, atoms, cache, args[..i], r, es)
    case Sum(args, true) => i <= |args| && IsTotal(cache, args[..i], r, es)
    case Dot(Some(l), Some(k)) =>
      i <= |DotPairs(b, l, k)| && IsDot(b, atoms, cache, DotPairs(b, l, k)[..i], r, es)
    case _ => IsBuilt(b, atoms, cache, v, r, es)
  }

  /** An addition that building the polynomial of some value takes. */
  ghost predicate IsGenuine(b: Block, atoms: seq<Atom>, cache: Cache, e: Event) {
    exists v: nat, i: nat, r: Option<Polynomial>, es: seq<Event> :: IsWork(b, atoms, cache, v, i, r, es) && e in es
  }

  ghost predicate AllGenuine(b: Block, atoms: seq<Atom>, cache: Cache, log: seq<Event>) {
    forall e :: e in log ==> IsGenuine(b, atoms, cache, e)
  }

  ghost predicate AreBuilt(b: Block, atoms: seq<Atom>, cache: Cache, work: map<nat, seq<Event>>) {
    work.Keys == cache.Keys && forall v :: v in cache ==> IsBuilt(b, atoms, cache, v, cache[v], work[v])
  }

  ghost predicate Contained(es: seq<Event>, log: seq<Event>) { forall e :: e in es ==> e in log }

  // ---------------------------------------------------------------- more atoms and polynomials

  ghost predicate Grows(atoms: seq<Atom>, cache: Cache, more: seq<Atom>, after: Cache) {
    atoms <= more && forall v :: v in cache ==> v in after && after[v] == cache[v]
  }

  lemma {:induction false} FactorMore(b: Block, atoms: seq<Atom>, cache: Cache, more: seq<Atom>, after: Cache, v: nat,
                                      p: Polynomial)
    requires Grows(atoms, cache, more, after) && IsFactor(b, atoms, cache, v, p)
    ensures IsFactor(b, more, after, v, p)
  {
    hide IsKept;
    if IsKept(b, v, cache[v]) { AtomOfMore(atoms, more, v, p); }
  }

  lemma {:induction false} AtomOfMore(atoms: seq<Atom>, more: seq<Atom>, v: nat, p: Polynomial)
    requires atoms <= more && IsAtomOf(atoms, v, p)
    ensures IsAtomOf(more, v, p)
  {
    var id :| 0 <= id < |atoms| && atoms[id] == Value(v) && p == map[map[id := 1] := 1.0];
    assert more[id] == Value(v);
  }

  lemma {:induction false} TotalMore(cache: Cache, after: Cache, args: seq<nat>, r: Option<Polynomial>, es: seq<Event>)
    requires Grows([], cache, [], after) && IsTotal(cache, args, r, es)
    ensures IsTotal(after, args, r, es)
    decreases |args|
  {
    hide Plus, TotalStep, Grows;
    if args != [] {
      var front, v := args[..|args| - 1], args[|args| - 1];
      assert TotalFrom(cache, front, v, r, es);
      var x: Option<Polynomial>, fs: seq<Event> :| IsTotal(cache, front, x, fs) && TotalStep(cache, v, x, fs, r, es);
      TotalMore(cache, after, front, x, fs);
      TotalStepMore(cache, after, v, x, fs, r, es);
      assert TotalFrom(after, front, v, r, es);
    }
  }

  lemma {:induction false} TotalStepMore(cache: Cache, after: Cache, v: nat, x: Option<Polynomial>, fs: seq<Event>,
                                         r: Option<Polynomial>, es: seq<Event>)
    requires Grows([], cache, [], after) && TotalStep(cache, v, x, fs, r, es)
    ensures TotalStep(after, v, x, fs, r, es)
  {
    hide Plus;
  }

  lemma {:induction false} ChainMore(b: Block, atoms: seq<Atom>, cache: Cache, more: seq<Atom>, after: Cache,
                                     args: seq<nat>, r: Option<Polynomial>, es: seq<Event>)
    requires Grows(atoms, cache, more, after) && IsChain(b, atoms, cache, args, r, es)
    ensures IsChain(b, more, after, args, r, es)
    decreases |args|
  {
    hide IsFactor, IsProduct, Rows, Grows;
    if args != [] {
      var front, v := args[..|args| - 1], args[|args| - 1];
      assert ChainFrom(b, atoms, cache, front, v, r, es);
      var x: Option<Polynomial>, fs: seq<Event> :|
        IsChain(b, atoms, cache, front, x, fs) && ChainStep(b, atoms, cache, v, x, fs, r, es);
      ChainMore(b, atoms, cache, more, after, front, x, fs);
      if x.Some? {
        var f: Polynomial, ms: seq<Monomial> :|
          IsFactor(b, atoms, cache, v, f) && IsProduct(x.value, f, ms, r) && es == fs + Rows(x.value, f, ms);
        FactorMore(b, atoms, cache, more, after, v, f);
      }
      assert ChainStep(b, more, after, v, x, fs, r, es);
      assert ChainFrom(b, more, after, front, v, r, es);
    }
  }

  lemma {:induction false} DotMore(b: Block, atoms: seq<Atom>, cache: Cache, more: seq<Atom>, after: Cache,
                                   pairs: seq<(nat, nat)>, r: Option<Polynomial>, es: seq<Event>)
    requires Grows(atoms, cache, more, after) && IsDot(b, atoms, cache, pairs, r, es)
    ensures IsDot(b, more, after, pairs, r, es)
    decreases |pairs|
  {
    hide IsFactor, IsProduct, DotAdds, Grows;
    if pairs != [] {
      var front, pair := pairs[..|pairs| - 1], pairs[|pairs| - 1];
      assert DotFrom(b, atoms, cache, front, pair, r, es);
      var x: Option<Polynomial>, fs: seq<Event> :|
        IsDot(b, atoms, cache, front, x, fs) && DotStep(b, atoms, cache, pair, x, fs, r, es);
      DotMore(b, atoms, cache, more, after, front, x, fs);
      if x.Some? {
        var f: Polynomial, g: Polynomial, ms: seq<Monomial>, fg: Option<Polynomial> :|
          IsFactor(b, atoms, cache, pair.0, f) && IsFactor(b, atoms, cache, pair.1, g) && IsProduct(f, g, ms, fg) &&
          DotAdds(x.value, f, g, ms, fg, fs, r, es);
        FactorMore(b, atoms, cache, more, after, pair.0, f);
        FactorMore(b, atoms, cache, more, after, pair.1, g);
      }
      assert DotStep(b, more, after, pair, x, fs, r, es);
      assert DotFrom(b, more, after, front, pair, r, es);
    }
  }

  lemma {:induction false} BuiltMore(b: Block, atoms: seq<Atom>, cache: Cache, more: seq<Atom>, after: Cache, v: nat,
                                     r: Option<Polynomial>, es: seq<Event>)
    requires Grows(atoms, cache, more, after) && IsBuilt(b, atoms, cache, v, r, es)
    ensures IsBuilt(b, more, after, v, r, es)
  {
    hide IsDot, IsChain, IsTotal, IsAtomOf, Plus, IsInverse, DotPairs;
    if r.Some? && IsAtomOf(atoms, v, r.value) { AtomOfMore(atoms, more, v, r.value); }
    match b.ops[v]
    case CMul(args) => ChainMore(b, atoms, cache, more, after, args, r, es);
    case Sum(args, areBlades) => if areBlades { TotalMore(cache, after, args, r, es); }
    case Dot(Some(l), Some(k)) =>
      var x: Option<Polynomial>, fs: seq<Event> :|
        IsDot(b, atoms, cache, DotPairs(b, l, k), x, fs) &&
        if x.Some? then r == x && es == fs else r.Some? && IsAtomOf(atoms, v, r.value) && es == [];
      DotMore(b, atoms, cache, more, after, DotPairs(b, l, k), x, fs);
    case _ =>
  }

  lemma {:induction false} WorkMore(b: Block, atoms: seq<Atom>, cache: Cache, more: seq<Atom>, after: Cache, v: nat,
                                    i: nat, r: Option<Polynomial>, es: seq<Event>)
    requires Grows(atoms, cache, more, after) && IsWork(b, atoms, cache, v, i, r, es)
    ensures IsWork(b, more, after, v, i, r, es)
  {
    hide IsDot, IsChain, IsTotal, DotPairs, IsBuilt, Grows;
    match b.ops[v]
    case CMul(args) => ChainMore(b, atoms, cache, more, after, args[..i], r, es);
    case Sum(args, true) => TotalGrows(atoms, cache, more, after, args[..i], r, es);
    case Dot(Some(l), Some(k)) => DotMore(b, atoms, cache, more, after, DotPairs(b, l, k)[..i], r, es);
    case _ => BuiltMore(b, atoms, cache, more, after, v, r, es);
  }

  lemma {:induction false} TotalGrows(atoms: seq<Atom>, cache: Cache, more: seq<Atom>, after: Cache, args: seq<nat>,
                                      r: Option<Polynomial>, es: seq<Event>)
    requires Grows(atoms, cache, more, after) && IsTotal(cache, args, r, es)
    ensures IsTotal(after, args, r, es)
  {
    TotalMore(cache, after, args, r, es);
  }

  lemma {:induction false} GenuineMore(b: Block, atoms: seq<Atom>, cache: Cache, more: seq<Atom>, after: Cache,
                                       log: seq<Event>)
    requires Grows(atoms, cache, more, after) && AllGenuine(b, atoms, cache, log)
    ensures AllGenuine(b, more, after, log)
  {
    hide IsWork, Grows;
    forall e | e in log
      ensures IsGenuine(b, more, after, e)
    {
      assert IsGenuine(b, atoms, cache, e);
      var v: nat, i: nat, r: Option<Polynomial>, es: seq<Event> :| IsWork(b, atoms, cache, v, i, r, es) && e in es;
      WorkMore(b, atoms, cache, more, after, v, i, r, es);
    }
  }

  lemma {:induction false} BuiltStays(b: Block, atoms: seq<Atom>, cache: Cache, more: seq<Atom>, after: Cache,
                                      work: map<nat, seq<Event>>)
    requires Grows(atoms, cache, more, after) && AreBuilt(b, atoms, cache, work)
    ensures forall v :: v in cache ==> IsBuilt(b, more, after, v, cache[v], work[v])
  {
    hide IsBuilt, Grows;
    forall v | v in cache
      ensures IsBuilt(b, more, after, v, cache[v], work[v])
    {
      BuiltMore(b, atoms, cache, more, after, v, cache[v], work[v]);
    }
  }

  /** What building a value takes is genuine. */
  lemma {:induction false} WorkIsGenuine(b: Block, atoms: seq<Atom>, cache: Cache, log: seq<Event>, v: nat, i: nat,
                                         r: Option<Polynomial>, es: seq<Event>, more: seq<Event>)
    requires AllGenuine(b, atoms, cache, log) && IsWork(b, atoms, cache, v, i, r, es)
    requires forall e :: e in more ==> e in log || e in es
    ensures AllGenuine(b, atoms, cache, more)
  {
    hide IsWork;
    forall e | e in more
      ensures IsGenuine(b, atoms, cache, e)
    {
      if e in log { assert IsGenuine(b, atoms, cache, e); }
    }
  }

  lemma {:induction false} BuiltIsWork(b: Block, atoms: seq<Atom>, cache: Cache, v: nat, r: Option<Polynomial>,
                                       es: seq<Event>) returns (i: nat, x: Option<Polynomial>, fs: seq<Event>)
    requires IsBuilt(b, atoms, cache, v, r, es)
    ensures IsWork(b, atoms, cache, v, i, x, fs) && Contained(es, fs)
  {
    hide IsDot, IsChain, IsTotal, DotPairs;
    i, x, fs := 0, r, es;
    match b.ops[v]
    case CMul(args) =>
      i := |args|;
      assert args[..i] == args;
    case Sum(args, areBlades) =>
      if areBlades {
        i := |args|;
        assert args[..i] == args;
      }
    case Dot(Some(l), Some(k)) =>
      x, fs :| IsDot(b, atoms, cache, DotPairs(b, l, k), x, fs) &&
        if x.Some? then r == x && es == fs else r.Some? && IsAtomOf(atoms, v, r.value) && es == [];
      i := |DotPairs(b, l, k)|;
      assert DotPairs(b, l, k)[..i] == DotPairs(b, l, k);
    case _ =>
  }

  // ---------------------------------------------------------------- adding

  /** C Q is added to P except for the rest of Q. */
  ghost predicate IsSummed(p: Polynomial, q: Polynomial, c: real, rest: Polynomial, r: Polynomial) {
    && IsPolynomial(r) && (forall m :: m in rest ==> m in q && rest[m] == q[m])
    && forall m :: Coefficient(r, m) == Coefficient(p, m) + if m in rest then 0.0 else Mul(c, Coefficient(q, m))
  }

  ghost predicate HasCancelledIn(p: Polynomial, q: Polynomial, c: real, rest: Polynomial) {
    exists m :: m in q && m !in rest && TermCancels(p, m, Mul(c, q[m]))
  }

  lemma {:induction false} SummedStart(p: Polynomial, q: Polynomial, c: real)
    requires IsPolynomial(p)
    ensures IsSummed(p, q, c, q, p) && !HasCancelledIn(p, q, c, q)
  {
    assert Mul(c, 0.0) == 0.0;
  }

  lemma {:induction false} SummedNext(p: Polynomial, q: Polynomial, c: real, rest: Polynomial, r: Polynomial,
                                      m: Monomial, ck: real)
    requires IsSummed(p, q, c, rest, r) && m in rest && ck == Mul(c, rest[m]) && IsMonomial(m)
    ensures IsSummed(p, q, c, rest - {m}, if ck == 0.0 then r else WithCoefficient(r, m, Coefficient(r, m) + ck))
  {
    hide IsMonomial, Mul;
  }

  lemma {:induction false} CancelledNext(p: Polynomial, q: Polynomial, c: real, rest: Polynomial, m: Monomial, ck: real)
    requires m in rest && m in q && ck == Mul(c, q[m])
    ensures HasCancelledIn(p, q, c, rest - {m}) <==> HasCancelledIn(p, q, c, rest) || TermCancels(p, m, ck)
  {
    hide TermCancels, Mul;
    var next := rest - {m};
    if TermCancels(p, m, ck) {
      assert m in q && m !in next;
    }
    if HasCancelledIn(p, q, c, next) && !TermCancels(p, m, ck) {
      var k :| k in q && k !in next && TermCancels(p, k, Mul(c, q[k]));
      assert k != m;
      assert k !in rest;
    }
    if HasCancelledIn(p, q, c, rest) {
      var k :| k in q && k !in rest && TermCancels(p, k, Mul(c, q[k]));
      assert k !in next;
    }
  }

  /** A term cancels exactly when its coefficient sums to zero. */
  lemma {:induction false} TermSum(p: Polynomial, r: Polynomial, m: Monomial, ck: real)
    requires IsPolynomial(p) && Coefficient(r, m) == Coefficient(p, m)
    ensures TermCancels(p, m, ck) <==> ck != 0.0 && Coefficient(r, m) + ck == 0.0
  {}

  lemma {:induction false} SummedEnd(p: Polynomial, q: Polynomial, c: real, rest: Polynomial, r: Polynomial)
    requires IsPolynomial(p) && IsPolynomial(q) && IsSummed(p, q, c, rest, r) && rest == map[]
    ensures r == Plus(p, q, c)
    ensures HasCancelledIn(p, q, c, rest) <==> Cancels(Added(p, q, c))
  {
    hide IsMonomial, TermCancels;
    forall m ensures Coefficient(r, m) == Coefficient(Plus(p, q, c), m) {}
    SamePolynomial(r, Plus(p, q, c));
  }

  lemma {:induction false} DenotesIsPolynomial(env: Env, p: Polynomial, x: real)
    requires Denotes(env, p, x)
    ensures IsPolynomial(p)
  {}

  // ---------------------------------------------------------------- rows of products

  /** The terms of Q that are not in the rest. */
  ghost function Done(q: Polynomial, row: Polynomial): Polynomial {
    map k | k in q && k !in row :: q[k]
  }

  /** The coefficient of x in C M Q. */
  lemma {:induction false} ShiftedCoefficient(m: Monomial, c: real, q: Polynomial, x: Monomial)
    requires IsMonomial(m) && IsMonomial(x) && IsPolynomial(q)
    ensures Coefficient(Shifted(m, c, q), x) == Mul(c, Coefficient(q, Product(x, Inverted(m))))
  {
    hide Product, Inverted, IsMonomial, Mul;
    var k := Product(x, Inverted(m));
    Undone(m, x);
    MulUnit(c);
    if k in q {
      ShiftedAt(m, c, q, k);
    } else if x in Shifted(m, c, q) {
      var j := ShiftedFrom(m, c, q, x);
      Undone(m, j);
    }
  }

  lemma {:induction false} DoneIs(q: Polynomial, row: Polynomial, k: Monomial)
    requires IsPolynomial(q) && k in row && k in q
    ensures IsPolynomial(Done(q, row)) && IsPolynomial(Done(q, row - {k}))
    ensures forall x ::
      Coefficient(Done(q, row - {k}), x) == if x == k then q[k] else Coefficient(Done(q, row), x)
  {
    hide IsMonomial;
  }

  /** One more term of a row. */
  lemma {:induction false} RowNext(p: Polynomial, m: Monomial, c: real, q: Polynomial, row: Polynomial, k: Monomial)
    requires IsPolynomial(p) && IsMonomial(m) && IsPolynomial(q) && c != 0.0 && k in row && k in q
    ensures var r := Plus(p, Shifted(m, c, Done(q, row)), 1.0);
      && Coefficient(r, Product(m, k)) == Coefficient(p, Product(m, k)) && IsPolynomial(r)
      && Plus(r, map[Product(m, k) := Mul(c, q[k])], 1.0) == Plus(p, Shifted(m, c, Done(q, row - {k})), 1.0)
  {
    hide Product, Inverted, IsMonomial, Mul, Shifted, Done, Plus;
    var done, next, mk := Done(q, row), Done(q, row - {k}), Product(m, k);
    DoneIs(q, row, k);
    ShiftedIs(m, c, done);
    ShiftedIs(m, c, next);
    ProductIsMonomial(m, k);
    MulNonzero(c, q[k]);
    var r := Plus(p, Shifted(m, c, done), 1.0);
    var one: Polynomial := map[mk := Mul(c, q[k])];
    assert IsPolynomial(one);
    var s, t := Plus(r, one, 1.0), Plus(p, Shifted(m, c, next), 1.0);
    Undone(m, k);
    NotDone(q, row, k);
    forall x | IsMonomial(x)
      ensures Coefficient(s, x) == Coefficient(t, x)
      ensures x == mk ==> Coefficient(r, x) == Coefficient(p, x)
    {
      ShiftedCoefficient(m, c, done, x);
      ShiftedCoefficient(m, c, next, x);
      Undone(m, x);
      MulUnit(Coefficient(Shifted(m, c, done), x));
      MulUnit(Coefficient(Shifted(m, c, next), x));
      MulUnit(Coefficient(one, x));
      MulUnit(c);
    }
    SamePolynomial(s, t);
  }

  lemma {:induction false} NotDone(q: Polynomial, row: Polynomial, k: Monomial)
    requires k in row
    ensures Coefficient(Done(q, row), k) == 0.0
  {}

  ghost predicate FactorCancelledIn(m: Monomial, k: Monomial, rest: Monomial) {
    exists id :: id in m && id in k && id !in rest && m[id] + k[id] == 0
  }

  lemma {:induction false} FactorNext(m: Monomial, k: Monomial, rest: Monomial, id: nat)
    requires IsMonomial(k) && id in rest && id in k
    ensures FactorCancelledIn(m, k, rest - {id}) <==> FactorCancelledIn(m, k, rest) || Exponent(m, id) + k[id] == 0
  {
    var next := rest - {id};
    if Exponent(m, id) + k[id] == 0 { assert id in m && id !in next; }
    if FactorCancelledIn(m, k, rest) {
      var j :| j in m && j in k && j !in rest && m[j] + k[j] == 0;
      assert j !in next;
    }
    if FactorCancelledIn(m, k, next) {
      var j :| j in m && j in k && j !in next && m[j] + k[j] == 0;
      assert j == id || j !in rest;
    }
  }

  lemma {:induction false} FactorsAlike(m: Monomial, k: Monomial)
    ensures !FactorCancelledIn(m, k, k) && (FactorCancelledIn(m, k, map[]) <==> FactorCancels(m, k))
  {}

  ghost predicate HasCancelledRow(p: Polynomial, m: Monomial, c: real, q: Polynomial, row: Polynomial) {
    exists k :: k in q && k !in row && (FactorCancels(m, k) || TermCancels(p, Product(m, k), Mul(c, q[k])))
  }

  lemma {:induction false} RowCancels(p: Polynomial, m: Monomial, c: real, q: Polynomial, row: Polynomial, k: Monomial)
    requires k in row && k in q
    ensures HasCancelledRow(p, m, c, q, row - {k}) <==>
      HasCancelledRow(p, m, c, q, row) || FactorCancels(m, k) || TermCancels(p, Product(m, k), Mul(c, q[k]))
  {
    hide FactorCancels, TermCancels, Product;
    var next := row - {k};
    if HasCancelledRow(p, m, c, q, row) {
      var j :| j in q && j !in row && (FactorCancels(m, j) || TermCancels(p, Product(m, j), Mul(c, q[j])));
      assert j !in next;
    }
    if HasCancelledRow(p, m, c, q, next) {
      var j :| j in q && j !in next && (FactorCancels(m, j) || TermCancels(p, Product(m, j), Mul(c, q[j])));
      assert j == k || j !in row;
    }
  }

  /** Adding one term. */
  lemma {:induction false} OneAdded(r: Polynomial, mk: Monomial, ck: real, p: Polynomial)
    requires IsPolynomial(r) && IsPolynomial(p) && Coefficient(r, mk) == Coefficient(p, mk)
    ensures Cancels(Added(r, map[mk := ck], 1.0)) <==> TermCancels(p, mk, ck)
  {
    MulUnit(ck);
    var q: Polynomial := map[mk := ck];
    assert mk in q;
  }

  /** The order of the monomials of P in a product. */
  ghost predicate IsOrder(p: Polynomial, rest: Polynomial, ms: seq<Monomial>) {
    && (forall m :: m in rest ==> m in p && rest[m] == p[m]) && |ms| + |rest| == |p|
    && (forall i :: 0 <= i < |ms| ==> ms[i] in p && ms[i] !in rest)
    && (forall i, j :: 0 <= i < j < |ms| ==> ms[i] != ms[j])
  }

  lemma {:induction false} OrderNext(p: Polynomial, rest: Polynomial, ms: seq<Monomial>, m: Monomial)
    requires IsOrder(p, rest, ms) && m in rest
    ensures IsOrder(p, rest - {m}, ms + [m])
  {}

  lemma {:induction false} PartialNext(p: Polynomial, q: Polynomial, ms: seq<Monomial>, m: Monomial)
    ensures Partial(p, q, ms + [m]) == Plus(Partial(p, q, ms), Shifted(m, Coefficient(p, m), q), 1.0)
    ensures Rows(p, q, ms + [m]) == Rows(p, q, ms) + [Row(Partial(p, q, ms), m, Coefficient(p, m), q)]
  {
    hide Plus, Shifted;
    assert (ms + [m])[..|ms|] == ms;
  }

  /** No product so far was too large. */
  ghost predicate AllSmall(p: Polynomial, q: Polynomial, ms: seq<Monomial>) {
    forall i :: 0 <= i <= |ms| ==> |Partial(p, q, ms[..i])| <= MAX_TERMS
  }

  lemma {:induction false} SmallNext(p: Polynomial, q: Polynomial, rest: Polynomial, ms: seq<Monomial>, m: Monomial)
    requires IsOrder(p, rest, ms) && AllSmall(p, q, ms) && m in rest
    ensures var next, r := ms + [m], Partial(p, q, ms + [m]);
      if |r| > MAX_TERMS then IsProduct(p, q, next, None) else AllSmall(p, q, next)
  {
    hide Partial;
    OrderNext(p, rest, ms, m);
    var next := ms + [m];
    forall i | 0 <= i <= |ms|
      ensures |Partial(p, q, next[..i])| <= MAX_TERMS
    {
      assert next[..i] == ms[..i];
    }
    assert next[..|next|] == next;
  }

  lemma {:induction false} SmallEnd(p: Polynomial, q: Polynomial, ms: seq<Monomial>)
    requires IsOrder(p, map[], ms) && AllSmall(p, q, ms)
    ensures IsProduct(p, q, ms, Some(Partial(p, q, ms)))
  {
    hide Partial;
    assert ms[..|ms|] == ms;
  }

  // ---------------------------------------------------------------- the builder

  /** Atoms, built polynomials and whether terms or factors cancelled. */
  class PolynomialBuilder {
    const block: Block
    var atoms: seq<Atom>
    var cache: Cache
    var hasCancelled: bool

    /** The values of the atoms. */
    ghost var env: Env

    /** The additions that count, and those for each polynomial. */
    ghost var log: seq<Event>
    ghost var work: map<nat, seq<Event>>

    /** The flag says whether an addition that counts cancelled. */
    ghost predicate Noted()
      reads this
    {
      hasCancelled <==> AnyCancels(log)
    }

    ghost predicate Valid()
      reads this
    {
      && IsBlock(block) && InversesDefined(block)
      && AreAtoms(block, atoms, env)
      && IsCache(block, cache, env)
      && Noted() && AreBuilt(block, atoms, cache, work) && AllGenuine(block, atoms, cache, log)
    }

    /** More atoms, more polynomials of values below the bound, and more additions. */
    ghost predicate Extends(atoms0: seq<Atom>, cache0: Cache, env0: Env, log0: seq<Event>, bound: nat)
      reads this
    {
      && Grows(atoms0, cache0, atoms, cache) && env0 <= env && log0 <= log
      && forall v :: v in cache ==> v in cache0 || v < bound
    }

    constructor (b: Block)
      requires IsBlock(b) && InversesDefined(b)
      ensures Valid() && block == b && cache == map[] && log == [] && atoms == []
    {
      block := b;
      atoms, cache, hasCancelled, env, log, work := [], map[], false, [], [], map[];
    }

    /** Add C·Q to P. */
    method Add(p: Polynomial, q: Polynomial, c: real, ghost x: real, ghost y: real) returns (r: Polynomial)
      requires Denotes(env, p, x) && Denotes(env, q, y)
      modifies this`hasCancelled
      ensures Denotes(env, r, x + Mul(c, y)) && r == Plus(p, q, c)
      ensures hasCancelled == (old(hasCancelled) || Cancels(Added(p, q, c)))
    {
      hide Mul, WellFormed, Over, MonomialValue, Polynomials.Value, IsSummed, HasCancelledIn, Cancels, TermCancels;
      hide IsPolynomial, Denotes, Plus;
      r := p;
      var rest := q;
      ghost var z := y;
      DenotesIsPolynomial(env, p, x);
      DenotesIsPolynomial(env, q, y);
      SummedStart(p, q, c);
      while rest != map[]
        invariant Denotes(env, rest, z) && Denotes(env, r, x + Mul(c, y) - Mul(c, z))
        invariant IsSummed(p, q, c, rest, r)
        invariant hasCancelled == (old(hasCancelled) || HasCancelledIn(p, q, c, rest))
        decreases |rest|
      {
        var m :| m in rest;
        DenotesRest(env, rest, z, m);
        ghost var t := Mul(rest[m], MonomialValue(env, m));
        var ck := Mul(c, rest[m]);
        AddStep(c, rest[m], MonomialValue(env, m), z, t);
        SummedAt(p, q, c, rest, r, m);
        SummedNext(p, q, c, rest, r, m, ck);
        CancelledNext(p, q, c, rest, m, ck);
        TermSum(p, r, m, ck);
        if ck != 0.0 {
          DenotesAdd(env, r, x + Mul(c, y) - Mul(c, z), m, ck);
          var sum := Coefficient(r, m) + ck;
          if sum == 0.0 {
            hasCancelled := true;
          }
          r := WithCoefficient(r, m, sum);
        }
        rest, z := rest - {m}, z - t;
      }
      EndOf(env, z);
      SummedEnd(p, q, c, rest, r);
    }

    /** The exponents of two monomials added up. */
    method MultiplyMonomials(m: Monomial, k: Monomial) returns (r: Monomial)
      requires IsMonomial(m) && IsMonomial(k)
      modifies this`hasCancelled
      ensures r == Product(m, k) && hasCancelled == (old(hasCancelled) || FactorCancels(m, k))
    {
      hide FactorCancelledIn;
      r := m;
      var rest := k;
      FactorsAlike(m, k);
      while rest != map[]
        invariant IsMonomial(r) && (forall id :: id in rest ==> id in k && rest[id] == k[id])
        invariant forall j :: Exponent(r, j) == Exponent(m, j) + Exponent(k, j) - Exponent(rest, j)
        invariant hasCancelled == (old(hasCancelled) || FactorCancelledIn(m, k, rest))
        decreases |rest|
      {
        var id :| id in rest;
        var e := Exponent(r, id) + rest[id];
        assert e == Exponent(m, id) + k[id];
        FactorNext(m, k, rest, id);
        if e == 0 {
          hasCancelled := true;
        }
        RestExponents(rest, id);
        r := WithExponent(r, id, e);
        rest := rest - {id};
      }
      assert forall j :: Exponent(rest, j) == 0;
      SameMonomial(r, Product(m, k));
    }

    /** Add C·M·Q to P, one monomial of Q at a time. */
    method AddRow(p: Polynomial, m: Monomial, c: real, q: Polynomial, ghost x: real, ghost t: real, ghost y: real)
      returns (r: Polynomial)
      requires Denotes(env, p, x) && Denotes(env, q, y)
      requires c != 0.0 && IsMonomial(m) && Defined(env, m) && forall id :: id in m ==> id < |env|
      requires t == Mul(c, MonomialValue(env, m))
      modifies this`hasCancelled
      ensures Denotes(env, r, x + Mul(t, y)) && r == Plus(p, Shifted(m, c, q), 1.0)
      ensures hasCancelled == (old(hasCancelled) || Cancels(Row(p, m, c, q)))
    {
      hide Mul, Denotes, MonomialValue, Product, Defined, IsMonomial, Shifted, Plus, HasCancelledRow, Cancels, Done;
      hide FactorCancels, TermCancels, IsPolynomial;
      r := p;
      var row := q;
      ghost var u := y;
      DenotesIsPolynomial(env, p, x);
      DenotesIsPolynomial(env, q, y);
      RowStart(p, m, c, q);
      while row != map[]
        invariant Denotes(env, row, u) && Denotes(env, r, x + Mul(t, y) - Mul(t, u))
        invariant forall k :: k in row ==> k in q && row[k] == q[k]
        invariant r == Plus(p, Shifted(m, c, Done(q, row)), 1.0)
        invariant hasCancelled == (old(hasCancelled) || HasCancelledRow(p, m, c, q, row))
        decreases |row|
      {
        var k :| k in row;
        DenotesRest(env, row, u, k);
        ghost var w := Mul(row[k], MonomialValue(env, k));
        var mk := MultiplyMonomials(m, k);
        var ck := Mul(c, row[k]);
        ProductTerm(env, m, c, k, row[k]);
        RowNext(p, m, c, q, row, k);
        RowCancels(p, m, c, q, row, k);
        OneAdded(r, mk, ck, p);
        r := Add(r, map[mk := ck], 1.0, x + Mul(t, y) - Mul(t, u), Mul(t, w));
        MulUnit(Mul(t, w));
        MulAdd(t, u - w, w);
        row, u := row - {k}, u - w;
      }
      EndOf(env, u);
      RowEnd(p, m, c, q, row);
    }

    /** The product of P and Q, or nothing if it is too large. */
    method Multiply(p: Polynomial, q: Polynomial, ghost x: real, ghost y: real)
      returns (r: Option<Polynomial>, ghost ms: seq<Monomial>)
      requires Denotes(env, p, x) && Denotes(env, q, y) && Noted()
      modifies this`hasCancelled, this`log
      ensures r.Some? ==> Denotes(env, r.value, Mul(x, y))
      ensures IsProduct(p, q, ms, r) && log == old(log) + Rows(p, q, ms) && Noted()
    {
      hide Mul, Denotes, MonomialValue, Product, Defined, IsMonomial, Partial, Rows, Cancels, Shifted, Plus, AllSmall;
      hide IsProduct, IsOrder, AnyCancels;
      var result: Polynomial := map[];
      DenotesNone(env);
      var rest := p;
      ghost var z := x;
      ms := [];
      ProductStart(p, q);
      assert old(log) + [] == old(log);
      while rest != map[]
        invariant Denotes(env, rest, z) && Denotes(env, result, Mul(x, y) - Mul(z, y))
        invariant IsOrder(p, rest, ms) && AllSmall(p, q, ms) && result == Partial(p, q, ms)
        invariant log == old(log) + Rows(p, q, ms) && Noted()
        decreases |rest|
      {
        var m :| m in rest;
        OrderAt(p, rest, ms, m);
        DenotesRest(env, rest, z, m);
        ghost var t := Mul(rest[m], MonomialValue(env, m));
        PartialNext(p, q, ms, m);
        SmallNext(p, q, rest, ms, m);
        OrderNext(p, rest, ms, m);
        ghost var e := Row(result, m, rest[m], q);
        result := AddRow(result, m, rest[m], q, Mul(x, y) - Mul(z, y), t, y);
        AnyCancelsSnoc(log, e);
        log, ms := log + [e], ms + [m];
        MulAdd(y, z - t, t);
        assert old(log) + (Rows(p, q, ms[..|ms| - 1]) + [e]) == old(log) + Rows(p, q, ms[..|ms| - 1]) + [e];
        if |result| > MAX_TERMS {
          return None, ms;
        }
        rest, z := rest - {m}, z - t;
      }
      EndOf(env, z);
      MulUnit(y);
      SmallEnd(p, q, ms);
      r := Some(result);
    }

    // -------------------------------------------------------------- atoms

    method GetAtomId(v: nat) returns (id: nat)
      requires Valid() && v < |block.ops|
      modifies this`atoms, this`env
      ensures Valid() && old(env) <= env && old(atoms) <= atoms
      ensures id < |env| && env[id] == Eval(block, v) && id < |atoms| && atoms[id] == Value(v)
    {
      hide AreBuilt, AllGenuine, IsCache;
      for i := 0 to |atoms|
      {
        if atoms[i] == Value(v) {
          assert IsAtom(block, env[..i], atoms[i], env[i]);
          return i;
        }
      }
      id := |atoms|;
      AddAtom(Value(v), Eval(block, v));
    }

    /** Push an atom with its value. */
    method AddAtom(a: Atom, ghost x: real)
      requires Valid() && IsAtom(block, env, a, x)
      modifies this`atoms, this`env
      ensures Valid() && atoms == old(atoms) + [a] && env == old(env) + [x]
    {
      hide AreAtoms, IsCache, IsBuilt, AllGenuine, AnyCancels;
      AtomsMore(block, atoms, env, a, x);
      CacheMore(block, cache, env, env + [x]);
      BuiltStays(block, atoms, cache, atoms + [a], cache, work);
      GenuineMore(block, atoms, cache, atoms + [a], cache, log);
      atoms, env := atoms + [a], env + [x];
    }

    method GetAtom(v: nat) returns (p: Polynomial)
      requires Valid() && v < |block.ops|
      modifies this`atoms, this`env
      ensures Valid() && old(env) <= env && old(atoms) <= atoms && Denotes(env, p, Eval(block, v))
      ensures IsAtomOf(atoms, v, p)
    {
      hide Mul, Denotes, AreAtoms, IsCache, InversesDefined, AreBuilt, AllGenuine;
      var id := GetAtomId(v);
      AtomDenotes(env, id);
      p := map[map[id := 1] := 1.0];
    }

    // -------------------------------------------------------------- expressions

    /** V as an atom if it is a sum of atoms, which keeps differences from being distributed. */
    method GetFactor(v: nat) returns (p: Polynomial)
      requires Valid() && v < |block.ops|
      modifies this
      ensures Valid() && Extends(old(atoms), old(cache), old(env), old(log), v + 1)
      ensures Denotes(env, p, Eval(block, v)) && IsFactor(block, atoms, cache, v, p)
      ensures IsKept(block, v, cache[v]) ==> log == old(log)
      decreases v, 3
    {
      hide Mul, Denotes, AreAtoms, IsCache, InversesDefined, AreBuilt, AllGenuine, AnyCancels, IsLinear;
      var wasCancelled := hasCancelled;
      ghost var wasLog := log;
      var r := Get(v);
      if r.None? || (block.ops[v].Sum? && IsLinear(r.value) && |r.value| > 1) {
        FewerGenuine(block, atoms, cache, log, wasLog);
        hasCancelled, log := wasCancelled, wasLog;
        p := GetAtom(v);
        return;
      }
      p := r.value;
    }

    method GetDot(l: seq<nat>, r: seq<nat>, v: nat) returns (p: Option<Polynomial>, ghost es: seq<Event>)
      requires Valid() && v < |block.ops| && AllBelow(l, v) && AllBelow(r, v) && block.ops[v] == Dot(Some(l), Some(r))
      modifies this
      ensures Valid() && Extends(old(atoms), old(cache), old(env), old(log), v)
      ensures p.Some? ==> Denotes(env, p.value, EvalDot(block, l, r, v)) && Contained(es, log)
      ensures p.None? ==> log == old(log)
      ensures IsDot(block, atoms, cache, DotPairs(block, l, r), p, es)
      decreases v, 0
    {
      hide Mul, Denotes, AreAtoms, IsCache, InversesDefined, AreBuilt, AllGenuine, AnyCancels, IsDot, DotPairs;
      hide RowPairs;
      hide Grows, Contained;
      var wasCancelled := hasCancelled;
      ghost var wasLog, atoms0, cache0, env0 := log, atoms, cache, env;
      var result: Polynomial := map[];
      es := [];
      ghost var x, pairs := 0.0, DotPairs(block, l, r);
      DenotesNone(env);
      StartsAlike(atoms, cache, log);
      NoPairs(block, atoms, cache, l, r);
      for i := 0 to |l|
        invariant Valid() && Extends(atoms0, cache0, env0, wasLog, v) && Denotes(env, result, x)
        invariant x == EvalDot(block, l[..i], r, v)
        invariant IsDot(block, atoms, cache, DotPairs(block, l[..i], r), Some(result), es) && Contained(es, log)
      {
        ghost var y := 0.0;
        NoRow(block, l, r, i);
        for j := 0 to |r|
          invariant Valid() && Extends(atoms0, cache0, env0, wasLog, v) && Denotes(env, result, x + y)
          invariant y == EvalRow(block, l[i], r[..j], v)
          invariant IsDot(block, atoms, cache, DotPairs(block, l[..i], r) + RowPairs(block, l[i], r[..j]), Some(result),
                          es)
          invariant Contained(es, log)
        {
          assert r[..j + 1][..j] == r[..j];
          RowPairsNext(block, l[i], r, j);
          if block.types[l[i]] == block.types[r[j]] {
            ghost var before := DotPairs(block, l[..i], r) + RowPairs(block, l[i], r[..j]);
            ghost var atoms1, cache1, now := atoms, cache, before + [(l[i], r[j])];
            assert now == DotPairs(block, l[..i], r) + RowPairs(block, l[i], r[..j + 1]);
            var z, ok, fs := AddProduct(l[i], r[j], result, x + y, before, es, v, i, j, l, r);
            es := fs;
            GrowsOn(atoms0, cache0, atoms1, cache1, atoms, cache);
            PairsBefore(block, l, r, i, j);
            if !ok {
              NoneStays(block, atoms, cache, pairs, now, es);
              FewerGenuine(block, atoms, cache, log, wasLog);
              hasCancelled, log := wasCancelled, wasLog;
              return None, es;
            }
            result := z;
            y := y + Mul(Eval(block, l[i]), Eval(block, r[j]));
          } else {
            assert RowPairs(block, l[i], r[..j + 1]) == RowPairs(block, l[i], r[..j]);
          }
        }
        assert r[..|r|] == r && l[..i + 1][..i] == l[..i];
        DotPairsNext(block, l, r, i);
        x := x + y;
      }
      assert l[..|l|] == l;
      p := Some(result);
    }

    /** Add the product of two factors. */
    method AddProduct(f: nat, g: nat, result: Polynomial, ghost x: real, ghost before: seq<(nat, nat)>,
                      ghost es: seq<Event>, ghost v: nat, ghost i: nat, ghost j: nat, ghost l: seq<nat>,
                      ghost r: seq<nat>)
      returns (sum: Polynomial, ok: bool, ghost fs: seq<Event>)
      requires Valid() && v < |block.ops| && f < v && g < v && Denotes(env, result, x)
      requires IsDot(block, atoms, cache, before, Some(result), es) && Contained(es, log)
      requires AllBelow(l, v) && AllBelow(r, v) && block.ops[v] == Dot(Some(l), Some(r)) && i < |l| && j < |r|
      requires f == l[i] && g == r[j] && block.types[f] == block.types[g]
      requires before == DotPairs(block, l[..i], r) + RowPairs(block, f, r[..j])
      modifies this
      ensures Valid() && Extends(old(atoms), old(cache), old(env), old(log), v)
      ensures ok ==> Denotes(env, sum, x + Mul(Eval(block, f), Eval(block, g))) && Contained(fs, log)
      ensures IsDot(block, atoms, cache, before + [(f, g)], if ok then Some(sum) else None, fs)
      decreases v, 0, 0
    {
      hide Mul, Denotes, AreAtoms, IsCache, InversesDefined, AreBuilt, AllGenuine, AnyCancels, IsDot, DotPairs;
      hide RowPairs;
      hide Contained, IsFactor, IsProduct, Rows, Plus, Grows, Cancels, IsKept;
      ghost var atoms0, cache0, env0, log0 := atoms, cache, env, log;
      var a := GetFactor(f);
      ghost var atoms1, cache1, env1, log1 := atoms, cache, env, log;
      var b := GetFactor(g);
      DenotesMore(env1, env, a, Eval(block, f));
      GrowsOn(atoms0, cache0, atoms1, cache1, atoms, cache);
      FactorMore(block, atoms1, cache1, atoms, cache, f, a);
      DenotesMore(env0, env, result, x);
      DotMore(block, atoms0, cache0, atoms, cache, before, Some(result), es);
      ContainedMore(es, log0, log);
      ghost var log2 := log;
      var ab; ghost var ms;
      ab, ms := Multiply(a, b, Eval(block, f), Eval(block, g));
      fs := es + Rows(a, b, ms);
      ContainedBoth(es, log2, Rows(a, b, ms));
      PairsBefore(block, l, r, i, j);
      if ab.None? {
        DotNext(block, atoms, cache, before, (f, g), result, es, a, b, ms, ab, None, fs);
        DotIsGenuine(block, atoms, cache, log2, v, l, r, before + [(f, g)], None, fs, log);
        return result, false, fs;
      }
      ghost var z := Mul(Eval(block, f), Eval(block, g));
      ghost var e := Added(result, ab.value, 1.0);
      MulUnit(z);
      sum := Add(result, ab.value, 1.0, x, z);
      AnyCancelsSnoc(log, e);
      ContainedBoth(es, log2, Rows(a, b, ms) + [e]);
      assert es + (Rows(a, b, ms) + [e]) == fs + [e] && log2 + (Rows(a, b, ms) + [e]) == log + [e];
      log, fs := log + [e], fs + [e];
      DotNext(block, atoms, cache, before, (f, g), result, es, a, b, ms, ab, Some(sum), fs);
      DotIsGenuine(block, atoms, cache, log2, v, l, r, before + [(f, g)], Some(sum), fs, log);
      ok := true;
    }

    /** The inverse of a scalar that is a single monomial. */
    method GetInverse(a: nat, isScalar: bool) returns (p: Option<Polynomial>)
      requires Valid() && a < |block.ops| && (isScalar ==> Eval(block, a) != 0.0)
      modifies this
      ensures Valid() && Extends(old(atoms), old(cache), old(env), old(log), a + 1)
      ensures p.Some? ==> isScalar && Denotes(env, p.value, 1.0 / Eval(block, a))
      ensures isScalar ==> a in cache
      ensures isScalar ==>
        if cache[a].Some? && |cache[a].value| == 1 then p.Some? && IsInverse(cache[a].value, p.value) else p.None?
      ensures p.None? ==> log == old(log)
      decreases a + 1, 0
    {
      hide AreBuilt, AllGenuine, AnyCancels;
      if !isScalar {
        return None;
      }
      var wasCancelled := hasCancelled;
      ghost var wasLog := log;
      var r := Get(a);
      if r.None? || |r.value| != 1 {
        FewerGenuine(block, atoms, cache, log, wasLog);
        hasCancelled, log := wasCancelled, wasLog;
        return None;
      }
      var m :| m in r.value;
      OneTerm(r.value, m);
      InverseDenotes(env, m, r.value[m], Eval(block, a));
      p := Some(map[Inverted(m) := 1.0 / r.value[m]]);
    }

    method Compute(v: nat) returns (p: Option<Polynomial>, ghost es: seq<Event>)
      requires Valid() && v < |block.ops|
      modifies this
      ensures Valid() && Extends(old(atoms), old(cache), old(env), old(log), v)
      ensures p.Some? ==> Denotes(env, p.value, Eval(block, v))
      ensures IsBuilt(block, atoms, cache, v, p, es) && Contained(es, log)
      decreases v, 1
    {
      hide Mul, Denotes, AreAtoms, IsCache, AreBuilt, AllGenuine, AnyCancels, IsDot, IsChain, IsTotal, DotPairs;
      hide IsAtomOf;
      hide IsInverse, Grows, Plus, Cancels, IsProduct, Rows;
      es := [];
      StartsAlike(atoms, cache, log);
      match block.ops[v]
      case Zero =>
        DenotesNone(env);
        return Some(map[]), es;
      case Blade(c) =>
        DenotesNone(env);
        DenotesConstant(env, 1.0);
        MulUnit(c);
        var result := Add(map[], ONE, c, 0.0, 1.0);
        es := [Added(map[], ONE, c)];
        Note(v, Some(result), es);
        return Some(result), es;
      case Negate(a, isBlade) =>
        if !isBlade {
          return None, es;
        }
        var q := Get(a);
        if q.None? {
          return None, es;
        }
        DenotesNone(env);
        MulMinus(Eval(block, a));
        var result := Add(map[], q.value, -1.0, 0.0, Eval(block, a));
        es := [Added(map[], q.value, -1.0)];
        Note(v, Some(result), es);
        return Some(result), es;
      case CMul(args) =>
        p, es := ComputeProduct(args, v);
        return;
      case Sum(args, areBlades) =>
        if !areBlades {
          return None, es;
        }
        p, es := ComputeSum(args, v);
        return;
      case Dot(Some(l), Some(r)) =>
        ghost var fs;
        p, fs := GetDot(l, r, v);
        if p.Some? {
          return p, fs;
        }
        ghost var atoms1, cache1 := atoms, cache;
        StartsAlike(atoms1, cache1, log);
        p := Keep(v);
        DotMore(block, atoms1, cache1, atoms, cache, DotPairs(block, l, r), None, fs);
        return;
      case Inverse(a, isScalar) =>
        assert isScalar ==> Eval(block, a) != 0.0;
        p := GetInverse(a, isScalar);
        if p.Some? {
          return;
        }
        p := Keep(v);
      case _ =>
        p := Keep(v);
    }

    /** V as an atom. */
    method Keep(v: nat) returns (p: Option<Polynomial>)
      requires Valid() && v < |block.ops|
      modifies this`atoms, this`env
      ensures Valid() && p.Some? && IsAtomOf(atoms, v, p.value) && Denotes(env, p.value, Eval(block, v))
      ensures old(env) <= env && old(atoms) <= atoms
      ensures forall atoms0, cache0 :: Grows(atoms0, cache0, old(atoms), cache) ==> Grows(atoms0, cache0, atoms, cache)
    {
      hide Denotes, AreAtoms, IsCache, AreBuilt, AllGenuine, AnyCancels;
      var atom := GetAtom(v);
      p := Some(atom);
    }

    /** Note a single addition for v. */
    ghost method Note(v: nat, r: Option<Polynomial>, es: seq<Event>)
      requires IsBlock(block) && InversesDefined(block) && AreAtoms(block, atoms, env) && IsCache(block, cache, env)
      requires AreBuilt(block, atoms, cache, work) && AllGenuine(block, atoms, cache, log)
      requires |es| == 1 && IsBuilt(block, atoms, cache, v, r, es)
      requires hasCancelled <==> AnyCancels(log) || Cancels(es[0])
      modifies this`log
      ensures Valid() && log == old(log) + es && Contained(es, log)
    {
      hide AreAtoms, IsCache, AreBuilt, AnyCancels, IsBuilt, Cancels, InversesDefined;
      AnyCancelsSnoc(log, es[0]);
      assert es == [es[0]];
      var i, x, fs := BuiltIsWork(block, atoms, cache, v, r, es);
      WorkIsGenuine(block, atoms, cache, log, v, i, x, fs, log + es);
      log := log + es;
    }

    method ComputeProduct(args: seq<nat>, v: nat) returns (p: Option<Polynomial>, ghost es: seq<Event>)
      requires Valid() && v < |block.ops| && AllBelow(args, v) && block.ops[v] == CMul(args)
      modifies this
      ensures Valid() && Extends(old(atoms), old(cache), old(env), old(log), v)
      ensures p.Some? ==> Denotes(env, p.value, EvalProduct(block, args, v))
      ensures IsChain(block, atoms, cache, args, p, es) && Contained(es, log)
      decreases v, 0
    {
      hide Mul, Denotes, AreAtoms, IsCache, InversesDefined, AreBuilt, AllGenuine, AnyCancels, IsChain, IsFactor;
      hide IsKept;
      hide Rows, IsProduct, Contained, Grows;
      ghost var atoms0, cache0, env0, log0 := atoms, cache, env, log;
      var result: Polynomial := ONE;
      es := [];
      DenotesConstant(env, 1.0);
      StartsAlike(atoms, cache, log);
      NoFactors(block, atoms, cache, args);
      for i := 0 to |args|
        invariant Valid() && Extends(atoms0, cache0, env0, log0, v)
        invariant Denotes(env, result, EvalProduct(block, args[..i], v))
        invariant IsChain(block, atoms, cache, args[..i], Some(result), es) && Contained(es, log)
      {
        assert args[..i + 1][..i] == args[..i];
        ghost var x := EvalProduct(block, args[..i], v);
        ghost var atoms1, cache1, env1, log1 := atoms, cache, env, log;
        var f := GetFactor(args[i]);
        DenotesMore(env1, env, result, x);
        GrowsOn(atoms0, cache0, atoms1, cache1, atoms, cache);
        ChainMore(block, atoms1, cache1, atoms, cache, args[..i], Some(result), es);
        ContainedMore(es, log1, log);
        ghost var log2 := log;
        var product; ghost var ms;
        product, ms := Multiply(result, f, x, Eval(block, args[i]));
        ChainNext(block, atoms, cache, args, i, result, es, f, ms, product);
        ContainedBoth(es, log2, Rows(result, f, ms));
        es := es + Rows(result, f, ms);
        ChainIsGenuine(block, atoms, cache, log2, v, args, i + 1, product, es, log);
        if product.None? {
          ChainFails(block, atoms, cache, args, i + 1, es);
          return None, es;
        }
        result := product.value;
      }
      assert args[..|args|] == args;
      p := Some(result);
    }

    method ComputeSum(args: seq<nat>, v: nat) returns (p: Option<Polynomial>, ghost es: seq<Event>)
      requires Valid() && v < |block.ops| && AllBelow(args, v) && block.ops[v] == Sum(args, true)
      modifies this
      ensures Valid() && Extends(old(atoms), old(cache), old(env), old(log), v)
      ensures p.Some? ==> Denotes(env, p.value, EvalSum(block, args, v))
      ensures IsTotal(cache, args, p, es) && Contained(es, log)
      decreases v, 0
    {
      hide Mul, Denotes, AreAtoms, IsCache, InversesDefined, AreBuilt, AllGenuine, AnyCancels, IsTotal, Plus, Cancels;
      hide Contained, Grows, TotalStep, Eval;
      ghost var atoms0, cache0, env0, log0 := atoms, cache, env, log;
      var result: Polynomial := map[];
      es := [];
      DenotesNone(env);
      StartsAlike(atoms, cache, log);
      NoOperands(cache, args);
      for i := 0 to |args|
        invariant Valid() && Extends(atoms0, cache0, env0, log0, v)
        invariant Denotes(env, result, EvalSum(block, args[..i], v))
        invariant IsTotal(cache, args[..i], Some(result), es) && Contained(es, log)
      {
        assert args[..i + 1][..i] == args[..i];
        ghost var x := EvalSum(block, args[..i], v);
        ghost var atoms1, cache1, env1, log1 := atoms, cache, env, log;
        var q := Get(args[i]);
        GrowsOn(atoms0, cache0, atoms1, cache1, atoms, cache);
        TotalGrows(atoms1, cache1, atoms, cache, args[..i], Some(result), es);
        ContainedMore(es, log1, log);
        TotalNext(cache, args, i, result, es);
        if q.None? {
          TotalFails(cache, args, i + 1, es);
          return None, es;
        }
        DenotesMore(env1, env, result, x);
        result, es := AddOperand(args, i, v, result, q.value, es, x);
        if |result| > MAX_TERMS {
          TotalFails(cache, args, i + 1, es);
          return None, es;
        }
      }
      assert args[..|args|] == args;
      p := Some(result);
    }

    /** Add the polynomial of an operand of a sum. */
    method AddOperand(ghost args: seq<nat>, ghost i: nat, ghost v: nat, result: Polynomial, q: Polynomial,
                      ghost fs: seq<Event>, ghost x: real)
      returns (sum: Polynomial, ghost es: seq<Event>)
      requires Valid() && v < |block.ops| && AllBelow(args, v) && block.ops[v] == Sum(args, true) && i < |args|
      requires IsTotal(cache, args[..i], Some(result), fs) && Contained(fs, log)
      requires args[i] in cache && cache[args[i]] == Some(q)
      requires Denotes(env, result, x) && Denotes(env, q, Eval(block, args[i]))
      modifies this`hasCancelled, this`log
      ensures Valid() && old(log) <= log && Contained(es, log) && Denotes(env, sum, x + Eval(block, args[i]))
      ensures IsTotal(cache, args[..i + 1], if |sum| > MAX_TERMS then None else Some(sum), es)
    {
      hide Mul, Denotes, AreAtoms, IsCache, InversesDefined, AreBuilt, AllGenuine, AnyCancels, IsTotal, Plus, Cancels;
      hide Contained, TotalStep, Eval;
      TotalNext(cache, args, i, result, fs);
      MulUnit(Eval(block, args[i]));
      ghost var e := Added(result, q, 1.0);
      sum := Add(result, q, 1.0, x, Eval(block, args[i]));
      AnyCancelsSnoc(log, e);
      ContainedBoth(fs, log, [e]);
      es := fs + [e];
      TotalIsGenuine(block, atoms, cache, log, v, args, i + 1, if |sum| > MAX_TERMS then None else Some(sum), es,
        log + [e]);
      log := log + [e];
    }

    /** The polynomial of a scalar expression, or nothing if it is too large. */
    method Get(v: nat) returns (p: Option<Polynomial>)
      requires Valid() && v < |block.ops|
      modifies this
      ensures Valid() && Extends(old(atoms), old(cache), old(env), old(log), v + 1)
      ensures p.Some? ==> Denotes(env, p.value, Eval(block, v))
      ensures v in cache && cache[v] == p
      ensures if v in old(cache) then log == old(log) && cache == old(cache) && atoms == old(atoms)
        else Contained(work[v], log)
      decreases v, 2
    {
      hide Denotes, AreAtoms, IsBuilt, AllGenuine, AnyCancels, IsCache, AreBuilt, Grows, Contained, InversesDefined;
      if v in cache {
        CacheAt(block, cache, env, v);
        StartsAlike(atoms, cache, log);
        return cache[v];
      }
      ghost var es, atoms0, cache0 := [], atoms, cache;
      p, es := Compute(v);
      Stored(block, atoms, cache, work, env, log, v, p, es);
      GrowsOn(atoms0, cache0, atoms, cache, atoms, cache[v := p]);
      cache, work := cache[v := p], work[v := es];
    }

    // -------------------------------------------------------------- squares

    /** Replace k m u² + 2 k t m u v + k t² m v² by k m w² for the new atom w = u + t v. */
    method CompleteSquare(p: Polynomial, ghost x: real) returns (found: bool, r: Polynomial)
      requires Valid() && Denotes(env, p, x)
      modifies this`atoms, this`env
      ensures Valid() && old(env) <= env && old(atoms) <= atoms && Denotes(env, r, x)
      ensures found ==> |r| == |p| - 2 && IsCompleted(p, r, |old(atoms)|)
      ensures !found ==> r == p && !HasSquare(p)
    {
      hide Mul, AreAtoms, IsCache, InversesDefined, AreBuilt, AllGenuine, AnyCancels, IsSquare, Completed, Slope;
      hide Denotes, MonomialValue;
      var square := FindSquare(p);
      if square.None? {
        return false, p;
      }
      var (mu2, u, v) := square.value;
      SquareShape(p, mu2, u, v);
      SquareAtoms(env, p, x, mu2, u, v);
      var t := Slope(p, mu2, u, v);
      ghost var w := env[u] + Mul(t, env[v]);
      var id := |atoms|;
      assert id == |env| by { AtomsCount(block, atoms, env); }
      SquareDenotes(env, p, x, mu2, u, v, t, w);
      SquareSize(env, p, x, mu2, u, v);
      r := Completed(p, mu2, u, v, id);
      AddAtom(Combined(u, v, t), w);
      found := true;
    }

    /** SimplifyPolynomial: the terms that may replace a sum. They do exactly when something cancelled or a square was
        completed, and they are no more than the operands; no square is left in them. */
    method SimplifySum(v: nat) returns (p: Option<Polynomial>, ghost q: Polynomial)
      requires Valid() && v < |block.ops| && block.ops[v].Sum?
      modifies this
      ensures Valid() && Grows(old(atoms), old(cache), atoms, cache) && old(log) <= log && v in cache
      ensures v !in old(cache) ==> Contained(work[v], log)
      ensures cache[v].Some? ==>
        Denotes(env, q, Eval(block, v)) && !HasSquare(q) && (q == cache[v].value <==> !HasSquare(cache[v].value))
      ensures p ==
        if cache[v].Some? && (AnyCancels(log) || HasSquare(cache[v].value)) && |q| <= |block.ops[v].args| then Some(q)
        else None
    {
      hide Denotes, AreAtoms, IsCache, InversesDefined, AreBuilt, AllGenuine, AnyCancels, HasSquare, IsCompleted;
      p := Get(v);
      q := map[];
      if p.None? {
        return;
      }
      var hasSquares, go := false, true;
      q := p.value;
      var r := p.value;
      ghost var atoms1, cache1, log1, work1 := atoms, cache, log, work;
      while go
        invariant Valid() && Denotes(env, r, Eval(block, v)) && atoms1 <= atoms && |r| <= |p.value|
        invariant cache == cache1 && log == log1 && work == work1
        invariant if hasSquares then HasSquare(p.value) && |r| < |p.value| else r == p.value
        invariant !go ==> !HasSquare(r)
        decreases |r|, go
      {
        ghost var before, n := r, |atoms|;
        go, r := CompleteSquare(r, Eval(block, v));
        if go { CompletedHas(before, r, n); }
        hasSquares := hasSquares || go;
      }
      q := r;
      if (!hasCancelled && !hasSquares) || |r| > |block.ops[v].args| {
        p := None;
      } else {
        p := Some(r);
      }
    }
  }

  // ---------------------------------------------------------------- steps of the builder

  ghost predicate HasSquare(p: Polynomial) { exists mu2, u, v :: IsSquare(p, mu2, u, v) }

  /** r is p with one square completed by the new atom w. */
  ghost predicate IsCompleted(p: Polynomial, r: Polynomial, w: nat) {
    exists mu2, u, v :: IsSquare(p, mu2, u, v) && r == Completed(p, mu2, u, v, w)
  }

  lemma {:induction false} CacheAt(b: Block, cache: Cache, env: Env, v: nat)
    requires IsBlock(b) && IsCache(b, cache, env) && v in cache
    ensures cache[v].Some? ==> v < |b.ops| && Denotes(env, cache[v].value, Eval(b, v))
  {}

  lemma {:induction false} Stored(b: Block, atoms: seq<Atom>, cache: Cache, work: map<nat, seq<Event>>, env: Env,
                                  log: seq<Event>, v: nat, p: Option<Polynomial>, es: seq<Event>)
    requires IsBlock(b) && IsCache(b, cache, env) && AreBuilt(b, atoms, cache, work) && AllGenuine(b, atoms, cache, log)
    requires v !in cache && v < |b.ops| && IsBuilt(b, atoms, cache, v, p, es)
    requires p.Some? ==> Denotes(env, p.value, Eval(b, v))
    ensures IsCache(b, cache[v := p], env) && AreBuilt(b, atoms, cache[v := p], work[v := es])
    ensures AllGenuine(b, atoms, cache[v := p], log) && Grows(atoms, cache, atoms, cache[v := p])
  {
    hide Denotes, IsBuilt, AllGenuine, Eval;
    BuiltStays(b, atoms, cache, atoms, cache[v := p], work);
    BuiltMore(b, atoms, cache, atoms, cache[v := p], v, p, es);
    GenuineMore(b, atoms, cache, atoms, cache[v := p], log);
  }

  lemma {:induction false} SquareShape(p: Polynomial, mu2: Monomial, u: nat, v: nat)
    requires IsSquare(p, mu2, u, v)
    ensures mu2 in p && p[mu2] != 0.0 && Mixed(mu2, u, v) in p
  {}

  lemma {:induction false} CompletedHas(p: Polynomial, r: Polynomial, w: nat)
    requires IsCompleted(p, r, w)
    ensures HasSquare(p)
  {}

  lemma {:induction false} SummedAt(p: Polynomial, q: Polynomial, c: real, rest: Polynomial, r: Polynomial, m: Monomial)
    requires IsSummed(p, q, c, rest, r) && m in rest
    ensures Coefficient(r, m) == Coefficient(p, m) && m in q && rest[m] == q[m]
  {}

  lemma {:induction false} RowStart(p: Polynomial, m: Monomial, c: real, q: Polynomial)
    requires IsPolynomial(p)
    ensures p == Plus(p, Shifted(m, c, Done(q, q)), 1.0) && !HasCancelledRow(p, m, c, q, q)
  {
    hide FactorCancels, TermCancels, Product, Inverted;
    var none := Shifted(m, c, Done(q, q));
    assert Done(q, q) == map[];
    assert none == map[];
    MulUnit(1.0);
    SamePolynomial(p, Plus(p, none, 1.0));
  }

  lemma {:induction false} RowEnd(p: Polynomial, m: Monomial, c: real, q: Polynomial, row: Polynomial)
    requires row == map[]
    ensures Done(q, row) == q && (HasCancelledRow(p, m, c, q, row) <==> Cancels(Row(p, m, c, q)))
  {
    hide FactorCancels, TermCancels, Product;
  }

  lemma {:induction false} ProductStart(p: Polynomial, q: Polynomial)
    ensures IsOrder(p, p, []) && AllSmall(p, q, []) && Partial(p, q, []) == map[] && Rows(p, q, []) == []
  {}

  lemma {:induction false} OrderAt(p: Polynomial, rest: Polynomial, ms: seq<Monomial>, m: Monomial)
    requires IsOrder(p, rest, ms) && m in rest
    ensures rest[m] == Coefficient(p, m)
  {}

  lemma {:induction false} FewerGenuine(b: Block, atoms: seq<Atom>, cache: Cache, log: seq<Event>, before: seq<Event>)
    requires AllGenuine(b, atoms, cache, log) && before <= log
    ensures AllGenuine(b, atoms, cache, before)
  {
    hide IsGenuine;
    forall e | e in before
      ensures e in log
    {
      var i :| 0 <= i < |before| && before[i] == e;
      assert log[i] == e;
    }
  }

  lemma {:induction false} StartsAlike(atoms: seq<Atom>, cache: Cache, log: seq<Event>)
    ensures Grows(atoms, cache, atoms, cache) && Contained([], log)
  {}

  lemma {:induction false} GrowsOn(atoms: seq<Atom>, cache: Cache, more: seq<Atom>, after: Cache, most: seq<Atom>,
                                   last: Cache)
    requires Grows(atoms, cache, more, after) && Grows(more, after, most, last)
    ensures Grows(atoms, cache, most, last)
  {}

  lemma {:induction false} ContainedMore(es: seq<Event>, log: seq<Event>, more: seq<Event>)
    requires Contained(es, log) && log <= more
    ensures Contained(es, more)
  {
    forall e | e in es
      ensures e in more
    {
      var i :| 0 <= i < |log| && log[i] == e;
      assert more[i] == e;
    }
  }

  lemma {:induction false} ContainedBoth(es: seq<Event>, log: seq<Event>, fs: seq<Event>)
    requires Contained(es, log)
    ensures Contained(es + fs, log + fs) && Contained((log + fs)[|log|..], es + fs)
  {
    assert (log + fs)[|log|..] == fs;
  }

  // ---------------------------------------------------------------- sums

  lemma {:induction false} NoOperands(cache: Cache, args: seq<nat>)
    ensures IsTotal(cache, args[..0], Some(map[]), [])
  {
    assert args[..0] == [];
  }

  lemma {:induction false} TotalNext(cache: Cache, args: seq<nat>, i: nat, x: Polynomial, fs: seq<Event>)
    requires i < |args| && IsTotal(cache, args[..i], Some(x), fs) && args[i] in cache
    ensures cache[args[i]].None? ==> IsTotal(cache, args[..i + 1], None, fs)
    ensures cache[args[i]].Some? ==>
      var sum := Plus(x, cache[args[i]].value, 1.0);
      IsTotal(cache, args[..i + 1], if |sum| > MAX_TERMS then None else Some(sum),
        fs + [Added(x, cache[args[i]].value, 1.0)])
  {
    hide Plus;
    var front := args[..i + 1];
    assert front[..i] == args[..i];
    var q := cache[args[i]];
    if q.None? {
      var none: Option<Polynomial> := None;
      assert TotalStep(cache, args[i], Some(x), fs, none, fs);
      assert TotalFrom(cache, args[..i], args[i], none, fs);
    } else {
      var sum := Plus(x, q.value, 1.0);
      var r, es := if |sum| > MAX_TERMS then None else Some(sum), fs + [Added(x, q.value, 1.0)];
      assert TotalStep(cache, args[i], Some(x), fs, r, es);
      assert TotalFrom(cache, args[..i], args[i], r, es);
    }
  }

  /** Without a sum of the first i there is none of all. */
  lemma {:induction false} TotalFails(cache: Cache, args: seq<nat>, i: nat, es: seq<Event>)
    requires i <= |args| && IsTotal(cache, args[..i], None, es)
    ensures IsTotal(cache, args, None, es)
    decreases |args| - i
  {
    if i == |args| {
      assert args[..i] == args;
    } else {
      var front, x: Option<Polynomial> := args[..i + 1], None;
      assert front[..i] == args[..i];
      assert TotalStep(cache, args[i], x, es, x, es);
      assert TotalFrom(cache, args[..i], args[i], x, es);
      assert IsTotal(cache, front, x, es);
      TotalFails(cache, args, i + 1, es);
    }
  }

  lemma {:induction false} TotalIsGenuine(b: Block, atoms: seq<Atom>, cache: Cache, log: seq<Event>, v: nat,
                                          args: seq<nat>, i: nat, r: Option<Polynomial>, es: seq<Event>,
                                          more: seq<Event>)
    requires AllGenuine(b, atoms, cache, log) && v < |b.ops| && b.ops[v] == Sum(args, true) && i <= |args|
    requires IsTotal(cache, args[..i], r, es) && es != [] && more == log + [es[|es| - 1]]
    ensures AllGenuine(b, atoms, cache, more)
  {
    hide IsTotal;
    assert es[|es| - 1] in es;
    WorkIsGenuine(b, atoms, cache, log, v, i, r, es, more);
  }

  // ---------------------------------------------------------------- products

  lemma {:induction false} NoFactors(b: Block, atoms: seq<Atom>, cache: Cache, args: seq<nat>)
    ensures IsChain(b, atoms, cache, args[..0], Some(ONE), [])
  {
    assert args[..0] == [];
  }

  lemma {:induction false} ChainNext(b: Block, atoms: seq<Atom>, cache: Cache, args: seq<nat>, i: nat, x: Polynomial,
                                     fs: seq<Event>, f: Polynomial, ms: seq<Monomial>, r: Option<Polynomial>)
    requires i < |args| && IsChain(b, atoms, cache, args[..i], Some(x), fs)
    requires IsFactor(b, atoms, cache, args[i], f) && IsProduct(x, f, ms, r)
    ensures IsChain(b, atoms, cache, args[..i + 1], r, fs + Rows(x, f, ms))
  {
    hide IsFactor, IsProduct, Rows;
    var front := args[..i + 1];
    assert front[..i] == args[..i];
    var es := fs + Rows(x, f, ms);
    assert ChainStep(b, atoms, cache, args[i], Some(x), fs, r, es);
    assert ChainFrom(b, atoms, cache, args[..i], args[i], r, es);
  }

  lemma {:induction false} ChainFails(b: Block, atoms: seq<Atom>, cache: Cache, args: seq<nat>, i: nat, es: seq<Event>)
    requires i <= |args| && IsChain(b, atoms, cache, args[..i], None, es)
    ensures IsChain(b, atoms, cache, args, None, es)
    decreases |args| - i
  {
    hide IsFactor, IsProduct, Rows;
    if i == |args| {
      assert args[..i] == args;
    } else {
      var front, x: Option<Polynomial> := args[..i + 1], None;
      assert front[..i] == args[..i];
      assert ChainStep(b, atoms, cache, args[i], x, es, x, es);
      assert ChainFrom(b, atoms, cache, args[..i], args[i], x, es);
      assert IsChain(b, atoms, cache, front, x, es);
      ChainFails(b, atoms, cache, args, i + 1, es);
    }
  }

  lemma {:induction false} ChainIsGenuine(b: Block, atoms: seq<Atom>, cache: Cache, log: seq<Event>, v: nat,
                                          args: seq<nat>, i: nat, r: Option<Polynomial>, es: seq<Event>,
                                          more: seq<Event>)
    requires AllGenuine(b, atoms, cache, log) && v < |b.ops| && b.ops[v] == CMul(args) && i <= |args|
    requires IsChain(b, atoms, cache, args[..i], r, es) && log <= more && Contained(more[|log|..], es)
    ensures AllGenuine(b, atoms, cache, more)
  {
    hide IsChain;
    assert more == log + more[|log|..];
    WorkIsGenuine(b, atoms, cache, log, v, i, r, es, more);
  }

  // ---------------------------------------------------------------- dot products

  lemma {:induction false} NoPairs(b: Block, atoms: seq<Atom>, cache: Cache, l: seq<nat>, r: seq<nat>)
    ensures DotPairs(b, l[..0], r) == [] && IsDot(b, atoms, cache, DotPairs(b, l[..0], r), Some(map[]), [])
  {
    assert l[..0] == [];
  }

  lemma {:induction false} NoRow(b: Block, l: seq<nat>, r: seq<nat>, i: nat)
    requires i < |l|
    ensures DotPairs(b, l[..i], r) + RowPairs(b, l[i], r[..0]) == DotPairs(b, l[..i], r)
  {
    assert r[..0] == [];
  }

  lemma {:induction false} RowPairsNext(b: Block, x: nat, r: seq<nat>, j: nat)
    requires j < |r|
    ensures RowPairs(b, x, r[..j + 1]) == RowPairs(b, x, r[..j]) +
      if x < |b.types| && r[j] < |b.types| && b.types[x] == b.types[r[j]] then [(x, r[j])] else []
  {
    assert r[..j + 1][..j] == r[..j];
  }

  lemma {:induction false} DotPairsNext(b: Block, l: seq<nat>, r: seq<nat>, i: nat)
    requires i < |l|
    ensures DotPairs(b, l[..i + 1], r) == DotPairs(b, l[..i], r) + RowPairs(b, l[i], r[..|r|])
  {
    assert l[..i + 1][..i] == l[..i] && r[..|r|] == r;
  }

  lemma {:induction false} RowPairsBegin(b: Block, x: nat, r: seq<nat>, j: nat)
    requires j <= |r|
    ensures RowPairs(b, x, r[..j]) <= RowPairs(b, x, r)
    decreases |r| - j
  {
    if j == |r| {
      assert r[..j] == r;
    } else {
      RowPairsNext(b, x, r, j);
      RowPairsBegin(b, x, r, j + 1);
    }
  }

  lemma {:induction false} DotPairsBegin(b: Block, l: seq<nat>, r: seq<nat>, i: nat)
    requires i <= |l|
    ensures DotPairs(b, l[..i], r) <= DotPairs(b, l, r)
    decreases |l| - i
  {
    if i == |l| {
      assert l[..i] == l;
    } else {
      DotPairsNext(b, l, r, i);
      DotPairsBegin(b, l, r, i + 1);
    }
  }

  /** The pairs up to one are the first of all pairs. */
  lemma {:induction false} PairsBefore(b: Block, l: seq<nat>, r: seq<nat>, i: nat, j: nat)
    requires i < |l| && j < |r|
    requires l[i] < |b.types| && r[j] < |b.types| && b.types[l[i]] == b.types[r[j]]
    ensures DotPairs(b, l[..i], r) + RowPairs(b, l[i], r[..j]) + [(l[i], r[j])] <= DotPairs(b, l, r)
  {
    hide DotPairs, RowPairs;
    RowPairsNext(b, l[i], r, j);
    RowPairsBegin(b, l[i], r, j + 1);
    DotPairsNext(b, l, r, i);
    DotPairsBegin(b, l, r, i + 1);
    assert r[..|r|] == r;
  }

  lemma {:induction false} DotNext(b: Block, atoms: seq<Atom>, cache: Cache, before: seq<(nat, nat)>, pair: (nat, nat),
                                   x: Polynomial, fs: seq<Event>, f: Polynomial, g: Polynomial, ms: seq<Monomial>,
                                   fg: Option<Polynomial>, r: Option<Polynomial>, es: seq<Event>)
    requires IsDot(b, atoms, cache, before, Some(x), fs) && IsFactor(b, atoms, cache, pair.0, f)
    requires IsFactor(b, atoms, cache, pair.1, g) && IsProduct(f, g, ms, fg) && DotAdds(x, f, g, ms, fg, fs, r, es)
    ensures IsDot(b, atoms, cache, before + [pair], r, es)
  {
    hide IsFactor, IsProduct, DotAdds;
    var pairs := before + [pair];
    assert pairs[..|before|] == before;
    assert DotStep(b, atoms, cache, pair, Some(x), fs, r, es);
    assert DotFrom(b, atoms, cache, before, pair, r, es);
  }

  lemma {:induction false} NoneStays(b: Block, atoms: seq<Atom>, cache: Cache, pairs: seq<(nat, nat)>,
                                     before: seq<(nat, nat)>, es: seq<Event>)
    requires before <= pairs && IsDot(b, atoms, cache, before, None, es)
    ensures IsDot(b, atoms, cache, pairs, None, es)
    decreases |pairs| - |before|
  {
    if |before| == |pairs| {
      assert before == pairs;
    } else {
      var next, x: Option<Polynomial> := pairs[..|before| + 1], None;
      assert next[..|before|] == before;
      assert DotStep(b, atoms, cache, pairs[|before|], x, es, x, es);
      assert DotFrom(b, atoms, cache, before, pairs[|before|], x, es);
      assert IsDot(b, atoms, cache, next, x, es);
      NoneStays(b, atoms, cache, pairs, next, es);
    }
  }

  lemma {:induction false} DotIsGenuine(b: Block, atoms: seq<Atom>, cache: Cache, log: seq<Event>, v: nat, l: seq<nat>,
                                        r: seq<nat>, before: seq<(nat, nat)>, x: Option<Polynomial>, es: seq<Event>,
                                        more: seq<Event>)
    requires AllGenuine(b, atoms, cache, log) && v < |b.ops| && b.ops[v] == Dot(Some(l), Some(r))
    requires before <= DotPairs(b, l, r) && IsDot(b, atoms, cache, before, x, es)
    requires log <= more && Contained(more[|log|..], es)
    ensures AllGenuine(b, atoms, cache, more)
  {
    hide IsDot, DotPairs;
    assert more == log + more[|log|..];
    assert DotPairs(b, l, r)[..|before|] == before;
    WorkIsGenuine(b, atoms, cache, log, v, |before|, x, es, more);
  }

  lemma {:induction false} MulMinus(x: real)
    ensures Mul(-1.0, x) == -x
  {}

  lemma {:induction false} AtomDenotes(env: Env, id: nat)
    requires id < |env|
    ensures Denotes(env, map[map[id := 1] := 1.0], env[id])
  {
    var m: Monomial := map[id := 1];
    DenotesTerm(env, m, 1.0);
    MonomialRemove(env, m, id);
    assert m - {id} == map[];
    MulUnit(env[id]);
    MulUnit(MonomialValue(env, m));
    assert Pow(At(env, id), 1) == Mul(At(env, id), Pow(At(env, id), 0));
  }

  lemma {:induction false} OneTerm(p: Polynomial, m: Monomial)
    requires |p| == 1 && m in p
    ensures p == map[m := p[m]]
  {
    assert |p - {m}| == 0;
    assert p - {m} == map[];
    forall k | k in p ensures k == m {
      assert k in p - {m} || k == m;
    }
  }

  lemma {:induction false} InvertedValue(env: Env, m: Monomial)
    requires IsMonomial(m) && Defined(env, m) && MonomialValue(env, m) != 0.0
    ensures Defined(env, Inverted(m)) && Mul(MonomialValue(env, Inverted(m)), MonomialValue(env, m)) == 1.0
  {
    var r := Inverted(m);
    forall id | id in r && r[id] < 0 ensures At(env, id) != 0.0 {
      AtomsNonzero(env, m, id);
    }
    ProductValue(env, r, m);
    var none := Product(r, m);
    forall j ensures Exponent(none, j) == Exponent(map[], j) {}
    SameMonomial(none, map[]);
  }

  /** 1 / (k m) is (1/k) (1/m). */
  lemma {:induction false} InverseDenotes(env: Env, m: Monomial, k: real, x: real)
    requires Denotes(env, map[m := k], x) && x != 0.0
    ensures k != 0.0 && Denotes(env, map[Inverted(m) := 1.0 / k], 1.0 / x)
  {
    hide Mul;
    var p: Polynomial := map[m := k];
    var v := MonomialValue(env, m);
    assert m in p;
    ValueRemove(env, p, m);
    assert p - {m} == map[];
    assert x == Mul(k, v);
    MulNonzero(k, v);
    InvertedValue(env, m);
    var r := Inverted(m);
    forall id | id in r ensures id < |env| {
      assert Exponent(r, id) == -Exponent(m, id);
    }
    Reciprocal(k, v, MonomialValue(env, r), x);
    DenotesTerm(env, r, 1.0 / k);
  }

  lemma {:induction false} Reciprocal(k: real, v: real, w: real, x: real)
    requires x == Mul(k, v) && x != 0.0 && k != 0.0 && Mul(w, v) == 1.0
    ensures 1.0 / k != 0.0 && Mul(1.0 / k, w) == 1.0 / x
  {
    var r := 1.0 / k;
    assert r * k == 1.0;
    assert (r * w) * (k * v) == (r * k) * (w * v);
    assert (1.0 / x) * x == 1.0;
    CancelLeft(x, Mul(r, w), 1.0 / x);
  }

  lemma {:induction false} RestExponents(rest: Monomial, id: nat)
    requires id in rest
    ensures forall j :: Exponent(rest - {id}, j) == if j == id then 0 else Exponent(rest, j)
  {}

  lemma {:induction false} ProductTerm(env: Env, m: Monomial, c: real, k: Monomial, d: real)
    requires IsMonomial(m) && Defined(env, m) && (forall id :: id in m ==> id < |env|) && c != 0.0
    requires IsMonomial(k) && Defined(env, k) && (forall id :: id in k ==> id < |env|) && d != 0.0
    ensures Denotes(env, map[Product(m, k) := Mul(c, d)],
                    Mul(Mul(c, MonomialValue(env, m)), Mul(d, MonomialValue(env, k))))
  {
    hide Mul;
    var r := Product(m, k);
    ProductDefined(env, m, k);
    ProductValue(env, m, k);
    MulNonzero(c, d);
    forall id | id in r ensures id < |env| {
      assert Exponent(r, id) == Exponent(m, id) + Exponent(k, id);
    }
    DenotesTerm(env, r, Mul(c, d));
    MulInterchange(c, MonomialValue(env, m), d, MonomialValue(env, k));
  }

  lemma {:induction false} AddStep(c: real, k: real, v: real, z: real, t: real)
    requires t == Mul(k, v)
    ensures -Mul(c, z) + Mul(Mul(c, k), v) == -Mul(c, z - t)
    ensures Mul(c, k) == 0.0 ==> Mul(c, z) == Mul(c, z - t)
  {
    MulAssoc(c, k, v);
    MulAdd(c, z - t, t);
    if Mul(c, k) == 0.0 {
      MulUnit(v);
    }
  }

  lemma {:induction false} EndOf(env: Env, z: real)
    requires Denotes(env, map[], z)
    ensures z == 0.0 && forall c: real :: Mul(c, z) == 0.0
  {}

  lemma {:induction false} AtomsCount(b: Block, atoms: seq<Atom>, env: Env)
    requires IsBlock(b) && AreAtoms(b, atoms, env)
    ensures |atoms| == |env|
  {}

  // ---------------------------------------------------------------- squares

  function AtomsOf(p: Polynomial): set<nat> { set m, id | m in p && id in m :: id }

  /** m without u². */
  function Base(mu2: Monomial, u: nat): Monomial { Times(mu2, u, -2) }

  function Mixed(mu2: Monomial, u: nat, v: nat): Monomial { Times(Times(Base(mu2, u), u, 1), v, 1) }

  function Other(mu2: Monomial, u: nat, v: nat): Monomial { Times(Base(mu2, u), v, 2) }

  /** The t for which the coefficient of the mixed term is 2 k t. */
  function Slope(p: Polynomial, mu2: Monomial, u: nat, v: nat): real
    requires mu2 in p && p[mu2] != 0.0 && Mixed(mu2, u, v) in p
  {
    p[Mixed(mu2, u, v)] / (2.0 * p[mu2])
  }

  predicate IsSquare(p: Polynomial, mu2: Monomial, u: nat, v: nat) {
    && mu2 in p && p[mu2] != 0.0 && u in mu2 && mu2[u] >= 2 && v in AtomsOf(p) && v != u
    && Mixed(mu2, u, v) in p && Other(mu2, u, v) in p
    && p[Other(mu2, u, v)] == Mul(Mul(p[mu2], Slope(p, mu2, u, v)), Slope(p, mu2, u, v))
  }

  /** Wherever k m u^2 + 2 k t m u v + k t^2 m v^2 is part of a polynomial, there is a square to complete. */
  lemma {:induction false} SquareIsFound(p: Polynomial, m: Monomial, u: nat, v: nat, k: real, t: real)
    requires IsMonomial(m) && Exponent(m, u) >= 0 && u != v && k != 0.0 && t != 0.0
    requires var uu, uv, vv := Times(m, u, 2), Times(Times(m, u, 1), v, 1), Times(m, v, 2);
      uu in p && uv in p && vv in p && p[uu] == k && p[uv] == 2.0 * Mul(k, t) && p[vv] == Mul(Mul(k, t), t)
    ensures IsSquare(p, Times(m, u, 2), u, v)
  {
    hide IsMonomial;
    var uu, uv, vv := Times(m, u, 2), Times(Times(m, u, 1), v, 1), Times(m, v, 2);
    SquareTimes(m, u, v);
    assert Exponent(uv, v) == Exponent(m, v) + 1 && Exponent(vv, v) == Exponent(m, v) + 2;
    assert v in uv || v in vv;
    HalfOf(k, t);
  }

  lemma {:induction false} SquareTimes(m: Monomial, u: nat, v: nat)
    requires IsMonomial(m) && u != v
    ensures var mu2 := Times(m, u, 2);
      Base(mu2, u) == m && Mixed(mu2, u, v) == Times(Times(m, u, 1), v, 1) && Other(mu2, u, v) == Times(m, v, 2)
  {
    SameMonomial(Base(Times(m, u, 2), u), m);
  }

  lemma {:induction false} HalfOf(k: real, t: real)
    requires k != 0.0
    ensures 2.0 * Mul(k, t) / (2.0 * k) == t
  {}

  function Completed(p: Polynomial, mu2: Monomial, u: nat, v: nat, w: nat): Polynomial
    requires mu2 in p
  {
    (p - {Other(mu2, u, v)} - {Mixed(mu2, u, v)} - {mu2})[Times(Base(mu2, u), w, 2) := p[mu2]]
  }

  method FindSquare(p: Polynomial) returns (r: Option<(Monomial, nat, nat)>)
    ensures r.Some? ==> IsSquare(p, r.value.0, r.value.1, r.value.2)
    ensures r.None? ==> forall mu2, u, v :: !IsSquare(p, mu2, u, v)
  {
    hide IsSquare, AtomsOf;
    var ids := AtomsOf(p);
    var monomials := p.Keys;
    while monomials != {}
      invariant forall mu2, u, v :: mu2 in p && mu2 !in monomials ==> !IsSquare(p, mu2, u, v)
    {
      var mu2 :| mu2 in monomials;
      r := FindInMonomial(p, mu2, ids);
      if r.Some? {
        return;
      }
      monomials := monomials - {mu2};
    }
    forall mu2, u, v ensures !IsSquare(p, mu2, u, v) {
      if IsSquare(p, mu2, u, v) {
        SquareIsTerm(p, mu2, u, v);
      }
    }
    r := None;
  }

  lemma {:induction false} SquareIsTerm(p: Polynomial, mu2: Monomial, u: nat, v: nat)
    requires IsSquare(p, mu2, u, v)
    ensures mu2 in p && u in mu2 && v in AtomsOf(p)
  {}

  method FindInMonomial(p: Polynomial, mu2: Monomial, ids: set<nat>) returns (r: Option<(Monomial, nat, nat)>)
    requires ids == AtomsOf(p)
    ensures r.Some? ==> IsSquare(p, r.value.0, r.value.1, r.value.2)
    ensures r.None? ==> forall u, v :: !IsSquare(p, mu2, u, v)
  {
    hide IsSquare, AtomsOf;
    var us := mu2.Keys;
    while us != {}
      invariant forall u, v :: u in mu2 && u !in us ==> !IsSquare(p, mu2, u, v)
    {
      var u :| u in us;
      var vs := ids;
      while vs != {}
        invariant forall v :: v in ids && v !in vs ==> !IsSquare(p, mu2, u, v)
      {
        var v :| v in vs;
        if IsSquare(p, mu2, u, v) {
          return Some((mu2, u, v));
        }
        vs := vs - {v};
      }
      forall v ensures !IsSquare(p, mu2, u, v) {
        if IsSquare(p, mu2, u, v) {
          SquareIsTerm(p, mu2, u, v);
        }
      }
      us := us - {u};
    }
    forall u, v ensures !IsSquare(p, mu2, u, v) {
      if IsSquare(p, mu2, u, v) {
        SquareIsTerm(p, mu2, u, v);
      }
    }
    r := None;
  }

  lemma {:induction false} SquareAtoms(env: Env, p: Polynomial, x: real, mu2: Monomial, u: nat, v: nat)
    requires Denotes(env, p, x) && IsSquare(p, mu2, u, v)
    ensures u < |env| && v < |env| && u != v && mu2 in p && p[mu2] != 0.0 && Mixed(mu2, u, v) in p
  {}

  /** The terms of a square are three different ones. */
  lemma {:induction false} SquareTerms(p: Polynomial, mu2: Monomial, u: nat, v: nat)
    requires IsSquare(p, mu2, u, v)
    ensures mu2 in p && Mixed(mu2, u, v) in p && Other(mu2, u, v) in p
    ensures mu2 != Mixed(mu2, u, v) && Mixed(mu2, u, v) != Other(mu2, u, v) && Other(mu2, u, v) != mu2
  {
    assert Exponent(Mixed(mu2, u, v), u) == mu2[u] - 1;
    assert Exponent(Other(mu2, u, v), u) == mu2[u] - 2;
  }

  lemma {:induction false} RemoveThree(p: Polynomial, a: Monomial, b: Monomial, c: Monomial)
    requires a in p && b in p && c in p && a != b && b != c && a != c
    ensures |p - {a} - {b} - {c}| == |p| - 3
  {
    assert b in p - {a} && c in p - {a} - {b};
    assert |p - {a}| == |p| - 1;
    assert |p - {a} - {b}| == |p| - 2;
  }

  lemma {:induction false} NewMonomial(n: nat, p: Polynomial, m: Monomial)
    requires Over(n, p)
    ensures Times(m, n, 2) in p ==> Exponent(m, n) == -2
  {
    assert Exponent(Times(m, n, 2), n) == Exponent(m, n) + 2;
  }

  lemma {:induction false} SquareSize(env: Env, p: Polynomial, x: real, mu2: Monomial, u: nat, v: nat)
    requires Denotes(env, p, x) && IsSquare(p, mu2, u, v)
    ensures |Completed(p, mu2, u, v, |env|)| == |p| - 2
  {
    hide Times, IsSquare;
    SquareTerms(p, mu2, u, v);
    RemoveThree(p, Other(mu2, u, v), Mixed(mu2, u, v), mu2);
    NewMonomial(|env|, p, Base(mu2, u));
    SquareAtoms(env, p, x, mu2, u, v);
    assert Exponent(mu2, |env|) == 0;
    assert Exponent(Base(mu2, u), |env|) == 0;
  }

  /** The values of the three terms and of the completed square. */
  lemma {:induction false} SquareValues(env: Env, p: Polynomial, x: real, mu2: Monomial, u: nat, v: nat)
    requires Denotes(env, p, x) && IsSquare(p, mu2, u, v)
    ensures u < |env| && v < |env|
    ensures var b := MonomialValue(env, Base(mu2, u));
      && MonomialValue(env, mu2) == Mul(Mul(env[u], env[u]), b)
      && MonomialValue(env, Mixed(mu2, u, v)) == Mul(env[v], Mul(env[u], b))
      && MonomialValue(env, Other(mu2, u, v)) == Mul(Mul(env[v], env[v]), b)
  {
    var m := Base(mu2, u);
    SquareAtoms(env, p, x, mu2, u, v);
    Powers(env[u]);
    Powers(env[v]);
    assert Exponent(m, u) == mu2[u] - 2 && Exponent(m, v) == Exponent(mu2, v);
    assert env[v] != 0.0 || Exponent(m, v) >= 0;
    TimesValue(env, m, u, 2);
    SameMonomial(Times(m, u, 2), mu2);
    TimesValue(env, m, u, 1);
    TimesValue(env, Times(m, u, 1), v, 1);
    TimesValue(env, m, v, 2);
  }

  lemma {:induction false} Powers(x: real)
    ensures Pow(x, 1) == x && Pow(x, 2) == Mul(x, x)
  {
    assert Pow(x, 1) == Mul(x, Pow(x, 0));
    assert Pow(x, 2) == Mul(x, Pow(x, 1));
  }

  /** k u² b + 2 k t v u b + k t² v² b == k (u + t v)² b */
  lemma {:induction false} SquareSum(k: real, t: real, j: real, u: real, v: real, w: real, b: real)
    requires k != 0.0 && t == j / (2.0 * k) && w == u + Mul(t, v)
    ensures Mul(k, Mul(Mul(u, u), b)) + Mul(j, Mul(v, Mul(u, b))) + Mul(Mul(Mul(k, t), t), Mul(Mul(v, v), b))
         == Mul(k, Mul(Mul(w, w), b))
  {
    hide Mul;
    var q, z := Mul(k, b), Mul(t, v);
    FirstTerm(k, u, b);
    MixedTerm(k, t, j, u, v, b);
    LastTerm(k, t, v, b);
    FirstTerm(k, w, b);
    Binomial(q, u, z, w);
  }

  lemma {:induction false} FirstTerm(k: real, u: real, b: real)
    ensures Mul(k, Mul(Mul(u, u), b)) == Mul(Mul(k, b), Mul(u, u))
  {}

  lemma {:induction false} MixedTerm(k: real, t: real, j: real, u: real, v: real, b: real)
    requires k != 0.0 && t == j / (2.0 * k)
    ensures Mul(j, Mul(v, Mul(u, b))) == Mul(Mul(k, b), Mul(2.0, Mul(Mul(t, v), u)))
  {
    assert j == 2.0 * (k * t);
  }

  lemma {:induction false} LastTerm(k: real, t: real, v: real, b: real)
    ensures Mul(Mul(Mul(k, t), t), Mul(Mul(v, v), b)) == Mul(Mul(k, b), Mul(Mul(t, v), Mul(t, v)))
  {
    assert ((k * t) * t) * ((v * v) * b) == (k * b) * ((t * v) * (t * v));
  }

  lemma {:induction false} Binomial(q: real, u: real, z: real, w: real)
    requires w == u + z
    ensures Mul(q, Mul(u, u)) + Mul(q, Mul(2.0, Mul(z, u))) + Mul(q, Mul(z, z)) == Mul(q, Mul(w, w))
  {
    assert w * w == u * u + 2.0 * (z * u) + z * z;
    assert q * (u * u) + q * (2.0 * (z * u)) + q * (z * z) == q * (u * u + 2.0 * (z * u) + z * z);
  }

  /** What is left of p without the three terms of a square. */
  function Remaining(p: Polynomial, mu2: Monomial, u: nat, v: nat): Polynomial {
    p - {Other(mu2, u, v)} - {Mixed(mu2, u, v)} - {mu2}
  }

  lemma {:induction false} RemainingDenotes(env: Env, p: Polynomial, x: real, a: Monomial, b: Monomial, c: Monomial)
    requires Denotes(env, p, x) && a in p && b in p && c in p && a != b && b != c && a != c
    ensures Denotes(env, p - {a} - {b} - {c},
                    x - (Mul(p[a], MonomialValue(env, a)) + Mul(p[b], MonomialValue(env, b)) +
                         Mul(p[c], MonomialValue(env, c))))
  {
    hide Mul, MonomialValue, Denotes;
    var y := x - Mul(p[a], MonomialValue(env, a));
    DenotesRest(env, p, x, a);
    assert b in p - {a} && c in p - {a} - {b};
    DenotesRest(env, p - {a}, y, b);
    DenotesRest(env, p - {a} - {b}, y - Mul(p[b], MonomialValue(env, b)), c);
  }

  lemma {:induction false} BaseDefined(env: Env, p: Polynomial, x: real, mu2: Monomial, u: nat, v: nat)
    requires Denotes(env, p, x) && IsSquare(p, mu2, u, v)
    ensures var m := Base(mu2, u);
      IsMonomial(m) && Defined(env, m) && (forall id :: id in m ==> id < |env|) && u < |env| && v < |env|
  {
    var m := Base(mu2, u);
    SquareAtoms(env, p, x, mu2, u, v);
    forall id | id in m ensures id < |env| && (m[id] < 0 ==> At(env, id) != 0.0) {
      assert Exponent(m, id) == if id == u then mu2[u] - 2 else Exponent(mu2, id);
    }
  }

  lemma {:induction false} NewTerm(env: Env, w: real, m: Monomial, k: real)
    requires IsMonomial(m) && Defined(env, m) && (forall id :: id in m ==> id < |env|) && k != 0.0
    ensures var n := Times(m, |env|, 2);
      && IsMonomial(n) && Defined(env + [w], n) && (forall id :: id in n ==> id < |env + [w]|)
      && |env| in n
      && MonomialValue(env + [w], n) == Mul(Mul(w, w), MonomialValue(env, m))
  {
    var more, n := env + [w], Times(m, |env|, 2);
    assert Exponent(m, |env|) == 0 && At(more, |env|) == w;
    assert Exponent(n, |env|) == 2;
    MonomialOverAtoms(env, more, m);
    TimesValue(more, m, |env|, 2);
    Powers(w);
    forall id | id in n ensures id < |more| && (n[id] < 0 ==> At(more, id) != 0.0) {
      assert Exponent(n, id) == if id == |env| then 2 else Exponent(m, id);
    }
  }

  /** Completing a square keeps the value. */
  lemma {:induction false} SquareDenotes(env: Env, p: Polynomial, x: real, mu2: Monomial, u: nat, v: nat, t: real,
                                         w: real)
    requires Denotes(env, p, x) && IsSquare(p, mu2, u, v) && u < |env| && v < |env|
    requires mu2 in p && p[mu2] != 0.0 && Mixed(mu2, u, v) in p && t == Slope(p, mu2, u, v)
    requires w == env[u] + Mul(t, env[v])
    ensures Denotes(env + [w], Completed(p, mu2, u, v, |env|), x)
  {
    hide Mul, MonomialValue, Denotes, Times, Slope, Mixed, Other;
    var k, j, m, more := p[mu2], p[Mixed(mu2, u, v)], Base(mu2, u), env + [w];
    var b := MonomialValue(env, m);
    SquareTerms(p, mu2, u, v);
    SquareValues(env, p, x, mu2, u, v);
    BaseDefined(env, p, x, mu2, u, v);
    NewTerm(env, w, m, k);
    SlopeIs(p, mu2, u, v);
    SquareSum(k, t, j, env[u], env[v], w, b);
    var rest, y := Remaining(p, mu2, u, v), x - Mul(k, Mul(Mul(w, w), b));
    RemainingDenotes(env, p, x, Other(mu2, u, v), Mixed(mu2, u, v), mu2);
    DenotesMore(env, more, rest, y);
    RestIsOld(env, rest, y, Times(m, |env|, 2));
    DenotesNew(more, rest, y, Times(m, |env|, 2), k);
  }

  lemma {:induction false} SlopeIs(p: Polynomial, mu2: Monomial, u: nat, v: nat)
    requires mu2 in p && p[mu2] != 0.0 && Mixed(mu2, u, v) in p
    ensures Slope(p, mu2, u, v) == p[Mixed(mu2, u, v)] / (2.0 * p[mu2])
  {}

  lemma {:induction false} RestIsOld(env: Env, rest: Polynomial, y: real, n: Monomial)
    requires Denotes(env, rest, y) && |env| in n
    ensures n !in rest
  {}

  lemma {:induction false} DenotesNew(env: Env, p: Polynomial, x: real, m: Monomial, c: real)
    requires Denotes(env, p, x) && m !in p && c != 0.0
    requires IsMonomial(m) && Defined(env, m) && forall id :: id in m ==> id < |env|
    ensures Denotes(env, p[m := c], x + Mul(c, MonomialValue(env, m)))
  {
    DenotesAdd(env, p, x, m, c);
  }
}
