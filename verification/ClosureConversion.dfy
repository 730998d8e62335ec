/** Closure conversion while code is emitted: the stack of scopes of schir/lib/OpGen.cpp. */
module ClosureConversion {
  import opened Options
  import opened Utf8
  import opened Captures

  type Binding = nat

  /** A scope under construction. Functions are isolated: what they use from outside they capture, and
      load at their start. The sides of an if are not. */
  datatype Scope = Scope(op: Id, isolated: bool, callAt: nat, captures: seq<Id>, loads: seq<Op>, block: seq<Op>,
                         table: map<Binding, Id>)

  type Scopes = seq<Scope>

  /** The function that scope k belongs to. */
  function FunctionOf(scopes: Scopes, k: nat): Id
    requires k < |scopes|
  {
    if scopes[k].isolated || k == 0 then scopes[k].op else FunctionOf(scopes, k - 1)
  }

  /** The values that can be used at the end of the block of scope k. */
  ghost function Available(scopes: Scopes, k: nat): set<Id>
    requires k < |scopes|
    decreases k, 1
  {
    Before(scopes, k) + Results(scopes[k].block)
  }

  /** The values that can be used at the start of the block of scope k. */
  ghost function Before(scopes: Scopes, k: nat): set<Id>
    requires k < |scopes|
    decreases k, 0
  {
    if scopes[k].isolated || k == 0 then Results(scopes[k].loads) else Available(scopes, k - 1)
  }

  /** The function each value is computed in. */
  type Owners = map<Id, Id>

  /** From scope k, the value v can be reached: it is available where its function is left for an inner one. */
  ghost predicate Sees(scopes: Scopes, owner: Owners, k: nat, v: Id)
    requires k < |scopes|
  {
    v in owner &&
    if FunctionOf(scopes, k) == owner[v] then v in Available(scopes, k) else k > 0 && Sees(scopes, owner, k - 1, v)
  }

  // ---------------------------------------------------------------- what every step keeps

  /** The loads read captures that stand for the same definitions. */
  ghost predicate LoadsOk(origin: Origins, s: Scope) {
    forall l <- s.loads :: l.Load? && l.index < |s.captures| && SameOrigin(origin, l.result, s.captures[l.index])
  }

  ghost predicate ScopeOk(scopes: Scopes, functions: Functions, limit: Id, origin: Origins, owner: Owners,
                          bound: map<Binding, Id>, k: nat)
    requires k < |scopes|
  {
    var s := scopes[k];
    s.op < limit && s.op !in functions && (k == 0 ==> s.isolated && s.captures == []) &&
    (k > 0 ==> scopes[k - 1].op < s.op) &&
    (!s.isolated ==> s.captures == [] && s.loads == []) &&
    LoadsOk(origin, s) &&
    (forall c <- s.captures :: k > 0 && c in Available(scopes, k - 1)) &&
    CodeOk(functions, limit, origin, FunctionOf(scopes, k), [], s.block, Before(scopes, k)) &&
    (k > 0 ==> s.callAt <= |scopes[k - 1].block| && Ends(scopes[k - 1].block, s.callAt)) &&
    (forall v <- Available(scopes, k) :: v in origin && v in owner && owner[v] == FunctionOf(scopes, k)) &&
    (forall b <- s.table.Keys ::
       b in bound && s.table[b] in Available(scopes, k) && SameOrigin(origin, s.table[b], bound[b]))
  }

  /** From position n on, a block has the sides of an if only. */
  ghost predicate Ends(block: seq<Op>, n: nat) {
    n <= |block| && forall i :: n <= i < |block| ==> block[i].Branch?
  }

  ghost predicate ScopesOk(scopes: Scopes, functions: Functions, limit: Id, origin: Origins, owner: Owners,
                           bound: map<Binding, Id>)
  {
    scopes != [] && FunctionsOk(functions, limit, origin) &&
    forall k :: 0 <= k < |scopes| ==> ScopeOk(scopes, functions, limit, origin, owner, bound, k)
  }

  ghost predicate TablesBound(origin: Origins, owner: Owners, bound: map<Binding, Id>, nextId: Id) {
    owner.Keys == origin.Keys && (forall id <- origin.Keys :: id < nextId) &&
    forall b <- bound.Keys :: bound[b] in origin
  }

  // ---------------------------------------------------------------- one more capture

  lemma {:induction false} FunctionOfBelow(scopes: Scopes, functions: Functions, limit: Id, origin: Origins,
                                           owner: Owners,
                                           bound: map<Binding, Id>, k: nat)
    requires ScopesOk(scopes, functions, limit, origin, owner, bound) && k < |scopes|
    ensures FunctionOf(scopes, k) <= scopes[k].op && (scopes[k].isolated ==> FunctionOf(scopes, k) == scopes[k].op)
  {
    assert ScopeOk(scopes, functions, limit, origin, owner, bound, k);
    if !scopes[k].isolated && k > 0 { FunctionOfBelow(scopes, functions, limit, origin, owner, bound, k - 1); }
  }

  /** Scope k with one more capture c, loaded as the new value v. */
  ghost function Captured(scopes: Scopes, k: nat, c: Id, v: Id, b: Option<Binding>): (r: Scopes)
    requires k < |scopes|
    ensures |r| == |scopes| && forall j :: 0 <= j < |scopes| && j != k ==> r[j] == scopes[j]
  {
    var s := scopes[k];
    scopes[k := s.(captures := s.captures + [c],
                   loads := [Load(v, |s.captures|)] + s.loads,
                   table := if b.Some? then s.table[b.value := v] else s.table)]
  }

  lemma {:induction false} FunctionOfCaptured(scopes: Scopes, k: nat, c: Id, v: Id, b: Option<Binding>, j: nat)
    requires k < |scopes| && j < |scopes|
    ensures FunctionOf(Captured(scopes, k, c, v, b), j) == FunctionOf(scopes, j)
  {
    if !scopes[j].isolated && j > 0 { FunctionOfCaptured(scopes, k, c, v, b, j - 1); }
  }

  lemma {:induction false} AvailableCaptured(scopes: Scopes, k: nat, c: Id, v: Id, b: Option<Binding>, j: nat)
    requires k < |scopes| && j < |scopes| && (scopes[k].isolated || k == 0)
    ensures var r := Captured(scopes, k, c, v, b);
            Before(scopes, j) <= Before(r, j) <= Before(scopes, j) + {v} &&
            Available(scopes, j) <= Available(r, j) <= Available(scopes, j) + {v} &&
            (j == k ==> v in Before(r, j)) &&
            (v in Available(r, j) ==> v in Available(scopes, j) || FunctionOf(scopes, j) == scopes[k].op)
    decreases j
  {
    var r := Captured(scopes, k, c, v, b);
    if j == k {
      assert r[k].loads[1..] == scopes[k].loads;
    } else if !scopes[j].isolated && j > 0 {
      AvailableCaptured(scopes, k, c, v, b, j - 1);
    }
  }

  lemma {:induction false} CaptureKeeps(scopes: Scopes, functions: Functions, limit: Id, origin: Origins, owner: Owners,
                                        bound: map<Binding, Id>, k: nat, c: Id, v: Id, b: Option<Binding>)
    requires ScopesOk(scopes, functions, limit, origin, owner, bound) && origin.Keys == owner.Keys
    requires 0 < k < |scopes| && scopes[k].isolated && c in Available(scopes, k - 1) && v !in origin && c in origin
    requires b.Some? ==> b.value in bound && SameOrigin(origin, c, bound[b.value])
    requires forall q <- bound.Keys :: bound[q] in origin
    ensures ScopesOk(Captured(scopes, k, c, v, b), functions, limit, origin[v := origin[c]],
                     owner[v := scopes[k].op], bound)
  {
    var r := Captured(scopes, k, c, v, b);
    var origin' := origin[v := origin[c]];
    var owner' := owner[v := scopes[k].op];
    FunctionsStay(functions, limit, origin, functions, limit, origin');
    forall j | 0 <= j < |r|
      ensures ScopeOk(r, functions, limit, origin', owner', bound, j)
    {
      CaptureKeepsScope(scopes, functions, limit, origin, owner, bound, k, c, v, b, j);
    }
  }

  lemma {:induction false} FunctionsStay(functions: Functions, limit: Id, origin: Origins,
                                         functions': Functions, limit': Id, origin': Origins)
    requires FunctionsOk(functions, limit, origin)
    requires FunctionsGrow(functions, functions') && limit <= limit' && OriginsGrow(origin, origin')
    ensures forall f <- functions.Keys :: CodeOk(functions', limit', origin', f, functions[f].captures,
                                                 functions[f].body, {})
  {
    forall f <- functions.Keys
      ensures CodeOk(functions', limit', origin', f, functions[f].captures, functions[f].body, {})
    {
      assert FunctionOk(functions, limit, origin, f);
      CodeStays(functions, limit, origin, f, functions[f].captures, functions[f].body, {},
                functions', limit', origin', functions[f].captures, {});
    }
  }

  lemma {:induction false} CaptureKeepsScope(scopes: Scopes, functions: Functions, limit: Id, origin: Origins,
                                             owner: Owners,
                                             bound: map<Binding, Id>, k: nat, c: Id, v: Id, b: Option<Binding>, j: nat)
    requires ScopesOk(scopes, functions, limit, origin, owner, bound) && origin.Keys == owner.Keys && j < |scopes|
    requires 0 < k < |scopes| && scopes[k].isolated && c in Available(scopes, k - 1) && v !in origin && c in origin
    requires b.Some? ==> b.value in bound && SameOrigin(origin, c, bound[b.value])
    requires forall q <- bound.Keys :: bound[q] in origin
    ensures ScopeOk(Captured(scopes, k, c, v, b), functions, limit, origin[v := origin[c]],
                    owner[v := scopes[k].op], bound, j)
  {
    hide CodeOk, Before, Available, FunctionOf, Results;
    var r := Captured(scopes, k, c, v, b);
    var origin' := origin[v := origin[c]];
    assert ScopeOk(scopes, functions, limit, origin, owner, bound, j);
    FunctionOfCaptured(scopes, k, c, v, b, j);
    AvailableCaptured(scopes, k, c, v, b, j);
    if j > 0 { AvailableCaptured(scopes, k, c, v, b, j - 1); }
    CodeStays(functions, limit, origin, FunctionOf(scopes, j), [], scopes[j].block, Before(scopes, j),
              functions, limit, origin', [], Before(r, j));
    if j == k {
      LoadsCaptured(scopes, k, c, v, b, origin, origin');
      BeforeAvailable(r, k);
    } else {
      LoadsStay(scopes[j], origin, origin');
    }
  }

  lemma {:induction false} BeforeAvailable(scopes: Scopes, k: nat)
    requires k < |scopes|
    ensures Before(scopes, k) <= Available(scopes, k)
  {
  }

  lemma {:induction false} LoadsStay(s: Scope, origin: Origins, origin': Origins)
    requires LoadsOk(origin, s) && OriginsGrow(origin, origin')
    ensures LoadsOk(origin', s)
  {
  }

  lemma {:induction false} LoadsCaptured(scopes: Scopes, k: nat, c: Id, v: Id, b: Option<Binding>, origin: Origins,
                                         origin': Origins)
    requires k < |scopes| && LoadsOk(origin, scopes[k]) && OriginsGrow(origin, origin')
    requires SameOrigin(origin', v, c)
    ensures LoadsOk(origin', Captured(scopes, k, c, v, b)[k])
  {
    var s, t := scopes[k], Captured(scopes, k, c, v, b)[k];
    forall l <- t.loads
      ensures l.Load? && l.index < |t.captures| && SameOrigin(origin', l.result, t.captures[l.index])
    {
      if l in s.loads { assert t.captures[l.index] == s.captures[l.index]; }
    }
  }

  // ---------------------------------------------------------------- values in sight

  /** Scopes differ at most in captures, up to scope k, and captures only grow. */
  ghost predicate Grown(was: Scopes, scopes: Scopes, k: int) {
    |was| == |scopes| &&
    forall j :: 0 <= j < |was| ==>
      var s, t := was[j], scopes[j];
      t.op == s.op && t.isolated == s.isolated && t.callAt == s.callAt && t.block == s.block &&
      s.captures <= t.captures && (j > k ==> t == s)
  }

  /** A value of scope i can be used from any scope inside it. */
  lemma {:induction false} SeesInside(scopes: Scopes, functions: Functions, limit: Id, origin: Origins, owner: Owners,
                                      bound: map<Binding, Id>, i: nat, k: nat, v: Id)
    requires ScopesOk(scopes, functions, limit, origin, owner, bound) && i <= k < |scopes| && v in Available(scopes, i)
    ensures Sees(scopes, owner, k, v)
    ensures FunctionOf(scopes, k) == owner[v] ==> v in Available(scopes, k)
    decreases k - i
  {
    assert ScopeOk(scopes, functions, limit, origin, owner, bound, i);
    if i < k {
      SeesInside(scopes, functions, limit, origin, owner, bound, i, k - 1, v);
      if scopes[k].isolated {
        OpsIncrease(scopes, functions, limit, origin, owner, bound, i, k);
        FunctionOfBelow(scopes, functions, limit, origin, owner, bound, i);
      }
    }
  }

  lemma {:induction false} OwnerBelow(scopes: Scopes, functions: Functions, limit: Id, origin: Origins, owner: Owners,
                                      bound: map<Binding, Id>, k: nat, v: Id)
    requires ScopesOk(scopes, functions, limit, origin, owner, bound) && k < |scopes| && Sees(scopes, owner, k, v)
    ensures owner[v] <= scopes[k].op
  {
    FunctionOfBelow(scopes, functions, limit, origin, owner, bound, k);
    assert ScopeOk(scopes, functions, limit, origin, owner, bound, k);
    if FunctionOf(scopes, k) != owner[v] { OwnerBelow(scopes, functions, limit, origin, owner, bound, k - 1, v); }
  }

  lemma {:induction false} OpsIncrease(scopes: Scopes, functions: Functions, limit: Id, origin: Origins, owner: Owners,
                                       bound: map<Binding, Id>, i: nat, k: nat)
    requires ScopesOk(scopes, functions, limit, origin, owner, bound) && i < k < |scopes|
    ensures scopes[i].op < scopes[k].op
  {
    assert ScopeOk(scopes, functions, limit, origin, owner, bound, k);
    if i < k - 1 { OpsIncrease(scopes, functions, limit, origin, owner, bound, i, k - 1); }
  }

  // ---------------------------------------------------------------- the compiler

  class OpGen {
    var scopes: Scopes
    /** The functions whose scopes were popped. */
    var functions: Functions
    var nextValue: Id
    var nextOp: Id
    var owner: Owners
    /** The definition that each value, and each binding in a scope, stands for. */
    ghost var origin: Origins
    ghost var bound: map<Binding, Id>

    ghost predicate Valid()
      reads this
    {
      ScopesOk(scopes, functions, nextOp, origin, owner, bound) && TablesBound(origin, owner, bound, nextValue)
    }

    /** The module. */
    constructor ()
      ensures Valid() && |scopes| == 1 && functions == map[]
    {
      scopes := [Scope(0, true, 0, [], [], [], map[])];
      functions := map[];
      nextValue, nextOp := 0, 1;
      owner, origin, bound := map[], map[], map[];
    }

    /** The value v as seen from scope k: v itself in its own function, and otherwise the load of a new
        capture in each function on the way. */
    method LocalizeRec(b: Option<Binding>, v: Id, k: nat) returns (r: Id)
      requires Valid() && k < |scopes| && v in owner && (FunctionOf(scopes, k) == owner[v] || Sees(scopes, owner, k, v))
      requires b.Some? ==> b.value in bound && SameOrigin(origin, v, bound[b.value])
      modifies this
      ensures Valid() && Grown(old(scopes), scopes, k) && OriginsGrow(old(origin), origin)
      ensures functions == old(functions) && nextOp == old(nextOp) && bound == old(bound)
      ensures SameOrigin(origin, r, v)
      ensures if FunctionOf(old(scopes), k) == old(owner)[v] then r == v && scopes == old(scopes)
              else r in Available(scopes, k)
      decreases k
    {
      if FunctionOf(scopes, k) != owner[v] {
        OwnerBelow(scopes, functions, nextOp, origin, owner, bound, k - 1, v);
        assert ScopeOk(scopes, functions, nextOp, origin, owner, bound, k);
      }
      if scopes[k].op == owner[v] { return v; }
      r := LocalizeRec(b, v, k - 1);
      if !scopes[k].isolated { return; }
      r := Capture(b, r, k);
    }

    method Capture(b: Option<Binding>, c: Id, k: nat) returns (r: Id)
      requires Valid() && 0 < k < |scopes| && scopes[k].isolated && c in Available(scopes, k - 1) && c in origin
      requires b.Some? ==> b.value in bound && SameOrigin(origin, c, bound[b.value])
      modifies this
      ensures Valid() && Grown(old(scopes), scopes, k) && OriginsGrow(old(origin), origin)
      ensures functions == old(functions) && nextOp == old(nextOp) && bound == old(bound)
      ensures SameOrigin(origin, r, c) && r in Available(scopes, k)
    {
      r := nextValue;
      CaptureKeeps(scopes, functions, nextOp, origin, owner, bound, k, c, r, b);
      AvailableCaptured(scopes, k, c, r, b, k);
      var s := scopes[k];
      var captures := s.captures + [c];
      var load := Load(r, |captures| - 1);
      var table := if b.Some? then s.table[b.value := r] else s.table;
      origin := origin[r := origin[c]];
      scopes := scopes[k := s.(captures := captures, loads := [load] + s.loads, table := table)];
      owner := owner[r := s.op];
      nextValue := nextValue + 1;
      BeforeAvailable(scopes, k);
    }

    /** What v stands for, as a value that can be used at the insertion point. */
    method LocalizeValue(v: Id, b: Option<Binding>) returns (r: Id)
      requires Valid() && Sees(scopes, owner, |scopes| - 1, v)
      requires b.Some? ==> b.value in bound && SameOrigin(origin, v, bound[b.value])
      modifies this
      ensures Valid() && Grown(old(scopes), scopes, |scopes| - 1) && OriginsGrow(old(origin), origin)
      ensures functions == old(functions) && nextOp == old(nextOp) && bound == old(bound)
      ensures SameOrigin(origin, r, v) && r in Available(scopes, |scopes| - 1)
    {
      r := LocalizeRec(b, v, |scopes| - 1);
    }

    /** The value of a binding, which a scope on the stack has. */
    method VisitBinding(b: Binding) returns (r: Id)
      requires Valid() && exists k :: 0 <= k < |scopes| && b in scopes[k].table
      modifies this
      ensures Valid() && Grown(old(scopes), scopes, |scopes| - 1) && OriginsGrow(old(origin), origin)
      ensures functions == old(functions) && nextOp == old(nextOp) && bound == old(bound)
      ensures b in bound && SameOrigin(origin, r, bound[b]) && r in Available(scopes, |scopes| - 1)
    {
      var k := |scopes| - 1;
      while b !in scopes[k].table
        invariant 0 <= k < |scopes| && forall j :: k < j < |scopes| ==> b !in scopes[j].table
        decreases k
      {
        k := k - 1;
      }
      assert ScopeOk(scopes, functions, nextOp, origin, owner, bound, k);
      var v := scopes[k].table[b];
      SeesInside(scopes, functions, nextOp, origin, owner, bound, k, |scopes| - 1, v);
      r := LocalizeValue(v, Some(b));
    }

    /** A new definition at the insertion point, of a binding perhaps. */
    method DefineValue(b: Option<Binding>) returns (r: Id)
      requires Valid() && (b.Some? ==> forall k :: 0 <= k < |scopes| ==> b.value !in scopes[k].table)
      modifies this
      ensures Valid() && OriginsGrow(old(origin), origin) && |scopes| == |old(scopes)|
      ensures functions == old(functions) && nextOp == old(nextOp)
      ensures bound == if b.Some? then old(bound)[b.value := r] else old(bound)
      ensures r !in old(origin) && SameOrigin(origin, r, r) && origin[r] == r && r in Available(scopes, |scopes| - 1)
      ensures b.Some? ==> b.value in scopes[|scopes| - 1].table
      ensures Appended(old(scopes), scopes, [Define(r)])
    {
      r := nextValue;
      var top := |scopes| - 1;
      DefineKeeps(scopes, functions, nextOp, origin, owner, bound, b, r);
      var s := scopes[top];
      origin := origin[r := r];
      owner := owner[r := FunctionOf(scopes, top)];
      if b.Some? { bound := bound[b.value := r]; }
      scopes := scopes[top := s.(block := s.block + [Define(r)],
                                 table := if b.Some? then s.table[b.value := r] else s.table)];
      nextValue := nextValue + 1;
    }

    /** Enters the body of a lambda, or one side of an if. */
    method PushScope(isolated: bool) returns (f: Id)
      requires Valid()
      modifies this
      ensures Valid() && f == old(nextOp) && |scopes| == |old(scopes)| + 1
      ensures scopes[..|old(scopes)|] == old(scopes) &&
              scopes[|old(scopes)|] == NewScope(f, isolated, |old(scopes[|scopes| - 1].block)|)
      ensures functions == old(functions) && origin == old(origin) && owner == old(owner) && bound == old(bound)
    {
      f := PushAt(isolated, |scopes[|scopes| - 1].block|);
    }

    /** Enters the continuation of the operation at callAt, the last of its block. */
    method PushContinuationScope(callAt: nat) returns (f: Id)
      requires Valid() && Ends(scopes[|scopes| - 1].block, callAt)
      modifies this
      ensures Valid() && f == old(nextOp) && |scopes| == |old(scopes)| + 1
      ensures scopes[..|old(scopes)|] == old(scopes) && scopes[|old(scopes)|] == NewScope(f, true, callAt)
      ensures functions == old(functions) && origin == old(origin) && owner == old(owner) && bound == old(bound)
    {
      f := PushAt(true, callAt);
    }

    method PushAt(isolated: bool, callAt: nat) returns (f: Id)
      requires Valid() && Ends(scopes[|scopes| - 1].block, callAt)
      modifies this
      ensures Valid() && f == old(nextOp) && |scopes| == |old(scopes)| + 1
      ensures scopes[..|old(scopes)|] == old(scopes) && scopes[|old(scopes)|] == NewScope(f, isolated, callAt)
      ensures functions == old(functions) && origin == old(origin) && owner == old(owner) && bound == old(bound)
    {
      f := nextOp;
      PushKeeps(scopes, functions, nextOp, origin, owner, bound, isolated, callAt);
      scopes := scopes + [NewScope(f, isolated, callAt)];
      nextOp := nextOp + 1;
    }

    /** Leaves a function: its captures are complete, and its closure is made before the call. */
    method PopFunction()
      requires Valid() && |scopes| > 1 && scopes[|scopes| - 1].isolated
      modifies this
      ensures Valid() && origin == old(origin) && owner == old(owner) && bound == old(bound) && nextOp == old(nextOp)
      ensures var s := old(scopes[|scopes| - 1]);
              functions == old(functions)[s.op := Function(s.captures, s.loads + s.block)] &&
              s.callAt <= |old(scopes[|scopes| - 2]).block| && scopes == Left(old(scopes), Close(s.op, s.captures))
    {
      PopFunctionKeeps(scopes, functions, nextOp, origin, owner, bound);
      var s := scopes[|scopes| - 1];
      var p := scopes[|scopes| - 2];
      var close := Close(s.op, s.captures);
      functions := functions[s.op := Function(s.captures, s.loads + s.block)];
      scopes := scopes[..|scopes| - 2] + [p.(block := p.block[..s.callAt] + [close] + p.block[s.callAt..])];
    }

    /** Leaves one side of an if. */
    method PopBranch()
      requires Valid() && |scopes| > 1 && !scopes[|scopes| - 1].isolated
      modifies this
      ensures Valid() && origin == old(origin) && owner == old(owner) && bound == old(bound) && nextOp == old(nextOp)
      ensures functions == old(functions)
      ensures var s := old(scopes[|scopes| - 1]);
              s.callAt <= |old(scopes[|scopes| - 2]).block| && scopes == Left(old(scopes), Branch(s.block))
    {
      PopBranchKeeps(scopes, functions, nextOp, origin, owner, bound);
      var s := scopes[|scopes| - 1];
      var p := scopes[|scopes| - 2];
      scopes := scopes[..|scopes| - 2] + [p.(block := p.block[..s.callAt] + [Branch(s.block)] + p.block[s.callAt..])];
    }

    /** Leaves the continuations inside scope k, innermost first. */
    method PopContinuations(k: nat)
      requires Valid() && k < |scopes| && forall j :: k < j < |scopes| ==> scopes[j].isolated
      modifies this
      ensures Valid() && |scopes| == k + 1 && origin == old(origin) && owner == old(owner) && bound == old(bound)
      ensures scopes[..k] == old(scopes)[..k] && nextOp == old(nextOp)
      ensures scopes[k].captures == old(scopes)[k].captures && scopes[k].isolated == old(scopes)[k].isolated &&
              scopes[k].op == old(scopes)[k].op
    {
      while |scopes| > k + 1
        invariant Valid() && |scopes| > k && origin == old(origin) && owner == old(owner) && bound == old(bound)
        invariant scopes[..k] == old(scopes)[..k] && nextOp == old(nextOp)
        invariant scopes[k].captures == old(scopes)[k].captures && scopes[k].isolated == old(scopes)[k].isolated &&
                  scopes[k].op == old(scopes)[k].op
        invariant forall j :: k < j < |scopes| ==> scopes[j].isolated
        decreases |scopes|
      {
        PopFunction();
      }
    }
  }

  ghost predicate Appended(was: Scopes, scopes: Scopes, ops: seq<Op>) {
    |was| == |scopes| > 0 && was[..|was| - 1] == scopes[..|was| - 1] &&
    scopes[|was| - 1].block == was[|was| - 1].block + ops && scopes[|was| - 1].captures == was[|was| - 1].captures &&
    scopes[|was| - 1].loads == was[|was| - 1].loads
  }

  function NewScope(f: Id, isolated: bool, callAt: nat): Scope {
    Scope(f, isolated, callAt, [], [], [], map[])
  }

  /** The scopes without the innermost one, for which op stands in the block around it. */
  ghost function Left(scopes: Scopes, op: Op): Scopes
    requires |scopes| > 1 && scopes[|scopes| - 1].callAt <= |scopes[|scopes| - 2].block|
  {
    var s, p := scopes[|scopes| - 1], scopes[|scopes| - 2];
    scopes[..|scopes| - 2] + [p.(block := p.block[..s.callAt] + [op] + p.block[s.callAt..])]
  }

  // ---------------------------------------------------------------- definitions, and scopes that come and go

  ghost predicate OwnersGrow(was: Owners, owner: Owners) {
    forall id <- was.Keys :: id in owner && owner[id] == was[id]
  }

  lemma {:induction false} SamePrefix(scopes: Scopes, scopes': Scopes, k: nat)
    requires k < |scopes| && k < |scopes'| && scopes[..k + 1] == scopes'[..k + 1]
    ensures FunctionOf(scopes, k) == FunctionOf(scopes', k)
    ensures Before(scopes, k) == Before(scopes', k) && Available(scopes, k) == Available(scopes', k)
  {
    assert scopes[..k + 1][k] == scopes[k] && scopes'[..k + 1][k] == scopes'[k];
    if !scopes[k].isolated && k > 0 {
      assert scopes[..k] == scopes[..k + 1][..k] && scopes'[..k] == scopes'[..k + 1][..k];
      SamePrefix(scopes, scopes', k - 1);
    }
  }

  /** A scope stays well formed when nothing below it changes. */
  lemma {:induction false} ScopeStays(scopes: Scopes, functions: Functions, limit: Id, origin: Origins, owner: Owners,
                                      bound: map<Binding, Id>, scopes': Scopes, functions': Functions, limit': Id,
                                      origin': Origins, owner': Owners, bound': map<Binding, Id>, k: nat)
    requires k < |scopes| && ScopeOk(scopes, functions, limit, origin, owner, bound, k)
    requires k < |scopes'| && scopes[..k + 1] == scopes'[..k + 1]
    requires FunctionsGrow(functions, functions') && limit <= limit' && OriginsGrow(origin, origin') &&
             OwnersGrow(owner, owner')
    requires scopes[k].op !in functions'
    requires forall b <- scopes[k].table.Keys :: b in bound ==> b in bound' && bound'[b] == bound[b]
    ensures ScopeOk(scopes', functions', limit', origin', owner', bound', k)
  {
    hide CodeOk, Before, Available, FunctionOf, Results;
    var s := scopes[k];
    assert scopes[..k + 1][k] == s && scopes'[..k + 1][k] == scopes'[k];
    SamePrefix(scopes, scopes', k);
    if k > 0 {
      assert scopes[..k] == scopes[..k + 1][..k] && scopes'[..k] == scopes'[..k + 1][..k];
      assert scopes[..k + 1][k - 1] == scopes[k - 1] && scopes'[..k + 1][k - 1] == scopes'[k - 1];
      SamePrefix(scopes, scopes', k - 1);
    }
    CodeStays(functions, limit, origin, FunctionOf(scopes, k), [], s.block, Before(scopes, k),
              functions', limit', origin', [], Before(scopes, k));
    LoadsStay(s, origin, origin');
  }

  lemma {:induction false} DefineKeeps(scopes: Scopes, functions: Functions, limit: Id, origin: Origins, owner: Owners,
                                       bound: map<Binding, Id>, b: Option<Binding>, r: Id)
    requires ScopesOk(scopes, functions, limit, origin, owner, bound) && origin.Keys == owner.Keys && r !in origin
    requires b.Some? ==> forall k :: 0 <= k < |scopes| ==> b.value !in scopes[k].table
    ensures var top := |scopes| - 1;
            var s := scopes[top];
            var scopes' := scopes[top := s.(block := s.block + [Define(r)],
                                            table := if b.Some? then s.table[b.value := r] else s.table)];
            ScopesOk(scopes', functions, limit, origin[r := r], owner[r := FunctionOf(scopes, top)],
                     if b.Some? then bound[b.value := r] else bound) &&
            r in Available(scopes', top)
  {
    hide CodeOk, Before, FunctionOf;
    var top := |scopes| - 1;
    var s := scopes[top];
    var scopes' := scopes[top := s.(block := s.block + [Define(r)],
                                    table := if b.Some? then s.table[b.value := r] else s.table)];
    var origin', owner' := origin[r := r], owner[r := FunctionOf(scopes, top)];
    var bound' := if b.Some? then bound[b.value := r] else bound;
    FunctionsStay(functions, limit, origin, functions, limit, origin');
    forall k | 0 <= k < |scopes'|
      ensures ScopeOk(scopes', functions, limit, origin', owner', bound', k)
    {
      assert ScopeOk(scopes, functions, limit, origin, owner, bound, k);
      if k < top {
        ScopeStays(scopes, functions, limit, origin, owner, bound,
                   scopes', functions, limit, origin', owner', bound', k);
      } else {
        TopDefined(scopes, functions, limit, origin, owner, bound, b, r);
      }
    }
    DefinedAvailable(scopes, r,
                     s.(block := s.block + [Define(r)], table := if b.Some? then s.table[b.value := r] else s.table));
  }

  /** A definition can be used from then on. */
  lemma {:induction false} DefinedAvailable(scopes: Scopes, r: Id, t: Scope)
    requires scopes != [] && var s := scopes[|scopes| - 1];
             t.op == s.op && t.isolated == s.isolated && t.loads == s.loads && t.block == s.block + [Define(r)]
    ensures var top := |scopes| - 1;
            var scopes' := scopes[top := t];
            FunctionOf(scopes', top) == FunctionOf(scopes, top) && Before(scopes', top) == Before(scopes, top) &&
            Available(scopes', top) == Available(scopes, top) + {r}
  {
    var top := |scopes| - 1;
    var scopes' := scopes[top := t];
    ResultsConcat(scopes[top].block, [Define(r)]);
    assert [Define(r)][1..] == [];
    if top > 0 { SamePrefix(scopes, scopes', top - 1); }
  }

  lemma {:induction false} TopDefined(scopes: Scopes, functions: Functions, limit: Id, origin: Origins, owner: Owners,
                                      bound: map<Binding, Id>, b: Option<Binding>, r: Id)
    requires scopes != [] && ScopeOk(scopes, functions, limit, origin, owner, bound, |scopes| - 1)
    requires origin.Keys == owner.Keys && r !in origin
    requires b.Some? ==> b.value !in scopes[|scopes| - 1].table
    ensures var top := |scopes| - 1;
            var s := scopes[top];
            var scopes' := scopes[top := s.(block := s.block + [Define(r)],
                                            table := if b.Some? then s.table[b.value := r] else s.table)];
            ScopeOk(scopes', functions, limit, origin[r := r], owner[r := FunctionOf(scopes, top)],
                    if b.Some? then bound[b.value := r] else bound, top)
  {
    hide Before, Available, FunctionOf, Results;
    var top := |scopes| - 1;
    var s := scopes[top];
    var t := s.(block := s.block + [Define(r)], table := if b.Some? then s.table[b.value := r] else s.table);
    var scopes' := scopes[top := t];
    var origin' := origin[r := r];
    var f := FunctionOf(scopes, top);
    DefinedAvailable(scopes, r, t);
    if top > 0 { SamePrefix(scopes, scopes', top - 1); }
    LoadsStay(s, origin, origin');
    CodeStays(functions, limit, origin, f, [], s.block, Before(scopes, top), functions, limit, origin', [],
              Before(scopes, top));
    CodeConcat(functions, limit, origin', f, [], s.block, [Define(r)], Before(scopes, top));
    OneDefined(functions, limit, origin', f, Before(scopes, top) + Results(s.block), r);
  }

  lemma {:induction false} OneDefined(functions: Functions, limit: Id, origin: Origins, f: Id, available: set<Id>,
                                      r: Id)
    requires r in origin && origin[r] == r
    ensures CodeOk(functions, limit, origin, f, [], [Define(r)], available)
  {
    assert [Define(r)][1..] == [];
  }

  lemma {:induction false} PushKeeps(scopes: Scopes, functions: Functions, limit: Id, origin: Origins, owner: Owners,
                                     bound: map<Binding, Id>, isolated: bool, callAt: nat)
    requires ScopesOk(scopes, functions, limit, origin, owner, bound)
    requires limit !in functions && Ends(scopes[|scopes| - 1].block, callAt)
    ensures ScopesOk(scopes + [NewScope(limit, isolated, callAt)], functions, limit + 1, origin, owner, bound)
  {
    hide CodeOk, Results, Before, Available;
    var top := |scopes|;
    var scopes', limit' := scopes + [NewScope(limit, isolated, callAt)], limit + 1;
    FunctionsStay(functions, limit, origin, functions, limit', origin);
    forall k | 0 <= k < |scopes'|
      ensures ScopeOk(scopes', functions, limit', origin, owner, bound, k)
    {
      if k < top {
        assert ScopeOk(scopes, functions, limit, origin, owner, bound, k);
        assert scopes[..k + 1] == scopes'[..k + 1];
        ScopeStays(scopes, functions, limit, origin, owner, bound, scopes', functions, limit', origin, owner, bound, k);
      } else {
        TopPushed(scopes, functions, limit, origin, owner, bound, isolated, callAt);
      }
    }
  }

  lemma {:induction false} TopPushed(scopes: Scopes, functions: Functions, limit: Id, origin: Origins, owner: Owners,
                                     bound: map<Binding, Id>, isolated: bool, callAt: nat)
    requires scopes != [] && ScopeOk(scopes, functions, limit, origin, owner, bound, |scopes| - 1)
    requires limit !in functions && Ends(scopes[|scopes| - 1].block, callAt)
    ensures ScopeOk(scopes + [NewScope(limit, isolated, callAt)], functions, limit + 1, origin, owner, bound, |scopes|)
  {
    hide CodeOk;
    var top := |scopes|;
    var scopes' := scopes + [NewScope(limit, isolated, callAt)];
    SamePrefix(scopes, scopes', top - 1);
    EmptyCode(functions, limit + 1, origin, FunctionOf(scopes', top), Before(scopes', top));
    assert Available(scopes', top) == if isolated then {} else Available(scopes, top - 1);
  }

  lemma {:induction false} EmptyCode(functions: Functions, limit: Id, origin: Origins, f: Id, available: set<Id>)
    ensures CodeOk(functions, limit, origin, f, [], [], available)
  {
  }

  /** The loads at the start of a function run first. */
  lemma {:induction false} LoadsRun(functions: Functions, limit: Id, origin: Origins, f: Id, captures: seq<Id>,
                                    loads: seq<Op>, available: set<Id>)
    requires forall l <- loads :: l.Load? && l.index < |captures| && SameOrigin(origin, l.result, captures[l.index])
    ensures CodeOk(functions, limit, origin, f, captures, loads, available)
    decreases |loads|
  {
    if loads != [] {
      assert loads[0] in loads;
      LoadsRun(functions, limit, origin, f, captures, loads[1..], available + {loads[0].result});
    }
  }

  /** A finished function is well-formed code. */
  lemma {:induction false} FinishedFunction(scopes: Scopes, functions: Functions, limit: Id, origin: Origins,
                                            owner: Owners,
                                            bound: map<Binding, Id>, functions': Functions)
    requires scopes != [] && ScopeOk(scopes, functions, limit, origin, owner, bound, |scopes| - 1)
    requires scopes[|scopes| - 1].isolated && FunctionsGrow(functions, functions')
    ensures var s := scopes[|scopes| - 1];
            CodeOk(functions', limit, origin, s.op, s.captures, s.loads + s.block, {})
  {
    var s := scopes[|scopes| - 1];
    LoadsRun(functions', limit, origin, s.op, s.captures, s.loads, {});
    CodeStays(functions, limit, origin, s.op, [], s.block, Results(s.loads), functions', limit, origin, s.captures,
              Results(s.loads));
    assert {} + Results(s.loads) == Results(s.loads);
    CodeConcat(functions', limit, origin, s.op, s.captures, s.loads, s.block, {});
  }

  lemma {:induction false} BranchesDefineNothing(block: seq<Op>, n: nat)
    requires Ends(block, n)
    ensures Results(block[n..]) == {} && Results(block[..n]) == Results(block)
  {
    OnlyBranches(block[n..]);
    ResultsConcat(block[..n], block[n..]);
    assert block[..n] + block[n..] == block;
  }

  lemma {:induction false} OnlyBranches(ops: seq<Op>)
    requires forall i :: 0 <= i < |ops| ==> ops[i].Branch?
    ensures Results(ops) == {}
  {
    if ops != [] { OnlyBranches(ops[1..]); }
  }

  /** A closure or a branch in its place before the end of a block. */
  lemma {:induction false} InsertedCode(functions: Functions, limit: Id, origin: Origins, f: Id, block: seq<Op>, n: nat,
                                        op: Op, available: set<Id>)
    requires CodeOk(functions, limit, origin, f, [], block, available) && Ends(block, n)
    requires op.Close? || op.Branch?
    requires CodeOk(functions, limit, origin, f, [], [op], available + Results(block))
    ensures CodeOk(functions, limit, origin, f, [], block[..n] + [op] + block[n..], available)
    ensures Results(block[..n] + [op] + block[n..]) == Results(block)
  {
    hide CodeOk;
    var xs, ys := block[..n], block[n..];
    assert xs + ys == block;
    BranchesDefineNothing(block, n);
    CodeConcat(functions, limit, origin, f, [], xs, ys, available);
    CodeConcat(functions, limit, origin, f, [], xs, [op], available);
    CodeConcat(functions, limit, origin, f, [], xs + [op], ys, available);
    ResultsConcat(xs, [op]);
    ResultsConcat(xs + [op], ys);
    assert [op][1..] == [] && Results([op]) == {};
    assert available + Results(xs + [op]) == available + Results(xs);
  }

  lemma {:induction false} ParentKeeps(scopes: Scopes, functions: Functions, limit: Id, origin: Origins, owner: Owners,
                                       bound: map<Binding, Id>, functions': Functions, op: Op)
    requires |scopes| > 1 && ScopesOk(scopes, functions, limit, origin, owner, bound)
    requires FunctionsGrow(functions, functions') && scopes[|scopes| - 2].op !in functions'
    requires op.Close? || op.Branch?
    requires CodeOk(functions', limit, origin, FunctionOf(scopes, |scopes| - 2), [], [op],
                    Available(scopes, |scopes| - 2))
    ensures scopes[|scopes| - 1].callAt <= |scopes[|scopes| - 2].block|
    ensures ScopeOk(Left(scopes, op), functions', limit, origin, owner, bound, |scopes| - 2)
  {
    hide CodeOk, Results, Before, Available, FunctionOf;
    var n := |scopes| - 2;
    assert ScopeOk(scopes, functions, limit, origin, owner, bound, n + 1);
    assert ScopeOk(scopes, functions, limit, origin, owner, bound, n);
    var s, p := scopes[n + 1], scopes[n];
    var f := FunctionOf(scopes, n);
    CodeStays(functions, limit, origin, f, [], p.block, Before(scopes, n), functions', limit, origin, [],
              Before(scopes, n));
    BeforeBlock(scopes, n);
    InsertedCode(functions', limit, origin, f, p.block, s.callAt, op, Before(scopes, n));
    LeftSame(scopes, op, p.block[..s.callAt] + [op] + p.block[s.callAt..]);
    LoadsStay(p, origin, origin);
  }

  lemma {:induction false} BeforeBlock(scopes: Scopes, k: nat)
    requires k < |scopes|
    ensures Available(scopes, k) == Before(scopes, k) + Results(scopes[k].block)
  {
  }

  /** Leaving a scope changes nothing that is in sight outside. */
  lemma {:induction false} LeftSame(scopes: Scopes, op: Op, block: seq<Op>)
    requires |scopes| > 1 && scopes[|scopes| - 1].callAt <= |scopes[|scopes| - 2].block|
    requires Results(block) == Results(scopes[|scopes| - 2].block)
    requires Left(scopes, op)[|scopes| - 2].block == block
    ensures var n, scopes' := |scopes| - 2, Left(scopes, op);
            FunctionOf(scopes', n) == FunctionOf(scopes, n) && Before(scopes', n) == Before(scopes, n) &&
            Available(scopes', n) == Available(scopes, n) &&
            (n > 0 ==> scopes'[n - 1] == scopes[n - 1] && Available(scopes', n - 1) == Available(scopes, n - 1))
  {
    hide Results;
    var n := |scopes| - 2;
    if n > 0 {
      assert scopes[..n] == Left(scopes, op)[..n];
      SamePrefix(scopes, Left(scopes, op), n - 1);
    }
  }

  lemma {:induction false} PopFunctionKeeps(scopes: Scopes, functions: Functions, limit: Id, origin: Origins,
                                            owner: Owners,
                                            bound: map<Binding, Id>)
    requires |scopes| > 1 && ScopesOk(scopes, functions, limit, origin, owner, bound) && scopes[|scopes| - 1].isolated
    ensures var s := scopes[|scopes| - 1];
            s.callAt <= |scopes[|scopes| - 2].block| &&
            ScopesOk(Left(scopes, Close(s.op, s.captures)),
                     functions[s.op := Function(s.captures, s.loads + s.block)], limit, origin, owner, bound)
  {
    hide CodeOk, Results, Available, Before;
    var n := |scopes| - 1;
    var s := scopes[n];
    var functions' := functions[s.op := Function(s.captures, s.loads + s.block)];
    assert ScopeOk(scopes, functions, limit, origin, owner, bound, n);
    FinishedFunction(scopes, functions, limit, origin, owner, bound, functions');
    FunctionsStay(functions, limit, origin, functions', limit, origin);
    OpsIncrease(scopes, functions, limit, origin, owner, bound, n - 1, n);
    FunctionOfBelow(scopes, functions, limit, origin, owner, bound, n - 1);
    OneClosed(functions', limit, origin, FunctionOf(scopes, n - 1), Available(scopes, n - 1), s.op, s.captures);
    assert ScopeOk(scopes, functions, limit, origin, owner, bound, n - 1);
    ParentKeeps(scopes, functions, limit, origin, owner, bound, functions', Close(s.op, s.captures));
    var scopes' := Left(scopes, Close(s.op, s.captures));
    forall k | 0 <= k < |scopes'|
      ensures ScopeOk(scopes', functions', limit, origin, owner, bound, k)
    {
      if k < n - 1 {
        OpsIncrease(scopes, functions, limit, origin, owner, bound, k, n);
        assert ScopeOk(scopes, functions, limit, origin, owner, bound, k);
        assert scopes[..k + 1] == scopes'[..k + 1];
        ScopeStays(scopes, functions, limit, origin, owner, bound, scopes', functions', limit, origin, owner, bound, k);
      }
    }
  }

  lemma {:induction false} OneClosed(functions: Functions, limit: Id, origin: Origins, f: Id, available: set<Id>,
                                     g: Id, ids: seq<Id>)
    requires f < g < limit && g in functions && functions[g].captures == ids && forall id <- ids :: id in available
    ensures CodeOk(functions, limit, origin, f, [], [Close(g, ids)], available)
  {
    assert [Close(g, ids)][1..] == [];
  }

  lemma {:induction false} PopBranchKeeps(scopes: Scopes, functions: Functions, limit: Id, origin: Origins,
                                          owner: Owners, bound: map<Binding, Id>)
    requires |scopes| > 1 && ScopesOk(scopes, functions, limit, origin, owner, bound) && !scopes[|scopes| - 1].isolated
    ensures var s := scopes[|scopes| - 1];
            s.callAt <= |scopes[|scopes| - 2].block| &&
            ScopesOk(Left(scopes, Branch(s.block)), functions, limit, origin, owner, bound)
  {
    hide CodeOk, Results, Available;
    var n := |scopes| - 1;
    var s := scopes[n];
    assert ScopeOk(scopes, functions, limit, origin, owner, bound, n);
    assert ScopeOk(scopes, functions, limit, origin, owner, bound, n - 1);
    OneBranch(functions, limit, origin, FunctionOf(scopes, n), Available(scopes, n - 1), s.block);
    ParentKeeps(scopes, functions, limit, origin, owner, bound, functions, Branch(s.block));
    var scopes' := Left(scopes, Branch(s.block));
    forall k | 0 <= k < |scopes'|
      ensures ScopeOk(scopes', functions, limit, origin, owner, bound, k)
    {
      if k < n - 1 {
        assert ScopeOk(scopes, functions, limit, origin, owner, bound, k);
        assert scopes[..k + 1] == scopes'[..k + 1];
        ScopeStays(scopes, functions, limit, origin, owner, bound, scopes', functions, limit, origin, owner, bound, k);
      }
    }
  }

  lemma {:induction false} OneBranch(functions: Functions, limit: Id, origin: Origins, f: Id, available: set<Id>,
                                     block: seq<Op>)
    requires CodeOk(functions, limit, origin, f, [], block, available)
    ensures CodeOk(functions, limit, origin, f, [], [Branch(block)], available)
  {
    assert [Branch(block)][1..] == [];
  }

  // ---------------------------------------------------------------- running what was emitted

  /** A closure whose captures have the values of the definitions they stand for runs, and so does every
      closure made in it; each load in it yields the value of the definition it stands for. */
  lemma {:induction false} FunctionRuns(scopes: Scopes, functions: Functions, limit: Id, origin: Origins, owner: Owners,
                                        bound: map<Binding, Id>, f: Id, captures: seq<Value>, def: Id -> Value)
    requires ScopesOk(scopes, functions, limit, origin, owner, bound) && f in functions
    requires CapturesRight(origin, functions[f].captures, captures, def)
    ensures var r := Run(functions, limit, f, functions[f].body, map[], captures, def);
            r.Some? && Results(functions[f].body) <= r.value.Keys &&
            forall id <- r.value.Keys :: id in origin && r.value[id] == def(origin[id])
  {
    assert FunctionOk(functions, limit, origin, f);
    RunsRight(functions, limit, origin, f, functions[f].captures, functions[f].body, {}, map[], captures, def);
  }

  /** When every scope but the module's is left, running the module succeeds, and every value met in it or
      in any function closed over in it is that of the definition it stands for, whatever the values of
      the definitions. */
  lemma {:induction false} ModuleRuns(scopes: Scopes, functions: Functions, limit: Id, origin: Origins, owner: Owners,
                                      bound: map<Binding, Id>, def: Id -> Value)
    requires ScopesOk(scopes, functions, limit, origin, owner, bound) && |scopes| == 1
    ensures var s := scopes[0];
            var r := Run(functions, limit, s.op, s.loads + s.block, map[], [], def);
            r.Some? && Results(s.loads + s.block) <= r.value.Keys &&
            forall id <- r.value.Keys :: id in origin && r.value[id] == def(origin[id])
  {
    var s := scopes[0];
    assert ScopeOk(scopes, functions, limit, origin, owner, bound, 0);
    FinishedFunction(scopes, functions, limit, origin, owner, bound, functions);
    RunsRight(functions, limit, origin, s.op, s.captures, s.loads + s.block, {}, map[], [], def);
  }
}
