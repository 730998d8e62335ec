/** Templates of syntax-rules: what section 4.3.2 of R7RS makes of one, the operations it compiles to
    (schir/lib/TemplateGen.h), and what running them does (schir/lib/OpEval.cpp). */
module SyntaxTemplates {
  import opened Options
  import opened Utf8
  import opened Printing
  import opened DatumLists
  import opened SyntaxPatterns

  /** A sub-template followed by the ellipsis. */
  predicate Expands(ellipsis: Bytes, t: Datum) { t.Pair? && t.cdr.Pair? && t.cdr.car == Symbol(ellipsis) }

  /** The occurrences of pattern variables in the order of the visits: a tail comes before what repeats. */
  ghost function Order(ellipsis: Bytes, vars: set<Bytes>, t: Datum): seq<Bytes>
    decreases Size(t)
  {
    match t
    case Symbol(s) => if s in vars then [s] else []
    case Pair(x, y) =>
      if Expands(ellipsis, t) then
        assert Size(y) == 1 + Size(y.car) + Size(y.cdr);
        Order(ellipsis, vars, y.cdr) + Order(ellipsis, vars, x)
      else Order(ellipsis, vars, x) + Order(ellipsis, vars, y)
    case Vector(xs) => Order(ellipsis, vars, ListOf(xs))
    case _ => []
  }

  // ---------------------------------------------------------------- instantiation

  type Bound = map<Bytes, Binding>

  /** The variables vs each stand for n parts. */
  ghost predicate Uniform(vs: seq<Bytes>, b: Bound, n: nat) {
    forall v <- vs :: v in b && b[v].Many? && |b[v].items| == n
  }

  ghost function Count(vs: seq<Bytes>, b: Bound): (n: nat)
    requires exists n: nat :: Uniform(vs, b, n)
    ensures Uniform(vs, b, n)
  {
    var n: nat :| Uniform(vs, b, n);
    n
  }

  /** The i-th parts of the variables vs. */
  ghost function Slice(vs: seq<Bytes>, b: Bound, n: nat, i: nat): (r: Bound)
    requires Uniform(vs, b, n) && i < n
    ensures r.Keys == b.Keys
  {
    map v | v in b :: if v in vs then b[v].items[i] else b[v]
  }

  /** Those of the variables that stand for several parts. */
  ghost function Repeating(o: seq<Bytes>, b: Bound): seq<Bytes> {
    if o == [] then []
    else if o[0] in b && b[o[0]].Many? then [o[0]] + Repeating(o[1..], b)
    else Repeating(o[1..], b)
  }

  /** The variables of a template that the ellipsis after it repeats. */
  ghost function Repeated(ellipsis: Bytes, t: Datum, b: Bound): seq<Bytes> {
    Repeating(Order(ellipsis, b.Keys, t), b)
  }

  /** (<ellipsis> <template>), in which the ellipsis has no special meaning. */
  predicate Escapes(ellipsis: Bytes, t: Datum) {
    t.Pair? && t.car == Symbol(ellipsis) && t.cdr.Pair? && t.cdr.cdr.Empty?
  }

  /** What a template stands for by section 4.3.2 of R7RS; None when variables repeated together stand for
      different numbers of parts. */
  ghost function Instantiate(ellipsis: Bytes, t: Datum, b: Bound): Option<Datum>
    decreases Size(t), 0, 0
  {
    match t
    case Symbol(s) => if s !in b then Some(t) else if b[s].One? then Some(b[s].form) else None
    case Pair(x, y) =>
      if Escapes(ellipsis, t) then
        assert Size(y) == 1 + Size(y.car) + Size(y.cdr);
        InstantiatePlain(y.car, b)
      else if Expands(ellipsis, t) then
        assert Size(y) == 1 + Size(y.car) + Size(y.cdr);
        var vs := Repeated(ellipsis, x, b);
        if vs != [] && exists n: nat :: Uniform(vs, b, n) then
          var n := Count(vs, b);
          Prepended(InstantiateEach(ellipsis, x, b, n, n), Instantiate(ellipsis, y.cdr, b))
        else None
      else
        Paired(Instantiate(ellipsis, x, b), Instantiate(ellipsis, y, b))
    case Vector(xs) => (
      match Instantiate(ellipsis, ListOf(xs), b)
      case Some(list) => Some(Vector(Cars(list)))
      case None => None)
    case _ => Some(t)
  }

  /** The first k of the n repetitions. */
  ghost function InstantiateEach(ellipsis: Bytes, t: Datum, b: Bound, n: nat, k: nat): Option<seq<Datum>>
    requires Uniform(Repeated(ellipsis, t, b), b, n) && k <= n
    decreases Size(t), 1, k
  {
    if k == 0 then Some([])
    else
      Added(InstantiateEach(ellipsis, t, b, n, k - 1),
            Instantiate(ellipsis, t, Slice(Repeated(ellipsis, t, b), b, n, k - 1)))
  }

  /** What an escaped template stands for. */
  ghost function InstantiatePlain(t: Datum, b: Bound): Option<Datum>
    decreases Size(t)
  {
    match t
    case Symbol(s) => if s !in b then Some(t) else if b[s].One? then Some(b[s].form) else None
    case Pair(x, y) => Paired(InstantiatePlain(x, b), InstantiatePlain(y, b))
    case Vector(xs) => (
      match InstantiatePlain(ListOf(xs), b)
      case Some(list) => Some(Vector(Cars(list)))
      case None => None)
    case _ => Some(t)
  }

  function Paired(x: Option<Datum>, y: Option<Datum>): Option<Datum> {
    if x.Some? && y.Some? then Some(Pair(x.value, y.value)) else None
  }

  function Prepended(xs: Option<seq<Datum>>, r: Option<Datum>): Option<Datum> {
    if xs.Some? && r.Some? then Some(Prepend(xs.value, r.value)) else None
  }

  function Added(xs: Option<seq<Datum>>, x: Option<Datum>): Option<seq<Datum>> {
    if xs.Some? && x.Some? then Some(xs.value + [x.value]) else None
  }

  // ---------------------------------------------------------------- operations

  /** A value in reach: of a pattern variable, or an argument of an expansion's body. */
  datatype Ref = Slot(id: int) | Arg(level: nat, index: nat)

  datatype Code =
    | Literal(d: Datum)
    | Rename(s: Bytes)
    | Use(ref: Ref)
    | Cons(car: Code, cdr: Code)
    | NoElements
    | VectorOf(list: Code)
    | Expand(cdr: Code, packs: seq<Ref>, body: Code)

  /** The arguments of the expansions around a body, the outermost first. */
  type Args = seq<seq<Value>>

  function ValueOf(ref: Ref, env: Env, args: Args): Option<Value> {
    match ref
    case Slot(id) => if id in env then Some(env[id]) else None
    case Arg(level, index) =>
      if level < |args| && index < |args[level]| then Some(args[level][index]) else None
  }

  function ValuesOf(refs: seq<Ref>, env: Env, args: Args): (r: Option<seq<Value>>)
    ensures r.Some? ==> |r.value| == |refs|
  {
    if refs == [] then Some([])
    else
      var rest := ValuesOf(refs[1..], env, args);
      var first := ValueOf(refs[0], env, args);
      if first.Some? && rest.Some? then Some([first.value] + rest.value) else None
  }

  predicate HasItem(v: Value) { v.Pack? && v.items != [] }

  predicate AllHaveItems(vs: seq<Value>) { forall i :: 0 <= i < |vs| ==> HasItem(vs[i]) }

  predicate NoneHasItems(vs: seq<Value>) { forall i :: 0 <= i < |vs| ==> vs[i] == Pack([]) }

  function Heads(vs: seq<Value>): (r: seq<Value>)
    requires AllHaveItems(vs)
    ensures |r| == |vs|
  {
    seq(|vs|, i requires 0 <= i < |vs| => vs[i].items[0])
  }

  function Tails(vs: seq<Value>): (r: seq<Value>)
    requires AllHaveItems(vs)
    ensures |r| == |vs| && forall i :: 0 <= i < |vs| ==> r[i] == Pack(vs[i].items[1..])
  {
    seq(|vs|, i requires 0 <= i < |vs| => Pack(vs[i].items[1..]))
  }

  /** The value of a template's code, None on an error. */
  function Evaluate(code: Code, env: Env, args: Args): Option<Datum>
    decreases code, 0, 0
  {
    match code
    case Literal(d) => Some(d)
    case Rename(s) => Some(Symbol(s))
    case Use(ref) => (
      match ValueOf(ref, env, args)
      case Some(v) => if v.Form? then Some(v.d) else None
      case None => None)
    case Cons(x, y) => Paired(Evaluate(x, env, args), Evaluate(y, env, args))
    case NoElements => Some(Vector([]))
    case VectorOf(list) => (
      match Evaluate(list, env, args)
      case Some(l) => ToVector(l)
      case None => None)
    case Expand(cdr, packs, body) =>
      var rest := Evaluate(cdr, env, args);
      var values := ValuesOf(packs, env, args);
      if rest.Some? && values.Some? && values.value != [] then
        Iterate(body, values.value, rest.value, env, args)
      else None
  }

  /** The loop of an expansion: the packs' newest items go in front of the result first. */
  function Iterate(body: Code, packs: seq<Value>, result: Datum, env: Env, args: Args): Option<Datum>
    requires packs != []
    decreases body, 1, if packs[0].Pack? then |packs[0].items| else 0
  {
    if HasItem(packs[0]) then
      if !AllHaveItems(packs) then None
      else
        match Evaluate(body, env, args + [Heads(packs)])
        case Some(d) => Iterate(body, Tails(packs), Pair(d, result), env, args)
        case None => None
    else if NoneHasItems(packs) then Some(result)
    else None
  }

  // ---------------------------------------------------------------- compilation

  /** The value of a pattern variable and the number of ellipses it is under. */
  datatype Variable = Variable(slot: int, depth: nat)

  datatype Scope = Scope(ellipsis: Bytes, vars: map<Bytes, Variable>)

  /** The captures of the expansions under construction, the outermost first. */
  type Stack = seq<seq<Ref>>

  function IndexOf(refs: seq<Ref>, ref: Ref): (i: nat)
    ensures i <= |refs| && (i < |refs| ==> refs[i] == ref) && (ref in refs ==> i < |refs|)
  {
    if refs == [] || refs[0] == ref then 0 else 1 + IndexOf(refs[1..], ref)
  }

  /** Captures ref at each level from the given one on. A second use takes the argument at the distance
      back from the captured value to the first one, which is none but for the first one itself. */
  function Capture(ref: Ref, stack: Stack, level: nat): (r: Option<(Ref, Stack)>)
    requires level <= |stack|
    ensures r.Some? ==> |r.value.1| == |stack|
    decreases |stack| - level
  {
    if level == |stack| then Some((ref, stack))
    else
      var i := IndexOf(stack[level], ref);
      if i == |stack[level]| then Capture(Arg(level, i), stack[level := stack[level] + [ref]], level + 1)
      else if i == 0 then Capture(Arg(level, 0), stack, level + 1)
      else None
  }

  /** The code of a template, None on an error. */
  ghost function Generate(sc: Scope, t: Datum, stack: Stack): (r: Option<(Code, Stack)>)
    ensures r.Some? ==> |r.value.1| == |stack|
    decreases Size(t)
  {
    match t
    case Symbol(s) =>
      if s in sc.vars then
        if sc.vars[s].depth != |stack| then None
        else
          (match Capture(Slot(sc.vars[s].slot), stack, 0)
           case Some(c) => Some((Use(c.0), c.1))
           case None => None)
      else if s == sc.ellipsis then None
      else Some((Rename(s), stack))
    case Pair(x, y) =>
      if Expands(sc.ellipsis, t) then
        assert Size(y) == 1 + Size(y.car) + Size(y.cdr);
        (match Generate(sc, y.cdr, stack)
         case Some(cdr) => (
           match Generate(sc, x, cdr.1 + [[]])
           case Some(body) =>
             var packs := body.1[|stack|];
             if packs == [] then None else Some((Expand(cdr.0, packs, body.0), body.1[..|stack|]))
           case None => None)
         case None => None)
      else
        (match Generate(sc, x, stack)
         case Some(car) => (
           match Generate(sc, y, car.1)
           case Some(cdr) => Some((Joined(x, y, car.0, cdr.0), cdr.1))
           case None => None)
         case None => None)
    case Vector(xs) =>
      if xs == [] then Some((NoElements, stack))
      else
        (match Generate(sc, ListOf(xs), stack)
         case Some(list) => Some((VectorOf(list.0), list.1))
         case None => None)
    case _ => Some((Literal(t), stack))
  }

  /** A pair of literals stays a literal. */
  function Joined(x: Datum, y: Datum, car: Code, cdr: Code): Code {
    if car == Literal(x) && cdr == Literal(y) then Literal(Pair(x, y)) else Cons(car, cdr)
  }

  // ---------------------------------------------------------------- captures

  /** Different variables have different values, and none is the ellipsis. */
  ghost predicate Distinct(sc: Scope) {
    sc.ellipsis !in sc.vars &&
    forall v, w :: v in sc.vars && w in sc.vars && sc.vars[v].slot == sc.vars[w].slot ==> v == w
  }

  /** The reference to a variable's value inside the given number of expansions, if all have captured it. */
  ghost function Chain(sc: Scope, stack: Stack, v: Bytes, level: nat): Option<Ref>
    requires v in sc.vars && level <= |stack|
  {
    if level == 0 then Some(Slot(sc.vars[v].slot))
    else
      match Chain(sc, stack, v, level - 1)
      case Some(ref) =>
        var i := IndexOf(stack[level - 1], ref);
        if i < |stack[level - 1]| then Some(Arg(level - 1, i)) else None
      case None => None
  }

  lemma {:induction false} ChainInjective(sc: Scope, stack: Stack, v: Bytes, w: Bytes, level: nat)
    requires Distinct(sc) && v in sc.vars && w in sc.vars && level <= |stack|
    requires Chain(sc, stack, v, level).Some? && Chain(sc, stack, v, level) == Chain(sc, stack, w, level)
    ensures v == w
  {
    if level > 0 { ChainInjective(sc, stack, v, w, level - 1); }
  }

  /** Captures only grow. */
  ghost predicate Extends(later: Stack, stack: Stack) {
    |later| == |stack| && forall l :: 0 <= l < |stack| ==> stack[l] <= later[l]
  }

  lemma {:induction false} IndexStays(refs: seq<Ref>, later: seq<Ref>, ref: Ref)
    requires refs <= later && ref in refs
    ensures IndexOf(later, ref) == IndexOf(refs, ref) < |refs|
  {
    if refs[0] != ref { IndexStays(refs[1..], later[1..], ref); }
  }

  /** Earlier references stay valid. */
  lemma {:induction false} ChainStays(sc: Scope, stack: Stack, later: Stack, v: Bytes, level: nat)
    requires v in sc.vars && level <= |stack| && level <= |later| && Chain(sc, stack, v, level).Some?
    requires forall l :: 0 <= l < level ==> stack[l] <= later[l]
    ensures Chain(sc, later, v, level) == Chain(sc, stack, v, level)
  {
    if level > 0 {
      ChainStays(sc, stack, later, v, level - 1);
      IndexStays(stack[level - 1], later[level - 1], Chain(sc, stack, v, level - 1).value);
    }
  }

  /** The captured variables, level by level. */
  type Captured = seq<seq<Bytes>>

  ghost predicate LevelEncodes(sc: Scope, stack: Stack, names: Captured, l: nat)
    requires l < |stack| == |names|
  {
    |stack[l]| == |names[l]| &&
    forall i :: 0 <= i < |names[l]| ==>
      names[l][i] in sc.vars && Chain(sc, stack, names[l][i], l) == Some(stack[l][i])
  }

  ghost predicate Encodes(sc: Scope, stack: Stack, names: Captured) {
    |stack| == |names| && forall l :: 0 <= l < |stack| ==> LevelEncodes(sc, stack, names, l)
  }

  ghost function AfterOne(c: seq<Bytes>, v: Bytes): seq<Bytes> { if v in c then c else c + [v] }

  /** A variable may be used again only if it was captured first. */
  ghost predicate FitsOne(c: seq<Bytes>, v: Bytes) { v in c ==> c[0] == v }

  lemma {:induction false} StillEncodes(sc: Scope, stack: Stack, names: Captured, later: Stack, more: Captured, l: nat)
    requires l < |stack| == |names| && l < |later| == |more| && LevelEncodes(sc, stack, names, l)
    requires forall k :: 0 <= k < l ==> stack[k] <= later[k]
    requires later[l] == stack[l] && more[l] == names[l]
    ensures LevelEncodes(sc, later, more, l)
  {
    forall i | 0 <= i < |more[l]|
      ensures more[l][i] in sc.vars && Chain(sc, later, more[l][i], l) == Some(later[l][i])
    {
      ChainStays(sc, stack, later, names[l][i], l);
    }
  }

  /** Where the captured variables are found. */
  lemma {:induction false} FoundAt(sc: Scope, stack: Stack, names: Captured, v: Bytes, level: nat, ref: Ref)
    requires Distinct(sc) && Encodes(sc, stack, names) && v in sc.vars && level < |stack|
    requires Chain(sc, stack, v, level) == Some(ref)
    ensures var i := IndexOf(stack[level], ref);
            if v in names[level] then i < |stack[level]| == |names[level]| && names[level][i] == v
            else i == |stack[level]|
    ensures IndexOf(stack[level], ref) == 0 && stack[level] != [] <==> names[level] != [] && names[level][0] == v
  {
    assert LevelEncodes(sc, stack, names, level);
    var i := IndexOf(stack[level], ref);
    if i < |stack[level]| { ChainInjective(sc, stack, v, names[level][i], level); }
    if v in names[level] {
      var j :| 0 <= j < |names[level]| && names[level][j] == v;
      assert stack[level][j] == ref;
    }
  }

  /** A capture succeeds exactly when the variable is new, or was captured first, at each level. */
  lemma {:induction false} CaptureNames(sc: Scope, stack: Stack, names: Captured, v: Bytes, level: nat, ref: Ref)
    requires Distinct(sc) && Encodes(sc, stack, names) && v in sc.vars && level <= |stack|
    requires Chain(sc, stack, v, level) == Some(ref)
    ensures Capture(ref, stack, level).Some? <==> forall l :: level <= l < |stack| ==> FitsOne(names[l], v)
    ensures Capture(ref, stack, level).Some? ==>
      var (last, later) := Capture(ref, stack, level).value;
      Encodes(sc, later, LaterNames(names, v, level)) && Extends(later, stack) &&
      Chain(sc, later, v, |stack|) == Some(last)
    decreases |stack| - level
  {
    if level < |stack| {
      FoundAt(sc, stack, names, v, level, ref);
      var i := IndexOf(stack[level], ref);
      if i == |stack[level]| {
        CaptureNew(sc, stack, names, v, level, ref);
      } else if i == 0 {
        CaptureNames(sc, stack, names, v, level + 1, Arg(level, 0));
        assert LaterNames(names, v, level) == LaterNames(names, v, level + 1);
      } else {
        assert !FitsOne(names[level], v);
      }
    } else {
      assert LaterNames(names, v, level) == names;
    }
  }

  ghost function LaterNames(names: Captured, v: Bytes, level: nat): (r: Captured)
    ensures |r| == |names|
    ensures forall l :: 0 <= l < |names| ==> r[l] == if l < level then names[l] else AfterOne(names[l], v)
  {
    seq(|names|, l requires 0 <= l < |names| => if l < level then names[l] else AfterOne(names[l], v))
  }

  lemma {:induction false} CaptureNew(sc: Scope, stack: Stack, names: Captured, v: Bytes, level: nat, ref: Ref)
    requires Distinct(sc) && Encodes(sc, stack, names) && v in sc.vars && level < |stack|
    requires Chain(sc, stack, v, level) == Some(ref)
    requires IndexOf(stack[level], ref) == |stack[level]| && v !in names[level]
    ensures Capture(ref, stack, level).Some? <==> forall l :: level <= l < |stack| ==> FitsOne(names[l], v)
    ensures Capture(ref, stack, level).Some? ==>
      var (last, later) := Capture(ref, stack, level).value;
      Encodes(sc, later, LaterNames(names, v, level)) && Extends(later, stack) &&
      Chain(sc, later, v, |stack|) == Some(last)
    decreases |stack| - level, 0
  {
    hide Chain, LevelEncodes;
    var next := stack[level := stack[level] + [ref]];
    var more := names[level := names[level] + [v]];
    GrowsEncoded(sc, stack, names, v, level, ref);
    CaptureNames(sc, next, more, v, level + 1, Arg(level, |stack[level]|));
    assert LaterNames(names, v, level) == LaterNames(more, v, level + 1);
  }

  lemma {:induction false} GrowsEncoded(sc: Scope, stack: Stack, names: Captured, v: Bytes, level: nat, ref: Ref)
    requires Encodes(sc, stack, names) && v in sc.vars && level < |stack|
    requires Chain(sc, stack, v, level) == Some(ref) && IndexOf(stack[level], ref) == |stack[level]|
    ensures var next := stack[level := stack[level] + [ref]];
            Encodes(sc, next, names[level := names[level] + [v]]) &&
            Chain(sc, next, v, level + 1) == Some(Arg(level, |stack[level]|))
  {
    var next := stack[level := stack[level] + [ref]];
    var more := names[level := names[level] + [v]];
    forall l | 0 <= l < |stack|
      ensures LevelEncodes(sc, next, more, l)
    {
      assert LevelEncodes(sc, stack, names, l);
      if l != level {
        StillEncodes(sc, stack, names, next, more, l);
      } else {
        LevelGrows(sc, stack, names, v, level, ref);
      }
    }
    NewIndex(stack[level], ref);
    ChainStays(sc, stack, next, v, level);
  }

  lemma {:induction false} NewIndex(refs: seq<Ref>, ref: Ref)
    requires IndexOf(refs, ref) == |refs|
    ensures IndexOf(refs + [ref], ref) == |refs|
  {
    if refs != [] {
      NewIndex(refs[1..], ref);
      assert (refs + [ref])[1..] == refs[1..] + [ref];
    }
  }

  lemma {:induction false} LevelGrows(sc: Scope, stack: Stack, names: Captured, v: Bytes, l: nat, ref: Ref)
    requires v in sc.vars && l < |stack| == |names| && LevelEncodes(sc, stack, names, l)
    requires Chain(sc, stack, v, l) == Some(ref)
    ensures LevelEncodes(sc, stack[l := stack[l] + [ref]], names[l := names[l] + [v]], l)
  {
    var next := stack[l := stack[l] + [ref]];
    var more := names[l := names[l] + [v]];
    forall i | 0 <= i < |more[l]|
      ensures more[l][i] in sc.vars && Chain(sc, next, more[l][i], l) == Some(next[l][i])
    {
      ChainStays(sc, stack, next, more[l][i], l);
    }
  }

  // ---------------------------------------------------------------- which templates are accepted

  /** What is captured after the occurrences o, and whether each of them fits. */
  ghost function After(c: seq<Bytes>, o: seq<Bytes>): seq<Bytes>
    decreases |o|
  {
    if o == [] then c else After(AfterOne(c, o[0]), o[1..])
  }

  ghost predicate Fits(c: seq<Bytes>, o: seq<Bytes>)
    decreases |o|
  {
    o == [] || (FitsOne(c, o[0]) && Fits(AfterOne(c, o[0]), o[1..]))
  }

  lemma {:induction false} AfterBoth(c: seq<Bytes>, o: seq<Bytes>, q: seq<Bytes>)
    ensures After(c, o + q) == After(After(c, o), q)
    ensures Fits(c, o + q) <==> Fits(c, o) && Fits(After(c, o), q)
    decreases |o|
  {
    if o == [] {
      assert o + q == q;
    } else {
      AfterBoth(AfterOne(c, o[0]), o[1..], q);
      assert (o + q)[1..] == o[1..] + q;
    }
  }

  ghost function AllAfter(names: Captured, o: seq<Bytes>): (r: Captured)
    ensures |r| == |names| && forall l :: 0 <= l < |names| ==> r[l] == After(names[l], o)
  {
    seq(|names|, l requires 0 <= l < |names| => After(names[l], o))
  }

  ghost predicate AllFit(names: Captured, o: seq<Bytes>) { forall l :: 0 <= l < |names| ==> Fits(names[l], o) }

  lemma {:induction false} AllAfterBoth(names: Captured, o: seq<Bytes>, q: seq<Bytes>)
    ensures AllAfter(names, o + q) == AllAfter(AllAfter(names, o), q)
    ensures AllFit(names, o + q) <==> AllFit(names, o) && AllFit(AllAfter(names, o), q)
  {
    forall l | 0 <= l < |names|
      ensures After(names[l], o + q) == After(After(names[l], o), q)
      ensures Fits(names[l], o + q) <==> Fits(names[l], o) && Fits(After(names[l], o), q)
    {
      AfterBoth(names[l], o, q);
    }
    assert AllFit(names, o + q) <==> AllFit(names, o) && AllFit(AllAfter(names, o), q);
  }

  /** Each variable is under as many ellipses as in the pattern, each repeated part has a variable, and
      no other symbol is the ellipsis. */
  ghost predicate WellPlaced(sc: Scope, t: Datum, depth: nat)
    decreases Size(t)
  {
    match t
    case Symbol(s) => if s in sc.vars then sc.vars[s].depth == depth else s != sc.ellipsis
    case Pair(x, y) =>
      if Expands(sc.ellipsis, t) then
        assert Size(y) == 1 + Size(y.car) + Size(y.cdr);
        WellPlaced(sc, y.cdr, depth) && WellPlaced(sc, x, depth + 1) && Order(sc.ellipsis, sc.vars.Keys, x) != []
      else WellPlaced(sc, x, depth) && WellPlaced(sc, y, depth)
    case Vector(xs) => WellPlaced(sc, ListOf(xs), depth)
    case _ => true
  }

  /** Some repeated part uses a variable again that is not its first one. */
  ghost predicate ReusesLater(sc: Scope, t: Datum)
    decreases Size(t)
  {
    match t
    case Pair(x, y) =>
      if Expands(sc.ellipsis, t) then
        assert Size(y) == 1 + Size(y.car) + Size(y.cdr);
        LateReuse(Order(sc.ellipsis, sc.vars.Keys, x)) || ReusesLater(sc, x) || ReusesLater(sc, y.cdr)
      else ReusesLater(sc, x) || ReusesLater(sc, y)
    case Vector(xs) => ReusesLater(sc, ListOf(xs))
    case _ => false
  }

  ghost predicate LateReuse(o: seq<Bytes>) { exists k :: 0 < k < |o| && o[k] in o[..k] && o[k] != o[0] }

  lemma {:induction false} FitsNotLate(o: seq<Bytes>)
    ensures Fits([], o) <==> !LateReuse(o)
    ensures forall v :: v in After([], o) <==> v in o
  {
    FitsFrom(o, 0, []);
    assert o[..|o|] == o && o[0..] == o;
  }

  /** The variables c are those of the first k occurrences. */
  lemma {:induction false} FitsFrom(o: seq<Bytes>, k: nat, c: seq<Bytes>)
    requires k <= |o| && (forall v :: v in c <==> v in o[..k]) && (c != [] ==> k > 0 && c[0] == o[0])
    ensures Fits(c, o[k..]) <==> forall j :: k <= j < |o| && o[j] in o[..j] ==> o[j] == o[0]
    ensures forall v :: v in After(c, o[k..]) <==> v in o
    decreases |o| - k
  {
    if k < |o| {
      var v := o[k];
      var next := AfterOne(c, v);
      assert o[..k + 1] == o[..k] + [v];
      assert o[k..][1..] == o[k + 1..];
      assert k > 0 ==> o[0] in o[..k];
      FitsFrom(o, k + 1, next);
      assert FitsOne(c, v) <==> (v in o[..k] ==> v == o[0]);
    } else {
      assert o[..k] == o && o[k..] == [];
    }
  }

  lemma {:induction false} OrderDeep(sc: Scope, t: Datum, depth: nat)
    requires WellPlaced(sc, t, depth)
    ensures forall v <- Order(sc.ellipsis, sc.vars.Keys, t) :: v in sc.vars && sc.vars[v].depth >= depth
    decreases Size(t)
  {
    match t
    case Symbol(s) =>
    case Pair(x, y) =>
      if Expands(sc.ellipsis, t) {
        assert Size(y) == 1 + Size(y.car) + Size(y.cdr);
        OrderDeep(sc, y.cdr, depth);
        OrderDeep(sc, x, depth + 1);
      } else {
        OrderDeep(sc, x, depth);
        OrderDeep(sc, y, depth);
      }
    case Vector(xs) => OrderDeep(sc, ListOf(xs), depth);
    case _ =>
  }

  /** What Generate does to the captures of the expansions around a template. */
  ghost predicate Generated(sc: Scope, t: Datum, stack: Stack, names: Captured) {
    var o := Order(sc.ellipsis, sc.vars.Keys, t);
    (Generate(sc, t, stack).Some? <==> WellPlaced(sc, t, |stack|) && !ReusesLater(sc, t) && AllFit(names, o)) &&
    (Generate(sc, t, stack).Some? ==>
       var later := Generate(sc, t, stack).value.1;
       Encodes(sc, later, AllAfter(names, o)) && Extends(later, stack))
  }

  /** A template is accepted exactly when its variables are well placed and none but the first variable
      of a repeated part is used there again. */
  lemma {:induction false} GeneratesExactly(sc: Scope, t: Datum, stack: Stack, names: Captured)
    requires Distinct(sc) && Encodes(sc, stack, names)
    ensures Generated(sc, t, stack, names)
    decreases Size(t), 1
  {
    hide Size, SizeAll, Prepend, Capture, Encodes, Chain;
    match t
    case Symbol(s) => SymbolGenerates(sc, t, stack, names);
    case Pair(x, y) =>
      if Expands(sc.ellipsis, t) {
        ExpandGenerates(sc, t, stack, names);
      } else {
        PairGenerates(sc, t, stack, names);
      }
    case Vector(xs) =>
      SizeOfVector(xs);
      GeneratesExactly(sc, ListOf(xs), stack, names);
      EmptyGenerates(sc, stack, names);
    case _ => NothingCaptured(sc, stack, names);
  }

  lemma {:induction false} SizeOfVector(xs: seq<Datum>)
    ensures Size(ListOf(xs)) < Size(Vector(xs))
  {
  }

  lemma {:induction false} EmptyGenerates(sc: Scope, stack: Stack, names: Captured)
    requires Encodes(sc, stack, names)
    ensures ListOf([]) == Empty && Generated(sc, Vector([]), stack, names)
  {
    NothingCaptured(sc, stack, names);
  }

  lemma {:induction false} NothingCaptured(sc: Scope, stack: Stack, names: Captured)
    ensures AllAfter(names, []) == names && AllFit(names, []) && Extends(stack, stack)
  {
  }

  lemma {:induction false} SymbolGenerates(sc: Scope, t: Datum, stack: Stack, names: Captured)
    requires Distinct(sc) && Encodes(sc, stack, names) && t.Symbol?
    ensures Generated(sc, t, stack, names)
  {
    NothingCaptured(sc, stack, names);
    if t.s in sc.vars {
      CaptureNames(sc, stack, names, t.s, 0, Slot(sc.vars[t.s].slot));
      OneAfter(names, t.s);
    }
  }

  lemma {:induction false} OneAfter(names: Captured, v: Bytes)
    ensures AllAfter(names, [v]) == LaterNames(names, v, 0)
    ensures AllFit(names, [v]) <==> forall l :: 0 <= l < |names| ==> FitsOne(names[l], v)
  {
    assert [v][1..] == [];
    forall l | 0 <= l < |names|
      ensures After(names[l], [v]) == AfterOne(names[l], v)
      ensures Fits(names[l], [v]) <==> FitsOne(names[l], v)
    {
      assert After(AfterOne(names[l], v), []) == AfterOne(names[l], v);
    }
    assert AllFit(names, [v]) ==> forall l :: 0 <= l < |names| ==> Fits(names[l], [v]);
  }

  lemma {:induction false} ExtendsTwice(a: Stack, b: Stack, c: Stack)
    requires Extends(b, a) && Extends(c, b)
    ensures Extends(c, a)
  {
    forall l | 0 <= l < |a|
      ensures a[l] <= c[l]
    {
      assert a[l] <= b[l] <= c[l];
    }
  }

  lemma {:induction false} PairGenerates(sc: Scope, t: Datum, stack: Stack, names: Captured)
    requires Distinct(sc) && Encodes(sc, stack, names) && t.Pair? && !Expands(sc.ellipsis, t)
    ensures Generated(sc, t, stack, names)
    decreases Size(t), 0
  {
    hide SizeAll, Prepend, Capture, Encodes, Chain, Extends;
    var o := Order(sc.ellipsis, sc.vars.Keys, t.car);
    AllAfterBoth(names, o, Order(sc.ellipsis, sc.vars.Keys, t.cdr));
    GeneratesExactly(sc, t.car, stack, names);
    if Generate(sc, t.car, stack).Some? {
      var mid := Generate(sc, t.car, stack).value.1;
      GeneratesExactly(sc, t.cdr, mid, AllAfter(names, o));
      if Generate(sc, t.cdr, mid).Some? {
        ExtendsTwice(stack, mid, Generate(sc, t.cdr, mid).value.1);
      }
    }
  }

  /** What a part followed by the ellipsis adds up to. */
  lemma {:induction false} ExpandParts(sc: Scope, t: Datum, stack: Stack)
    requires Expands(sc.ellipsis, t)
    ensures var x, rest := t.car, t.cdr.cdr;
            var q := Order(sc.ellipsis, sc.vars.Keys, x);
            Order(sc.ellipsis, sc.vars.Keys, t) == Order(sc.ellipsis, sc.vars.Keys, rest) + q &&
            (WellPlaced(sc, t, |stack|) <==>
               WellPlaced(sc, rest, |stack|) && WellPlaced(sc, x, |stack| + 1) && q != []) &&
            (ReusesLater(sc, t) <==> LateReuse(q) || ReusesLater(sc, x) || ReusesLater(sc, rest)) &&
            Generate(sc, t, stack) == GenerateExpand(sc, x, rest, stack)
  {
  }

  ghost function GenerateExpand(sc: Scope, x: Datum, rest: Datum, stack: Stack): Option<(Code, Stack)> {
    match Generate(sc, rest, stack)
    case Some(cdr) => (
      match Generate(sc, x, cdr.1 + [[]])
      case Some(body) =>
        var packs := body.1[|stack|];
        if packs == [] then None else Some((Expand(cdr.0, packs, body.0), body.1[..|stack|]))
      case None => None)
    case None => None
  }

  lemma {:induction false} ExpandGenerates(sc: Scope, t: Datum, stack: Stack, names: Captured)
    requires Distinct(sc) && Encodes(sc, stack, names) && Expands(sc.ellipsis, t)
    ensures Generated(sc, t, stack, names)
    decreases Size(t), 0
  {
    hide SizeAll, Prepend, Capture, Encodes, Chain, Extends, Generate, WellPlaced, ReusesLater, Order, AllFit, Fits;
    ExpandParts(sc, t, stack);
    var x, rest := t.car, t.cdr.cdr;
    assert Size(t.cdr) == 1 + Size(t.cdr.car) + Size(rest);
    var o := Order(sc.ellipsis, sc.vars.Keys, rest);
    var q := Order(sc.ellipsis, sc.vars.Keys, x);
    AllAfterBoth(names, o, q);
    GeneratesExactly(sc, rest, stack, names);
    if Generate(sc, rest, stack).Some? {
      var mid := Generate(sc, rest, stack).value.1;
      var inner := AllAfter(names, o);
      EncodesEntered(sc, mid, inner);
      GeneratesExactly(sc, x, mid + [[]], inner + [[]]);
      EnteredFits(inner, q);
      FitsNotLate(q);
      if Generate(sc, x, mid + [[]]).Some? {
        var end := Generate(sc, x, mid + [[]]).value.1;
        EncodesLeft(sc, mid, end, inner, q);
        assert end[|stack|] == [] <==> After([], q) == [];
        assert q != [] ==> q[0] in After([], q);
        ExtendsTwice(stack, mid, end[..|stack|]);
      }
    }
  }

  /** An expansion starts without captures. */
  lemma {:induction false} EncodesEntered(sc: Scope, stack: Stack, names: Captured)
    requires Encodes(sc, stack, names)
    ensures Encodes(sc, stack + [[]], names + [[]])
  {
    forall l | 0 <= l < |stack| + 1
      ensures LevelEncodes(sc, stack + [[]], names + [[]], l)
    {
      if l < |stack| {
        assert LevelEncodes(sc, stack, names, l);
        StillEncodes(sc, stack, names, stack + [[]], names + [[]], l);
      }
    }
  }

  lemma {:induction false} EnteredFits(names: Captured, q: seq<Bytes>)
    ensures AllFit(names + [[]], q) <==> AllFit(names, q) && Fits([], q)
    ensures AllAfter(names + [[]], q) == AllAfter(names, q) + [After([], q)]
  {
    var all := names + [[]];
    assert forall l :: 0 <= l < |names| ==> all[l] == names[l];
    assert all[|names|] == [];
  }

  lemma {:induction false} EncodesLeft(sc: Scope, stack: Stack, end: Stack, names: Captured, q: seq<Bytes>)
    requires |end| == |stack| + 1 && |names| == |stack|
    requires Encodes(sc, end, AllAfter(names, q) + [After([], q)]) && Extends(end, stack + [[]])
    ensures Encodes(sc, end[..|stack|], AllAfter(names, q)) && Extends(end[..|stack|], stack)
    ensures LevelEncodes(sc, end, AllAfter(names, q) + [After([], q)], |stack|)
  {
    var more := AllAfter(names, q) + [After([], q)];
    forall l | 0 <= l < |stack|
      ensures LevelEncodes(sc, end[..|stack|], AllAfter(names, q), l) && stack[l] <= end[l]
    {
      assert LevelEncodes(sc, end, more, l);
      StillEncodes(sc, end, more, end[..|stack|], AllAfter(names, q), l);
      assert (stack + [[]])[l] == stack[l];
    }
    assert LevelEncodes(sc, end, more, |stack|);
  }

  // ---------------------------------------------------------------- generated code instantiates

  predicate HasDepth(b: Binding, n: nat) {
    if n == 0 then b.One? else b.Many? && forall i :: 0 <= i < |b.items| ==> HasDepth(b.items[i], n - 1)
  }

  /** Inside the expansions, the reference to a captured variable has the value of what it stands for there. */
  ghost predicate HeldAt(sc: Scope, stack: Stack, b: Bound, env: Env, args: Args, v: Bytes)
    requires v in sc.vars && v in b
  {
    Chain(sc, stack, v, |stack|).Some? ==>
      sc.vars[v].depth >= |stack| && HasDepth(b[v], sc.vars[v].depth - |stack|) &&
      ValueOf(Chain(sc, stack, v, |stack|).value, env, args) == Some(Represent(b[v]))
  }

  ghost predicate Held(sc: Scope, stack: Stack, b: Bound, env: Env, args: Args) {
    |args| == |stack| && b.Keys == sc.vars.Keys && forall v <- sc.vars.Keys :: HeldAt(sc, stack, b, env, args, v)
  }

  lemma {:induction false} RepresentLast(bs: seq<Binding>)
    requires bs != []
    ensures var r := RepresentAll(bs);
            r != [] && r[0] == Represent(bs[|bs| - 1]) && r[1..] == RepresentAll(bs[..|bs| - 1])
  {
    if |bs| == 1 {
      assert bs[1..] == [] && bs[..0] == [];
    } else {
      RepresentLast(bs[1..]);
      assert bs[..|bs| - 1][1..] == bs[1..][..|bs| - 2];
      assert bs[..|bs| - 1][0] == bs[0];
    }
  }

  lemma {:induction false} RepresentLength(bs: seq<Binding>)
    ensures |RepresentAll(bs)| == |bs|
  {
    if bs != [] { RepresentLength(bs[1..]); }
  }

  /** Running a template's code gives what the template stands for, inside any expansions: stack is
      what Generate started from and all is what was captured in the end. */
  lemma {:induction false} GeneratedMeans(sc: Scope, t: Datum, stack: Stack, names: Captured, all: Stack,
                                          b: Bound, env: Env, args: Args)
    requires Distinct(sc) && Encodes(sc, stack, names) && Generate(sc, t, stack).Some?
    requires Extends(all, Generate(sc, t, stack).value.1) && Held(sc, all, b, env, args)
    ensures Evaluate(Generate(sc, t, stack).value.0, env, args) == Instantiate(sc.ellipsis, t, b)
    decreases Size(t), 3
  {
    hide Size, SizeAll, Prepend, Capture, Encodes, Chain, Held, Extends, Cars, Terminator;
    match t
    case Symbol(s) =>
      if s in sc.vars { SymbolMeans(sc, t, stack, names, all, b, env, args); } else { HeldKeys(sc, all, b, env, args); }
    case Pair(x, y) =>
      if Expands(sc.ellipsis, t) {
        ExpandMeans(sc, t, stack, names, all, b, env, args);
      } else {
        PairMeans(sc, t, stack, names, all, b, env, args);
      }
    case Vector(xs) =>
      SizeOfVector(xs);
      if xs == [] {
        EmptyMeans(sc, b);
      } else {
        GeneratedMeans(sc, ListOf(xs), stack, names, all, b, env, args);
        GeneratesExactly(sc, ListOf(xs), stack, names);
        HeldKeys(sc, all, b, env, args);
        InstanceProper(sc, xs, b, |stack|);
      }
    case _ =>
  }

  lemma {:induction false} HeldKeys(sc: Scope, all: Stack, b: Bound, env: Env, args: Args)
    requires Held(sc, all, b, env, args)
    ensures b.Keys == sc.vars.Keys
  {
  }

  lemma {:induction false} EmptyMeans(sc: Scope, b: Bound)
    ensures Instantiate(sc.ellipsis, Vector([]), b) == Some(Vector([]))
  {
    assert ListOf([]) == Empty;
    assert Instantiate(sc.ellipsis, Empty, b) == Some(Empty);
  }

  lemma {:induction false} PrependProper(xs: seq<Datum>, r: Datum)
    ensures ProperList(Prepend(xs, r)) == ProperList(r)
  {
    CarsOfPrepend(xs, r);
  }

  lemma {:induction false} EllipsisMisplaced(sc: Scope, x: Datum, depth: nat)
    ensures x == Symbol(sc.ellipsis) && sc.ellipsis !in sc.vars ==> !WellPlaced(sc, x, depth)
  {
  }

  /** An escape is not accepted. */
  lemma {:induction false} NoEscape(sc: Scope, t: Datum, depth: nat)
    requires sc.ellipsis !in sc.vars && WellPlaced(sc, t, depth)
    ensures !Escapes(sc.ellipsis, t)
  {
    if t.Pair? {
      EllipsisMisplaced(sc, t.car, depth);
      EllipsisMisplaced(sc, t.car, depth + 1);
    }
  }

  lemma {:induction false} InstanceProper(sc: Scope, xs: seq<Datum>, b: Bound, depth: nat)
    requires sc.ellipsis !in sc.vars && WellPlaced(sc, ListOf(xs), depth)
    ensures var r := Instantiate(sc.ellipsis, ListOf(xs), b); r.Some? ==> ProperList(r.value)
    decreases |xs|
  {
    hide Size, SizeAll;
    if xs == [] {
      assert Instantiate(sc.ellipsis, Empty, b) == Some(Empty);
    } else {
      var list := ListOf(xs);
      NoEscape(sc, list, depth);
      var tail := xs[1..];
      assert list == Pair(xs[0], ListOf(tail));
      if Expands(sc.ellipsis, list) {
        assert tail != [] && ListOf(tail) == Pair(tail[0], ListOf(tail[1..])) && tail[1..] == xs[2..];
        InstanceProper(sc, xs[2..], b, depth);
        var vs := Repeated(sc.ellipsis, xs[0], b);
        if Instantiate(sc.ellipsis, list, b).Some? {
          var n := Count(vs, b);
          PrependProper(InstantiateEach(sc.ellipsis, xs[0], b, n, n).value,
                        Instantiate(sc.ellipsis, ListOf(xs[2..]), b).value);
        }
      } else {
        InstanceProper(sc, xs[1..], b, depth);
      }
    }
  }

  lemma {:induction false} SymbolMeans(sc: Scope, t: Datum, stack: Stack, names: Captured, all: Stack,
                                       b: Bound, env: Env, args: Args)
    requires Distinct(sc) && Encodes(sc, stack, names) && Generate(sc, t, stack).Some? && t.Symbol? && t.s in sc.vars
    requires Extends(all, Generate(sc, t, stack).value.1) && Held(sc, all, b, env, args)
    ensures Evaluate(Generate(sc, t, stack).value.0, env, args) == Instantiate(sc.ellipsis, t, b)
  {
    CaptureNames(sc, stack, names, t.s, 0, Slot(sc.vars[t.s].slot));
    var (last, later) := Capture(Slot(sc.vars[t.s].slot), stack, 0).value;
    ChainStays(sc, later, all, t.s, |stack|);
    assert HeldAt(sc, all, b, env, args, t.s);
  }

  lemma {:induction false} PairMeans(sc: Scope, t: Datum, stack: Stack, names: Captured, all: Stack,
                                     b: Bound, env: Env, args: Args)
    requires Distinct(sc) && Encodes(sc, stack, names) && Generate(sc, t, stack).Some?
    requires t.Pair? && !Expands(sc.ellipsis, t)
    requires Extends(all, Generate(sc, t, stack).value.1) && Held(sc, all, b, env, args)
    ensures Evaluate(Generate(sc, t, stack).value.0, env, args) == Instantiate(sc.ellipsis, t, b)
    decreases Size(t), 0
  {
    hide SizeAll, Prepend, Capture, Encodes, Chain, Held, Extends;
    var o := Order(sc.ellipsis, sc.vars.Keys, t.car);
    GeneratesExactly(sc, t.car, stack, names);
    var (car, mid) := Generate(sc, t.car, stack).value;
    GeneratesExactly(sc, t.cdr, mid, AllAfter(names, o));
    var (cdr, later) := Generate(sc, t.cdr, mid).value;
    ExtendsTwice(mid, later, all);
    GeneratedMeans(sc, t.car, stack, names, all, b, env, args);
    GeneratedMeans(sc, t.cdr, mid, AllAfter(names, o), all, b, env, args);
    JoinedValue(t.car, t.cdr, car, cdr, env, args);
    GeneratesExactly(sc, t, stack, names);
    NoEscape(sc, t, |stack|);
  }

  lemma {:induction false} JoinedValue(x: Datum, y: Datum, car: Code, cdr: Code, env: Env, args: Args)
    ensures Evaluate(Joined(x, y, car, cdr), env, args) == Paired(Evaluate(car, env, args), Evaluate(cdr, env, args))
  {
  }

  /** The captures of an expansion are those of the variables pn, all used in its body, and each is
      under one more ellipsis at least. */
  ghost predicate PackNames(sc: Scope, all: Stack, packs: seq<Ref>, pn: seq<Bytes>, vs: seq<Bytes>) {
    |pn| == |packs| > 0 &&
    (forall i :: 0 <= i < |pn| ==> pn[i] in vs && pn[i] in sc.vars && Chain(sc, all, pn[i], |all|) == Some(packs[i])) &&
    (forall v <- vs :: v in pn) &&
    (forall v <- vs :: v in sc.vars && sc.vars[v].depth > |all|)
  }

  /** The packs with the first k parts. */
  ghost predicate Packed(b: Bound, pn: seq<Bytes>, values: seq<Value>, k: nat) {
    |values| == |pn| &&
    forall i :: 0 <= i < |pn| ==>
      pn[i] in b && b[pn[i]].Many? && k <= |b[pn[i]].items| && values[i] == Pack(RepresentAll(b[pn[i]].items[..k]))
  }

  lemma {:induction false} PackValues(sc: Scope, all: Stack, packs: seq<Ref>, pn: seq<Bytes>, b: Bound, env: Env,
                                      args: Args)
    requires Held(sc, all, b, env, args) && |pn| == |packs|
    requires forall i :: 0 <= i < |pn| ==> pn[i] in sc.vars && Chain(sc, all, pn[i], |all|) == Some(packs[i])
    ensures ValuesOf(packs, env, args).Some?
    ensures forall i :: 0 <= i < |packs| ==> ValuesOf(packs, env, args).value[i] == Represent(b[pn[i]])
    decreases |packs|
  {
    if packs != [] {
      assert HeldAt(sc, all, b, env, args, pn[0]);
      PackValues(sc, all, packs[1..], pn[1..], b, env, args);
    }
  }

  lemma {:induction false} ManyParts(sc: Scope, all: Stack, packs: seq<Ref>, pn: seq<Bytes>, vs: seq<Bytes>,
                                     b: Bound, env: Env, args: Args, v: Bytes)
    requires Held(sc, all, b, env, args) && PackNames(sc, all, packs, pn, vs) && v in vs
    ensures v in b && b[v].Many?
  {
    var i :| 0 <= i < |pn| && pn[i] == v;
    assert HeldAt(sc, all, b, env, args, v);
  }

  /** Entering the body once more. */
  lemma {:induction false} HeldInside(sc: Scope, all: Stack, packs: seq<Ref>, pn: seq<Bytes>, vs: seq<Bytes>,
                                      b: Bound, n: nat, k: nat, row: seq<Value>, env: Env, args: Args)
    requires Distinct(sc) && Held(sc, all, b, env, args) && PackNames(sc, all, packs, pn, vs)
    requires Uniform(vs, b, n) && k < n
    requires |row| == |pn|
    requires forall i :: 0 <= i < |pn| ==>
      pn[i] in b && b[pn[i]].Many? && k < |b[pn[i]].items| && row[i] == Represent(b[pn[i]].items[k])
    ensures Held(sc, all + [packs], Slice(vs, b, n, k), env, args + [row])
  {
    var inside := all + [packs];
    var c := Slice(vs, b, n, k);
    forall v <- sc.vars.Keys
      ensures HeldAt(sc, inside, c, env, args + [row], v)
    {
      if Chain(sc, inside, v, |inside|).Some? {
        var ref := Chain(sc, inside, v, |all|).value;
        SameChain(sc, all, packs, v, |all|);
        var i := IndexOf(packs, ref);
        ChainInjective(sc, all, v, pn[i], |all|);
        assert HeldAt(sc, all, b, env, args, v);
      }
    }
  }

  lemma {:induction false} SameChain(sc: Scope, all: Stack, packs: seq<Ref>, v: Bytes, level: nat)
    requires v in sc.vars && level <= |all|
    ensures Chain(sc, all + [packs], v, level) == Chain(sc, all, v, level)
  {
    if level > 0 { SameChain(sc, all, packs, v, level - 1); }
  }

  lemma {:induction false} IterateMeans(sc: Scope, x: Datum, start: Stack, names: Captured, all: Stack, packs: seq<Ref>,
                                        pn: seq<Bytes>, b: Bound, n: nat, k: nat, values: seq<Value>, result: Datum,
                                        env: Env, args: Args)
    requires Distinct(sc) && Encodes(sc, start, names) && Generate(sc, x, start).Some?
    requires Extends(all + [packs], Generate(sc, x, start).value.1) && Held(sc, all, b, env, args)
    requires var vs := Repeated(sc.ellipsis, x, b);
             PackNames(sc, all, packs, pn, vs) && Uniform(vs, b, n) && k <= n
    requires Packed(b, pn, values, k) && values != []
    ensures Iterate(Generate(sc, x, start).value.0, values, result, env, args) ==
      Prepended(InstantiateEach(sc.ellipsis, x, b, n, k), Some(result))
    decreases Size(x), 4, k
  {
    hide SizeAll, Size, Capture, Encodes, Chain, Held, Extends, Generate, Evaluate, Instantiate,
         InstantiateEach, Repeated, PackNames, Packed,
         Iterate, Heads, Tails, Prepend, RepresentAll, Uniform, Slice;
    var body := Generate(sc, x, start).value.0;
    var vs := Repeated(sc.ellipsis, x, b);
    if k == 0 {
      NoItems(b, pn, values);
      NoSteps(sc.ellipsis, x, b, n, body, values, result, env, args);
    } else {
      TakeItems(b, pn, values, k);
      IterateStep(body, values, result, env, args);
      EachStep(sc.ellipsis, x, b, n, k);
      PackedParts(b, pn, values, k);
      var row := Heads(values);
      var c := Slice(vs, b, n, k - 1);
      HeldInside(sc, all, packs, pn, vs, b, n, k - 1, row, env, args);
      GeneratedMeans(sc, x, start, names, all + [packs], c, env, args + [row]);
      var item := Instantiate(sc.ellipsis, x, c);
      if item.Some? {
        IterateMeans(sc, x, start, names, all, packs, pn, b, n, k - 1, Tails(values), Pair(item.value, result), env,
                     args);
        var before := InstantiateEach(sc.ellipsis, x, b, n, k - 1);
        if before.Some? { PrependLast(before.value, item.value, result); }
      }
    }
  }

  lemma {:induction false} NoSteps(ellipsis: Bytes, x: Datum, b: Bound, n: nat, body: Code, values: seq<Value>,
                                   result: Datum,
                                   env: Env, args: Args)
    requires values != [] && !HasItem(values[0]) && NoneHasItems(values) && Uniform(Repeated(ellipsis, x, b), b, n)
    ensures Iterate(body, values, result, env, args) == Some(result)
    ensures Prepended(InstantiateEach(ellipsis, x, b, n, 0), Some(result)) == Some(result)
  {
  }

  lemma {:induction false} IterateStep(body: Code, values: seq<Value>, result: Datum, env: Env, args: Args)
    requires values != [] && AllHaveItems(values)
    ensures Iterate(body, values, result, env, args) ==
      match Evaluate(body, env, args + [Heads(values)])
      case Some(d) => Iterate(body, Tails(values), Pair(d, result), env, args)
      case None => None
  {
  }

  lemma {:induction false} EachStep(ellipsis: Bytes, x: Datum, b: Bound, n: nat, k: nat)
    requires Uniform(Repeated(ellipsis, x, b), b, n) && 0 < k <= n
    ensures InstantiateEach(ellipsis, x, b, n, k) ==
      Added(InstantiateEach(ellipsis, x, b, n, k - 1),
            Instantiate(ellipsis, x, Slice(Repeated(ellipsis, x, b), b, n, k - 1)))
  {
  }

  lemma {:induction false} PackedParts(b: Bound, pn: seq<Bytes>, values: seq<Value>, k: nat)
    requires Packed(b, pn, values, k)
    ensures |pn| == |values|
    ensures forall i :: 0 <= i < |pn| ==> pn[i] in b && b[pn[i]].Many? && k <= |b[pn[i]].items|
  {
  }

  lemma {:induction false} PrependLast(xs: seq<Datum>, d: Datum, r: Datum)
    ensures Prepend(xs + [d], r) == Prepend(xs, Pair(d, r))
  {
    PrependConcat(xs, [d], r);
    assert [d][1..] == [];
    assert Prepend([], r) == r;
  }

  lemma {:induction false} NoItems(b: Bound, pn: seq<Bytes>, values: seq<Value>)
    requires Packed(b, pn, values, 0) && values != []
    ensures !HasItem(values[0]) && NoneHasItems(values)
  {
    forall i | 0 <= i < |values|
      ensures values[i] == Pack([])
    {
      assert b[pn[i]].items[..0] == [];
    }
  }

  lemma {:induction false} TakeItems(b: Bound, pn: seq<Bytes>, values: seq<Value>, k: nat)
    requires Packed(b, pn, values, k) && k > 0
    ensures AllHaveItems(values) && Packed(b, pn, Tails(values), k - 1)
    ensures forall i :: 0 <= i < |pn| ==> Heads(values)[i] == Represent(b[pn[i]].items[k - 1])
  {
    forall i | 0 <= i < |values|
      ensures HasItem(values[i]) && values[i].items[0] == Represent(b[pn[i]].items[k - 1])
      ensures values[i].items[1..] == RepresentAll(b[pn[i]].items[..k - 1])
    {
      var items := b[pn[i]].items;
      RepresentLast(items[..k]);
      assert items[..k][..k - 1] == items[..k - 1];
    }
  }

  /** An expansion that ends well met packs of equal length. */
  lemma {:induction false} IterateUniform(body: Code, values: seq<Value>, result: Datum, env: Env, args: Args)
    requires values != [] && (forall i :: 0 <= i < |values| ==> values[i].Pack?)
    requires Iterate(body, values, result, env, args).Some?
    ensures forall i :: 0 <= i < |values| ==> |values[i].items| == |values[0].items|
    decreases |values[0].items|
  {
    if HasItem(values[0]) {
      var d := Evaluate(body, env, args + [Heads(values)]).value;
      var next := Tails(values);
      IterateUniform(body, next, Pair(d, result), env, args);
      forall i | 0 <= i < |values|
        ensures |values[i].items| == |values[0].items|
      {
        assert |next[i].items| == |next[0].items|;
      }
    }
  }

  lemma {:induction false} LoopMeans(sc: Scope, x: Datum, start: Stack, names: Captured, all: Stack, packs: seq<Ref>,
                                     pn: seq<Bytes>, b: Bound, result: Datum, env: Env, args: Args)
    requires Distinct(sc) && Encodes(sc, start, names) && Generate(sc, x, start).Some?
    requires Extends(all + [packs], Generate(sc, x, start).value.1) && Held(sc, all, b, env, args)
    requires PackNames(sc, all, packs, pn, Repeated(sc.ellipsis, x, b))
    ensures var vs := Repeated(sc.ellipsis, x, b);
            var values := ValuesOf(packs, env, args);
            vs != [] && values.Some? && values.value != [] &&
            Iterate(Generate(sc, x, start).value.0, values.value, result, env, args) ==
            if exists n: nat :: Uniform(vs, b, n) then
              Prepended(InstantiateEach(sc.ellipsis, x, b, Count(vs, b), Count(vs, b)), Some(result))
            else None
    decreases Size(x), 5
  {
    hide SizeAll, Size, Capture, Encodes, Chain, Held, Extends, Generate, Evaluate, Instantiate, Repeated, Iterate;
    var vs := Repeated(sc.ellipsis, x, b);
    var body := Generate(sc, x, start).value.0;
    PackValues(sc, all, packs, pn, b, env, args);
    var values := ValuesOf(packs, env, args).value;
    assert pn[0] in vs;
    forall v <- vs
      ensures v in b && b[v].Many?
    {
      ManyParts(sc, all, packs, pn, vs, b, env, args, v);
    }
    if exists n: nat :: Uniform(vs, b, n) {
      var n := Count(vs, b);
      FullPacks(b, pn, vs, values, n);
      IterateMeans(sc, x, start, names, all, packs, pn, b, n, n, values, result, env, args);
    } else if Iterate(body, values, result, env, args).Some? {
      IterateUniform(body, values, result, env, args);
      UniformPacks(b, pn, vs, values);
    }
  }

  lemma {:induction false} FullPacks(b: Bound, pn: seq<Bytes>, vs: seq<Bytes>, values: seq<Value>, n: nat)
    requires Uniform(vs, b, n) && |values| == |pn|
    requires forall i :: 0 <= i < |pn| ==> pn[i] in vs && pn[i] in b && values[i] == Represent(b[pn[i]])
    ensures Packed(b, pn, values, n)
  {
    forall i | 0 <= i < |pn|
      ensures pn[i] in b && b[pn[i]].Many? && n <= |b[pn[i]].items|
      ensures values[i] == Pack(RepresentAll(b[pn[i]].items[..n]))
    {
      var items := b[pn[i]].items;
      assert items[..n] == items;
    }
  }

  lemma {:induction false} UniformPacks(b: Bound, pn: seq<Bytes>, vs: seq<Bytes>, values: seq<Value>)
    requires |values| == |pn| > 0 && (forall v <- vs :: v in pn && v in b && b[v].Many?)
    requires forall i :: 0 <= i < |pn| ==> pn[i] in b && b[pn[i]].Many? && values[i] == Represent(b[pn[i]])
    requires forall i :: 0 <= i < |values| ==> values[i].Pack?
    requires forall i :: 0 <= i < |values| ==> |values[i].items| == |values[0].items|
    ensures Uniform(vs, b, |values[0].items|)
  {
    forall v <- vs
      ensures |b[v].items| == |values[0].items|
    {
      var i :| 0 <= i < |pn| && pn[i] == v;
      RepresentLength(b[v].items);
    }
  }

  lemma {:induction false} ExpandMeans(sc: Scope, t: Datum, stack: Stack, names: Captured, all: Stack,
                                       b: Bound, env: Env, args: Args)
    requires Distinct(sc) && Encodes(sc, stack, names) && Generate(sc, t, stack).Some? && Expands(sc.ellipsis, t)
    requires Extends(all, Generate(sc, t, stack).value.1) && Held(sc, all, b, env, args)
    ensures Evaluate(Generate(sc, t, stack).value.0, env, args) == Instantiate(sc.ellipsis, t, b)
    decreases Size(t), 2
  {
    hide SizeAll, Prepend, Capture, Encodes, Chain, Held, Extends, PackNames, Iterate, LevelEncodes;
    var x, rest := t.car, t.cdr.cdr;
    assert Size(t.cdr) == 1 + Size(t.cdr.car) + Size(rest);
    var o := Order(sc.ellipsis, sc.vars.Keys, rest);
    var q := Order(sc.ellipsis, sc.vars.Keys, x);
    var (cdr, mid) := Generate(sc, rest, stack).value;
    var (body, end) := Generate(sc, x, mid + [[]]).value;
    var inner := AllAfter(names, o);
    var packs := end[|stack|];
    GeneratesExactly(sc, rest, stack, names);
    EncodesEntered(sc, mid, inner);
    GeneratesExactly(sc, x, mid + [[]], inner + [[]]);
    EnteredFits(inner, q);
    EncodesLeft(sc, mid, end, inner, q);
    ExtendsTwice(mid, end[..|stack|], all);
    GeneratedMeans(sc, rest, stack, names, all, b, env, args);
    HeldKeys(sc, all, b, env, args);
    CapturedPacks(sc, x, mid, end, all, inner);
    GeneratesExactly(sc, t, stack, names);
    NoEscape(sc, t, |stack|);
    AllRepeated(sc, all, packs, After([], q), q, b, env, args);
    if Instantiate(sc.ellipsis, rest, b).Some? {
      LoopMeans(sc, x, mid + [[]], inner + [[]], all, packs, After([], q), b,
                Instantiate(sc.ellipsis, rest, b).value, env, args);
    }
  }

  /** All variables of a repeated part are repeated, since each is under as many ellipses as in the pattern. */
  lemma {:induction false} AllRepeated(sc: Scope, all: Stack, packs: seq<Ref>, pn: seq<Bytes>, vs: seq<Bytes>,
                                       b: Bound, env: Env, args: Args)
    requires Held(sc, all, b, env, args) && PackNames(sc, all, packs, pn, vs)
    ensures Repeating(vs, b) == vs
  {
    forall v <- vs ensures v in b && b[v].Many? {
      ManyParts(sc, all, packs, pn, vs, b, env, args, v);
    }
    RepeatingAll(vs, b);
  }

  lemma {:induction false} RepeatingAll(o: seq<Bytes>, b: Bound)
    requires forall v <- o :: v in b && b[v].Many?
    ensures Repeating(o, b) == o
  {
    if o != [] {
      assert o[0] in o;
      RepeatingAll(o[1..], b);
    }
  }

  lemma {:induction false} CapturedPacks(sc: Scope, x: Datum, mid: Stack, end: Stack, all: Stack, names: Captured)
    requires |end| == |mid| + 1 && |names| == |mid| && Extends(all, end[..|mid|]) && end[|mid|] != []
    requires WellPlaced(sc, x, |mid| + 1)
    requires var q := Order(sc.ellipsis, sc.vars.Keys, x);
             LevelEncodes(sc, end, AllAfter(names, q) + [After([], q)], |mid|)
    ensures var q := Order(sc.ellipsis, sc.vars.Keys, x);
            PackNames(sc, all, end[|mid|], After([], q), q) && Extends(all + [end[|mid|]], end)
  {
    hide Order, WellPlaced;
    var q := Order(sc.ellipsis, sc.vars.Keys, x);
    var pn := After([], q);
    FitsNotLate(q);
    OrderDeep(sc, x, |mid| + 1);
    assert (AllAfter(names, q) + [pn])[|mid|] == pn;
    forall l | 0 <= l < |end|
      ensures end[l] <= (all + [end[|mid|]])[l]
    {
      if l < |mid| { assert end[..|mid|][l] == end[l]; }
    }
    forall i | 0 <= i < |pn|
      ensures pn[i] in q && pn[i] in sc.vars && Chain(sc, all, pn[i], |all|) == Some(end[|mid|][i])
    {
      ChainStays(sc, end, all, pn[i], |mid|);
    }
  }
}
