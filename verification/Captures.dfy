/** Captures across nested functions: what the emitted loads and closures have to satisfy, and what
    they evaluate to (LambdaOp, PushContOp and LoadRefOp in schir/lib/OpEval.cpp). */
module Captures {
  import opened Options
  import opened Utf8

  /** The number of an IR value, and of a function or an if. */
  type Id = nat

  /** A run-time value. */
  type Value = int

  /** Define stands for any operation with a result of its own, Load reads a capture of the running
      function, Close makes the closure of a function, and Branch is one side of an if. */
  datatype Op =
    | Define(result: Id)
    | Load(result: Id, index: nat)
    | Close(target: Id, captures: seq<Id>)
    | Branch(ops: seq<Op>)

  datatype Function = Function(captures: seq<Id>, body: seq<Op>)

  type Functions = map<Id, Function>

  // ---------------------------------------------------------------- running

  type Frame = map<Id, Value>

  function Lookup(frame: Frame, ids: seq<Id>): (r: Option<seq<Value>>)
    ensures r.Some? ==> |r.value| == |ids|
  {
    if ids == [] then Some([])
    else
      match Lookup(frame, ids[1..])
      case Some(rest) => if ids[0] in frame then Some([frame[ids[0]]] + rest) else None
      case None => None
  }

  function Merged(x: Option<Frame>, y: Option<Frame>): Option<Frame> {
    if x.Some? && y.Some? then Some(x.value + y.value) else None
  }

  /** Runs the operations of function f from the given frame, each branch by itself, and each closure they
      make. The result has the values met anywhere, where the results of Define are as in def; None is a
      load without a capture, or a use of a value that is not there. */
  function Run(functions: Functions, limit: Id, f: Id, ops: seq<Op>, frame: Frame, captures: seq<Value>,
               def: Id -> Value): Option<Frame>
    decreases limit - f, ops
  {
    if ops == [] then Some(frame)
    else
      match ops[0]
      case Define(r) => Run(functions, limit, f, ops[1..], frame[r := def(r)], captures, def)
      case Load(r, i) =>
        if i < |captures| then Run(functions, limit, f, ops[1..], frame[r := captures[i]], captures, def) else None
      case Close(g, ids) =>
        var values := Lookup(frame, ids);
        if f < g < limit && g in functions && values.Some? then
          Merged(Run(functions, limit, g, functions[g].body, map[], values.value, def),
                 Run(functions, limit, f, ops[1..], frame, captures, def))
        else None
      case Branch(b) =>
        Merged(Run(functions, limit, f, b, frame, captures, def),
               Run(functions, limit, f, ops[1..], frame, captures, def))
  }

  // ---------------------------------------------------------------- well-formed code

  /** The definition that each value stands for. */
  type Origins = map<Id, Id>

  ghost predicate SameOrigin(origin: Origins, x: Id, y: Id) { x in origin && y in origin && origin[x] == origin[y] }

  /** The values that the operations themselves put into the frame. */
  ghost function Results(ops: seq<Op>): set<Id> {
    if ops == [] then {}
    else
      (match ops[0] case Define(r) => {r} case Load(r, _) => {r} case _ => {}) + Results(ops[1..])
  }

  /** Uses are available, loads stand for what they load, and closures capture what their functions expect. */
  ghost predicate CodeOk(functions: Functions, limit: Id, origin: Origins, f: Id, captures: seq<Id>,
                         ops: seq<Op>, available: set<Id>)
    decreases ops
  {
    ops == [] ||
    match ops[0]
    case Define(r) =>
      SameOrigin(origin, r, r) && origin[r] == r &&
      CodeOk(functions, limit, origin, f, captures, ops[1..], available + {r})
    case Load(r, i) =>
      i < |captures| && SameOrigin(origin, r, captures[i]) &&
      CodeOk(functions, limit, origin, f, captures, ops[1..], available + {r})
    case Close(g, ids) =>
      f < g < limit && g in functions && functions[g].captures == ids &&
      (forall id <- ids :: id in available) &&
      CodeOk(functions, limit, origin, f, captures, ops[1..], available)
    case Branch(b) =>
      CodeOk(functions, limit, origin, f, captures, b, available) &&
      CodeOk(functions, limit, origin, f, captures, ops[1..], available)
  }

  ghost predicate FunctionOk(functions: Functions, limit: Id, origin: Origins, f: Id)
    requires f in functions
  {
    CodeOk(functions, limit, origin, f, functions[f].captures, functions[f].body, {})
  }

  ghost predicate FunctionsOk(functions: Functions, limit: Id, origin: Origins) {
    forall f <- functions.Keys :: f < limit && FunctionOk(functions, limit, origin, f)
  }

  /** Each value is that of the definition it stands for. */
  ghost predicate ValuesOk(origin: Origins, frame: Frame, def: Id -> Value) {
    forall id <- frame.Keys :: id in origin && frame[id] == def(origin[id])
  }

  ghost predicate CapturesRight(origin: Origins, captures: seq<Id>, values: seq<Value>, def: Id -> Value) {
    |values| == |captures| &&
    forall i :: 0 <= i < |captures| ==> captures[i] in origin && values[i] == def(origin[captures[i]])
  }

  lemma {:induction false} LookupRight(origin: Origins, frame: Frame, ids: seq<Id>, def: Id -> Value)
    requires ValuesOk(origin, frame, def) && forall id <- ids :: id in frame
    ensures Lookup(frame, ids).Some? && CapturesRight(origin, ids, Lookup(frame, ids).value, def)
  {
    if ids != [] {
      LookupRight(origin, frame, ids[1..], def);
      assert ids[0] in ids;
    }
  }

  /** Well-formed code runs, and every value met in it, in any branch and in any function it closes over,
      is the value of the definition it stands for. */
  lemma {:induction false} RunsRight(functions: Functions, limit: Id, origin: Origins, f: Id, captures: seq<Id>,
                                     ops: seq<Op>, available: set<Id>, frame: Frame, values: seq<Value>,
                                     def: Id -> Value)
    requires FunctionsOk(functions, limit, origin)
    requires CodeOk(functions, limit, origin, f, captures, ops, available)
    requires ValuesOk(origin, frame, def) && available <= frame.Keys
    requires CapturesRight(origin, captures, values, def)
    ensures var r := Run(functions, limit, f, ops, frame, values, def);
            r.Some? && ValuesOk(origin, r.value, def) && frame.Keys + Results(ops) <= r.value.Keys
    decreases limit - f, ops
  {
    if ops != [] {
      var rest := ops[1..];
      match ops[0]
      case Define(r) =>
        RunsRight(functions, limit, origin, f, captures, rest, available + {r}, frame[r := def(r)], values, def);
      case Load(r, i) =>
        RunsRight(functions, limit, origin, f, captures, rest, available + {r}, frame[r := values[i]], values, def);
      case Close(g, ids) =>
        LookupRight(origin, frame, ids, def);
        assert FunctionOk(functions, limit, origin, g);
        RunsRight(functions, limit, origin, g, ids, functions[g].body, {}, map[], Lookup(frame, ids).value, def);
        RunsRight(functions, limit, origin, f, captures, rest, available, frame, values, def);
      case Branch(b) =>
        RunsRight(functions, limit, origin, f, captures, b, available, frame, values, def);
        RunsRight(functions, limit, origin, f, captures, rest, available, frame, values, def);
    }
  }

  // ---------------------------------------------------------------- growing code

  ghost predicate FunctionsGrow(was: Functions, functions: Functions) {
    forall f <- was.Keys :: f in functions && functions[f].captures == was[f].captures
  }

  ghost predicate OriginsGrow(was: Origins, origin: Origins) {
    forall id <- was.Keys :: id in origin && origin[id] == was[id]
  }

  /** Code stays well formed when there are more functions, values and captures. */
  lemma {:induction false} CodeStays(functions: Functions, limit: Id, origin: Origins, f: Id, captures: seq<Id>,
                                     ops: seq<Op>, available: set<Id>,
                                     functions': Functions, limit': Id, origin': Origins, captures': seq<Id>,
                                     available': set<Id>)
    requires CodeOk(functions, limit, origin, f, captures, ops, available)
    requires FunctionsGrow(functions, functions') && limit <= limit' && OriginsGrow(origin, origin')
    requires captures <= captures' && available <= available'
    ensures CodeOk(functions', limit', origin', f, captures', ops, available')
    decreases ops
  {
    if ops != [] {
      var rest := ops[1..];
      match ops[0]
      case Define(r) => CodeStays(functions, limit, origin, f, captures, rest, available + {r}, functions', limit',
                                  origin', captures', available' + {r});
      case Load(r, i) => CodeStays(functions, limit, origin, f, captures, rest, available + {r}, functions', limit',
                                   origin', captures', available' + {r});
      case Close(g, ids) => CodeStays(functions, limit, origin, f, captures, rest, available, functions', limit',
                                      origin', captures', available');
      case Branch(b) =>
        CodeStays(functions, limit, origin, f, captures, b, available, functions', limit', origin', captures',
                  available');
        CodeStays(functions, limit, origin, f, captures, rest, available, functions', limit', origin', captures',
                  available');
    }
  }

  lemma {:induction false} ResultsConcat(xs: seq<Op>, ys: seq<Op>)
    ensures Results(xs + ys) == Results(xs) + Results(ys)
  {
    if xs == [] {
      assert xs + ys == ys;
    } else {
      ResultsConcat(xs[1..], ys);
      assert (xs + ys)[1..] == xs[1..] + ys;
    }
  }

  lemma {:induction false} CodeConcat(functions: Functions, limit: Id, origin: Origins, f: Id, captures: seq<Id>,
                                      xs: seq<Op>, ys: seq<Op>, available: set<Id>)
    ensures CodeOk(functions, limit, origin, f, captures, xs + ys, available) <==>
      CodeOk(functions, limit, origin, f, captures, xs, available) &&
      CodeOk(functions, limit, origin, f, captures, ys, available + Results(xs))
    decreases xs
  {
    if xs == [] {
      assert xs + ys == ys;
      assert available + Results(xs) == available;
    } else {
      var rest := xs[1..];
      assert (xs + ys)[1..] == rest + ys;
      var own: set<Id> := match xs[0] case Define(r) => {r} case Load(r, _) => {r} case _ => {};
      CodeConcat(functions, limit, origin, f, captures, rest, ys, available + own);
      assert available + own + Results(rest) == available + Results(xs);
      assert available + {} == available;
    }
  }
}
