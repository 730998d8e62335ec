/** Lists among the data, and the operation that turns a list into a vector (ToVectorOp in
    schir/lib/OpEval.cpp). */
module DatumLists {
  import opened Options
  import opened Utf8
  import opened Printing

  /** The elements xs in front of r. */
  function Prepend(xs: seq<Datum>, r: Datum): (p: Datum)
    ensures Size(p) == SizeAll(xs) - 1 + Size(r)
  {
    if xs == [] then r else Pair(xs[0], Prepend(xs[1..], r))
  }

  function ListOf(xs: seq<Datum>): (r: Datum)
    ensures Size(r) == SizeAll(xs)
  {
    Prepend(xs, Empty)
  }

  /** The elements of a list. */
  function Cars(d: Datum): seq<Datum> { if d.Pair? then [d.car] + Cars(d.cdr) else [] }

  /** What follows the last pair. */
  function Terminator(d: Datum): Datum { if d.Pair? then Terminator(d.cdr) else d }

  predicate ProperList(d: Datum) { Terminator(d) == Empty }

  function Pairing(x: Datum, y: Datum): (r: Datum)
    ensures ProperList(r) && Size(r) == 3 + Size(x) + Size(y)
  {
    var tail := Pair(y, Empty);
    assert Terminator(tail) == Empty && Size(tail) == 2 + Size(y);
    Pair(x, tail)
  }

  ghost function Size(d: Datum): (n: nat)
    decreases d, 0
    ensures n > 0
  {
    match d
    case Pair(car, cdr) => 1 + Size(car) + Size(cdr)
    case Vector(xs) => 2 + SizeAll(xs)
    case _ => 1
  }

  ghost function SizeAll(xs: seq<Datum>): (n: nat)
    decreases xs, 0
    ensures n > 0
  {
    if xs == [] then 1 else 1 + Size(xs[0]) + SizeAll(xs[1..])
  }

  lemma {:induction false} CarsOfPrepend(xs: seq<Datum>, r: Datum)
    ensures Cars(Prepend(xs, r)) == xs + Cars(r) && Terminator(Prepend(xs, r)) == Terminator(r)
  {
    if xs != [] {
      CarsOfPrepend(xs[1..], r);
      assert [xs[0]] + (xs[1..] + Cars(r)) == xs + Cars(r);
    } else {
      assert xs + Cars(r) == Cars(r);
    }
  }

  lemma {:induction false} PrependCars(d: Datum)
    ensures d == Prepend(Cars(d), Terminator(d))
  {
    if d.Pair? {
      PrependCars(d.cdr);
      assert Cars(d)[1..] == Cars(d.cdr);
    }
  }

  lemma {:induction false} PrependConcat(xs: seq<Datum>, ys: seq<Datum>, r: Datum)
    ensures Prepend(xs + ys, r) == Prepend(xs, Prepend(ys, r))
  {
    if xs == [] {
      assert xs + ys == ys;
    } else {
      PrependConcat(xs[1..], ys, r);
      assert (xs + ys)[1..] == xs[1..] + ys;
    }
  }

  lemma {:induction false} PrependInjective(xs: seq<Datum>, r: Datum, q: Datum)
    requires Prepend(xs, r) == Prepend(xs, q)
    ensures r == q
  {
    if xs != [] { PrependInjective(xs[1..], r, q); }
  }

  lemma {:induction false} ListsSame(xs: seq<Datum>, ys: seq<Datum>)
    requires ListOf(xs) == ListOf(ys)
    ensures xs == ys
  {
    CarsOfPrepend(xs, Empty);
    CarsOfPrepend(ys, Empty);
    assert xs + Cars(Empty) == xs && ys + Cars(Empty) == ys;
  }

  function ToVector(d: Datum): Option<Datum> {
    if ProperList(d) then Some(Vector(Cars(d))) else None
  }

  lemma {:induction false} CarsAfter(xs: seq<Datum>, d: Datum)
    requires d.Pair?
    ensures xs + [d.car] + Cars(d.cdr) == xs + Cars(d)
  {
    assert xs + [d.car] + Cars(d.cdr) == xs + ([d.car] + Cars(d.cdr));
  }

  lemma {:induction false} CarsEnd(d: Datum)
    requires !d.Pair?
    ensures Cars(d) == []
  {
  }

  /** The loop of ToVectorOp. */
  method CollectVector(d: Datum) returns (result: Option<Datum>)
    ensures result == ToVector(d)
  {
    if d.Empty? { return Some(Vector([])); }
    if !d.Pair? { return None; }
    var xs: seq<Datum> := [];
    var next := d;
    while next.Pair?
      invariant xs + Cars(next) == Cars(d) && Terminator(next) == Terminator(d)
      decreases next
    {
      xs := xs + [next.car];
      next := next.cdr;
    }
    assert xs == Cars(d);
    result := if next.Empty? then Some(Vector(xs)) else None;
  }
}
