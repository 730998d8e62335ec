/** The length of a list that may be circular (length_helper in schir/lib/Builtins.cpp). */
module ListLength {

  class Pair {
    var car: Val
    var cdr: Val

    constructor (a: Val, d: Val)
      ensures car == a && cdr == d
    {
      car := a;
      cdr := d;
    }
  }

  datatype Val = Empty | Ref(pair: Pair) | Other(tag: int)

  /** A number, or the null value for what is not a list. */
  datatype Result = Null | Int(value: int)

  /** The pairs of a heap. */
  ghost predicate Closed(heap: set<Pair>)
    reads heap
  {
    forall p :: p in heap ==> Within(heap, p.cdr)
  }

  predicate Within(heap: set<Pair>, v: Val) { v.Ref? ==> v.pair in heap }

  /** What k steps down the cdrs of v lead to, stopping at the end. */
  ghost function Nth(heap: set<Pair>, v: Val, k: nat): (r: Val)
    requires Closed(heap) && Within(heap, v)
    reads heap
    ensures Within(heap, r)
  {
    if k == 0 then v else
      var u := Nth(heap, v, k - 1);
      if u.Ref? then u.pair.cdr else u
  }

  /** v has n pairs in a row and then something else. */
  ghost predicate EndsAt(heap: set<Pair>, v: Val, n: nat)
    requires Closed(heap) && Within(heap, v)
    reads heap
  {
    !Nth(heap, v, n).Ref? && forall k :: 0 <= k < n ==> Nth(heap, v, k).Ref?
  }

  ghost predicate ProperList(heap: set<Pair>, v: Val, n: nat)
    requires Closed(heap) && Within(heap, v)
    reads heap
  {
    EndsAt(heap, v, n) && Nth(heap, v, n) == Empty
  }

  ghost predicate ImproperList(heap: set<Pair>, v: Val, n: nat)
    requires Closed(heap) && Within(heap, v)
    reads heap
  {
    EndsAt(heap, v, n) && Nth(heap, v, n) != Empty
  }

  ghost predicate Circular(heap: set<Pair>, v: Val)
    requires Closed(heap) && Within(heap, v)
    reads heap
  {
    forall k :: 0 <= k ==> Nth(heap, v, k).Ref?
  }

  // ---------------------------------------------------------------- walks

  lemma {:induction false} NthAdd(heap: set<Pair>, v: Val, j: nat, k: nat)
    requires Closed(heap) && Within(heap, v)
    ensures Nth(heap, v, j + k) == Nth(heap, Nth(heap, v, j), k)
  {
    if k > 0 {
      NthAdd(heap, v, j, k - 1);
    }
  }

  /** Past the end there is nothing else. */
  lemma {:induction false} Stays(heap: set<Pair>, v: Val, j: nat, k: nat)
    requires Closed(heap) && Within(heap, v) && j <= k && !Nth(heap, v, j).Ref?
    ensures Nth(heap, v, k) == Nth(heap, v, j)
  {
    if j < k {
      Stays(heap, v, j, k - 1);
    }
  }

  lemma {:induction false} AllBefore(heap: set<Pair>, v: Val, n: nat)
    requires Closed(heap) && Within(heap, v) && Nth(heap, v, n).Ref?
    ensures forall k :: 0 <= k <= n ==> Nth(heap, v, k).Ref?
  {
    forall k | 0 <= k <= n ensures Nth(heap, v, k).Ref? {
      if !Nth(heap, v, k).Ref? {
        Stays(heap, v, k, n);
      }
    }
  }

  /** Two walks that have met go on together, so neither ends. */
  lemma {:induction false} MeetingIsCircular(heap: set<Pair>, v: Val, k: nat)
    requires Closed(heap) && Within(heap, v) && k > 0
    requires Nth(heap, v, k).Ref? && Nth(heap, v, k) == Nth(heap, v, 2 * k)
    ensures Circular(heap, v)
  {
    forall i | 0 <= i ensures Nth(heap, v, i).Ref? {
      NeverEnds(heap, v, k, i);
    }
  }

  lemma {:induction false} NeverEnds(heap: set<Pair>, v: Val, k: nat, i: nat)
    requires Closed(heap) && Within(heap, v) && k > 0
    requires Nth(heap, v, k).Ref? && Nth(heap, v, k) == Nth(heap, v, 2 * k)
    ensures Nth(heap, v, i).Ref?
  {
    AllBefore(heap, v, 2 * k);
    if i > 2 * k {
      NeverEnds(heap, v, k, i - k);
      NthAdd(heap, v, 2 * k, i - 2 * k);
      NthAdd(heap, v, k, i - 2 * k);
      assert k + (i - 2 * k) == i - k;
    }
  }

  /** A list is proper, improper or circular, only one of them, and has only one length. */
  lemma {:induction false} Trichotomy(heap: set<Pair>, v: Val, m: nat, n: nat)
    requires Closed(heap) && Within(heap, v) && EndsAt(heap, v, m)
    ensures EndsAt(heap, v, n) ==> m == n
    ensures !Circular(heap, v)
    ensures ProperList(heap, v, m) != ImproperList(heap, v, m)
  {}

  // ---------------------------------------------------------------- the meeting point

  lemma {:induction false} Pigeonhole(heap: set<Pair>, s: seq<Pair>) returns (i: nat, j: nat)
    requires (forall k :: 0 <= k < |s| ==> s[k] in heap) && |s| > |heap|
    ensures i < j < |s| && s[i] == s[j]
    decreases |s|
  {
    if x :| 0 <= x < |s| - 1 && s[x] == s[|s| - 1] {
      i, j := x, |s| - 1;
    } else {
      var last := s[|s| - 1];
      assert |heap - {last}| == |heap| - 1;
      i, j := Pigeonhole(heap - {last}, s[..|s| - 1]);
    }
  }

  ghost function Walk(heap: set<Pair>, v: Val, n: nat): (s: seq<Pair>)
    requires Closed(heap) && Within(heap, v) && forall k :: 0 <= k < n ==> Nth(heap, v, k).Ref?
    reads heap
    ensures |s| == n && forall k :: 0 <= k < n ==> s[k] == Nth(heap, v, k).pair && s[k] in heap
  {
    if n == 0 then [] else Walk(heap, v, n - 1) + [Nth(heap, v, n - 1).pair]
  }

  lemma {:induction false} Repeats(heap: set<Pair>, v: Val, i: nat, p: nat, k: nat, t: nat)
    requires Closed(heap) && Within(heap, v) && i <= k && Nth(heap, v, i) == Nth(heap, v, i + p)
    ensures Nth(heap, v, k) == Nth(heap, v, k + t * p)
  {
    if t > 0 {
      Repeats(heap, v, i, p, k, t - 1);
      var d := (t - 1) * p;
      assert t * p == d + p;
      NthAdd(heap, v, i, k + d - i);
      NthAdd(heap, v, i + p, k + d - i);
      assert i + (k + d - i) == k + d && i + p + (k + d - i) == k + t * p;
    }
  }

  /** After some number of steps the list has ended, or the fast cursor, which has
      taken twice as many, is where the slow one is. */
  lemma {:induction false} Meeting(heap: set<Pair>, v: Val) returns (b: nat)
    requires Closed(heap) && Within(heap, v)
    ensures Nth(heap, v, b).Ref? ==> b > 0 && Nth(heap, v, b) == Nth(heap, v, 2 * b)
  {
    var n := |heap| + 1;
    if Nth(heap, v, n).Ref? {
      AllBefore(heap, v, n);
      var i, j := Pigeonhole(heap, Walk(heap, v, n));
      var p := j - i;
      b := p * (i + 1);
      assert b >= i + 1;
      Repeats(heap, v, i, p, b, i + 1);
      assert b + (i + 1) * p == 2 * b;
    } else {
      b := n;
    }
  }

  // ---------------------------------------------------------------- the loop

  /** The fast cursor, which may be null. */
  datatype Cursor = NullCursor | At(value: Val)

  /** Value::cdr, which is null unless the value is a pair. */
  function Cdr(v: Val): Cursor
    reads if v.Ref? then {v.pair} else {}
  {
    if v.Ref? then At(v.pair.cdr) else NullCursor
  }

  /** The fast cursor after k rounds: null once there was no pair to step over. */
  ghost function FastCursor(heap: set<Pair>, v: Val, k: nat): Cursor
    requires Closed(heap) && Within(heap, v)
    reads heap
  {
    if k > 0 && !Nth(heap, v, 2 * k - 1).Ref? then NullCursor else At(Nth(heap, v, 2 * k))
  }

  lemma {:induction false} FastStep(heap: set<Pair>, v: Val, k: nat)
    requires Closed(heap) && Within(heap, v)
    ensures var fast := FastCursor(heap, v, k);
      FastCursor(heap, v, k + 1) == if fast.At? && fast.value.Ref? then Cdr(fast.value.pair.cdr) else NullCursor
  {
    var fast := FastCursor(heap, v, k);
    if fast.NullCursor? {
      Stays(heap, v, 2 * k - 1, 2 * k + 1);
    } else if !fast.value.Ref? {
      Stays(heap, v, 2 * k, 2 * k + 1);
    } else {
      assert Nth(heap, v, 2 * k + 1) == fast.value.pair.cdr;
    }
    assert 2 * (k + 1) - 1 == 2 * k + 1;
  }

  lemma {:induction false} Met(heap: set<Pair>, v: Val, k: nat)
    requires Closed(heap) && Within(heap, v) && k > 0 && FastCursor(heap, v, k) == At(Nth(heap, v, k))
    ensures Circular(heap, v)
  {
    if !Nth(heap, v, k).Ref? {
      Stays(heap, v, k, 2 * k - 1);
    }
    MeetingIsCircular(heap, v, k);
  }

  lemma {:induction false} NotMet(heap: set<Pair>, v: Val, k: nat)
    requires Closed(heap) && Within(heap, v) && k > 0 && FastCursor(heap, v, k) != At(Nth(heap, v, k))
    ensures Nth(heap, v, k).Ref? ==> Nth(heap, v, k) != Nth(heap, v, 2 * k)
  {
    if Nth(heap, v, 2 * k).Ref? {
      AllBefore(heap, v, 2 * k);
    }
  }

  /** The length of a proper list, -1 for a circular one, null for an improper one. */
  method LengthHelper(v: Val, ghost heap: set<Pair>) returns (r: Result)
    requires Closed(heap) && Within(heap, v)
    ensures match r
            case Int(n) => if n >= 0 then ProperList(heap, v, n) else n == -1 && Circular(heap, v)
            case Null => exists n :: ImproperList(heap, v, n)
    ensures Circular(heap, v) ==> r == Int(-1)
    ensures forall n: nat :: (ProperList(heap, v, n) ==> r == Int(n)) && (ImproperList(heap, v, n) ==> r == Null)
  {
    ghost var b := Meeting(heap, v);
    var cur, fast, count := v, At(v), 0;
    while cur != Empty
      invariant 0 <= count <= b && cur == Nth(heap, v, count) && (cur.Ref? ==> count < b)
      invariant forall k :: 0 <= k < count ==> Nth(heap, v, k).Ref?
      invariant fast == FastCursor(heap, v, count)
      decreases b - count
    {
      if !cur.Ref? {
        assert ImproperList(heap, v, count);
        return Null;
      }
      FastStep(heap, v, count);
      cur := cur.pair.cdr;
      fast := if fast.At? && fast.value.Ref? then Cdr(fast.value.pair.cdr) else NullCursor;
      count := count + 1;
      if fast == At(cur) {
        Met(heap, v, count);
        return Int(-1);
      }
      NotMet(heap, v, count);
    }
    r := Int(count);
  }
}
