/**
 Optimistic replication (nbdl/include/nbdl/local_version.hpp) on fieldwise deltas
 (nbdl/include/nbdl/delta.hpp).

 An entity is a list of fields.  A delta holds a new value for some of them.
 */
module LocalVersions {
  import opened Options

  type Entity<V> = seq<V>

  type Delta<V> = seq<Option<V>>

  // ---------------------------------------------------------------- deltas

  /** The entity after a delta. */
  function Applied<V>(d: Delta<V>, x: Entity<V>): (y: Entity<V>)
    requires |d| == |x|
    ensures |y| == |x|
  {
    seq(|x|, i requires 0 <= i < |x| => if d[i].Some? then d[i].value else x[i])
  }

  /** The delta e after a delta d is applied to it. */
  function Composed<V>(d: Delta<V>, e: Delta<V>): (y: Delta<V>)
    requires |d| == |e|
    ensures |y| == |e|
  {
    seq(|e|, i requires 0 <= i < |e| => if d[i].Some? then d[i] else e[i])
  }

  function NoChange<V>(n: nat): (d: Delta<V>)
    ensures |d| == n
  {
    seq(n, i => None)
  }

  /** make_delta of one entity. */
  function FullDelta<V>(a: Entity<V>): (d: Delta<V>)
    ensures |d| == |a|
  {
    seq(|a|, i requires 0 <= i < |a| => Some(a[i]))
  }

  /** make_delta of two entities. */
  function MakeDelta<V(==)>(a: Entity<V>, b: Entity<V>): (d: Delta<V>)
    requires |a| == |b|
    ensures |d| == |a|
  {
    seq(|a|, i requires 0 <= i < |a| => if a[i] != b[i] then Some(a[i]) else None)
  }

  /** The delta of two entities takes the second to the first, and no delta that
      does so changes fewer fields. */
  lemma {:induction false} MakeDeltaLeast<V>(a: Entity<V>, b: Entity<V>, d: Delta<V>)
    requires |a| == |b| == |d|
    ensures Applied(MakeDelta(a, b), b) == a
    ensures Applied(d, b) == a ==> forall i :: 0 <= i < |d| && MakeDelta(a, b)[i].Some? ==> d[i] == MakeDelta(a, b)[i]
    ensures Applied(FullDelta(a), b) == a
  {
    if Applied(d, b) == a {
      forall i | 0 <= i < |d| && MakeDelta(a, b)[i].Some? ensures d[i] == MakeDelta(a, b)[i] {
        assert Applied(d, b)[i] == a[i];
      }
    }
  }

  lemma {:induction false} AppliedComposed<V>(d: Delta<V>, e: Delta<V>, x: Entity<V>)
    requires |d| == |e| == |x|
    ensures Applied(Composed(d, e), x) == Applied(d, Applied(e, x))
  {}

  /** Applying a delta again, or before a later delta that contains it, has no effect. */
  lemma {:induction false} AppliedAgain<V>(d: Delta<V>, e: Delta<V>, x: Entity<V>)
    requires |d| == |e| == |x|
    ensures Applied(Composed(d, e), Applied(d, x)) == Applied(Composed(d, e), x)
  {}

  lemma {:induction false} AppliedNoChange<V>(x: Entity<V>)
    ensures Applied(NoChange(|x|), x) == x
  {}

  /** apply_delta assigns fields in place and tells if any of them changed. */
  method ApplyDelta<V(==)>(d: Delta<V>, b: array<V>) returns (result: bool)
    requires |d| == b.Length
    modifies b
    ensures b[..] == Applied(d, old(b[..]))
    ensures result <==> b[..] != old(b[..])
  {
    result := false;
    for i := 0 to b.Length
      invariant forall k :: 0 <= k < i ==> b[k] == Applied(d, old(b[..]))[k]
      invariant forall k :: i <= k < b.Length ==> b[k] == old(b[k])
      invariant result <==> exists k :: 0 <= k < i && b[k] != old(b[k])
    {
      if d[i].Some? && d[i].value != b[i] {
        result := true;
        b[i] := d[i].value;
        assert b[i] != old(b[i]);
      }
    }
    if result {
      ghost var k :| 0 <= k < b.Length && b[k] != old(b[k]);
      assert b[..][k] != old(b[..])[k];
    } else {
      forall k | 0 <= k < b.Length ensures b[..][k] == old(b[..])[k] {}
    }
  }

  /** apply_delta to a delta. */
  method ApplyToDelta<V(==)>(d: Delta<V>, b: array<Option<V>>) returns (result: bool)
    requires |d| == b.Length
    modifies b
    ensures b[..] == Composed(d, old(b[..]))
    ensures result <==> b[..] != old(b[..])
  {
    result := ApplyDelta(seq(|d|, i requires 0 <= i < |d| => if d[i].Some? then Some(d[i]) else None), b);
  }

  // ---------------------------------------------------------------- protocol

  datatype Message<U, V> = Message(uid: U, delta: Delta<V>, confirmed: bool)

  datatype State<U(==), V> = State(value: Entity<V>, pending: Delta<V>, uids: set<U>)

  ghost predicate Fit<U, V>(n: nat, ms: seq<Message<U, V>>) {
    forall i :: 0 <= i < |ms| ==> |ms[i].delta| == n
  }

  function Step<U, V>(s: State<U, V>, m: Message<U, V>): (t: State<U, V>)
    requires |s.value| == |s.pending| == |m.delta|
    ensures |t.value| == |t.pending| == |s.value|
  {
    var pending := Composed(m.delta, s.pending);
    if !m.confirmed then State(Applied(m.delta, s.value), pending, s.uids + {m.uid})
    else if m.uid in s.uids then
      if s.uids == {m.uid} then State(Applied(pending, s.value), NoChange(|s.value|), {})
      else State(s.value, pending, s.uids - {m.uid})
    else State(Applied(m.delta, s.value), pending, s.uids)
  }

  /** The state after the messages arrive at a store that starts with x. */
  function Run<U, V>(x: Entity<V>, ms: seq<Message<U, V>>): (s: State<U, V>)
    requires Fit(|x|, ms)
    ensures |s.value| == |s.pending| == |x|
  {
    if ms == [] then State(x, NoChange(|x|), {})
    else
      var k := |ms| - 1;
      Step(Run(x, ms[..k]), ms[k])
  }

  /** Deltas applied in order. */
  function Fold<V>(x: Entity<V>, ds: seq<Delta<V>>): (y: Entity<V>)
    requires forall i :: 0 <= i < |ds| ==> |ds[i]| == |x|
    ensures |y| == |x|
  {
    if ds == [] then x else Applied(ds[|ds| - 1], Fold(x, ds[..|ds| - 1]))
  }

  /** All the deltas that arrived, local ones included. */
  function AllLog<U, V>(n: nat, ms: seq<Message<U, V>>): (ds: seq<Delta<V>>)
    requires Fit(n, ms)
    ensures forall i :: 0 <= i < |ds| ==> |ds[i]| == n
  {
    if ms == [] then [] else AllLog(n, ms[..|ms| - 1]) + [ms[|ms| - 1].delta]
  }

  /** The confirmed deltas in arrival order. */
  function ConfirmedLog<U, V>(n: nat, ms: seq<Message<U, V>>): (ds: seq<Delta<V>>)
    requires Fit(n, ms)
    ensures forall i :: 0 <= i < |ds| ==> |ds[i]| == n
  {
    if ms == [] then [] else
      var m := ms[|ms| - 1];
      ConfirmedLog(n, ms[..|ms| - 1]) + (if m.confirmed then [m.delta] else [])
  }

  lemma {:induction false} FoldSnoc<V>(x: Entity<V>, ds: seq<Delta<V>>, d: Delta<V>)
    requires (forall i :: 0 <= i < |ds| ==> |ds[i]| == |x|) && |d| == |x|
    ensures Fold(x, ds + [d]) == Applied(d, Fold(x, ds))
  {
    assert (ds + [d])[..|ds + [d]| - 1] == ds;
  }

  /** In every run: the value with the pending changes is all that arrived, in
      order; without local changes in flight so is the value itself. */
  lemma {:induction false} RunInvariant<U, V>(x: Entity<V>, ms: seq<Message<U, V>>)
    requires Fit(|x|, ms)
    ensures var s := Run(x, ms);
      && Applied(s.pending, s.value) == Fold(x, AllLog(|x|, ms))
      && (s.uids == {} ==> s.value == Fold(x, AllLog(|x|, ms)))
  {
    var n := |x|;
    if ms == [] {
      AppliedNoChange(x);
    } else {
      var k := |ms| - 1;
      var s, m := Run(x, ms[..k]), ms[k];
      RunInvariant(x, ms[..k]);
      FoldSnoc(x, AllLog(n, ms[..k]), m.delta);
      AppliedComposed(m.delta, s.pending, s.value);
      AppliedAgain(m.delta, s.pending, s.value);
      if m.confirmed && s.uids == {m.uid} {
        AppliedNoChange(Applied(Composed(m.delta, s.pending), s.value));
      }
    }
  }

  predicate Confirms<U(==), V>(l: Message<U, V>, c: Message<U, V>) {
    !l.confirmed && c.confirmed && l.uid == c.uid
  }

  /** Each own confirmation assigns every field that was submitted under its uid. */
  ghost predicate Covering<U, V>(n: nat, ms: seq<Message<U, V>>)
    requires Fit(n, ms)
  {
    forall i, j, f :: 0 <= i < j < |ms| && 0 <= f < n && Confirms(ms[i], ms[j]) ==>
      ms[i].delta[f].Some? ==> ms[j].delta[f].Some?
  }

  /** A local change of field f that is not confirmed yet. */
  ghost predicate InFlight<U, V>(n: nat, ms: seq<Message<U, V>>, uids: set<U>, f: nat)
    requires Fit(n, ms) && f < n
  {
    exists i :: 0 <= i < |ms| && !ms[i].confirmed && ms[i].uid in uids && ms[i].delta[f].Some?
  }

  // ---------------------------------------------------------------- convergence

  /** The uids of the local changes that are in flight after the messages. */
  function UidsOf<U, V>(ms: seq<Message<U, V>>): set<U> {
    if ms == [] then {}
    else
      var m := ms[|ms| - 1];
      if m.confirmed then UidsOf(ms[..|ms| - 1]) - {m.uid} else UidsOf(ms[..|ms| - 1]) + {m.uid}
  }

  lemma {:induction false} RunUids<U, V>(x: Entity<V>, ms: seq<Message<U, V>>)
    requires Fit(|x|, ms)
    ensures Run(x, ms).uids == UidsOf(ms)
  {
    if ms != [] { RunUids(x, ms[..|ms| - 1]); }
  }

  /** A uid is in flight exactly when it has a local change and no confirmation since. */
  lemma {:induction false} UidsExactly<U, V>(ms: seq<Message<U, V>>, uid: U)
    ensures uid in UidsOf(ms) <==> exists i :: 0 <= i < |ms| && IsOpen(ms, i, uid)
  {
    if ms != [] {
      var k := |ms| - 1;
      var r, m := ms[..k], ms[k];
      UidsExactly(r, uid);
      if m.uid == uid {
        if !m.confirmed { assert IsOpen(ms, k, uid); }
      } else {
        forall i | 0 <= i < k ensures IsOpen(ms, i, uid) <==> IsOpen(r, i, uid) {
          if IsOpen(ms, i, uid) {
            forall j | i < j < |r| ensures !(r[j].confirmed && r[j].uid == uid) { assert r[j] == ms[j]; }
          }
        }
      }
    }
  }

  /** The message at i is a local change that no later message confirms. */
  ghost predicate IsOpen<U, V>(ms: seq<Message<U, V>>, i: nat, uid: U)
    requires i < |ms|
  {
    !ms[i].confirmed && ms[i].uid == uid && forall j :: i < j < |ms| ==> !(ms[j].confirmed && ms[j].uid == uid)
  }

  /** The last message that assigns field f is confirmed, or none assigns it. */
  predicate LastConfirmed<U, V>(n: nat, ms: seq<Message<U, V>>, f: nat)
    requires Fit(n, ms) && f < n
  {
    ms == [] ||
    var m := ms[|ms| - 1];
    if m.delta[f].Some? then m.confirmed else LastConfirmed(n, ms[..|ms| - 1], f)
  }

  ghost predicate AllLastConfirmed<U, V>(n: nat, ms: seq<Message<U, V>>)
    requires Fit(n, ms)
  {
    forall f :: 0 <= f < n ==> LastConfirmed(n, ms, f)
  }

  /** The same messages except for the values they assign. */
  ghost predicate SameShape<U, V>(n: nat, ms: seq<Message<U, V>>, ms': seq<Message<U, V>>)
    requires Fit(n, ms) && Fit(n, ms')
  {
    |ms| == |ms'| &&
    forall i :: 0 <= i < |ms| ==> SameAssignments(ms[i], ms'[i])
  }

  ghost predicate SameAssignments<U, V>(m: Message<U, V>, m': Message<U, V>) {
    m'.uid == m.uid && m'.confirmed == m.confirmed && |m'.delta| == |m.delta| &&
    forall f :: 0 <= f < |m.delta| ==> (m'.delta[f].Some? <==> m.delta[f].Some?)
  }

  lemma {:induction false} ShapePrefix<U, V>(n: nat, ms: seq<Message<U, V>>, ms': seq<Message<U, V>>)
    requires Fit(n, ms) && Fit(n, ms') && SameShape(n, ms, ms') && ms != []
    ensures var k := |ms| - 1;
            SameShape(n, ms[..k], ms'[..k]) && SameAssignments(ms[k], ms'[k])
  {}

  lemma {:induction false} ShapeDecides<U, V>(n: nat, ms: seq<Message<U, V>>, ms': seq<Message<U, V>>, f: nat)
    requires Fit(n, ms) && Fit(n, ms') && SameShape(n, ms, ms') && f < n
    ensures LastConfirmed(n, ms, f) <==> LastConfirmed(n, ms', f)
    ensures UidsOf(ms) == UidsOf(ms')
  {
    if ms != [] {
      ShapePrefix(n, ms, ms');
      ShapeDecides(n, ms[..|ms| - 1], ms'[..|ms| - 1], f);
    }
  }

  /** A field whose last assignment is confirmed is as in the confirmed log. */
  lemma {:induction false} LastConfirmedAgrees<U, V>(x: Entity<V>, ms: seq<Message<U, V>>, f: nat)
    requires Fit(|x|, ms) && f < |x| && LastConfirmed(|x|, ms, f)
    ensures Fold(x, AllLog(|x|, ms))[f] == Fold(x, ConfirmedLog(|x|, ms))[f]
  {
    if ms != [] {
      var r, m := ms[..|ms| - 1], ms[|ms| - 1];
      LogsSnoc(x, ms, f);
      if !m.delta[f].Some? { LastConfirmedAgrees(x, r, f); }
    }
  }

  /** Field f in both logs, after one more message. */
  lemma {:induction false} LogsSnoc<U, V>(x: Entity<V>, ms: seq<Message<U, V>>, f: nat)
    requires Fit(|x|, ms) && f < |x| && ms != []
    ensures var r, m := ms[..|ms| - 1], ms[|ms| - 1];
            var all, confirmed := Fold(x, AllLog(|x|, r))[f], Fold(x, ConfirmedLog(|x|, r))[f];
            Fold(x, AllLog(|x|, ms))[f] == (if m.delta[f].Some? then m.delta[f].value else all) &&
            Fold(x, ConfirmedLog(|x|, ms))[f] ==
              (if m.confirmed && m.delta[f].Some? then m.delta[f].value else confirmed)
  {
    var r, m := ms[..|ms| - 1], ms[|ms| - 1];
    FoldSnoc(x, AllLog(|x|, r), m.delta);
    if m.confirmed {
      FoldSnoc(x, ConfirmedLog(|x|, r), m.delta);
    } else {
      assert ConfirmedLog(|x|, r) + [] == ConfirmedLog(|x|, r);
    }
  }

  /** The messages with v for what is confirmed and w for what is local. */
  function Marked<U, V>(n: nat, ms: seq<Message<U, V>>, v: V, w: V): (r: seq<Message<U, V>>)
    requires Fit(n, ms)
    ensures |r| == |ms| && Fit(n, r) && SameShape(n, ms, r)
    ensures forall i, f :: 0 <= i < |r| && 0 <= f < n && r[i].delta[f].Some? ==>
      r[i].delta[f].value == if r[i].confirmed then v else w
  {
    seq(|ms|, i requires 0 <= i < |ms| =>
      Message(ms[i].uid,
              seq(n, f requires 0 <= f < n =>
                if ms[i].delta[f].Some? then Some(if ms[i].confirmed then v else w) else None),
              ms[i].confirmed))
  }

  lemma {:induction false} MarkedDiffers<U, V>(x: Entity<V>, ms: seq<Message<U, V>>, v: V, w: V, f: nat)
    requires Fit(|x|, ms) && f < |x| && x[f] == v
    requires forall i :: 0 <= i < |ms| && ms[i].delta[f].Some? ==>
      ms[i].delta[f].value == if ms[i].confirmed then v else w
    ensures Fold(x, ConfirmedLog(|x|, ms))[f] == v
    ensures !LastConfirmed(|x|, ms, f) ==> Fold(x, AllLog(|x|, ms))[f] == w
  {
    if ms != [] {
      LogsSnoc(x, ms, f);
      MarkedDiffers(x, ms[..|ms| - 1], v, w, f);
    }
  }

  /** Whatever the initial and the assigned values are, field f ends as in the confirmed log. */
  ghost predicate FieldConverges<U(!new), V(!new)>(n: nat, ms: seq<Message<U, V>>, f: nat)
    requires Fit(n, ms) && f < n
  {
    forall x: Entity<V>, ms': seq<Message<U, V>> :: |x| == n && Fit(n, ms') && SameShape(n, ms, ms') ==>
      Run(x, ms').value[f] == Fold(x, ConfirmedLog(n, ms'))[f]
  }

  /** With no local change in flight, a field ends as in the confirmed log for all values exactly when its
      last assignment is confirmed, or there is none. */
  lemma {:induction false} ConvergesExactly<U(!new), V(!new)>(n: nat, ms: seq<Message<U, V>>, f: nat, v: V, w: V)
    requires Fit(n, ms) && f < n && UidsOf(ms) == {} && v != w
    ensures FieldConverges(n, ms, f) <==> LastConfirmed(n, ms, f)
  {
    if LastConfirmed(n, ms, f) {
      forall x: Entity<V>, ms': seq<Message<U, V>> | |x| == n && Fit(n, ms') && SameShape(n, ms, ms')
        ensures Run(x, ms').value[f] == Fold(x, ConfirmedLog(n, ms'))[f]
      {
        ShapeDecides(n, ms, ms', f);
        RunInvariant(x, ms');
        RunUids(x, ms');
        LastConfirmedAgrees(x, ms', f);
      }
    } else {
      var x := seq(n, i => v);
      var ms' := Marked(n, ms, v, w);
      ShapeDecides(n, ms, ms', f);
      RunInvariant(x, ms');
      RunUids(x, ms');
      MarkedDiffers(x, ms', v, w, f);
    }
  }

  /** Own confirmations that assign all that was submitted leave no field with an unconfirmed last
      assignment, but for what is in flight. */
  lemma {:induction false} CoveringConfirms<U, V>(n: nat, ms: seq<Message<U, V>>, f: nat)
    requires Fit(n, ms) && Covering(n, ms) && f < n
    ensures LastConfirmed(n, ms, f) || InFlight(n, ms, UidsOf(ms), f)
  {
    if ms != [] {
      var k := |ms| - 1;
      var r, m := ms[..k], ms[k];
      CoveringConfirms(n, r, f);
      if !m.delta[f].Some? {
        if InFlight(n, r, UidsOf(r), f) {
          var i :| 0 <= i < |r| && !r[i].confirmed && r[i].uid in UidsOf(r) && r[i].delta[f].Some?;
          assert ms[i] == r[i];
          assert ms[i].uid in UidsOf(ms);
        }
      } else if !m.confirmed {
        assert ms[k].uid in UidsOf(ms);
      }
    }
  }

  // ---------------------------------------------------------------- changes in flight

  /** How many messages had arrived when there was last no local change in flight. */
  function LastIdle<U(==), V>(ms: seq<Message<U, V>>): (j: nat)
    ensures j <= |ms| && UidsOf(ms[..j]) == {}
    ensures forall i :: j < i <= |ms| ==> UidsOf(ms[..i]) != {}
  {
    if UidsOf(ms) == {} then
      assert ms[..|ms|] == ms;
      |ms|
    else
      var r := ms[..|ms| - 1];
      var j := LastIdle(r);
      assert ms[..|ms|] == ms && forall i :: 0 <= i < |ms| ==> ms[..i] == r[..i];
      j
  }

  /** The message at i does not confirm a local change in flight. */
  predicate IsShown<U(==), V>(ms: seq<Message<U, V>>, i: nat)
    requires i < |ms|
  {
    !ms[i].confirmed || ms[i].uid !in UidsOf(ms[..i])
  }

  /** What the last message from the j-th on that is shown assigns to field f. */
  function LastShown<U(==), V>(n: nat, ms: seq<Message<U, V>>, j: nat, f: nat): Option<V>
    requires Fit(n, ms) && f < n
  {
    if |ms| <= j then None
    else
      var k := |ms| - 1;
      if IsShown(ms, k) && ms[k].delta[f].Some? then ms[k].delta[f] else LastShown(n, ms[..k], j, f)
  }

  /** While a change stays in flight, a message shows in a field or leaves it. */
  lemma {:induction false} FieldStep<U, V>(x: Entity<V>, ms: seq<Message<U, V>>, f: nat)
    requires Fit(|x|, ms) && f < |x| && ms != [] && UidsOf(ms) != {}
    ensures var k := |ms| - 1;
            Run(x, ms).value[f] ==
              if IsShown(ms, k) && ms[k].delta[f].Some? then ms[k].delta[f].value else Run(x, ms[..k]).value[f]
  {
    hide Composed;
    RunUids(x, ms);
    RunUids(x, ms[..|ms| - 1]);
  }

  /** In every run a field is what the last message assigned to it that was not an own confirmation and
      arrived since the last time without local changes in flight, and without one it is as it was then. */
  lemma {:induction false} ValueInFlight<U, V>(x: Entity<V>, ms: seq<Message<U, V>>, f: nat)
    requires Fit(|x|, ms) && f < |x|
    ensures var j := LastIdle(ms);
            var shown := LastShown(|x|, ms, j, f);
            Run(x, ms).value[f] == if shown.Some? then shown.value else Fold(x, AllLog(|x|, ms[..j]))[f]
  {
    hide Run, Step, Fold, AllLog, IsShown;
    if UidsOf(ms) == {} {
      RunInvariant(x, ms);
      RunUids(x, ms);
      assert ms[..|ms|] == ms;
    } else {
      var r := ms[..|ms| - 1];
      ValueInFlight(x, r, f);
      FieldStep(x, ms, f);
      assert r[..LastIdle(r)] == ms[..LastIdle(r)];
    }
  }

  /** The last message that assigns field f, if any, is shown. */
  predicate LastIsShown<U(==), V>(n: nat, ms: seq<Message<U, V>>, f: nat)
    requires Fit(n, ms) && f < n
  {
    ms == [] ||
    var k := |ms| - 1;
    if ms[k].delta[f].Some? then IsShown(ms, k) else LastIsShown(n, ms[..k], f)
  }

  /** So nobody has to wait for a confirmation: a field is as in all that arrived, unless the last message
      that assigns it confirms one of several local changes. */
  lemma {:induction false} ChangesShow<U, V>(x: Entity<V>, ms: seq<Message<U, V>>, f: nat)
    requires Fit(|x|, ms) && f < |x| && LastIsShown(|x|, ms, f)
    ensures Run(x, ms).value[f] == Fold(x, AllLog(|x|, ms))[f]
  {
    ValueInFlight(x, ms, f);
    ShownIsLast(x, ms, LastIdle(ms), f);
  }

  lemma {:induction false} ShownIsLast<U, V>(x: Entity<V>, ms: seq<Message<U, V>>, j: nat, f: nat)
    requires Fit(|x|, ms) && f < |x| && LastIsShown(|x|, ms, f) && j <= |ms|
    ensures var shown := LastShown(|x|, ms, j, f);
            Fold(x, AllLog(|x|, ms))[f] ==
              if shown.Some? then shown.value else Fold(x, AllLog(|x|, ms[..j]))[f]
  {
    if |ms| == j {
      assert ms[..j] == ms;
    } else {
      var r := ms[..|ms| - 1];
      LogsSnoc(x, ms, f);
      if !ms[|ms| - 1].delta[f].Some? {
        ShownIsLast(x, r, j, f);
        assert r[..j] == ms[..j];
      }
    }
  }

  /** A field differs from the confirmed log only while a local change of it is in flight. */
  lemma {:induction false} DifferenceIsInFlight<U, V>(x: Entity<V>, ms: seq<Message<U, V>>, f: nat)
    requires Fit(|x|, ms) && Covering(|x|, ms) && f < |x|
    ensures Fold(x, AllLog(|x|, ms))[f] == Fold(x, ConfirmedLog(|x|, ms))[f]
         || InFlight(|x|, ms, Run(x, ms).uids, f)
  {
    RunUids(x, ms);
    CoveringConfirms(|x|, ms, f);
    if LastConfirmed(|x|, ms, f) { LastConfirmedAgrees(x, ms, f); }
  }

  /** With no local change in flight the value is the fold of the confirmed deltas, if the last assignment
      of each field is confirmed. */
  lemma {:induction false} LastConfirmedConverges<U, V>(x: Entity<V>, ms: seq<Message<U, V>>)
    requires Fit(|x|, ms) && AllLastConfirmed(|x|, ms) && Run(x, ms).uids == {}
    ensures Run(x, ms).value == Fold(x, ConfirmedLog(|x|, ms))
  {
    RunInvariant(x, ms);
    forall f | 0 <= f < |x| ensures Fold(x, AllLog(|x|, ms))[f] == Fold(x, ConfirmedLog(|x|, ms))[f] {
      LastConfirmedAgrees(x, ms, f);
    }
  }

  /** That is so when own confirmations assign all that was submitted. */
  lemma {:induction false} Convergence<U, V>(x: Entity<V>, ms: seq<Message<U, V>>)
    requires Fit(|x|, ms) && Covering(|x|, ms) && Run(x, ms).uids == {}
    ensures AllLastConfirmed(|x|, ms) && Run(x, ms).value == Fold(x, ConfirmedLog(|x|, ms))
  {
    RunUids(x, ms);
    forall f | 0 <= f < |x| ensures LastConfirmed(|x|, ms, f) {
      CoveringConfirms(|x|, ms, f);
    }
    LastConfirmedConverges(x, ms);
  }

  /** Replicas that have seen the same confirmed deltas agree, whatever they did locally. */
  lemma {:induction false} ReplicasAgree<U, V>(x: Entity<V>, ms: seq<Message<U, V>>, ms': seq<Message<U, V>>)
    requires Fit(|x|, ms) && AllLastConfirmed(|x|, ms) && Run(x, ms).uids == {}
    requires Fit(|x|, ms') && AllLastConfirmed(|x|, ms') && Run(x, ms').uids == {}
    requires ConfirmedLog(|x|, ms) == ConfirmedLog(|x|, ms')
    ensures Run(x, ms).value == Run(x, ms').value
  {
    LastConfirmedConverges(x, ms);
    LastConfirmedConverges(x, ms');
  }

  /** A confirmation does not revert a local change: it leaves the value alone
      until the last local change is confirmed. */
  lemma {:induction false} ConfirmationKeepsValue<U, V>(x: Entity<V>, ms: seq<Message<U, V>>, m: Message<U, V>)
    requires Fit(|x|, ms + [m]) && Fit(|x|, ms)
    requires m.confirmed && m.uid in Run(x, ms).uids
    ensures Run(x, ms).uids != {m.uid} ==> Run(x, ms + [m]).value == Run(x, ms).value
    ensures Run(x, ms).uids == {m.uid} ==> Run(x, ms + [m]).value == Fold(x, AllLog(|x|, ms + [m]))
  {
    assert (ms + [m])[..|ms|] == ms;
    RunInvariant(x, ms + [m]);
  }

  /** Without the covering condition a store keeps a change that nobody confirmed:
      a field is set to v locally and the confirmation leaves it out. */
  lemma {:induction false} ConvergenceNeedsCovering<U, V>(uid: U, v: V, w: V, l: Message<U, V>, c: Message<U, V>)
    requires v != w && l == Message(uid, [Some(v)], false) && c == Message(uid, NoChange(1), true)
    ensures Fit(|[w]|, [l, c]) && Run([w], [l, c]).uids == {}
    ensures Run([w], [l, c]).value == [v]
    ensures Fold([w], ConfirmedLog(|[w]|, [l, c])) == [w]
  {
    var x := [w];
    assert [l, c][..1] == [l] && [l][..0] == [];
    var s := Run(x, [l]);
    assert s == Step(Run(x, []), l);
    assert s.value == [v] && s.uids == {uid};
    assert Run(x, [l, c]) == Step(s, c);
    ConfirmedOnly(x, l, c);
    FoldSnoc(x, [], c.delta);
    assert [] + [c.delta] == [c.delta];
    AppliedNoChange(x);
  }

  lemma {:induction false} ConfirmedOnly<U, V>(x: Entity<V>, l: Message<U, V>, c: Message<U, V>)
    requires !l.confirmed && c.confirmed && |l.delta| == |c.delta| == |x|
    ensures Fit(|x|, [l, c]) && ConfirmedLog(|x|, [l, c]) == [c.delta]
  {
    assert [l, c][..1] == [l] && [l][..0] == [];
    assert ConfirmedLog(|x|, [l]) == [];
  }

  // ---------------------------------------------------------------- store

  class LocalVersion<U(==), V(==)> {
    const value: array<V>
    const pendingDelta: array<Option<V>>
    var localUids: set<U>

    ghost predicate Valid()
      reads this
    {
      value.Length == pendingDelta.Length && value as object != pendingDelta as object
    }

    /** The abstract state. */
    ghost function Contents(): State<U, V>
      reads this, value, pendingDelta
    {
      State(value[..], pendingDelta[..], localUids)
    }

    constructor (x: array<V>)
      ensures Valid() && value == x && fresh(pendingDelta)
      ensures Contents() == Run(x[..], [])
    {
      value := x;
      pendingDelta := new Option<V>[x.Length](i => None);
      localUids := {};
      new;
      assert pendingDelta[..] == NoChange(x.Length);
    }

    method ApplyLocalDelta(uid: U, delta: Delta<V>) returns (result: bool)
      requires Valid() && |delta| == value.Length
      modifies this, value, pendingDelta
      ensures Valid() && Contents() == Step(old(Contents()), Message(uid, delta, false))
      ensures result <==> value[..] != old(value[..])
    {
      localUids := localUids + {uid};
      var _ := ApplyToDelta(delta, pendingDelta);
      result := ApplyDelta(delta, value);
    }

    method ApplyConfirmedDelta(uid: U, delta: Delta<V>) returns (result: bool)
      requires Valid() && |delta| == value.Length
      modifies this, value, pendingDelta
      ensures Valid() && Contents() == Step(old(Contents()), Message(uid, delta, true))
      ensures result <==> value[..] != old(value[..])
    {
      if uid in localUids {
        var _ := ApplyToDelta(delta, pendingDelta);
        assert pendingDelta[..] == Composed(delta, old(pendingDelta[..]));
        localUids := localUids - {uid};
        if localUids == {} {
          assert old(localUids) == {uid};
          result := ApplyDelta(pendingDelta[..], value);
          forall i | 0 <= i < pendingDelta.Length {
            pendingDelta[i] := None;
          }
          assert pendingDelta[..] == NoChange(value.Length);
        } else {
          assert old(localUids) != {uid};
          result := false;
        }
      } else {
        var _ := ApplyToDelta(delta, pendingDelta);
        result := ApplyDelta(delta, value);
      }
    }

    method ApplyMessage(m: Message<U, V>)
      requires Valid() && |m.delta| == value.Length
      modifies this, value, pendingDelta
      ensures Valid() && Contents() == Step(old(Contents()), m)
    {
      if m.confirmed {
        var _ := ApplyConfirmedDelta(m.uid, m.delta);
      } else {
        var _ := ApplyLocalDelta(m.uid, m.delta);
      }
    }
  }
}
