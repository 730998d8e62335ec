/** Products of reals by name, so that proofs use these laws and not the solver's arithmetic. */
module RealProducts {

  function Mul(a: real, b: real): real { a * b }

  lemma {:induction false} MulComm(a: real, b: real)
    ensures Mul(a, b) == Mul(b, a)
  {}

  lemma {:induction false} MulAssoc(a: real, b: real, c: real)
    ensures Mul(a, Mul(b, c)) == Mul(Mul(a, b), c)
  {}

  lemma {:induction false} MulSwap(a: real, b: real, c: real)
    ensures Mul(a, Mul(b, c)) == Mul(b, Mul(a, c))
  {}

  lemma {:induction false} MulAdd(a: real, b: real, c: real)
    ensures Mul(a, b + c) == Mul(a, b) + Mul(a, c)
    ensures Mul(b + c, a) == Mul(b, a) + Mul(c, a)
  {}

  lemma {:induction false} MulUnit(a: real)
    ensures Mul(1.0, a) == a && Mul(a, 1.0) == a && Mul(0.0, a) == 0.0 && Mul(a, 0.0) == 0.0
  {}

  lemma {:induction false} MulNeg(a: real, b: real)
    ensures Mul(-a, b) == -Mul(a, b) == Mul(a, -b)
  {}

  lemma {:induction false} MulInterchange(a: real, b: real, c: real, d: real)
    ensures Mul(Mul(a, b), Mul(c, d)) == Mul(Mul(a, c), Mul(b, d))
  {}
}
