/** Arithmetic in GF(2^8), section 4.2 of FIPS 197. */
module Gf256 {

  function Xor(a: bv8, b: bv8): bv8 { a ^ b }

  function Xor4(a: bv8, b: bv8, c: bv8, d: bv8): bv8 { Xor(Xor(a, b), Xor(c, d)) }

  function Twice(b: bv8): bv8 { b << 1 }

  /** The reduction by the field polynomial, if the top bit is lost. */
  function Reduction(b: bv8): bv8 { if b & 0x80 == 0x80 then 0x1b else 0 }

  /** The product with x. */
  function XTime(b: bv8): bv8 { Xor(Twice(b), Reduction(b)) }

  function X2(b: bv8): bv8 { XTime(XTime(b)) }

  function X3(b: bv8): bv8 { XTime(X2(b)) }

  // ----- sums of powers of x

  function Sum3(p0: bv8, p1: bv8): bv8 { Xor(p1, p0) }

  function Sum9(p0: bv8, p3: bv8): bv8 { Xor(p3, p0) }

  function Sum11(p0: bv8, p1: bv8, p3: bv8): bv8 { Xor(Xor(p3, p1), p0) }

  function Sum13(p0: bv8, p2: bv8, p3: bv8): bv8 { Xor(Xor(p3, p2), p0) }

  function Sum14(p1: bv8, p2: bv8, p3: bv8): bv8 { Xor(Xor(p3, p2), p1) }

  // ----- laws of sums

  lemma Assoc(a: bv8, b: bv8, c: bv8)
    ensures Xor(Xor(a, b), c) == Xor(a, Xor(b, c))
  {
  }

  lemma Comm(a: bv8, b: bv8)
    ensures Xor(a, b) == Xor(b, a)
  {
  }

  lemma Self(a: bv8)
    ensures Xor(a, a) == 0 && Xor(0, a) == a && Xor(a, 0) == a
  {
  }

  lemma Swap(a: bv8, b: bv8, c: bv8, d: bv8)
    ensures Xor(Xor(a, b), Xor(c, d)) == Xor(Xor(a, c), Xor(b, d))
  {
    hide Xor;
    Assoc(a, b, Xor(c, d));
    Assoc(b, c, d);
    Comm(b, c);
    Assoc(c, b, d);
    Assoc(a, c, Xor(b, d));
  }

  lemma Cancel(a: bv8, b: bv8, c: bv8)
    ensures Xor(Xor(a, b), Xor(a, c)) == Xor(b, c)
  {
    hide Xor;
    Swap(a, b, a, c);
    Self(a);
    Self(Xor(b, c));
  }

  lemma CancelRight(a: bv8, b: bv8, c: bv8)
    ensures Xor(Xor(a, c), Xor(b, c)) == Xor(a, b)
  {
    hide Xor;
    Comm(a, c);
    Comm(b, c);
    Cancel(c, a, b);
  }

  lemma Telescope(a: bv8, b: bv8, c: bv8)
    ensures Xor(Xor(a, b), Xor(b, c)) == Xor(a, c)
  {
    hide Xor;
    Comm(b, c);
    CancelRight(a, c, b);
  }

  lemma Drop(a: bv8, b: bv8)
    ensures Xor(Xor(a, b), a) == b && Xor(Xor(b, a), a) == b && Xor(a, Xor(a, b)) == b
  {
    hide Xor;
    Comm(a, b);
    Assoc(b, a, a);
    Self(a);
    Self(b);
    Comm(a, Xor(a, b));
  }

  lemma TwiceXor(a: bv8, b: bv8)
    ensures Twice(Xor(a, b)) == Xor(Twice(a), Twice(b))
  {
  }

  lemma ReductionXor(a: bv8, b: bv8)
    ensures Reduction(Xor(a, b)) == Xor(Reduction(a), Reduction(b))
  {
  }

  lemma XTimeXor(a: bv8, b: bv8)
    ensures XTime(Xor(a, b)) == Xor(XTime(a), XTime(b))
  {
    hide Xor, Twice, Reduction;
    TwiceXor(a, b);
    ReductionXor(a, b);
    Swap(Twice(a), Reduction(a), Twice(b), Reduction(b));
  }

  lemma PowersXor(a: bv8, b: bv8)
    ensures XTime(Xor(a, b)) == Xor(XTime(a), XTime(b))
    ensures X2(Xor(a, b)) == Xor(X2(a), X2(b))
    ensures X3(Xor(a, b)) == Xor(X3(a), X3(b))
  {
    hide Xor, XTime;
    XTimeXor(a, b);
    XTimeXor(XTime(a), XTime(b));
    XTimeXor(X2(a), X2(b));
  }

  lemma SumsA(p0: bv8, p1: bv8, p2: bv8, p3: bv8, p4: bv8)
    ensures Xor4(Sum14(p2, p3, p4), Sum11(p0, p1, p3), Sum13(p0, p2, p3), Sum9(Sum3(p0, p1), Xor(p4, p3))) == p0
  {
    hide Xor;
    var a, b, c, d := Sum14(p2, p3, p4), Sum11(p0, p1, p3), Sum13(p0, p2, p3), Sum9(Sum3(p0, p1), Xor(p4, p3));
    Comm(c, d);
    Swap(a, b, d, c);
    Cancel(Xor(p4, p3), p2, Xor(p1, p0));
    CancelRight(Xor(p3, p1), Xor(p3, p2), p0);
    Cancel(p3, p1, p2);
    Comm(p1, p2);
    Cancel(p2, Xor(p1, p0), p1);
    Drop(p1, p0);
  }

  lemma SumsB(p0: bv8, p1: bv8, p2: bv8, p3: bv8, p4: bv8)
    ensures Xor4(Sum14(Xor(p2, p1), Xor(p3, p2), Xor(p4, p3)), Sum11(p1, p2, p4), Sum13(p0, p2, p3), Sum9(p0, p3)) == 0
  {
    hide Xor;
    Telescope(p4, p3, p2);
    Telescope(p4, p2, p1);
    CancelRight(p4, Xor(p4, p2), p1);
    Drop(p4, p2);
    CancelRight(Xor(p3, p2), p3, p0);
    Drop(p3, p2);
    Self(p2);
  }

  lemma SumsC(p0: bv8, p1: bv8, p2: bv8, p3: bv8, p4: bv8)
    ensures Xor4(Sum14(p1, p2, p3), Sum11(Sum3(p0, p1), Xor(p2, p1), Xor(p4, p3)), Sum13(p1, p3, p4), Sum9(p0, p3)) == 0
  {
    hide Xor;
    var q := Xor(p4, p3);
    var a, b, c, d := Sum14(p1, p2, p3), Sum11(Sum3(p0, p1), Xor(p2, p1), q), Sum13(p1, p3, p4), Sum9(p0, p3);
    Comm(c, d);
    Swap(a, b, d, c);
    Assoc(q, Xor(p2, p1), Xor(p1, p0));
    Telescope(p2, p1, p0);
    Cancel(q, Xor(p2, p0), p1);
    Assoc(p3, p2, p1);
    Cancel(p3, Xor(p2, p1), p0);
    Assoc(p2, p1, p0);
    Assoc(p2, p0, p1);
    Comm(p0, p1);
    Self(Xor(Xor(p2, p1), p0));
  }

  lemma SumsD(p0: bv8, p1: bv8, p2: bv8, p3: bv8, p4: bv8)
    ensures Xor4(Sum14(p1, p2, p3), Sum11(p0, p1, p3), Sum13(Sum3(p0, p1), Xor(p3, p2), Xor(p4, p3)), Sum9(p1, p4)) == 0
  {
    hide Xor;
    Assoc(p3, p2, p1);
    Assoc(p3, p1, p0);
    Cancel(p3, Xor(p2, p1), Xor(p1, p0));
    Telescope(p2, p1, p0);
    Telescope(p4, p3, p2);
    Swap(p4, p2, p1, p0);
    Drop(Xor(p4, p1), Xor(p2, p0));
    Self(Xor(p2, p0));
  }

  lemma Add4(a0: bv8, a1: bv8, a2: bv8, a3: bv8, b0: bv8, b1: bv8, b2: bv8, b3: bv8)
    ensures Xor(Xor4(a0, a1, a2, a3), Xor4(b0, b1, b2, b3)) == Xor4(Xor(a0, b0), Xor(a1, b1), Xor(a2, b2), Xor(a3, b3))
  {
    hide Xor;
    Swap(Xor(a0, a1), Xor(a2, a3), Xor(b0, b1), Xor(b2, b3));
    Swap(a0, a1, b0, b1);
    Swap(a2, a3, b2, b3);
  }

  /** A sum of four rows is the sum of the four columns. */
  lemma Transpose(a0: bv8, a1: bv8, a2: bv8, a3: bv8, b0: bv8, b1: bv8, b2: bv8, b3: bv8,
                  c0: bv8, c1: bv8, c2: bv8, c3: bv8, d0: bv8, d1: bv8, d2: bv8, d3: bv8)
    ensures Xor4(Xor4(a0, a1, a2, a3), Xor4(b0, b1, b2, b3), Xor4(c0, c1, c2, c3), Xor4(d0, d1, d2, d3))
         == Xor4(Xor4(a0, b0, c0, d0), Xor4(a1, b1, c1, d1), Xor4(a2, b2, c2, d2), Xor4(a3, b3, c3, d3))
  {
    hide Xor;
    Add4(a0, a1, a2, a3, b0, b1, b2, b3);
    Add4(c0, c1, c2, c3, d0, d1, d2, d3);
    Add4(Xor(a0, b0), Xor(a1, b1), Xor(a2, b2), Xor(a3, b3), Xor(c0, d0), Xor(c1, d1), Xor(c2, d2), Xor(c3, d3));
  }

  lemma OnlyFirst(a: bv8)
    ensures Xor4(a, 0, 0, 0) == a
  {
  }

  lemma Turn(a: bv8, b: bv8, c: bv8, d: bv8)
    ensures Xor4(a, b, c, d) == Xor4(d, a, b, c)
  {
    hide Xor;
    Comm(Xor(a, b), Xor(c, d));
    Comm(c, d);
    Comm(a, b);
    Swap(d, c, a, b);
    Comm(c, b);
  }
}
