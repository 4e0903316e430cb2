/** The product table of the AES code as arithmetic in GF(2^8), and the matrix of MixColumns as the
    inverse of the matrix of InvMixColumns. */
module AesField {
  import opened AesTables
  import opened Gf256

  // ----- the columns of the product table, as sums of powers of x

  lemma Mul2Is(b: bv8)
    ensures Mul2(b) == XTime(b)
  {
  }

  lemma Mul3Is(b: bv8)
    ensures Mul3(b) == Sum3(b, XTime(b))
  {
  }

  // A column is compared a quarter at a time, and a quarter by the lowest bits.

  lemma Mul9First(b: bv8)
    requires b < 0x40
    ensures Mul9(b) == Sum9(b, X3(b))
  {
    if b & 3 == 0 {
    } else if b & 3 == 1 {
    } else if b & 3 == 2 {
    } else {
    }
  }

  lemma Mul9Second(b: bv8)
    requires 0x40 <= b < 0x80
    ensures Mul9(b) == Sum9(b, X3(b))
  {
    if b & 3 == 0 {
    } else if b & 3 == 1 {
    } else if b & 3 == 2 {
    } else {
    }
  }

  lemma Mul9Third(b: bv8)
    requires 0x80 <= b < 0xC0
    ensures Mul9(b) == Sum9(b, X3(b))
  {
    if b & 3 == 0 {
    } else if b & 3 == 1 {
    } else if b & 3 == 2 {
    } else {
    }
  }

  lemma Mul9Fourth(b: bv8)
    requires b >= 0xC0
    ensures Mul9(b) == Sum9(b, X3(b))
  {
    if b & 3 == 0 {
    } else if b & 3 == 1 {
    } else if b & 3 == 2 {
    } else {
    }
  }

  lemma Mul9Is(b: bv8)
    ensures Mul9(b) == Sum9(b, X3(b))
  {
    hide *;
    if b < 0x40 {
      Mul9First(b);
    } else if b < 0x80 {
      Mul9Second(b);
    } else if b < 0xC0 {
      Mul9Third(b);
    } else {
      Mul9Fourth(b);
    }
  }

  lemma Mul11First(b: bv8)
    requires b < 0x40
    ensures Mul11(b) == Sum11(b, XTime(b), X3(b))
  {
    if b & 3 == 0 {
    } else if b & 3 == 1 {
    } else if b & 3 == 2 {
    } else {
    }
  }

  lemma Mul11Second(b: bv8)
    requires 0x40 <= b < 0x80
    ensures Mul11(b) == Sum11(b, XTime(b), X3(b))
  {
    if b & 3 == 0 {
    } else if b & 3 == 1 {
    } else if b & 3 == 2 {
    } else {
    }
  }

  lemma Mul11Third(b: bv8)
    requires 0x80 <= b < 0xC0
    ensures Mul11(b) == Sum11(b, XTime(b), X3(b))
  {
    if b & 3 == 0 {
    } else if b & 3 == 1 {
    } else if b & 3 == 2 {
    } else {
    }
  }

  lemma Mul11Fourth(b: bv8)
    requires b >= 0xC0
    ensures Mul11(b) == Sum11(b, XTime(b), X3(b))
  {
    if b & 3 == 0 {
    } else if b & 3 == 1 {
    } else if b & 3 == 2 {
    } else {
    }
  }

  lemma Mul11Is(b: bv8)
    ensures Mul11(b) == Sum11(b, XTime(b), X3(b))
  {
    hide *;
    if b < 0x40 {
      Mul11First(b);
    } else if b < 0x80 {
      Mul11Second(b);
    } else if b < 0xC0 {
      Mul11Third(b);
    } else {
      Mul11Fourth(b);
    }
  }

  lemma Mul13First(b: bv8)
    requires b < 0x40
    ensures Mul13(b) == Sum13(b, X2(b), X3(b))
  {
    if b & 1 == 0 {
      if b & 2 == 0 {
        if b & 4 == 0 {
        } else {
        }
      } else {
      }
    } else {
      if b & 2 == 0 {
        if b & 4 == 0 {
        } else {
        }
      } else {
      }
    }
  }

  lemma Mul13Second(b: bv8)
    requires 0x40 <= b < 0x80
    ensures Mul13(b) == Sum13(b, X2(b), X3(b))
  {
    if b & 3 == 0 {
    } else if b & 3 == 1 {
    } else if b & 3 == 2 {
    } else {
    }
  }

  lemma Mul13Third(b: bv8)
    requires 0x80 <= b < 0xC0
    ensures Mul13(b) == Sum13(b, X2(b), X3(b))
  {
    if b & 3 == 0 {
    } else if b & 3 == 1 {
    } else if b & 3 == 2 {
    } else {
    }
  }

  lemma Mul13Fourth(b: bv8)
    requires b >= 0xC0
    ensures Mul13(b) == Sum13(b, X2(b), X3(b))
  {
    if b & 3 == 0 {
    } else if b & 3 == 1 {
    } else if b & 3 == 2 {
    } else {
    }
  }

  lemma Mul13Is(b: bv8)
    ensures Mul13(b) == Sum13(b, X2(b), X3(b))
  {
    hide *;
    if b < 0x40 {
      Mul13First(b);
    } else if b < 0x80 {
      Mul13Second(b);
    } else if b < 0xC0 {
      Mul13Third(b);
    } else {
      Mul13Fourth(b);
    }
  }

  lemma Mul14First(b: bv8)
    requires b < 0x40
    ensures Mul14(b) == Sum14(XTime(b), X2(b), X3(b))
  {
    if b & 1 == 0 {
      if b & 2 == 0 {
        if b & 4 == 0 {
        } else {
        }
      } else {
      }
    } else {
      if b & 2 == 0 {
        if b & 4 == 0 {
        } else {
        }
      } else {
      }
    }
  }

  lemma Mul14Second(b: bv8)
    requires 0x40 <= b < 0x80
    ensures Mul14(b) == Sum14(XTime(b), X2(b), X3(b))
  {
    if b & 3 == 0 {
    } else if b & 3 == 1 {
    } else if b & 3 == 2 {
    } else {
    }
  }

  lemma Mul14Third(b: bv8)
    requires 0x80 <= b < 0xC0
    ensures Mul14(b) == Sum14(XTime(b), X2(b), X3(b))
  {
    if b & 3 == 0 {
    } else if b & 3 == 1 {
    } else if b & 3 == 2 {
    } else {
    }
  }

  lemma Mul14Fourth(b: bv8)
    requires b >= 0xC0
    ensures Mul14(b) == Sum14(XTime(b), X2(b), X3(b))
  {
    if b & 3 == 0 {
    } else if b & 3 == 1 {
    } else if b & 3 == 2 {
    } else {
    }
  }

  lemma Mul14Is(b: bv8)
    ensures Mul14(b) == Sum14(XTime(b), X2(b), X3(b))
  {
    hide *;
    if b < 0x40 {
      Mul14First(b);
    } else if b < 0x80 {
      Mul14Second(b);
    } else if b < 0xC0 {
      Mul14Third(b);
    } else {
      Mul14Fourth(b);
    }
  }

  // ----- the products are linear

  lemma Mul9Xor(a: bv8, b: bv8)
    ensures Mul9(Xor(a, b)) == Xor(Mul9(a), Mul9(b))
  {
    hide Xor, XTime, X2, X3, Mul9;
    PowersXor(a, b);
    Mul9Is(a);
    Mul9Is(b);
    Mul9Is(Xor(a, b));
    Swap(X3(a), X3(b), a, b);
  }

  lemma Mul11Xor(a: bv8, b: bv8)
    ensures Mul11(Xor(a, b)) == Xor(Mul11(a), Mul11(b))
  {
    hide Xor, XTime, X2, X3, Mul11;
    PowersXor(a, b);
    Mul11Is(a);
    Mul11Is(b);
    Mul11Is(Xor(a, b));
    Swap(X3(a), X3(b), XTime(a), XTime(b));
    Swap(Xor(X3(a), XTime(a)), Xor(X3(b), XTime(b)), a, b);
  }

  lemma Mul13Xor(a: bv8, b: bv8)
    ensures Mul13(Xor(a, b)) == Xor(Mul13(a), Mul13(b))
  {
    hide Xor, XTime, X2, X3, Mul13;
    PowersXor(a, b);
    Mul13Is(a);
    Mul13Is(b);
    Mul13Is(Xor(a, b));
    Swap(X3(a), X3(b), X2(a), X2(b));
    Swap(Xor(X3(a), X2(a)), Xor(X3(b), X2(b)), a, b);
  }

  lemma Mul14Xor(a: bv8, b: bv8)
    ensures Mul14(Xor(a, b)) == Xor(Mul14(a), Mul14(b))
  {
    hide Xor, XTime, X2, X3, Mul14;
    PowersXor(a, b);
    Mul14Is(a);
    Mul14Is(b);
    Mul14Is(Xor(a, b));
    Swap(X3(a), X3(b), X2(a), X2(b));
    Swap(Xor(X3(a), X2(a)), Xor(X3(b), X2(b)), XTime(a), XTime(b));
  }

  lemma Mul9Xor4(a: bv8, b: bv8, c: bv8, d: bv8)
    ensures Mul9(Xor4(a, b, c, d)) == Xor4(Mul9(a), Mul9(b), Mul9(c), Mul9(d))
  {
    hide Xor, Mul9;
    Mul9Xor(Xor(a, b), Xor(c, d));
    Mul9Xor(a, b);
    Mul9Xor(c, d);
  }

  lemma Mul11Xor4(a: bv8, b: bv8, c: bv8, d: bv8)
    ensures Mul11(Xor4(a, b, c, d)) == Xor4(Mul11(a), Mul11(b), Mul11(c), Mul11(d))
  {
    hide Xor, Mul11;
    Mul11Xor(Xor(a, b), Xor(c, d));
    Mul11Xor(a, b);
    Mul11Xor(c, d);
  }

  lemma Mul13Xor4(a: bv8, b: bv8, c: bv8, d: bv8)
    ensures Mul13(Xor4(a, b, c, d)) == Xor4(Mul13(a), Mul13(b), Mul13(c), Mul13(d))
  {
    hide Xor, Mul13;
    Mul13Xor(Xor(a, b), Xor(c, d));
    Mul13Xor(a, b);
    Mul13Xor(c, d);
  }

  lemma Mul14Xor4(a: bv8, b: bv8, c: bv8, d: bv8)
    ensures Mul14(Xor4(a, b, c, d)) == Xor4(Mul14(a), Mul14(b), Mul14(c), Mul14(d))
  {
    hide Xor, Mul14;
    Mul14Xor(Xor(a, b), Xor(c, d));
    Mul14Xor(a, b);
    Mul14Xor(c, d);
  }

  // ----- the product of the two matrices is the identity

  /** The powers of x times 3b and 2b. */
  lemma PowersOfProducts(b: bv8)
    ensures Mul2(b) == XTime(b) && Mul3(b) == Sum3(b, XTime(b))
    ensures XTime(Mul3(b)) == Xor(X2(b), XTime(b)) && X2(Mul3(b)) == Xor(X3(b), X2(b))
            && X3(Mul3(b)) == Xor(XTime(X3(b)), X3(b))
    ensures XTime(Mul2(b)) == X2(b) && X2(Mul2(b)) == X3(b) && X3(Mul2(b)) == XTime(X3(b))
  {
    hide Xor, XTime, Mul2, Mul3;
    Mul2Is(b);
    Mul3Is(b);
    PowersXor(XTime(b), b);
  }

  /** One row of the product: 14*2 + 11*1 + 13*1 + 9*3 = 1, and the other three sums are 0. */
  lemma Coefficients(b: bv8)
    ensures Xor4(Mul14(Mul2(b)), Mul11(b), Mul13(b), Mul9(Mul3(b))) == b
    ensures Xor4(Mul14(Mul3(b)), Mul11(Mul2(b)), Mul13(b), Mul9(b)) == 0
    ensures Xor4(Mul14(b), Mul11(Mul3(b)), Mul13(Mul2(b)), Mul9(b)) == 0
    ensures Xor4(Mul14(b), Mul11(b), Mul13(Mul3(b)), Mul9(Mul2(b))) == 0
  {
    hide Xor, Xor4, XTime, X2, X3, Mul2, Mul3, Mul9, Mul11, Mul13, Mul14, Sum3, Sum9, Sum11, Sum13, Sum14;
    PowersOfProducts(b);
    SumsA(b, XTime(b), X2(b), X3(b), XTime(X3(b)));
    SumsB(b, XTime(b), X2(b), X3(b), XTime(X3(b)));
    SumsC(b, XTime(b), X2(b), X3(b), XTime(X3(b)));
    SumsD(b, XTime(b), X2(b), X3(b), XTime(X3(b)));
    ProductsOf(b);
    ProductsOf(Mul2(b));
    ProductsOf(Mul3(b));
  }

  lemma ProductsOf(b: bv8)
    ensures Mul9(b) == Sum9(b, X3(b)) && Mul11(b) == Sum11(b, XTime(b), X3(b))
    ensures Mul13(b) == Sum13(b, X2(b), X3(b)) && Mul14(b) == Sum14(XTime(b), X2(b), X3(b))
  {
    hide *;
    Mul9Is(b);
    Mul11Is(b);
    Mul13Is(b);
    Mul14Is(b);
  }

  /** One byte of a column after MixColumns, and after InvMixColumns. */
  function Mix(a: bv8, b: bv8, c: bv8, d: bv8): bv8 { Xor4(Mul2(a), Mul3(b), c, d) }

  function InvMix(a: bv8, b: bv8, c: bv8, d: bv8): bv8 { Xor4(Mul14(a), Mul11(b), Mul13(c), Mul9(d)) }

  /** The rows of the mixed column, each turned so that its own byte comes first. */
  lemma MixUndone(a: bv8, b: bv8, c: bv8, d: bv8)
    ensures InvMix(Mix(a, b, c, d), Mix(b, c, d, a), Mix(c, d, a, b), Mix(d, a, b, c)) == a
  {
    hide Xor, Xor4, Mul2, Mul3, Mul9, Mul11, Mul13, Mul14;
    Mul14Xor4(Mul2(a), Mul3(b), c, d);
    Mul11Xor4(Mul2(b), Mul3(c), d, a);
    Mul13Xor4(Mul2(c), Mul3(d), a, b);
    Mul9Xor4(Mul2(d), Mul3(a), b, c);
    Turn(Mul11(Mul2(b)), Mul11(Mul3(c)), Mul11(d), Mul11(a));
    Turn(Mul13(Mul2(c)), Mul13(Mul3(d)), Mul13(a), Mul13(b));
    Turn(Mul13(b), Mul13(Mul2(c)), Mul13(Mul3(d)), Mul13(a));
    Turn(Mul9(c), Mul9(Mul2(d)), Mul9(Mul3(a)), Mul9(b));
    Turn(Mul9(b), Mul9(c), Mul9(Mul2(d)), Mul9(Mul3(a)));
    Turn(Mul9(Mul2(d)), Mul9(Mul3(a)), Mul9(b), Mul9(c));
    Transpose(Mul14(Mul2(a)), Mul14(Mul3(b)), Mul14(c), Mul14(d),
              Mul11(a), Mul11(Mul2(b)), Mul11(Mul3(c)), Mul11(d),
              Mul13(a), Mul13(b), Mul13(Mul2(c)), Mul13(Mul3(d)),
              Mul9(Mul3(a)), Mul9(b), Mul9(c), Mul9(Mul2(d)));
    Coefficients(a);
    Coefficients(b);
    Coefficients(c);
    Coefficients(d);
    OnlyFirst(a);
  }
}
