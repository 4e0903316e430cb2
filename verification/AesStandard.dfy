/** The tables and the order of the steps of the AES code against FIPS 197: the substitution is the inverse in GF(2^8)
    and then an affine map (section 5.1.1), the mixing of a column is the product with a matrix (section 5.1.3), and a
    round takes the first state of the example in appendix B to the second. */
module AesStandard {
  import opened Aes
  import opened AesTables
  import opened Gf256
  import AesField

  // ----- the product of two bytes, from the powers of x

  function Term(p: bv8, b: bv8, bit: bv8): bv8 { if b & bit != 0 then p else 0 }

  /** The product of `a` with the lower half of `b`. */
  function LowProduct(a: bv8, b: bv8): bv8 {
    Xor4(Term(a, b, 1), Term(XTime(a), b, 2), Term(X2(a), b, 4), Term(X3(a), b, 8))
  }

  /** Section 4.2 of FIPS 197: the sum of the multiples a * x^i over the bits of `b`. */
  function Product(a: bv8, b: bv8): bv8 { Xor(LowProduct(a, b), LowProduct(XTime(X3(a)), b >> 4)) }

  // ----- the affine map

  function Affine(z: bv8): bv8 {
    z ^ ((z << 1) | (z >> 7)) ^ ((z << 2) | (z >> 6)) ^ ((z << 3) | (z >> 5)) ^ ((z << 4) | (z >> 4)) ^ 0x63
  }

  function Unaffine(s: bv8): bv8 {
    ((s << 1) | (s >> 7)) ^ ((s << 3) | (s >> 5)) ^ ((s << 6) | (s >> 2)) ^ 0x05
  }

  lemma AffineUndone(s: bv8)
    ensures Affine(Unaffine(s)) == s
  {
  }

  function BitOf(z: bv8, i: nat): bv8
    requires i < 8
  {
    (z >> i) & 1
  }

  function BitSum(z: bv8, i: nat): bv8
    requires i < 8
  {
    BitOf(z, i) ^ BitOf(z, (i + 4) % 8) ^ BitOf(z, (i + 5) % 8) ^ BitOf(z, (i + 6) % 8) ^ BitOf(z, (i + 7) % 8)
    ^ BitOf(0x63, i)
  }

  lemma AffineBit0(z: bv8)
    ensures BitOf(Affine(z), 0) == BitSum(z, 0)
  {
  }

  lemma AffineBit1(z: bv8)
    ensures BitOf(Affine(z), 1) == BitSum(z, 1)
  {
  }

  lemma AffineBit2(z: bv8)
    ensures BitOf(Affine(z), 2) == BitSum(z, 2)
  {
  }

  lemma AffineBit3(z: bv8)
    ensures BitOf(Affine(z), 3) == BitSum(z, 3)
  {
  }

  lemma AffineBit4(z: bv8)
    ensures BitOf(Affine(z), 4) == BitSum(z, 4)
  {
  }

  lemma AffineBit5(z: bv8)
    ensures BitOf(Affine(z), 5) == BitSum(z, 5)
  {
  }

  lemma AffineBit6(z: bv8)
    ensures BitOf(Affine(z), 6) == BitSum(z, 6)
  {
  }

  lemma AffineBit7(z: bv8)
    ensures BitOf(Affine(z), 7) == BitSum(z, 7)
  {
  }

  /** Equation (5.1) of FIPS 197, bit by bit. */
  lemma AffineBits(z: bv8, i: nat)
    requires i < 8
    ensures BitOf(Affine(z), i)
         == BitOf(z, i) ^ BitOf(z, (i + 4) % 8) ^ BitOf(z, (i + 5) % 8) ^ BitOf(z, (i + 6) % 8) ^ BitOf(z, (i + 7) % 8)
            ^ BitOf(0x63, i)
  {
    hide Affine, BitOf;
    match i
    case 0 => AffineBit0(z);
    case 1 => AffineBit1(z);
    case 2 => AffineBit2(z);
    case 3 => AffineBit3(z);
    case 4 => AffineBit4(z);
    case 5 => AffineBit5(z);
    case 6 => AffineBit6(z);
    case _ => AffineBit7(z);
  }

  // ----- the table, in parts

  lemma InverseOf1()
    ensures Product(1, Unaffine(Sub(1))) == 1
  {
  }

  /** The parts of the product of 2 and its inverse, 0x8d. */
  lemma LowProductOf2()
    ensures LowProduct(2, 0x8d) == 0x1a && LowProduct(0x20, 0x08) == 0x1b
  {
  }

  lemma InverseOf2()
    ensures Product(2, Unaffine(Sub(2))) == 1
  {
    assert X3(2) == 0x10 && XTime(0x10) == 0x20;
    assert Sub(2) == 0x77 && Unaffine(0x77) == 0x8d;
    hide Sub, Unaffine, X3, XTime;
    LowProductOf2();
  }

  /** And of 3 and its inverse, 0xf6. */
  lemma LowProductOf3()
    ensures LowProduct(3, 0xf6) == 0x0a && LowProduct(0x30, 0x0f) == 0x0b
  {
  }

  lemma InverseOf3()
    ensures Product(3, Unaffine(Sub(3))) == 1
  {
    assert X3(3) == 0x18 && XTime(0x18) == 0x30;
    assert Sub(3) == 0x7b && Unaffine(0x7b) == 0xf6;
    hide Sub, Unaffine, X3, XTime;
    LowProductOf3();
  }

  lemma InverseTo7(b: bv8)
    requires 4 <= b < 8
    ensures Product(b, Unaffine(Sub(b))) == 1
  {
    if b & 3 == 0 {
    } else if b & 3 == 1 {
    } else if b & 3 == 2 {
    } else {
    }
  }

  lemma InverseToF(b: bv8)
    requires 8 <= b < 0x10
    ensures Product(b, Unaffine(Sub(b))) == 1
  {
    if b & 3 == 0 {
    } else if b & 3 == 1 {
    } else if b & 3 == 2 {
    } else {
    }
  }

  lemma InverseTo1F(b: bv8)
    requires 0x10 <= b < 0x20
    ensures Product(b, Unaffine(Sub(b))) == 1
  {
    if b & 3 == 0 {
    } else if b & 3 == 1 {
    } else if b & 3 == 2 {
    } else {
    }
  }

  lemma InverseTo3F(b: bv8)
    requires 0x20 <= b < 0x40
    ensures Product(b, Unaffine(Sub(b))) == 1
  {
    if b & 3 == 0 {
    } else if b & 3 == 1 {
    } else if b & 3 == 2 {
    } else {
    }
  }

  lemma InverseTo5F(b: bv8)
    requires 0x40 <= b < 0x60
    ensures Product(b, Unaffine(Sub(b))) == 1
  {
    if b & 3 == 0 {
    } else if b & 3 == 1 {
    } else if b & 3 == 2 {
    } else {
    }
  }

  lemma InverseTo7F(b: bv8)
    requires 0x60 <= b < 0x80
    ensures Product(b, Unaffine(Sub(b))) == 1
  {
    if b & 3 == 0 {
    } else if b & 3 == 1 {
    } else if b & 3 == 2 {
    } else {
    }
  }

  lemma InverseTo8F(b: bv8)
    requires 0x80 <= b < 0x90
    ensures Product(b, Unaffine(Sub(b))) == 1
  {
    if b & 3 == 0 {
    } else if b & 3 == 1 {
    } else if b & 3 == 2 {
    } else {
    }
  }

  lemma InverseTo9F(b: bv8)
    requires 0x90 <= b < 0xA0
    ensures Product(b, Unaffine(Sub(b))) == 1
  {
    if b & 3 == 0 {
    } else if b & 3 == 1 {
    } else if b & 3 == 2 {
    } else {
    }
  }

  lemma InverseToBF(b: bv8)
    requires 0xA0 <= b < 0xC0
    ensures Product(b, Unaffine(Sub(b))) == 1
  {
    if b & 3 == 0 {
    } else if b & 3 == 1 {
    } else if b & 3 == 2 {
    } else {
    }
  }

  lemma InverseToDF(b: bv8)
    requires 0xC0 <= b < 0xE0
    ensures Product(b, Unaffine(Sub(b))) == 1
  {
    if b & 3 == 0 {
    } else if b & 3 == 1 {
    } else if b & 3 == 2 {
    } else {
    }
  }

  lemma InverseToFF(b: bv8)
    requires b >= 0xE0
    ensures Product(b, Unaffine(Sub(b))) == 1
  {
    if b & 3 == 0 {
    } else if b & 3 == 1 {
    } else if b & 3 == 2 {
    } else {
    }
  }

  lemma IsInverse(b: bv8)
    requires b != 0
    ensures Product(b, Unaffine(Sub(b))) == 1
  {
    hide *;
    if b == 1 {
      InverseOf1();
    } else if b == 2 {
      InverseOf2();
    } else if b == 3 {
      InverseOf3();
    } else if b < 8 {
      InverseTo7(b);
    } else if b < 0x10 {
      InverseToF(b);
    } else if b < 0x20 {
      InverseTo1F(b);
    } else if b < 0x40 {
      InverseTo3F(b);
    } else if b < 0x60 {
      InverseTo5F(b);
    } else if b < 0x80 {
      InverseTo7F(b);
    } else if b < 0x90 {
      InverseTo8F(b);
    } else if b < 0xA0 {
      InverseTo9F(b);
    } else if b < 0xC0 {
      InverseToBF(b);
    } else if b < 0xE0 {
      InverseToDF(b);
    } else {
      InverseToFF(b);
    }
  }

  lemma ZeroIs()
    ensures Sub(0) == Affine(0) && Unaffine(Sub(0)) == 0
  {
  }

  /** For all 256 bytes: the table holds the affine map of the inverse of the byte, with zero in place of the inverse of
      zero. */
  lemma SubIs(b: bv8) returns (z: bv8)
    ensures Sub(b) == Affine(z) && if b == 0 then z == 0 else Product(b, z) == 1
  {
    hide *;
    z := Unaffine(Sub(b));
    AffineUndone(Sub(b));
    if b == 0 {
      ZeroIs();
    } else {
      IsInverse(b);
    }
  }

  /** And the table of the decryption takes that value back to the byte. */
  lemma InvSubIs(b: bv8) returns (z: bv8)
    ensures InvSub(Affine(z)) == b && if b == 0 then z == 0 else Product(b, z) == 1
  {
    hide *;
    z := SubIs(b);
    SubInverse(b);
  }

  // ----- the mixing of a column

  lemma TwoAndThree(b: bv8)
    ensures Mul2(b) == Product(b, 2) && Mul3(b) == Product(b, 3)
  {
    AesField.Mul2Is(b);
    AesField.Mul3Is(b);
    hide XTime, Mul2, Mul3;
  }

  /** Equation (5.6) of FIPS 197. */
  lemma MixIs(c: Column)
    ensures MixColumn(c) == Column(Xor4(Product(c.b0, 2), Product(c.b1, 3), c.b2, c.b3),
                                   Xor4(c.b0, Product(c.b1, 2), Product(c.b2, 3), c.b3),
                                   Xor4(c.b0, c.b1, Product(c.b2, 2), Product(c.b3, 3)),
                                   Xor4(Product(c.b0, 3), c.b1, c.b2, Product(c.b3, 2)))
  {
    TwoAndThree(c.b0);
    TwoAndThree(c.b1);
    TwoAndThree(c.b2);
    TwoAndThree(c.b3);
    hide Product, Xor4, Mul2, Mul3;
  }

  // ----- the example of appendix B

  lemma SubExample()
    ensures SubGrid(Grid(Column(0x19, 0x3d, 0xe3, 0xbe), Column(0xa0, 0xf4, 0xe2, 0x2b),
                         Column(0x9a, 0xc6, 0x8d, 0x2a), Column(0xe9, 0xf8, 0x48, 0x08)))
         == Grid(Column(0xd4, 0x27, 0x11, 0xae), Column(0xe0, 0xbf, 0x98, 0xf1),
                 Column(0xb8, 0xb4, 0x5d, 0xe5), Column(0x1e, 0x41, 0x52, 0x30))
  {
  }

  lemma MixLeft(c: Column)
    ensures c == Column(0xd4, 0xbf, 0x5d, 0x30) ==> MixColumn(c) == Column(0x04, 0x66, 0x81, 0xe5)
    ensures c == Column(0xe0, 0xb4, 0x52, 0xae) ==> MixColumn(c) == Column(0xe0, 0xcb, 0x19, 0x9a)
  {
    MixIs(c);
    hide MixColumn;
  }

  lemma MixRight(c: Column)
    ensures c == Column(0xb8, 0x41, 0x11, 0xf1) ==> MixColumn(c) == Column(0x48, 0xf8, 0xd3, 0x7a)
    ensures c == Column(0x1e, 0x27, 0x98, 0xe5) ==> MixColumn(c) == Column(0x28, 0x06, 0x26, 0x4c)
  {
    MixIs(c);
    hide MixColumn;
    if c == Column(0xb8, 0x41, 0x11, 0xf1) {
    } else if c == Column(0x1e, 0x27, 0x98, 0xe5) {
    }
  }

  /** The first round of the example: every step in its direction and order, and the bytes of the round keys. */
  lemma RoundExample(key: seq<bv32>)
    requires |key| >= 8 && key[..8] == [0x2b7e1516, 0x28aed2a6, 0xabf71588, 0x09cf4f3c,
                                        0xa0fafe17, 0x88542cb1, 0x23a33939, 0x2a6c7605]
    ensures Rounds(Grid(Column(0x32, 0x43, 0xf6, 0xa8), Column(0x88, 0x5a, 0x30, 0x8d),
                        Column(0x31, 0x31, 0x98, 0xa2), Column(0xe0, 0x37, 0x07, 0x34)), key, 1)
         == Grid(Column(0xa4, 0x9c, 0x7f, 0xf2), Column(0x68, 0x9f, 0x35, 0x2b),
                 Column(0x6b, 0x5b, 0xea, 0x43), Column(0x02, 0x6a, 0x50, 0x49))
  {
    SubExample();
    MixLeft(Column(0xd4, 0xbf, 0x5d, 0x30));
    MixLeft(Column(0xe0, 0xb4, 0x52, 0xae));
    MixRight(Column(0xb8, 0x41, 0x11, 0xf1));
    MixRight(Column(0x1e, 0x27, 0x98, 0xe5));
    hide SubGrid, MixColumn;
    assert forall i :: 0 <= i < 8 ==> key[i] == key[..8][i];
  }
}
