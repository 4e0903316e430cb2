/** The constants of SHA-256, sections 4.2.2 and 5.3.3 of FIPS 180-4: fractional parts of roots of primes. */
module Sha256Constants {
  import opened Sha256

  /** The first 64 primes. */
  const PRIMES: seq<nat> :=
    [2, 3, 5, 7, 11, 13, 17, 19]
    + [23, 29, 31, 37, 41, 43, 47, 53]
    + [59, 61, 67, 71, 73, 79, 83, 89]
    + [97, 101, 103, 107, 109, 113, 127, 131]
    + [137, 139, 149, 151, 157, 163, 167, 173]
    + [179, 181, 191, 193, 197, 199, 211, 223]
    + [227, 229, 233, 239, 241, 251, 257, 263]
    + [269, 271, 277, 281, 283, 293, 307, 311]

  function Cube(x: nat): nat { x * x * x }

  function Square(x: nat): nat { x * x }

  /** `k` are the first 32 bits of the fractional part of the cube root of `p`, and `w` is its whole part: read
      together as a whole number, their cube is not above p * 2^96, and that of the next number is. */
  ghost predicate CubeRootBits(p: nat, w: nat, k: nat) {
    var q := 0x1_0000_0000 * w + k;
    k < 0x1_0000_0000 && Cube(q) <= p * 0x1_0000_0000_0000_0000_0000_0000 < Cube(q + 1)
  }

  ghost predicate SquareRootBits(p: nat, w: nat, k: nat) {
    var q := 0x1_0000_0000 * w + k;
    k < 0x1_0000_0000 && Square(q) <= p * 0x1_0000_0000_0000_0000 < Square(q + 1)
  }

  lemma KUpTo8(i: nat) returns (w: nat)
    requires i < 8
    ensures CubeRootBits(PRIMES[i], w, K[i] as nat)
  {
    assert CubeRootBits(2, 1, 0x428a2f98);
    assert CubeRootBits(3, 1, 0x71374491);
    assert CubeRootBits(5, 1, 0xb5c0fbcf);
    assert CubeRootBits(7, 1, 0xe9b5dba5);
    assert CubeRootBits(11, 2, 0x3956c25b);
    assert CubeRootBits(13, 2, 0x59f111f1);
    assert CubeRootBits(17, 2, 0x923f82a4);
    assert CubeRootBits(19, 2, 0xab1c5ed5);
    hide CubeRootBits;
    w := if i < 4 then 1 else 2;
    match i
    case 0 =>
    case 1 =>
    case 2 =>
    case 3 =>
    case 4 =>
    case 5 =>
    case 6 =>
    case _ =>
  }

  lemma KUpTo16(i: nat) returns (w: nat)
    requires 8 <= i < 16
    ensures CubeRootBits(PRIMES[i], w, K[i] as nat)
  {
    assert CubeRootBits(23, 2, 0xd807aa98);
    assert CubeRootBits(29, 3, 0x12835b01);
    assert CubeRootBits(31, 3, 0x243185be);
    assert CubeRootBits(37, 3, 0x550c7dc3);
    assert CubeRootBits(41, 3, 0x72be5d74);
    assert CubeRootBits(43, 3, 0x80deb1fe);
    assert CubeRootBits(47, 3, 0x9bdc06a7);
    assert CubeRootBits(53, 3, 0xc19bf174);
    hide CubeRootBits;
    w := if i < 9 then 2 else 3;
    match i
    case 8 =>
    case 9 =>
    case 10 =>
    case 11 =>
    case 12 =>
    case 13 =>
    case 14 =>
    case _ =>
  }

  lemma KUpTo24(i: nat) returns (w: nat)
    requires 16 <= i < 24
    ensures CubeRootBits(PRIMES[i], w, K[i] as nat)
  {
    assert CubeRootBits(59, 3, 0xe49b69c1);
    assert CubeRootBits(61, 3, 0xefbe4786);
    assert CubeRootBits(67, 4, 0x0fc19dc6);
    assert CubeRootBits(71, 4, 0x240ca1cc);
    assert CubeRootBits(73, 4, 0x2de92c6f);
    assert CubeRootBits(79, 4, 0x4a7484aa);
    assert CubeRootBits(83, 4, 0x5cb0a9dc);
    assert CubeRootBits(89, 4, 0x76f988da);
    hide CubeRootBits;
    w := if i < 18 then 3 else 4;
    match i
    case 16 =>
    case 17 =>
    case 18 =>
    case 19 =>
    case 20 =>
    case 21 =>
    case 22 =>
    case _ =>
  }

  lemma KUpTo32(i: nat) returns (w: nat)
    requires 24 <= i < 32
    ensures CubeRootBits(PRIMES[i], w, K[i] as nat)
  {
    assert CubeRootBits(97, 4, 0x983e5152);
    assert CubeRootBits(101, 4, 0xa831c66d);
    assert CubeRootBits(103, 4, 0xb00327c8);
    assert CubeRootBits(107, 4, 0xbf597fc7);
    assert CubeRootBits(109, 4, 0xc6e00bf3);
    assert CubeRootBits(113, 4, 0xd5a79147);
    assert CubeRootBits(127, 5, 0x06ca6351);
    assert CubeRootBits(131, 5, 0x14292967);
    hide CubeRootBits;
    w := if i < 30 then 4 else 5;
    match i
    case 24 =>
    case 25 =>
    case 26 =>
    case 27 =>
    case 28 =>
    case 29 =>
    case 30 =>
    case _ =>
  }

  lemma KUpTo40(i: nat) returns (w: nat)
    requires 32 <= i < 40
    ensures CubeRootBits(PRIMES[i], w, K[i] as nat)
  {
    assert CubeRootBits(137, 5, 0x27b70a85);
    assert CubeRootBits(139, 5, 0x2e1b2138);
    assert CubeRootBits(149, 5, 0x4d2c6dfc);
    assert CubeRootBits(151, 5, 0x53380d13);
    assert CubeRootBits(157, 5, 0x650a7354);
    assert CubeRootBits(163, 5, 0x766a0abb);
    assert CubeRootBits(167, 5, 0x81c2c92e);
    assert CubeRootBits(173, 5, 0x92722c85);
    hide CubeRootBits;
    w := 5;
    match i
    case 32 =>
    case 33 =>
    case 34 =>
    case 35 =>
    case 36 =>
    case 37 =>
    case 38 =>
    case _ =>
  }

  lemma KUpTo48(i: nat) returns (w: nat)
    requires 40 <= i < 48
    ensures CubeRootBits(PRIMES[i], w, K[i] as nat)
  {
    assert CubeRootBits(179, 5, 0xa2bfe8a1);
    assert CubeRootBits(181, 5, 0xa81a664b);
    assert CubeRootBits(191, 5, 0xc24b8b70);
    assert CubeRootBits(193, 5, 0xc76c51a3);
    assert CubeRootBits(197, 5, 0xd192e819);
    assert CubeRootBits(199, 5, 0xd6990624);
    assert CubeRootBits(211, 5, 0xf40e3585);
    assert CubeRootBits(223, 6, 0x106aa070);
    hide CubeRootBits;
    w := if i < 47 then 5 else 6;
    match i
    case 40 =>
    case 41 =>
    case 42 =>
    case 43 =>
    case 44 =>
    case 45 =>
    case 46 =>
    case _ =>
  }

  lemma KUpTo56(i: nat) returns (w: nat)
    requires 48 <= i < 56
    ensures CubeRootBits(PRIMES[i], w, K[i] as nat)
  {
    assert CubeRootBits(227, 6, 0x19a4c116);
    assert CubeRootBits(229, 6, 0x1e376c08);
    assert CubeRootBits(233, 6, 0x2748774c);
    assert CubeRootBits(239, 6, 0x34b0bcb5);
    assert CubeRootBits(241, 6, 0x391c0cb3);
    assert CubeRootBits(251, 6, 0x4ed8aa4a);
    assert CubeRootBits(257, 6, 0x5b9cca4f);
    assert CubeRootBits(263, 6, 0x682e6ff3);
    hide CubeRootBits;
    w := 6;
    match i
    case 48 =>
    case 49 =>
    case 50 =>
    case 51 =>
    case 52 =>
    case 53 =>
    case 54 =>
    case _ =>
  }

  lemma KUpTo64(i: nat) returns (w: nat)
    requires 56 <= i < 64
    ensures CubeRootBits(PRIMES[i], w, K[i] as nat)
  {
    assert CubeRootBits(269, 6, 0x748f82ee);
    assert CubeRootBits(271, 6, 0x78a5636f);
    assert CubeRootBits(277, 6, 0x84c87814);
    assert CubeRootBits(281, 6, 0x8cc70208);
    assert CubeRootBits(283, 6, 0x90befffa);
    assert CubeRootBits(293, 6, 0xa4506ceb);
    assert CubeRootBits(307, 6, 0xbef9a3f7);
    assert CubeRootBits(311, 6, 0xc67178f2);
    hide CubeRootBits;
    w := 6;
    match i
    case 56 =>
    case 57 =>
    case 58 =>
    case 59 =>
    case 60 =>
    case 61 =>
    case 62 =>
    case _ =>
  }

  /** Each of the 64 round constants comes from the cube root of its prime. */
  lemma KIs(i: nat) returns (w: nat)
    requires i < 64
    ensures CubeRootBits(PRIMES[i], w, K[i] as nat)
  {
    hide CubeRootBits;
    if i < 8 {
      w := KUpTo8(i);
    } else if i < 16 {
      w := KUpTo16(i);
    } else if i < 24 {
      w := KUpTo24(i);
    } else if i < 32 {
      w := KUpTo32(i);
    } else if i < 40 {
      w := KUpTo40(i);
    } else if i < 48 {
      w := KUpTo48(i);
    } else if i < 56 {
      w := KUpTo56(i);
    } else {
      w := KUpTo64(i);
    }
  }

  /** Each word of the initial value comes from the square root of its prime. */
  lemma H0Is(i: nat) returns (w: nat)
    requires i < 8
    ensures SquareRootBits(PRIMES[i], w, H0[i] as nat)
  {
    assert SquareRootBits(2, 1, 0x6a09e667);
    assert SquareRootBits(3, 1, 0xbb67ae85);
    assert SquareRootBits(5, 2, 0x3c6ef372);
    assert SquareRootBits(7, 2, 0xa54ff53a);
    assert SquareRootBits(11, 3, 0x510e527f);
    assert SquareRootBits(13, 3, 0x9b05688c);
    assert SquareRootBits(17, 4, 0x1f83d9ab);
    assert SquareRootBits(19, 4, 0x5be0cd19);
    hide SquareRootBits;
    w := if i < 2 then 1 else if i < 4 then 2 else if i < 6 then 3 else 4;
    match i
    case 0 =>
    case 1 =>
    case 2 =>
    case 3 =>
    case 4 =>
    case 5 =>
    case 6 =>
    case _ =>
  }
}
