/** SRP-6a (section 2.6 of RFC 5054) over mathematical big integers and arbitrary hash functions: client
    and server reach the same secret, and each proves it to the other. */
module Srp {
  import opened Arith

  // ----- powers and congruence

  function Pow(b: int, e: nat): int {
    if e == 0 then 1 else Times(b, Pow(b, e - 1))
  }

  function Times(a: int, b: int): int { a * b }

  /** `mbedtls_mpi_exp_mod`; the base may be negative. */
  function ExpMod(b: int, e: nat, n: nat): (r: nat)
    requires n > 0
    ensures r < n
  {
    Pow(b, e) % n
  }

  predicate Cong(a: int, b: int, n: nat)
    requires n > 0
  {
    a % n == b % n
  }

  lemma CongMod(a: int, n: nat)
    requires n > 0
    ensures Cong(a % n, a, n)
  {
    ModPlus(a, 0, n);
  }

  /** Congruent numbers differ by a multiple. */
  lemma CongDifference(a: int, b: int, n: nat) returns (k: int)
    requires n > 0 && Cong(a, b, n)
    ensures a == b + n * k
  {
    var q, r := DivMod(a, n);
    var q', r' := DivMod(b, n);
    k := q - q';
    Distribute(n, q', k);
  }

  lemma CongSub(a: int, b: int, c: int, d: int, n: nat)
    requires n > 0 && Cong(a, b, n) && Cong(c, d, n)
    ensures Cong(a - c, b - d, n)
  {
    var k := CongDifference(a, b, n);
    var l := CongDifference(c, d, n);
    hide *;
    Distribute(n, k - l, l);
    Shifted(a - c, b - d, n, k - l);
  }

  lemma Shifted(a: int, b: int, n: nat, k: int)
    requires n > 0 && a == b + n * k
    ensures Cong(a, b, n)
  {
    ModShift(b, n, k);
  }

  lemma CongMul(a: int, b: int, c: int, d: int, n: nat)
    requires n > 0 && Cong(a, b, n) && Cong(c, d, n)
    ensures Cong(Times(a, c), Times(b, d), n)
  {
    var k := CongDifference(a, b, n);
    var l := CongDifference(c, d, n);
    hide Cong;
    Scale(a, d, n, l, c);
    Scale(d, b, n, k, a);
    Shifted(a * c, a * d, n, a * l);
    Shifted(d * a, d * b, n, d * k);
    assert d * a == a * d && d * b == b * d;
    CongTrans(a * c, a * d, b * d, n);
  }

  /** a * (d + n*l) = a*d + n*(a*l) */
  lemma Scale(a: int, d: int, n: int, l: int, c: int)
    requires c == d + n * l
    ensures a * c == a * d + n * (a * l)
  {
    Distribute(a, d, n * l);
    MulAssoc(a, n, l);
    MulAssoc(n, a, l);
    assert a * n == n * a;
  }

  lemma {:induction false} CongPow(a: int, b: int, e: nat, n: nat)
    requires n > 0 && Cong(a, b, n)
    ensures Cong(Pow(a, e), Pow(b, e), n)
  {
    hide Cong, Times;
    if e > 0 {
      CongPow(a, b, e - 1, n);
      CongMul(a, b, Pow(a, e - 1), Pow(b, e - 1), n);
    } else {
      CongSame(1, n);
    }
  }

  lemma CongSame(a: int, n: nat)
    requires n > 0
    ensures Cong(a, a, n)
  {
  }

  lemma CongTrans(a: int, b: int, c: int, n: nat)
    requires n > 0 && Cong(a, b, n) && Cong(b, c, n)
    ensures Cong(a, c, n) && Cong(c, a, n)
  {
  }

  lemma {:induction false} PowAdd(b: int, e: nat, f: nat)
    ensures Pow(b, e + f) == Times(Pow(b, e), Pow(b, f))
  {
    hide Times;
    if e > 0 {
      PowAdd(b, e - 1, f);
      TimesAssoc(b, Pow(b, e - 1), Pow(b, f));
    } else {
      TimesOne(Pow(b, f));
    }
  }

  lemma TimesAssoc(a: int, b: int, c: int)
    ensures Times(Times(a, b), c) == Times(a, Times(b, c))
  {
    MulAssoc(a, b, c);
  }

  lemma TimesOne(a: int)
    ensures Times(1, a) == a == Times(a, 1) && Times(a, 0) == 0
  {
  }

  lemma {:induction false} PowMul(b: int, e: nat, f: nat)
    ensures Times(e, f) >= 0 && Pow(b, Times(e, f)) == Pow(Pow(b, e), f)
  {
    TimesNat(e, f);
    if f > 0 {
      TimesStep(e, f);
      hide Times;
      PowMul(b, e, f - 1);
      PowAdd(b, e, Times(e, f - 1));
    } else {
      TimesOne(e);
    }
  }

  lemma TimesNat(e: nat, f: nat)
    ensures Times(e, f) >= 0
  {
  }

  lemma TimesStep(e: int, f: int)
    ensures Times(e, f) == e + Times(e, f - 1)
  {
    Distribute(e, 1, f - 1);
  }

  /** A power of a power, reduced in between. */
  lemma ExpModPow(b: int, e: nat, f: nat, n: nat)
    requires n > 0
    ensures Times(e, f) >= 0 && Cong(Pow(ExpMod(b, e, n), f), Pow(b, Times(e, f)), n)
  {
    hide Cong, Times;
    CongMod(Pow(b, e), n);
    CongPow(ExpMod(b, e, n), Pow(b, e), f, n);
    PowMul(b, e, f);
  }

  // ----- the secrets

  /** `S` of the verifier: (A * v^u)^b. */
  function ServerSecret(n: nat, v: nat, u: nat, A: nat, b: nat): nat
    requires n > 0
  {
    ExpMod(Times(A, ExpMod(v, u, n)), b, n)
  }

  /** `S` of the user: (B - k*g^x)^(a + u*x), with every intermediate value reduced modulo N, the
      exponent too. */
  function UserSecret(n: nat, g: nat, k: nat, a: nat, x: nat, u: nat, B: nat): nat
    requires n > 0
  {
    ExpMod(B - Times(k, ExpMod(g, x, n)) % n, ReducedExponent(n, a, x, u), n)
  }

  function ReducedExponent(n: nat, a: nat, x: nat, u: nat): nat
    requires n > 0
  {
    (a + Times(u, x) % n) % n
  }

  /** `B` of the verifier. */
  function ServerPublic(n: nat, g: nat, k: nat, v: nat, b: nat): nat
    requires n > 0
  {
    (Times(k, v) + ExpMod(g, b, n)) % n
  }

  /** The exponent that both secrets come to. */
  function Exponent(a: nat, b: nat, x: nat, u: nat): nat {
    TimesNat(u, x);
    TimesNat(b, a + Times(u, x));
    Times(b, a + Times(u, x))
  }

  lemma ServerSecretIs(n: nat, g: nat, a: nat, b: nat, x: nat, u: nat)
    requires n > 0
    ensures Cong(ServerSecret(n, ExpMod(g, x, n), u, ExpMod(g, a, n), b), Pow(g, Exponent(a, b, x, u)), n)
  {
    TimesComm(x, u);
    TimesComm(a + Times(x, u), b);
    hide Cong, Times, Pow;
    TimesNat(x, u);
    var A, v, xu := ExpMod(g, a, n), ExpMod(g, x, n), Times(x, u);
    var vu := ExpMod(v, u, n);
    CongMod(Pow(g, a), n);
    CongMod(Pow(v, u), n);
    ExpModPow(g, x, u, n);
    CongTrans(vu, Pow(v, u), Pow(g, xu), n);
    CongMul(A, Pow(g, a), vu, Pow(g, xu), n);
    PowAdd(g, a, xu);
    CongPow(Times(A, vu), Pow(g, a + xu), b, n);
    PowMul(g, a + xu, b);
    CongMod(Pow(Times(A, vu), b), n);
    CongTrans(ServerSecret(n, v, u, A, b), Pow(Times(A, vu), b), Pow(Pow(g, a + xu), b), n);
  }

  lemma TimesComm(a: int, b: int)
    ensures Times(a, b) == Times(b, a)
  {
  }

  lemma UserSecretIs(n: nat, g: nat, k: nat, a: nat, b: nat, x: nat, u: nat)
    requires n > 0
    ensures var e := ReducedExponent(n, a, x, u);
      Times(b, e) >= 0 && Cong(UserSecret(n, g, k, a, x, u, ServerPublic(n, g, k, ExpMod(g, x, n), b)),
                               Pow(g, Times(b, e)), n)
  {
    var v, gb, e := ExpMod(g, x, n), ExpMod(g, b, n), ReducedExponent(n, a, x, u);
    hide Cong, Times, Pow, ReducedExponent;
    var kv, B := Times(k, v), ServerPublic(n, g, k, v, b);
    var base := B - kv % n;
    CongMod(kv + gb, n);
    CongMod(kv, n);
    CongSub(B, kv + gb, kv % n, kv, n);
    CongPow(base, gb, e, n);
    ExpModPow(g, b, e, n);
    CongTrans(Pow(base, e), Pow(gb, e), Pow(g, Times(b, e)), n);
    CongMod(Pow(base, e), n);
    CongTrans(ExpMod(base, e, n), Pow(base, e), Pow(g, Times(b, e)), n);
  }

  /** What the server sends: less k times the verifier it is g to the power b, modulo N. */
  lemma PublicIs(n: nat, g: nat, k: nat, v: nat, b: nat)
    requires n > 0
    ensures ServerPublic(n, g, k, v, b) < n && Cong(ServerPublic(n, g, k, v, b) - k * v, Pow(g, b), n)
  {
    var kv := Times(k, v);
    assert kv == k * v;
    hide Cong, Times, Pow;
    CongMod(kv + ExpMod(g, b, n), n);
    CongSame(kv, n);
    CongSub(ServerPublic(n, g, k, v, b), kv + ExpMod(g, b, n), kv, kv, n);
    CongMod(Pow(g, b), n);
    CongTrans(ServerPublic(n, g, k, v, b) - kv, ExpMod(g, b, n), Pow(g, b), n);
  }

  lemma ReducedIs(n: nat, a: nat, x: nat, u: nat)
    requires n > 0
    ensures u * x >= 0 && ReducedExponent(n, a, x, u) == (a + u * x) % n
  {
    TimesNat(u, x);
    ModPlus(u * x, a, n);
  }

  /** The user's secret, for whatever B came: (B - k*g^x)^(a + u*x), with the exponent modulo N. */
  lemma UserPowerIs(n: nat, g: nat, k: nat, a: nat, x: nat, u: nat, B: nat)
    requires n > 0
    ensures u * x >= 0
    ensures Cong(UserSecret(n, g, k, a, x, u, B), Pow(B - k * Pow(g, x), (a + u * x) % n), n)
  {
    ReducedIs(n, a, x, u);
    var e, kv, kg := ReducedExponent(n, a, x, u), Times(k, ExpMod(g, x, n)), Times(k, Pow(g, x));
    assert kg == k * Pow(g, x);
    hide Cong, Times, Pow, ReducedExponent;
    CongSame(k, n);
    CongSame(B, n);
    CongMod(Pow(g, x), n);
    CongMul(k, k, ExpMod(g, x, n), Pow(g, x), n);
    CongMod(kv, n);
    CongTrans(kv % n, kv, kg, n);
    CongSub(B, B, kv % n, kg, n);
    CongPow(B - kv % n, B - kg, e, n);
    CongMod(Pow(B - kv % n, e), n);
    CongTrans(UserSecret(n, g, k, a, x, u, B), Pow(B - kv % n, e), Pow(B - kg, e), n);
  }

  /** The user's secret in a run with the exponent y, against a verifier for x: the base is g^b plus k times the
      difference of the two powers. */
  lemma EnteredSecretIs(n: nat, g: nat, k: nat, a: nat, b: nat, x: nat, y: nat, u: nat)
    requires n > 0
    ensures u * y >= 0
    ensures Cong(UserSecret(n, g, k, a, y, u, ServerPublic(n, g, k, ExpMod(g, x, n), b)),
                 Pow(Pow(g, b) + k * (Pow(g, x) - Pow(g, y)), (a + u * y) % n), n)
  {
    var v := ExpMod(g, x, n);
    var B, e := ServerPublic(n, g, k, v, b), (a + u * y) % n;
    UserPowerIs(n, g, k, a, y, u, B);
    PublicIs(n, g, k, v, b);
    var kv, kx, ky := Times(k, v), Times(k, Pow(g, x)), Times(k, Pow(g, y));
    assert kv == k * v && kx == k * Pow(g, x) && ky == k * Pow(g, y);
    Distribute(k, Pow(g, x), -Pow(g, y));
    assert k * -Pow(g, y) == -ky;
    assert k * (Pow(g, x) - Pow(g, y)) == kx - ky;
    hide Cong, Times, Pow;
    CongMod(Pow(g, x), n);
    CongSame(k, n);
    CongMul(k, k, v, Pow(g, x), n);
    CongSame(ky, n);
    CongSub(kv, kx, ky, ky, n);
    CongPlus(B - kv, Pow(g, b), kv - ky, kx - ky, n);
    CongPow(B - ky, Pow(g, b) + (kx - ky), e, n);
    CongTrans(UserSecret(n, g, k, a, y, u, B), Pow(B - ky, e), Pow(Pow(g, b) + (kx - ky), e), n);
  }

  lemma CongPlus(a: int, b: int, c: int, d: int, n: nat)
    requires n > 0 && Cong(a, b, n) && Cong(c, d, n)
    ensures Cong(a + c, b + d, n)
  {
    var k := CongDifference(a, b, n);
    var l := CongDifference(c, d, n);
    hide *;
    Distribute(n, k, l);
    Shifted(a + c, b + d, n, k + l);
  }

  lemma SmallExponent(n: nat, a: nat, ux: nat)
    requires a + ux < n
    ensures (a + ux % n) % n == a + ux
  {
    DivModUnique(ux, n, 0, ux);
    DivModUnique(a + ux, n, 0, a + ux);
  }

  /** The two secrets as powers of g^b, below N. */
  lemma SecretsAre(n: nat, g: nat, k: nat, a: nat, b: nat, x: nat, u: nat)
    requires n > 0
    ensures a + Times(u, x) >= 0
    ensures ServerSecret(n, ExpMod(g, x, n), u, ExpMod(g, a, n), b) == ExpMod(ExpMod(g, b, n), a + Times(u, x), n)
    ensures UserSecret(n, g, k, a, x, u, ServerPublic(n, g, k, ExpMod(g, x, n), b))
         == ExpMod(ExpMod(g, b, n), ReducedExponent(n, a, x, u), n)
  {
    TimesNat(u, x);
    var e, e' := a + Times(u, x), ReducedExponent(n, a, x, u);
    ServerSecretIs(n, g, a, b, x, u);
    UserSecretIs(n, g, k, a, b, x, u);
    assert Exponent(a, b, x, u) == Times(b, e);
    hide *;
    PowerOfPower(g, b, e, n);
    PowerOfPower(g, b, e', n);
    SameResidue(ServerSecret(n, ExpMod(g, x, n), u, ExpMod(g, a, n), b), ExpMod(ExpMod(g, b, n), e, n),
                Pow(g, Times(b, e)), n);
    SameResidue(UserSecret(n, g, k, a, x, u, ServerPublic(n, g, k, ExpMod(g, x, n), b)), ExpMod(ExpMod(g, b, n), e', n),
                Pow(g, Times(b, e')), n);
  }

  lemma PowerOfPower(g: nat, b: nat, e: nat, n: nat)
    requires n > 0
    ensures Times(b, e) >= 0 && Cong(ExpMod(ExpMod(g, b, n), e, n), Pow(g, Times(b, e)), n)
  {
    ExpModPow(g, b, e, n);
    CongMod(Pow(ExpMod(g, b, n), e), n);
    hide Pow, Times;
  }

  /** Client and server compute the same secret if and only if reducing the exponent modulo N does not change the power
      of g^b, and so whenever the exponent is below the modulus. */
  lemma SecretsAgree(n: nat, g: nat, k: nat, a: nat, b: nat, x: nat, u: nat)
    requires n > 0
    ensures a + Times(u, x) >= 0
    ensures UserSecret(n, g, k, a, x, u, ServerPublic(n, g, k, ExpMod(g, x, n), b))
              == ServerSecret(n, ExpMod(g, x, n), u, ExpMod(g, a, n), b)
            <==> ExpMod(ExpMod(g, b, n), ReducedExponent(n, a, x, u), n) == ExpMod(ExpMod(g, b, n), a + Times(u, x), n)
    ensures a + Times(u, x) < n ==>
              UserSecret(n, g, k, a, x, u, ServerPublic(n, g, k, ExpMod(g, x, n), b))
              == ServerSecret(n, ExpMod(g, x, n), u, ExpMod(g, a, n), b)
  {
    TimesNat(u, x);
    SecretsAre(n, g, k, a, b, x, u);
    if a + Times(u, x) < n {
      SmallExponent(n, a, Times(u, x));
    }
    hide Times, ExpMod, ServerSecret, UserSecret, ServerPublic;
  }

  lemma SameResidue(a: nat, b: nat, c: int, n: nat)
    requires n > 0 && Cong(a, c, n) && Cong(b, c, n) && a < n && b < n
    ensures a == b
  {
    DivModUnique(a, n, 0, a);
    DivModUnique(b, n, 0, b);
  }

  /** For 256-bit values, any modulus above 2^512 + 2^256 is large enough. */
  lemma SecretsAgree256(n: nat, g: nat, k: nat, a: nat, b: nat, x: nat, u: nat)
    requires a < Pow(2, 256) && x < Pow(2, 256) && u < Pow(2, 256) && n >= Pow(2, 512) + Pow(2, 256)
    ensures n > 0 && a + Times(u, x) < n
    ensures UserSecret(n, g, k, a, x, u, ServerPublic(n, g, k, ExpMod(g, x, n), b))
         == ServerSecret(n, ExpMod(g, x, n), u, ExpMod(g, a, n), b)
  {
    hide *;
    PowAdd(2, 256, 256);
    ProductBound(u, x, Pow(2, 256));
    SecretsAgree(n, g, k, a, b, x, u);
  }

  lemma ProductBound(u: nat, x: nat, w: nat)
    requires u < w && x < w
    ensures 0 <= Times(u, x) <= Times(w, w)
  {
    MulMono(u, x, w);
    MulMono(w, u, w);
    assert u * w == w * u;
  }

  lemma UserSmall(B: nat)
    ensures UserSecret(5, 2, 0, 1, 1, 4, B) == 1
  {
    assert (1 + Times(4, 1) % 5) % 5 == 0;
    hide Times;
  }

  lemma SmallPowers()
    ensures ExpMod(2, 1, 5) == 2 && ExpMod(2, 4, 5) == 1
  {
    assert Pow(2, 0) == 1 && Pow(2, 1) == 2 && Pow(2, 2) == 4;
    assert Pow(2, 3) == 8;
    assert Pow(2, 4) == 16;
  }

  lemma ServerSmall()
    ensures ServerSecret(5, 2, 4, 2, 1) == 2
  {
    SmallPowers();
    assert Times(2, 1) == 2;
    hide Times, ExpMod;
  }

  /** Whether the two secrets are the same for every exponent of the server. */
  ghost predicate AlwaysAgree(n: nat, g: nat, k: nat, a: nat, x: nat, u: nat)
    requires n > 0
  {
    forall b: nat :: UserSecret(n, g, k, a, x, u, ServerPublic(n, g, k, ExpMod(g, x, n), b))
                  == ServerSecret(n, ExpMod(g, x, n), u, ExpMod(g, a, n), b)
  }

  /** They are if and only if reducing the exponent modulo N does not change the power of g. */
  lemma AgreeIff(n: nat, g: nat, k: nat, a: nat, x: nat, u: nat)
    requires n > 0
    ensures a + Times(u, x) >= 0
    ensures AlwaysAgree(n, g, k, a, x, u) <==>
              ExpMod(g, ReducedExponent(n, a, x, u), n) == ExpMod(g, a + Times(u, x), n)
  {
    TimesNat(u, x);
    var e, e' := a + Times(u, x), ReducedExponent(n, a, x, u);
    hide Cong, Times, Pow, ExpMod, ServerSecret, UserSecret, ServerPublic, ReducedExponent;
    if ExpMod(g, e', n) == ExpMod(g, e, n) {
      forall b: nat ensures UserSecret(n, g, k, a, x, u, ServerPublic(n, g, k, ExpMod(g, x, n), b))
                         == ServerSecret(n, ExpMod(g, x, n), u, ExpMod(g, a, n), b) {
        PowersSwap(g, b, e, n);
        PowersSwap(g, b, e', n);
        SecretsAgree(n, g, k, a, b, x, u);
      }
    }
    if AlwaysAgree(n, g, k, a, x, u) {
      assert UserSecret(n, g, k, a, x, u, ServerPublic(n, g, k, ExpMod(g, x, n), 1))
          == ServerSecret(n, ExpMod(g, x, n), u, ExpMod(g, a, n), 1);
      SecretsAgree(n, g, k, a, 1, x, u);
      PowersSwap(g, 1, e, n);
      PowersSwap(g, 1, e', n);
      PowerOne(ExpMod(g, e, n), n);
      PowerOne(ExpMod(g, e', n), n);
    }
  }

  /** (g^b)^e and (g^e)^b. */
  lemma PowersSwap(g: nat, b: nat, e: nat, n: nat)
    requires n > 0
    ensures ExpMod(ExpMod(g, b, n), e, n) == ExpMod(ExpMod(g, e, n), b, n)
  {
    TimesComm(b, e);
    hide Times, Cong, Pow, ExpMod;
    PowerOfPower(g, b, e, n);
    PowerOfPower(g, e, b, n);
    SameResidue(ExpMod(ExpMod(g, b, n), e, n), ExpMod(ExpMod(g, e, n), b, n), Pow(g, Times(b, e)), n);
  }

  lemma PowerOne(a: nat, n: nat)
    requires a < n
    ensures ExpMod(a, 1, n) == a
  {
    TimesOne(a);
    assert Pow(a, 1) == Times(a, Pow(a, 0)) == Times(a, 1);
    DivModUnique(a, n, 0, a);
  }

  /** With a small modulus the reduced exponent can differ from a + u*x, and the two secrets with it. */
  lemma ReductionMatters()
    ensures UserSecret(5, 2, 0, 1, 1, 4, ServerPublic(5, 2, 0, ExpMod(2, 1, 5), 1))
         != ServerSecret(5, ExpMod(2, 1, 5), 4, ExpMod(2, 1, 5), 1)
  {
    hide *;
    SmallPowers();
    UserSmall(ServerPublic(5, 2, 0, ExpMod(2, 1, 5), 1));
    ServerSmall();
  }
}
