/** The two sides of an SRP session, and the run between them. */
module SrpSession {
  import opened Srp

  type Octets = seq<bv8>

  datatype Option<T> = None | Some(value: T)

  datatype Group = Group(N: nat, g: nat)

  /** The hash functions, as arbitrary functions of what goes into them. */
  datatype Hashes = Hashes(
    hnn: (nat, nat) -> nat,
    hx: (nat, string, Octets) -> nat,
    hkey: nat -> Octets,
    hm: (Group, string, nat, nat, nat, Octets) -> Octets,
    hamk: (nat, Octets, Octets) -> Octets)

  /** `srp_create_salted_verification_key`, for a salt drawn by the caller. */
  method CreateVerificationKey(hs: Hashes, gr: Group, username: string, password: Octets, s: nat) returns (v: nat)
    requires gr.N > 0
    ensures v == ExpMod(gr.g, hs.hx(s, username, password), gr.N)
  {
    var x := hs.hx(s, username, password);
    v := ExpMod(gr.g, x, gr.N);
  }

  class User {
    const hs: Hashes
    const gr: Group
    const username: string
    const password: Octets
    var a: nat
    var A: nat
    var S: nat
    var sessionKey: Octets
    var M: Octets
    var hAmk: Octets
    var authenticated: bool

    constructor (hs: Hashes, gr: Group, username: string, password: Octets)
      ensures this.hs == hs && this.gr == gr && this.username == username && this.password == password && !authenticated
    {
      this.hs, this.gr, this.username, this.password := hs, gr, username, password;
      a, A, S, sessionKey, M, hAmk, authenticated := 0, 0, 0, [], [], [], false;
    }

    /** `srp_user_start_authentication`, with the random exponent. */
    method StartAuthentication(random: nat)
      requires gr.N > 0
      modifies `a, `A
      ensures a == random && A == ExpMod(gr.g, random, gr.N)
    {
      a := random;
      A := ExpMod(gr.g, a, gr.N);
    }

    /** `srp_user_process_challenge`. */
    method ProcessChallenge(s: nat, B: nat) returns (m: Option<Octets>)
      requires gr.N > 0
      modifies `S, `sessionKey, `M, `hAmk
      ensures m.Some? <==> B != 0 && hs.hnn(A, B) != 0
      ensures m.Some? ==>
                && S == UserSecret(gr.N, gr.g, hs.hnn(gr.N, gr.g), a, hs.hx(s, username, password), hs.hnn(A, B), B)
                && sessionKey == hs.hkey(S) && m.value == M == hs.hm(gr, username, s, A, B, sessionKey)
                && hAmk == hs.hamk(A, M, sessionKey)
      ensures m.Some? ==>
                var k, x, u := hs.hnn(gr.N, gr.g), hs.hx(s, username, password), hs.hnn(A, B);
                u * x >= 0 && Cong(S, Pow(B - k * Pow(gr.g, x), (a + u * x) % gr.N), gr.N)
    {
      var u := hs.hnn(A, B);
      var x := hs.hx(s, username, password);
      var k := hs.hnn(gr.N, gr.g);
      UserPowerIs(gr.N, gr.g, k, a, x, u, B);
      hide ExpMod, Times, Pow, Cong;
      m := None;
      if B != 0 && u != 0 {
        TimesNat(u, x);
        var tmp1: int := Times(u, x);
        tmp1 := tmp1 % gr.N;
        var tmp2 := a + tmp1;
        tmp2 := tmp2 % gr.N;
        tmp1 := ExpMod(gr.g, x, gr.N);
        var tmp3 := Times(k, tmp1);
        tmp3 := tmp3 % gr.N;
        tmp1 := B - tmp3;
        S := ExpMod(tmp1, tmp2, gr.N);
        sessionKey := hs.hkey(S);
        M := hs.hm(gr, username, s, A, B, sessionKey);
        hAmk := hs.hamk(A, M, sessionKey);
        m := Some(M);
      }
    }

    /** `srp_user_verify_session`. */
    method VerifySession(proof: Octets)
      modifies `authenticated
      ensures authenticated <==> old(authenticated) || proof == hAmk
    {
      if hAmk == proof {
        authenticated := true;
      }
    }
  }

  class Verifier {
    const hs: Hashes
    const gr: Group
    const username: string
    var sessionKey: Octets
    var M: Octets
    var hAmk: Octets
    var authenticated: bool

    constructor (hs: Hashes, gr: Group, username: string)
      ensures this.hs == hs && this.gr == gr && this.username == username && !authenticated
    {
      this.hs, this.gr, this.username := hs, gr, username;
      sessionKey, M, hAmk, authenticated := [], [], [], false;
    }

    /** `srp_verifier_new`, with the random exponent `b`; there is no `B` if the safety check fails. */
    method Challenge(s: nat, v: nat, A: nat, b: nat) returns (pub: Option<nat>)
      requires gr.N > 0
      modifies `sessionKey, `M, `hAmk
      ensures pub.Some? <==> A % gr.N != 0
      ensures pub.Some? ==>
                && pub.value == ServerPublic(gr.N, gr.g, hs.hnn(gr.N, gr.g), v, b)
                && sessionKey == hs.hkey(ServerSecret(gr.N, v, hs.hnn(A, pub.value), A, b))
                && M == hs.hm(gr, username, s, A, pub.value, sessionKey) && hAmk == hs.hamk(A, M, sessionKey)
      ensures pub.Some? ==> pub.value < gr.N && Cong(pub.value - hs.hnn(gr.N, gr.g) * v, Pow(gr.g, b), gr.N)
    {
      PublicIs(gr.N, gr.g, hs.hnn(gr.N, gr.g), v, b);
      hide ExpMod, Times, Pow, Cong;
      pub := None;
      var tmp1: int := A % gr.N;
      if tmp1 != 0 {
        var k := hs.hnn(gr.N, gr.g);
        tmp1 := Times(k, v);
        var tmp2: int := ExpMod(gr.g, b, gr.N);
        tmp1 := tmp1 + tmp2;
        var B := tmp1 % gr.N;
        var u := hs.hnn(A, B);
        tmp1 := ExpMod(v, u, gr.N);
        tmp2 := Times(A, tmp1);
        var S := ExpMod(tmp2, b, gr.N);
        sessionKey := hs.hkey(S);
        M := hs.hm(gr, username, s, A, B, sessionKey);
        hAmk := hs.hamk(A, M, sessionKey);
        pub := Some(B);
      }
    }

    /** `srp_verifier_verify_session`. */
    method VerifySession(userM: Octets) returns (proof: Option<Octets>)
      modifies `authenticated
      ensures authenticated <==> old(authenticated) || userM == M
      ensures proof == if userM == M then Some(hAmk) else None
    {
      if M == userM {
        authenticated := true;
        proof := Some(hAmk);
      } else {
        proof := None;
      }
    }
  }

  /** What a run is about: the two secrets, and whether the safety checks pass. */
  datatype Facts = Facts(A: nat, B: nat, passed: bool, userSecret: nat, serverSecret: nat)

  function FactsOf(hs: Hashes, gr: Group, x: nat, y: nat, a: nat, b: nat): Facts
    requires gr.N > 0
  {
    var v, k := ExpMod(gr.g, x, gr.N), hs.hnn(gr.N, gr.g);
    var A, B := ExpMod(gr.g, a, gr.N), ServerPublic(gr.N, gr.g, k, v, b);
    var u := hs.hnn(A, B);
    Facts(A, B, A != 0 && B != 0 && u != 0, UserSecret(gr.N, gr.g, k, a, y, u, B), ServerSecret(gr.N, v, u, A, b))
  }

  /** A whole run, with the password that was registered and the one that was entered. The server accepts exactly if
      the safety checks on A, B and u pass and the two proofs agree, and the user exactly if the server does and the
      answers agree. With equal secrets both follow from the checks, and the session keys are equal. */
  method Handshake(hs: Hashes, gr: Group, username: string, password: Octets, entered: Octets, s: nat, a: nat, b: nat)
    returns (user: User, verifier: Verifier)
    requires gr.N > 0
    ensures var f := FactsOf(hs, gr, hs.hx(s, username, password), hs.hx(s, username, entered), a, b);
            var ku, kv := hs.hkey(f.userSecret), hs.hkey(f.serverSecret);
            var m := hs.hm(gr, username, s, f.A, f.B, kv);
      && (verifier.authenticated <==> f.passed && hs.hm(gr, username, s, f.A, f.B, ku) == m)
      && (user.authenticated <==> verifier.authenticated && hs.hamk(f.A, m, ku) == hs.hamk(f.A, m, kv))
      && (f.passed ==> user.sessionKey == ku && verifier.sessionKey == kv)
    ensures var f := FactsOf(hs, gr, hs.hx(s, username, password), hs.hx(s, username, entered), a, b);
      f.userSecret == f.serverSecret ==>
        && (verifier.authenticated <==> f.passed) && (user.authenticated <==> f.passed)
        && (f.passed ==> user.sessionKey == verifier.sessionKey)
  {
    hide ExpMod, Times, UserSecret, ServerSecret, ServerPublic;
    var v := CreateVerificationKey(hs, gr, username, password, s);
    user := new User(hs, gr, username, entered);
    user.StartAuthentication(a);
    verifier := new Verifier(hs, gr, username);
    var pub := verifier.Challenge(s, v, user.A, b);
    Reduced(gr.g, a, gr.N);
    if pub.Some? {
      var m := user.ProcessChallenge(s, pub.value);
      if m.Some? {
        var proof := verifier.VerifySession(m.value);
        if proof.Some? {
          user.VerifySession(proof.value);
        }
      }
    }
  }

  /** With the right password, the secrets of a run are equal if and only if reducing the exponent of the user keeps the
      power of g^b, and so whenever a + u*x is below the modulus. */
  lemma RightPassword(hs: Hashes, gr: Group, x: nat, a: nat, b: nat)
    requires gr.N > 0
    ensures var f := FactsOf(hs, gr, x, x, a, b);
            var u, gb := hs.hnn(f.A, f.B), ExpMod(gr.g, b, gr.N);
      && a + Times(u, x) >= 0
      && (f.userSecret == f.serverSecret
          <==> ExpMod(gb, ReducedExponent(gr.N, a, x, u), gr.N) == ExpMod(gb, a + Times(u, x), gr.N))
      && (a + Times(u, x) < gr.N ==> f.userSecret == f.serverSecret)
  {
    hide ExpMod, Times, UserSecret, ServerSecret, ServerPublic, ReducedExponent;
    var A, B := ExpMod(gr.g, a, gr.N), ServerPublic(gr.N, gr.g, hs.hnn(gr.N, gr.g), ExpMod(gr.g, x, gr.N), b);
    SecretsAgree(gr.N, gr.g, hs.hnn(gr.N, gr.g), a, b, x, hs.hnn(A, B));
  }

  /** The facts of a run in numbers: what the two sides send, and the two secrets, for the exponent `x` of the password
      that was registered and `y` of the one that was entered. */
  lemma FactsAre(hs: Hashes, gr: Group, x: nat, y: nat, a: nat, b: nat)
    requires gr.N > 0
    ensures var f := FactsOf(hs, gr, x, y, a, b);
            var k, u, gb := hs.hnn(gr.N, gr.g), hs.hnn(f.A, f.B), Pow(gr.g, b);
      && f.A < gr.N && Cong(f.A, Pow(gr.g, a), gr.N)
      && f.B < gr.N && Cong(f.B - k * ExpMod(gr.g, x, gr.N), gb, gr.N)
      && u * y >= 0 && Cong(f.userSecret, Pow(gb + k * (Pow(gr.g, x) - Pow(gr.g, y)), (a + u * y) % gr.N), gr.N)
      && b * (a + u * x) >= 0 && Cong(f.serverSecret, Pow(gr.g, b * (a + u * x)), gr.N)
  {
    var f, k := FactsOf(hs, gr, x, y, a, b), hs.hnn(gr.N, gr.g);
    var u := hs.hnn(f.A, f.B);
    CongMod(Pow(gr.g, a), gr.N);
    PublicIs(gr.N, gr.g, k, ExpMod(gr.g, x, gr.N), b);
    EnteredSecretIs(gr.N, gr.g, k, a, b, x, y, u);
    ServerSecretIs(gr.N, gr.g, a, b, x, u);
    ExponentIs(a, b, x, u);
    hide Pow, Cong, UserSecret, ServerSecret, ServerPublic, Exponent;
  }

  lemma ExponentIs(a: nat, b: nat, x: nat, u: nat)
    ensures b * (a + u * x) >= 0 && Exponent(a, b, x, u) == b * (a + u * x)
  {
    TimesNat(b, a + Times(u, x));
  }

  lemma Reduced(g: nat, a: nat, n: nat)
    requires n > 0
    ensures ExpMod(g, a, n) % n == ExpMod(g, a, n)
  {
  }
}
