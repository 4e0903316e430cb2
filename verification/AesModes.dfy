/** The CBC and CTR modes over the block cipher, sections 6.2 and 6.5 of NIST SP 800-38A. */
module AesModes {
  import opened AesCipher
  import opened Arith
  import opened Gf256

  function XorBytes(a: seq<bv8>, b: Block): (r: seq<bv8>)
    requires |a| <= 16
    ensures |r| == |a|
  {
    seq(|a|, i requires 0 <= i < |a| => Xor(a[i], b[i]))
  }

  lemma XorTwice(a: seq<bv8>, b: Block)
    requires |a| <= 16
    ensures XorBytes(XorBytes(a, b), b) == a
  {
    hide Xor;
    forall i | 0 <= i < |a| ensures Xor(Xor(a[i], b[i]), b[i]) == a[i] {
      Assoc(a[i], b[i], b[i]);
      Self(b[i]);
      Self(a[i]);
    }
  }

  // ----- CBC

  /** The whole blocks of a message. */
  function CbcEncrypt(m: seq<bv8>, key: seq<bv32>, keysize: nat, iv: Block): seq<bv8>
    requires KeyOk(key, keysize)
  {
    if |m| < 16 then []
    else
      var c := Encrypt(XorBytes(m[..16], iv), key, keysize);
      c + CbcEncrypt(m[16..], key, keysize, c)
  }

  function CbcDecrypt(c: seq<bv8>, key: seq<bv32>, keysize: nat, iv: Block): seq<bv8>
    requires KeyOk(key, keysize)
  {
    if |c| < 16 then [] else XorBytes(Decrypt(c[..16], key, keysize), iv) + CbcDecrypt(c[16..], key, keysize, c[..16])
  }

  /** CBC decryption undoes CBC encryption, for any number of blocks. */
  lemma {:induction false} CbcInverse(m: seq<bv8>, key: seq<bv32>, keysize: nat, iv: Block)
    requires |m| % 16 == 0 && KeyOk(key, keysize)
    ensures CbcDecrypt(CbcEncrypt(m, key, keysize, iv), key, keysize, iv) == m
    decreases |m|
  {
    hide Encrypt, Decrypt, XorBytes, KeyOk;
    if m != [] {
      var x := XorBytes(m[..16], iv);
      var c: Block := Encrypt(x, key, keysize);
      var rest := CbcEncrypt(m[16..], key, keysize, c);
      assert (c + rest)[..16] == c && (c + rest)[16..] == rest;
      BlockInverse(x, key, keysize);
      XorTwice(m[..16], iv);
      CbcInverse(m[16..], key, keysize, c);
      assert m == m[..16] + m[16..];
    }
  }

  /** `xor_buf`, from `at` in the output. */
  method XorBuf(x: array<bv8>, out: array<bv8>, at: nat, len: nat)
    requires x.Length == 16 && len <= 16 && at + len <= out.Length && x != out
    modifies out
    ensures out[..] == old(out[..at]) + XorBytes(old(out[at..at + len]), x[..]) + old(out[at + len..])
  {
    hide Xor;
    forall i | 0 <= i < len {
      out[at + i] := Xor(out[at + i], x[i]);
    }
  }

  method XorWhole(x: array<bv8>, out: array<bv8>)
    requires x.Length == 16 == out.Length && x != out
    modifies out
    ensures out[..] == XorBytes(old(out[..]), x[..])
  {
    hide XorBytes;
    ghost var before := out[..];
    assert out[0..0 + 16] == before && out[..0] == [] && out[0 + 16..] == [];
    XorBuf(x, out, 0, 16);
    assert [] + XorBytes(before, x[..]) + [] == XorBytes(before, x[..]);
  }

  method CopyIn(src: array<bv8>, at: nat, dst: array<bv8>)
    requires dst.Length == 16 && at + 16 <= src.Length && src != dst
    modifies dst
    ensures dst[..] == src[at..at + 16]
  {
    forall i | 0 <= i < 16 {
      dst[i] := src[at + i];
    }
  }

  method CopyOut(src: array<bv8>, dst: array<bv8>, at: nat)
    requires src.Length == 16 && at + 16 <= dst.Length && src != dst
    modifies dst
    ensures dst[..] == old(dst[..at]) + src[..] + old(dst[at + 16..])
  {
    forall i | 0 <= i < 16 {
      dst[at + i] := src[i];
    }
  }

  lemma CbcEncryptStep(m: seq<bv8>, key: seq<bv32>, keysize: nat, iv: Block)
    requires |m| >= 16 && KeyOk(key, keysize)
    ensures var c := Encrypt(XorBytes(m[..16], iv), key, keysize);
            CbcEncrypt(m, key, keysize, iv) == c + CbcEncrypt(m[16..], key, keysize, c)
  {
    hide Encrypt, XorBytes;
  }

  lemma CbcDecryptStep(c: seq<bv8>, key: seq<bv32>, keysize: nat, iv: Block)
    requires |c| >= 16 && KeyOk(key, keysize)
    ensures CbcDecrypt(c, key, keysize, iv)
         == XorBytes(Decrypt(c[..16], key, keysize), iv) + CbcDecrypt(c[16..], key, keysize, c[..16])
  {
    hide Decrypt, XorBytes;
  }

  lemma CbcDone(m: seq<bv8>, key: seq<bv32>, keysize: nat, iv: Block)
    requires |m| < 16 && KeyOk(key, keysize)
    ensures CbcEncrypt(m, key, keysize, iv) == [] == CbcDecrypt(m, key, keysize, iv)
  {
  }

  /** What has been written, and what is still to come. */
  ghost predicate Resumes(whole: seq<bv8>, written: seq<bv8>, rest: seq<bv8>) {
    whole == written + rest
  }

  lemma ResumeStep(whole: seq<bv8>, out: seq<bv8>, at: nat, c: seq<bv8>, rest: seq<bv8>, out': seq<bv8>)
    requires at <= |out| && Resumes(whole, out[..at], c + rest) && |out'| == |out| && at + |c| <= |out|
             && out'[..at + |c|] == out[..at] + c
    ensures Resumes(whole, out'[..at + |c|], rest)
  {
    assert out[..at] + (c + rest) == out[..at] + c + rest;
  }

  lemma ResumeStart(whole: seq<bv8>)
    ensures Resumes(whole, [], whole)
  {
  }

  lemma ResumeEnd(whole: seq<bv8>, written: seq<bv8>, rest: seq<bv8>)
    requires Resumes(whole, written, rest) && rest == []
    ensures whole == written
  {
  }

  ghost predicate Buffers(input: array<bv8>, out: array<bv8>, bufIn: array<bv8>, bufOut: array<bv8>,
                          ivBuf: array<bv8>) {
    && bufIn.Length == 16 && bufOut.Length == 16 && ivBuf.Length == 16
    && bufIn != bufOut && bufIn != ivBuf && bufOut != ivBuf
    && input !in {bufIn, bufOut, ivBuf} && out !in {bufIn, bufOut, ivBuf}
  }

  method NewBuffers(input: array<bv8>, out: array<bv8>, iv: Block)
    returns (bufIn: array<bv8>, bufOut: array<bv8>, ivBuf: array<bv8>)
    ensures fresh(bufIn) && fresh(bufOut) && fresh(ivBuf)
    ensures Buffers(input, out, bufIn, bufOut, ivBuf) && ivBuf.Length == 16 && ivBuf[..] == iv
  {
    bufIn, bufOut, ivBuf := new bv8[16], new bv8[16], new bv8[16](i requires 0 <= i < 16 => iv[i]);
  }

  method EncryptOneCbc(input: array<bv8>, out: array<bv8>, at: nat, key: seq<bv32>, keysize: nat,
                       bufIn: array<bv8>, bufOut: array<bv8>, ivBuf: array<bv8>)
    requires KeyOk(key, keysize) && Buffers(input, out, bufIn, bufOut, ivBuf) && at + 16 <= input.Length
             && at + 16 <= out.Length
    modifies out, bufIn, bufOut, ivBuf
    ensures ivBuf[..] == Encrypt(XorBytes(old(input[at..at + 16]), old(ivBuf[..])), key, keysize)
    ensures out[..] == old(out[..at]) + ivBuf[..] + old(out[at + 16..])
    ensures forall k :: at + 16 <= k < input.Length ==> input[k] == old(input[k])
  {
    hide Encrypt, KeyOk, XorBytes;
    CopyIn(input, at, bufIn);
    XorWhole(ivBuf, bufIn);
    EncryptBlock(bufIn, bufOut, key, keysize);
    CopyOut(bufOut, out, at);
    assert bufOut[0..0 + 16] == bufOut[..];
    CopyIn(bufOut, 0, ivBuf);
  }

  /** `aes_encrypt_cbc`; input and output may be the same buffer. */
  method EncryptCbc(input: array<bv8>, len: nat, out: array<bv8>, key: seq<bv32>, keysize: nat, iv: Block)
    returns (ok: bool)
    requires KeyOk(key, keysize) && len <= input.Length && len <= out.Length
    modifies out
    ensures ok <==> len % 16 == 0
    ensures ok ==> out[..] == CbcEncrypt(old(input[..len]), key, keysize, iv) + old(out[len..])
    ensures !ok ==> out[..] == old(out[..])
  {
    hide *;
    if len % 16 != 0 {
      return false;
    }
    ok := true;
    RunCbcEncrypt(input, len, out, key, keysize, iv);
    assert out[..] == out[..len] + out[len..];
  }

  method RunCbcEncrypt(input: array<bv8>, len: nat, out: array<bv8>, key: seq<bv32>, keysize: nat, iv: Block)
    requires KeyOk(key, keysize) && len <= input.Length && len <= out.Length && len % 16 == 0
    modifies out
    ensures out[..len] == CbcEncrypt(old(input[..len]), key, keysize, iv) && out[len..] == old(out[len..])
  {
    hide *;
    ghost var m, tail := input[..len], out[len..];
    ghost var whole := CbcEncrypt(m, key, keysize, iv);
    var blocks := len / 16;
    var bufIn, bufOut, ivBuf := NewBuffers(input, out, iv);
    assert out[..16 * 0] == [] && m[16 * 0..] == m;
    ResumeStart(whole);
    var idx := 0;
    while idx < blocks
      invariant 0 <= idx <= blocks && ivBuf.Length == 16
      invariant out[len..] == tail && forall k :: 16 * idx <= k < len ==> input[k] == m[k]
      invariant Resumes(whole, out[..16 * idx], CbcEncrypt(m[16 * idx..], key, keysize, ivBuf[..]))
    {
      EncryptTurn(input, out, idx * 16, key, keysize, bufIn, bufOut, ivBuf, m, whole);
      idx := idx + 1;
    }
    CbcDone(m[16 * idx..], key, keysize, ivBuf[..]);
    ResumeEnd(whole, out[..16 * idx], CbcEncrypt(m[16 * idx..], key, keysize, ivBuf[..]));
  }

  method EncryptTurn(input: array<bv8>, out: array<bv8>, at: nat, key: seq<bv32>, keysize: nat,
                     bufIn: array<bv8>, bufOut: array<bv8>, ivBuf: array<bv8>, ghost m: seq<bv8>, ghost whole: seq<bv8>)
    requires KeyOk(key, keysize) && Buffers(input, out, bufIn, bufOut, ivBuf)
    requires at + 16 <= |m| <= input.Length && |m| <= out.Length && forall k :: at <= k < |m| ==> input[k] == m[k]
    requires Resumes(whole, out[..at], CbcEncrypt(m[at..], key, keysize, ivBuf[..]))
    modifies out, bufIn, bufOut, ivBuf
    ensures Resumes(whole, out[..at + 16], CbcEncrypt(m[at + 16..], key, keysize, ivBuf[..]))
    ensures out[|m|..] == old(out[|m|..]) && forall k :: at + 16 <= k < |m| ==> input[k] == m[k]
  {
    hide Encrypt, KeyOk, XorBytes, CbcEncrypt, Resumes;
    ghost var ivNow: Block, rest, before := ivBuf[..], m[at..], out[..];
    assert input[at..at + 16] == rest[..16] && rest[16..] == m[at + 16..];
    CbcEncryptStep(rest, key, keysize, ivNow);
    EncryptOneCbc(input, out, at, key, keysize, bufIn, bufOut, ivBuf);
    ResumeStep(whole, before, at, ivBuf[..], CbcEncrypt(rest[16..], key, keysize, ivBuf[..]), out[..]);
  }

  method DecryptOneCbc(input: array<bv8>, out: array<bv8>, at: nat, key: seq<bv32>, keysize: nat,
                       bufIn: array<bv8>, bufOut: array<bv8>, ivBuf: array<bv8>)
    requires KeyOk(key, keysize) && Buffers(input, out, bufIn, bufOut, ivBuf) && at + 16 <= input.Length
             && at + 16 <= out.Length
    modifies out, bufIn, bufOut, ivBuf
    ensures ivBuf[..] == old(input[at..at + 16])
    ensures out[..] == old(out[..at]) + XorBytes(Decrypt(old(input[at..at + 16]), key, keysize), old(ivBuf[..]))
            + old(out[at + 16..])
    ensures forall k :: at + 16 <= k < input.Length ==> input[k] == old(input[k])
  {
    hide Decrypt, KeyOk, XorBytes;
    CopyIn(input, at, bufIn);
    DecryptBlock(bufIn, bufOut, key, keysize);
    XorWhole(ivBuf, bufOut);
    CopyOut(bufOut, out, at);
    assert bufIn[0..0 + 16] == bufIn[..];
    CopyIn(bufIn, 0, ivBuf);
  }

  /** `aes_decrypt_cbc`; input and output may be the same buffer. */
  method DecryptCbc(input: array<bv8>, len: nat, out: array<bv8>, key: seq<bv32>, keysize: nat, iv: Block)
    returns (ok: bool)
    requires KeyOk(key, keysize) && len <= input.Length && len <= out.Length
    modifies out
    ensures ok <==> len % 16 == 0
    ensures ok ==> out[..] == CbcDecrypt(old(input[..len]), key, keysize, iv) + old(out[len..])
    ensures !ok ==> out[..] == old(out[..])
  {
    hide *;
    if len % 16 != 0 {
      return false;
    }
    ok := true;
    RunCbcDecrypt(input, len, out, key, keysize, iv);
    assert out[..] == out[..len] + out[len..];
  }

  method RunCbcDecrypt(input: array<bv8>, len: nat, out: array<bv8>, key: seq<bv32>, keysize: nat, iv: Block)
    requires KeyOk(key, keysize) && len <= input.Length && len <= out.Length && len % 16 == 0
    modifies out
    ensures out[..len] == CbcDecrypt(old(input[..len]), key, keysize, iv) && out[len..] == old(out[len..])
  {
    hide *;
    ghost var m, tail := input[..len], out[len..];
    ghost var whole := CbcDecrypt(m, key, keysize, iv);
    var blocks := len / 16;
    var bufIn, bufOut, ivBuf := NewBuffers(input, out, iv);
    assert out[..16 * 0] == [] && m[16 * 0..] == m;
    ResumeStart(whole);
    var idx := 0;
    while idx < blocks
      invariant 0 <= idx <= blocks && ivBuf.Length == 16
      invariant out[len..] == tail && forall k :: 16 * idx <= k < len ==> input[k] == m[k]
      invariant Resumes(whole, out[..16 * idx], CbcDecrypt(m[16 * idx..], key, keysize, ivBuf[..]))
    {
      DecryptTurn(input, out, idx * 16, key, keysize, bufIn, bufOut, ivBuf, m, whole);
      idx := idx + 1;
    }
    CbcDone(m[16 * idx..], key, keysize, ivBuf[..]);
    ResumeEnd(whole, out[..16 * idx], CbcDecrypt(m[16 * idx..], key, keysize, ivBuf[..]));
  }

  method DecryptTurn(input: array<bv8>, out: array<bv8>, at: nat, key: seq<bv32>, keysize: nat,
                     bufIn: array<bv8>, bufOut: array<bv8>, ivBuf: array<bv8>, ghost m: seq<bv8>, ghost whole: seq<bv8>)
    requires KeyOk(key, keysize) && Buffers(input, out, bufIn, bufOut, ivBuf)
    requires at + 16 <= |m| <= input.Length && |m| <= out.Length && forall k :: at <= k < |m| ==> input[k] == m[k]
    requires Resumes(whole, out[..at], CbcDecrypt(m[at..], key, keysize, ivBuf[..]))
    modifies out, bufIn, bufOut, ivBuf
    ensures Resumes(whole, out[..at + 16], CbcDecrypt(m[at + 16..], key, keysize, ivBuf[..]))
    ensures out[|m|..] == old(out[|m|..]) && forall k :: at + 16 <= k < |m| ==> input[k] == m[k]
  {
    hide Decrypt, KeyOk, XorBytes, CbcDecrypt, Resumes;
    ghost var ivNow: Block, rest, before := ivBuf[..], m[at..], out[..];
    assert input[at..at + 16] == rest[..16] && rest[16..] == m[at + 16..];
    CbcDecryptStep(rest, key, keysize, ivNow);
    DecryptOneCbc(input, out, at, key, keysize, bufIn, bufOut, ivBuf);
    ResumeStep(whole, before, at, XorBytes(Decrypt(rest[..16], key, keysize), ivNow),
               CbcDecrypt(rest[16..], key, keysize, rest[..16]), out[..]);
  }

  // ----- the counter

  /** A big-endian number. */
  function Value(b: seq<bv8>): nat {
    if b == [] then 0 else 256 * Value(b[..|b| - 1]) + b[|b| - 1] as nat
  }

  function Pow256(n: nat): (p: nat)
    ensures p > 0
  {
    if n == 0 then 1 else 256 * Pow256(n - 1)
  }

  /** Adding one to the last byte, with the carry. */
  function Inc(b: seq<bv8>): (r: seq<bv8>)
    ensures |r| == |b|
  {
    if b == [] then []
    else
      var j := |b| - 1;
      if b[j] == 0xff then Inc(b[..j]) + [0] else b[..j] + [b[j] + 1]
  }

  lemma ByteInc(x: bv8)
    ensures x == 0xff <==> x as nat == 255
    ensures x != 0xff ==> (x + 1) as nat == x as nat + 1
  {
  }

  /** The carry out of the last digit. */
  lemma Carry(v: nat, p: nat, x: nat, inc: nat)
    requires v < p && x < 256 && inc == if v + 1 == p then 0 else v + 1
    ensures (if x == 255 then 256 * inc else 256 * v + (x + 1)) == if 256 * v + x + 1 == 256 * p then 0
            else 256 * v + x + 1
  {
  }

  lemma {:induction false} ValueBound(b: seq<bv8>)
    ensures Value(b) < Pow256(|b|)
  {
    if b != [] {
      ValueBound(b[..|b| - 1]);
    }
  }

  /** Inc adds one, and wraps around at 256^|b|. */
  lemma {:induction false} IncIsPlusOne(b: seq<bv8>)
    ensures Value(b) < Pow256(|b|)
    ensures Value(Inc(b)) == if Value(b) + 1 == Pow256(|b|) then 0 else Value(b) + 1
  {
    if b != [] {
      var j := |b| - 1;
      IncIsPlusOne(b[..j]);
      ValueBound(b);
      IncSnoc(b[..j], b[j]);
      assert b[..j] + [b[j]] == b;
      ValueSnoc(b[..j], b[j]);
      assert Pow256(|b|) == 256 * Pow256(j);
      hide *;
      ByteInc(b[j]);
      Carry(Value(b[..j]), Pow256(j), b[j] as nat, Value(Inc(b[..j])));
      ValueSnoc(Inc(b[..j]), 0);
      ValueSnoc(b[..j], b[j] + 1);
    }
  }

  lemma IncSnoc(b: seq<bv8>, x: bv8)
    ensures Inc(b + [x]) == if x == 0xff then Inc(b) + [0] else b + [x + 1]
  {
    assert (b + [x])[..|b|] == b;
  }

  lemma ValueSnoc(b: seq<bv8>, x: bv8)
    ensures Value(b + [x]) == 256 * Value(b) + x as nat
  {
    assert (b + [x])[..|b|] == b;
  }

  /** The counter block after `i` steps. */
  function IncN(b: Block, i: nat): Block {
    if i == 0 then b else Inc(IncN(b, i - 1))
  }

  /** Block `i` is keyed by the counter iv + i modulo 2^128. */
  lemma {:induction false} CounterValue(iv: Block, i: nat)
    ensures Value(IncN(iv, i)) == (Value(iv) + i) % Pow256(16)
  {
    hide Value, Inc, Pow256;
    IncIsPlusOne(iv);
    var p := Pow256(16);
    if i == 0 {
      DivModUnique(Value(iv), p, 0, Value(iv));
    } else {
      var before := IncN(iv, i - 1);
      CounterValue(iv, i - 1);
      IncIsPlusOne(before);
      ModPlus(Value(iv) + i - 1, 1, p);
      if Value(before) + 1 == p {
        DivModUnique(p, p, 1, 0);
      } else {
        DivModUnique(Value(before) + 1, p, 0, Value(before) + 1);
      }
    }
  }

  /** `increment_iv`: the last `size` bytes, as a big-endian counter. */
  method IncrementIv(iv: array<bv8>, size: nat)
    requires iv.Length == 16 && size <= 16
    modifies iv
    ensures iv[..] == old(iv[..16 - size]) + Inc(old(iv[16 - size..]))
  {
    hide *;
    ghost var v: Block, lo := iv[..], 16 - size;
    CarryStart(v, lo);
    var idx: int := 15;
    while idx >= 16 - size
      invariant lo - 1 <= idx <= 15 && size <= 16
      invariant iv[..idx + 1] == v[..idx + 1] && iv[idx + 1..] == Zeros(15 - idx)
      invariant Carried(v, lo, idx + 1)
      invariant size > 0 ==> idx >= lo
    {
      CarryStep(v, lo, idx);
      iv[idx] := iv[idx] + 1;
      ZerosCons(15 - idx);
      if iv[idx] != 0 || idx == 16 - size {
        CarryEnd(v, lo, idx, iv[..]);
        return;
      }
      idx := idx - 1;
    }
    CarryNone(v, lo);
  }

  /** Everything from `to` on has been carried over to zero. */
  ghost predicate Carried(v: Block, lo: nat, to: nat) {
    lo <= to <= 16 && Inc(v[lo..]) == Inc(v[lo..to]) + Zeros(16 - to)
  }

  lemma CarryStart(v: Block, lo: nat)
    requires lo <= 16
    ensures Carried(v, lo, 16) && Zeros(0) == []
  {
    assert v[lo..16] == v[lo..];
  }

  lemma CarryNone(v: Block, lo: nat)
    requires lo == 16
    ensures v == v[..lo] + Inc(v[lo..])
  {
  }

  lemma ZerosCons(n: nat)
    ensures Zeros(n + 1) == [0] + Zeros(n)
  {
  }

  lemma CarryStep(v: Block, lo: nat, idx: nat)
    requires lo <= idx < 16 && Carried(v, lo, idx + 1)
    ensures v[idx] == 0xff ==> Carried(v, lo, idx)
    ensures v[idx] + 1 == 0 <==> v[idx] == 0xff
  {
    IncSuffix(v, lo, idx);
    ZerosCons(15 - idx);
  }

  /** The byte that stops the carry, or the first one. */
  lemma CarryEnd(v: Block, lo: nat, idx: nat, r: Block)
    requires lo <= idx < 16 && Carried(v, lo, idx + 1) && (v[idx] != 0xff || idx == lo)
    requires r[..idx] == v[..idx] && r[idx] == v[idx] + 1 && r[idx + 1..] == Zeros(15 - idx)
    ensures r == v[..lo] + Inc(v[lo..])
  {
    IncSuffix(v, lo, idx);
    assert v[lo..lo] == [];
    assert r == r[..idx] + [r[idx]] + r[idx + 1..];
    assert v[..idx] == v[..lo] + v[lo..idx];
  }

  function Zeros(n: nat): (z: seq<bv8>)
    ensures |z| == n
  {
    seq(n, _ => 0)
  }

  lemma IncSuffix(v: Block, lo: nat, idx: nat)
    requires lo <= idx < 16
    ensures Inc(v[lo..idx + 1]) == if v[idx] == 0xff then Inc(v[lo..idx]) + [0] else v[lo..idx] + [v[idx] + 1]
  {
    assert v[lo..idx + 1][..idx - lo] == v[lo..idx];
  }

  // ----- CTR

  /** Every block is added to the encrypted counter; the last one may be short. */
  function Ctr(m: seq<bv8>, key: seq<bv32>, keysize: nat, iv: Block): (c: seq<bv8>)
    requires KeyOk(key, keysize)
    ensures |c| == |m|
  {
    hide Encrypt, XorBytes, KeyOk, Inc;
    if |m| <= 16 then XorBytes(m, Encrypt(iv, key, keysize))
    else XorBytes(m[..16], Encrypt(iv, key, keysize)) + Ctr(m[16..], key, keysize, Inc(iv))
  }

  /** CTR is its own inverse, for any length. */
  lemma {:induction false} CtrSelfInverse(m: seq<bv8>, key: seq<bv32>, keysize: nat, iv: Block)
    requires KeyOk(key, keysize)
    ensures Ctr(Ctr(m, key, keysize, iv), key, keysize, iv) == m
    decreases |m|
  {
    hide Encrypt, XorBytes, KeyOk, Inc;
    var e := Encrypt(iv, key, keysize);
    if |m| <= 16 {
      XorTwice(m, e);
    } else {
      var head, rest := XorBytes(m[..16], e), Ctr(m[16..], key, keysize, Inc(iv));
      XorTwice(m[..16], e);
      CtrSelfInverse(m[16..], key, keysize, Inc(iv));
      assert (head + rest)[..16] == head && (head + rest)[16..] == rest;
      assert m == m[..16] + m[16..];
    }
  }

  /** Byte `k` is added to byte `k % 16` of the encryption of counter block `k / 16`. */
  lemma {:induction false} CtrAt(m: seq<bv8>, key: seq<bv32>, keysize: nat, iv: Block, k: nat)
    requires KeyOk(key, keysize) && k < |m|
    ensures Ctr(m, key, keysize, iv)[k] == Xor(m[k], Encrypt(IncN(iv, k / 16), key, keysize)[k % 16])
    decreases |m|
  {
    hide Encrypt, KeyOk, Inc, Xor;
    if k < 16 {
      assert IncN(iv, 0) == iv;
      assert k / 16 == 0 && k % 16 == k;
    } else {
      CtrAt(m[16..], key, keysize, Inc(iv), k - 16);
      IncNShift(iv, (k - 16) / 16);
      assert k / 16 == (k - 16) / 16 + 1 && k % 16 == (k - 16) % 16;
    }
  }

  lemma {:induction false} IncNShift(iv: Block, i: nat)
    ensures IncN(Inc(iv), i) == IncN(iv, i + 1)
  {
    hide Inc;
    if i == 0 {
      assert IncN(iv, 0) == iv;
    } else {
      IncNShift(iv, i - 1);
    }
  }

  lemma CtrStep(m: seq<bv8>, key: seq<bv32>, keysize: nat, iv: Block)
    requires KeyOk(key, keysize) && |m| > 16
    ensures Ctr(m, key, keysize, iv) == XorBytes(m[..16], Encrypt(iv, key, keysize))
            + Ctr(m[16..], key, keysize, Inc(iv))
  {
    hide Encrypt, XorBytes, Inc, KeyOk;
  }

  lemma CtrLast(m: seq<bv8>, key: seq<bv32>, keysize: nat, iv: Block)
    requires KeyOk(key, keysize) && |m| <= 16
    ensures Ctr(m, key, keysize, iv) == XorBytes(m, Encrypt(iv, key, keysize))
  {
    hide Encrypt, XorBytes, KeyOk;
  }

  /** `aes_encrypt_ctr`; input and output may be the same buffer. */
  method EncryptCtr(input: array<bv8>, len: nat, out: array<bv8>, key: seq<bv32>, keysize: nat, iv: Block)
    requires KeyOk(key, keysize) && len <= input.Length && len <= out.Length
    modifies out
    ensures out[..] == Ctr(old(input[..len]), key, keysize, iv) + old(out[len..])
  {
    hide *;
    ghost var m, tail := input[..len], out[len..];
    if input != out {
      forall k | 0 <= k < len {
        out[k] := input[k];
      }
    }
    assert out[..len] == m && out[len..] == tail;
    RunCtr(out, len, key, keysize, iv);
    assert out[..] == out[..len] + out[len..];
  }

  method RunCtr(out: array<bv8>, len: nat, key: seq<bv32>, keysize: nat, iv: Block)
    requires KeyOk(key, keysize) && len <= out.Length
    modifies out
    ensures out[..len] == Ctr(old(out[..len]), key, keysize, iv) && out[len..] == old(out[len..])
  {
    hide *;
    ghost var m, tail := out[..len], out[len..];
    ghost var whole := Ctr(m, key, keysize, iv);
    var ivBuf, outBuf := CtrBuffers(out, iv);
    ResumeStart(whole);
    assert out[..0] == [] && m[0..] == m;
    var idx := 0;
    if len > 16 {
      while idx < len - 16
        invariant 0 <= idx < len && ivBuf.Length == 16 == outBuf.Length && out != ivBuf && out != outBuf
                  && ivBuf != outBuf
        invariant out[idx..len] == m[idx..] && out[len..] == tail
        invariant Resumes(whole, out[..idx], Ctr(m[idx..], key, keysize, ivBuf[..]))
      {
        CtrTurn(out, len, idx, key, keysize, ivBuf, outBuf, m, whole);
        idx := idx + 16;
      }
    }
    EncryptBlock(ivBuf, outBuf, key, keysize);
    ghost var ivNow: Block := ivBuf[..];
    CtrLast(m[idx..], key, keysize, ivNow);
    ghost var before := out[..];
    assert out[idx..idx + (len - idx)] == m[idx..] && before[idx + (len - idx)..] == tail;
    XorBuf(outBuf, out, idx, len - idx);
    FullLength(whole, before[..idx], Ctr(m[idx..], key, keysize, ivNow), tail, out[..]);
  }

  lemma FullLength(whole: seq<bv8>, written: seq<bv8>, last: seq<bv8>, tail: seq<bv8>, out: seq<bv8>)
    requires Resumes(whole, written, last) && out == written + last + tail
    ensures |out| == |whole| + |tail| && out[..|whole|] == whole && out[|whole|..] == tail
  {
  }

  method CtrBuffers(out: array<bv8>, iv: Block) returns (ivBuf: array<bv8>, outBuf: array<bv8>)
    ensures fresh(ivBuf) && fresh(outBuf) && ivBuf.Length == 16 == outBuf.Length && ivBuf[..] == iv
    ensures out != ivBuf && out != outBuf && ivBuf != outBuf
  {
    ivBuf, outBuf := new bv8[16](i requires 0 <= i < 16 => iv[i]), new bv8[16];
  }

  method CtrTurn(out: array<bv8>, len: nat, idx: nat, key: seq<bv32>, keysize: nat, ivBuf: array<bv8>,
                 outBuf: array<bv8>,
                 ghost m: seq<bv8>, ghost whole: seq<bv8>)
    requires KeyOk(key, keysize) && idx + 16 < len == |m| && len <= out.Length
    requires ivBuf.Length == 16 == outBuf.Length && out != ivBuf && out != outBuf && ivBuf != outBuf
    requires out[idx..len] == m[idx..] && Resumes(whole, out[..idx], Ctr(m[idx..], key, keysize, ivBuf[..]))
    modifies out, ivBuf, outBuf
    ensures out[idx + 16..len] == m[idx + 16..] && out[len..] == old(out[len..])
    ensures Resumes(whole, out[..idx + 16], Ctr(m[idx + 16..], key, keysize, ivBuf[..]))
  {
    hide *;
    ghost var before, rest, ivNow: Block := out[..], m[idx..], ivBuf[..];
    CtrStep(rest, key, keysize, ivNow);
    assert rest[..16] == out[idx..idx + 16] && rest[16..] == m[idx + 16..];
    EncryptBlock(ivBuf, outBuf, key, keysize);
    XorBuf(outBuf, out, idx, 16);
    assert ivBuf[..0] == [] && ivBuf[0..] == ivBuf[..] && [] + Inc(ivNow) == Inc(ivNow);
    IncrementIv(ivBuf, 16);
    ResumeStep(whole, before, idx, XorBytes(rest[..16], Encrypt(ivNow, key, keysize)),
               Ctr(rest[16..], key, keysize, Inc(ivNow)), out[..]);
    AfterXor(before, idx, XorBytes(rest[..16], Encrypt(ivNow, key, keysize)), out[..], len);
  }

  lemma AfterXor(before: seq<bv8>, idx: nat, x: seq<bv8>, out: seq<bv8>, len: nat)
    requires |x| == 16 && idx + 16 <= len <= |before| && out == before[..idx] + x + before[idx + 16..]
    ensures |out| == |before| && out[idx + 16..len] == before[idx + 16..len] && out[len..] == before[len..]
  {
  }
}
