/** PBKDF2-HMAC-SHA256 with cached HMAC midstates and raw block transforms, against section 5.2
    of RFC 8018 over HMAC (section 2 of RFC 2104). */
module Pbkdf2 {
  import opened Arith
  import S = Sha256

  const HASH_SIZE := 32
  const UINT32 := 0x1_0000_0000

  // ----- the standards

  function Xor(a: bv8, b: bv8): bv8 { a ^ b }

  function XorPad(k: S.Block, pad: bv8): S.Block {
    seq(64, i requires 0 <= i < 64 => Xor(k[i], pad))
  }

  /** A key longer than a block is hashed; then it is filled up with zeros. */
  function BlockKey(key: seq<bv8>): S.Block {
    var k := if |key| > S.BLOCK then S.Hash(key) else key;
    k + S.Zeros(S.BLOCK - |k|)
  }

  function Inner(key: seq<bv8>): S.Block { XorPad(BlockKey(key), 0x36) }

  function Outer(key: seq<bv8>): S.Block { XorPad(BlockKey(key), 0x5c) }

  function Hmac(key: seq<bv8>, m: seq<bv8>): (h: seq<bv8>)
    ensures |h| == HASH_SIZE
  {
    S.Hash(Outer(key) + S.Hash(Inner(key) + m))
  }

  /** Four bytes, most significant first. */
  function Int32(n: nat): (b: seq<bv8>)
    ensures |b| == 4
  {
    [S.ByteOf(n, 0x100_0000), S.ByteOf(n, 0x1_0000), S.ByteOf(n, 0x100), S.ByteOf(n, 1)]
  }

  function XorBytes(a: seq<bv8>, b: seq<bv8>): (r: seq<bv8>)
    requires |a| == |b|
    ensures |r| == |a|
  {
    seq(|a|, i requires 0 <= i < |a| => Xor(a[i], b[i]))
  }

  /** U_c of block `index`. */
  function U(pw: seq<bv8>, salt: seq<bv8>, c: nat, index: nat): (u: seq<bv8>)
    requires c >= 1
    ensures |u| == HASH_SIZE
  {
    if c == 1 then Hmac(pw, salt + Int32(index)) else Hmac(pw, U(pw, salt, c - 1, index))
  }

  /** F: the exclusive-or of U_1 to U_c. */
  function F(pw: seq<bv8>, salt: seq<bv8>, c: nat, index: nat): (t: seq<bv8>)
    requires c >= 1
    ensures |t| == HASH_SIZE
  {
    if c == 1 then U(pw, salt, 1, index) else XorBytes(F(pw, salt, c - 1, index), U(pw, salt, c, index))
  }

  /** T_1 to T_n. */
  function Blocks(pw: seq<bv8>, salt: seq<bv8>, c: nat, n: nat): (dk: seq<bv8>)
    requires c >= 1
    ensures |dk| == HASH_SIZE * n
  {
    if n == 0 then [] else Blocks(pw, salt, c, n - 1) + F(pw, salt, c, n)
  }

  function DerivedKey(pw: seq<bv8>, salt: seq<bv8>, c: nat, length: nat): (dk: seq<bv8>)
    requires c >= 1
    ensures |dk| == length
  {
    Blocks(pw, salt, c, (length + 31) / 32)[..length]
  }

  // ----- words and bytes

  function XorWord(a: bv32, b: bv32): bv32 { a ^ b }

  function XorWords(a: S.Digest, b: S.Digest): S.Digest {
    [XorWord(a[0], b[0]), XorWord(a[1], b[1]), XorWord(a[2], b[2]), XorWord(a[3], b[3]),
     XorWord(a[4], b[4]), XorWord(a[5], b[5]), XorWord(a[6], b[6]), XorWord(a[7], b[7])]
  }

  lemma Byte3Xor(a: bv32, b: bv32)
    ensures S.Byte3(XorWord(a, b)) == Xor(S.Byte3(a), S.Byte3(b))
  {
  }

  lemma Byte2Xor(a: bv32, b: bv32)
    ensures S.Byte2(XorWord(a, b)) == Xor(S.Byte2(a), S.Byte2(b))
  {
  }

  lemma Byte1Xor(a: bv32, b: bv32)
    ensures S.Byte1(XorWord(a, b)) == Xor(S.Byte1(a), S.Byte1(b))
  {
  }

  lemma Byte0Xor(a: bv32, b: bv32)
    ensures S.Byte0(XorWord(a, b)) == Xor(S.Byte0(a), S.Byte0(b))
  {
  }

  lemma WordBytesXor(a: bv32, b: bv32, k: nat)
    requires k < 4
    ensures S.WordBytes(XorWord(a, b))[k] == Xor(S.WordBytes(a)[k], S.WordBytes(b)[k])
  {
    hide S.Byte0, S.Byte1, S.Byte2, S.Byte3, Xor, XorWord;
    Byte3Xor(a, b);
    Byte2Xor(a, b);
    Byte1Xor(a, b);
    Byte0Xor(a, b);
    assert k == 0 || k == 1 || k == 2 || k == 3;
  }

  /** Exclusive-or of digests by words is exclusive-or of the output bytes. */
  lemma DigestBytesXor(a: S.Digest, b: S.Digest)
    ensures S.DigestBytes(XorWords(a, b)) == XorBytes(S.DigestBytes(a), S.DigestBytes(b))
  {
    hide S.WordBytes, XorWords, S.DigestBytes, XorBytes, Xor, XorWord;
    var x, y, z: S.Digest := a, b, XorWords(a, b);
    forall i | 0 <= i < 32 ensures S.DigestBytes(z)[i] == XorBytes(S.DigestBytes(x), S.DigestBytes(y))[i] {
      XorWordsAt(a, b, i / 4);
      WordBytesXor(a[i / 4], b[i / 4], i % 4);
      DigestByte(x, i);
      DigestByte(y, i);
      DigestByte(z, i);
      XorByte(S.DigestBytes(x), S.DigestBytes(y), i);
    }
  }

  lemma DigestByte(d: S.Digest, i: nat)
    requires i < 32
    ensures S.DigestBytes(d)[i] == S.WordBytes(d[i / 4])[i % 4]
  {
    hide S.WordBytes;
  }

  lemma XorByte(a: seq<bv8>, b: seq<bv8>, i: nat)
    requires i < |a| == |b|
    ensures XorBytes(a, b)[i] == Xor(a[i], b[i])
  {
  }

  lemma XorWordsAt(a: S.Digest, b: S.Digest, j: nat)
    requires j < 8
    ensures XorWords(a, b)[j] == XorWord(a[j], b[j])
  {
    hide XorWord;
    assert j == 0 || j == 1 || j == 2 || j == 3 || j == 4 || j == 5 || j == 6 || j == 7;
  }

  /** `write32_be` of a state word. */
  method WriteWord(out: array<bv8>, at: nat, w: bv32)
    requires at + 4 <= out.Length
    modifies out
    ensures out[..at + 4] == old(out[..at]) + S.WordBytes(w)
    ensures forall k :: at + 4 <= k < out.Length ==> out[k] == old(out[k])
  {
    out[at], out[at + 1] := S.WordBytes(w)[0], S.WordBytes(w)[1];
    out[at + 2], out[at + 3] := S.WordBytes(w)[2], S.WordBytes(w)[3];
  }

  /** `write32_be` of a number. */
  method WriteInt(out: array<bv8>, at: nat, n: nat)
    requires at + 4 <= out.Length && n < UINT32
    modifies out
    ensures out[..at + 4] == old(out[..at]) + Int32(n)
    ensures forall k :: at + 4 <= k < out.Length ==> out[k] == old(out[k])
  {
    hide S.ByteOf;
    out[at], out[at + 1] := Int32(n)[0], Int32(n)[1];
    out[at + 2], out[at + 3] := Int32(n)[2], Int32(n)[3];
  }

  /** The first `n` words of a digest, as bytes. */
  lemma WordsAreDigest(d: S.Digest, n: nat)
    requires n < 8
    ensures S.DigestBytes(d)[..4 * n] + S.WordBytes(d[n]) == S.DigestBytes(d)[..4 * n + 4]
  {
    hide S.WordBytes, S.DigestBytes;
    forall k | 0 <= k < 4 ensures S.DigestBytes(d)[4 * n + k] == S.WordBytes(d[n])[k] {
      DivModUnique(4 * n + k, 4, n, k);
      DigestByte(d, 4 * n + k);
    }
  }

  /** `sha256_extract`. */
  method Extract(c: S.Context, out: array<bv8>)
    requires c.state.Length == 8 && out.Length >= HASH_SIZE
    modifies out
    ensures out[..32] == S.DigestBytes(c.Digest()) && out[32..] == old(out[32..])
  {
    hide S.WordBytes, S.DigestBytes;
    ghost var d := c.Digest();
    WriteWord(out, 0, c.state[0]);
    WordsAreDigest(d, 0);
    WriteWord(out, 4, c.state[1]);
    WordsAreDigest(d, 1);
    WriteWord(out, 8, c.state[2]);
    WordsAreDigest(d, 2);
    WriteWord(out, 12, c.state[3]);
    WordsAreDigest(d, 3);
    WriteWord(out, 16, c.state[4]);
    WordsAreDigest(d, 4);
    WriteWord(out, 20, c.state[5]);
    WordsAreDigest(d, 5);
    WriteWord(out, 24, c.state[6]);
    WordsAreDigest(d, 6);
    WriteWord(out, 28, c.state[7]);
    WordsAreDigest(d, 7);
  }

  /** `sha256_cpy`: the state only. */
  method CopyState(to: S.Context, from: S.Context)
    requires to.state.Length == 8 && from.state.Length == 8 && to.state != from.state
    modifies to.state
    ensures to.state[..] == from.state[..]
  {
    forall k | 0 <= k < 8 {
      to.state[k] := from.state[k];
    }
  }

  /** `sha256_xor`. */
  method XorState(to: S.Context, from: S.Context)
    requires to.state.Length == 8 && from.state.Length == 8 && to.state != from.state
    modifies to.state
    ensures to.Digest() == XorWords(old(to.Digest()), from.Digest())
  {
    hide XorWords, XorWord;
    ghost var a, b := to.Digest(), from.Digest();
    forall k | 0 <= k < 8 {
      to.state[k] := XorWord(to.state[k], from.state[k]);
    }
    forall k | 0 <= k < 8 ensures to.state[k] == XorWords(a, b)[k] {
      XorWordsAt(a, b, k);
    }
  }

  /** Message padding for `msg` bytes, after the first `used` bytes of a block; the bit length is
      written in 32 bits. */
  method MdPad(block: array<bv8>, used: nat, msg: nat)
    requires used + 5 <= block.Length
    modifies block
    ensures block[..] == old(block[..used]) + [0x80] + S.Zeros(block.Length - used - 5) + Int32(8 * msg % UINT32)
  {
    hide S.ByteOf;
    ghost var head := block[..used];
    forall k | used <= k < block.Length - 4 {
      block[k] := 0;
    }
    block[used] := 0x80;
    assert block[..block.Length - 4] == head + [0x80] + S.Zeros(block.Length - used - 5);
    WriteInt(block, block.Length - 4, 8 * msg % UINT32);
    assert block[..] == block[..block.Length];
  }

  // ----- HMAC

  /** Fills a block with the key: hashed if it is too long, then padded with zeros. */
  method PrepareKey(c: S.Context, key: seq<bv8>) returns (k: array<bv8>)
    requires c.data.Length == S.BLOCK && c.state.Length == 8 && |key| < UINT32
    modifies c, c.data, c.state
    ensures fresh(k) && k.Length == S.BLOCK && k[..] == BlockKey(key)
  {
    hide S.Hash, S.HashState, S.HashBlocks;
    k := new bv8[S.BLOCK];
    var nkey := |key|;
    if nkey > S.BLOCK {
      c.Init();
      assert [] + key == key;
      c.Update(key, []);
      c.Final(k, key);
      nkey := HASH_SIZE;
    } else {
      forall i | 0 <= i < nkey {
        k[i] := key[i];
      }
      assert k[..nkey] == key;
    }
    ghost var head := k[..nkey];
    forall i | nkey <= i < S.BLOCK {
      k[i] := 0;
    }
    assert k[..] == head + S.Zeros(S.BLOCK - nkey);
  }

  method MaskKey(c: S.Context, key: seq<bv8>) returns (blkInner: array<bv8>, blkOuter: array<bv8>)
    requires c.data.Length == S.BLOCK && c.state.Length == 8 && |key| < UINT32
    modifies c, c.data, c.state
    ensures fresh(blkInner) && fresh(blkOuter)
    ensures blkInner[..] == Inner(key) && blkOuter[..] == Outer(key)
  {
    hide Inner, Outer, BlockKey;
    var k := PrepareKey(c, key);
    blkInner, blkOuter := new bv8[S.BLOCK], new bv8[S.BLOCK];
    for i := 0 to S.BLOCK
      invariant k[..] == BlockKey(key)
      invariant forall j :: 0 <= j < i ==> blkInner[j] == Xor(k[j], 0x36) && blkOuter[j] == Xor(k[j], 0x5c)
    {
      blkInner[i] := Xor(k[i], 0x36);
      blkOuter[i] := Xor(k[i], 0x5c);
    }
    KeyBlocks(key, k[..], blkInner[..], blkOuter[..]);
  }

  method StartHash(c: S.Context, block: array<bv8>)
    requires c.data.Length == S.BLOCK && c.state.Length == 8 && block.Length == S.BLOCK && block != c.data
    modifies c, c.data, c.state
    ensures c.Absorbed(block[..])
  {
    hide S.HashBlocks, S.Whole;
    c.Init();
    assert [] + block[..] == block[..];
    c.Update(block[..], []);
  }

  class HmacContext {
    const inner: S.Context
    const outer: S.Context

    ghost predicate Separate() {
      && inner != outer && inner.data != outer.data && inner.state != outer.state
      && inner.data.Length == S.BLOCK && outer.data.Length == S.BLOCK
      && inner.state.Length == 8 && outer.state.Length == 8
    }

    ghost function Parts(): set<object> {
      {inner, inner.data, inner.state, outer, outer.data, outer.state}
    }

    /** The inner hash has taken in the inner key block and `m`, the outer hash the outer key block. */
    ghost predicate Keyed(key: seq<bv8>, m: seq<bv8>)
      reads Parts()
    {
      Separate() && inner.Absorbed(Inner(key) + m) && outer.Absorbed(Outer(key))
    }

    /** The midstates after one key block each. */
    ghost predicate Cached(key: seq<bv8>)
      reads inner, inner.state, outer, outer.state
    {
      && Separate()
      && inner.Digest() == S.HashBlocks(S.H0, Inner(key))
      && outer.Digest() == S.HashBlocks(S.H0, Outer(key))
    }

    constructor ()
      ensures Separate() && fresh(Parts())
    {
      inner := new S.Context();
      outer := new S.Context();
    }

    /** `HMAC_INIT`. */
    method Init(key: seq<bv8>)
      requires |key| < UINT32 && Separate()
      modifies Parts()
      ensures Keyed(key, [])
    {
      hide S.HashBlocks, Inner, Outer, BlockKey, S.Whole;
      var blkInner, blkOuter := MaskKey(inner, key);
      StartHash(inner, blkInner);
      StartHash(outer, blkOuter);
      assert Inner(key) == Inner(key) + [];
    }

    /** A copy of the whole structure. */
    constructor Copy(c: HmacContext)
      requires c.Separate()
      ensures Separate() && fresh(Parts())
      ensures S.Same(c.inner, inner) && S.Same(c.outer, outer)
    {
      inner := new S.Context.Copy(c.inner);
      outer := new S.Context.Copy(c.outer);
      new;
      hide S.Same;
    }

    /** `HMAC_UPDATE`. */
    method Update(bytes: seq<bv8>, ghost key: seq<bv8>, ghost m: seq<bv8>)
      requires Keyed(key, m) && |bytes| < UINT32
      modifies inner, inner.data, inner.state
      ensures Keyed(key, m + bytes)
    {
      hide S.HashBlocks, Inner, Outer;
      assert Inner(key) + m + bytes == Inner(key) + (m + bytes);
      inner.Update(bytes, Inner(key) + m);
    }

    /** `HMAC_FINAL`. */
    method Final(out: array<bv8>, ghost key: seq<bv8>, ghost m: seq<bv8>)
      requires Keyed(key, m) && out !in Parts() && out.Length >= HASH_SIZE
      modifies Parts(), out
      ensures Separate() && out[..32] == Hmac(key, m) && out[32..] == old(out[32..])
      ensures S.DigestBytes(outer.Digest()) == Hmac(key, m)
    {
      hide S.HashBlocks, S.HashState, Inner, Outer, S.Whole;
      inner.Final(out, Inner(key) + m);
      ghost var h := out[..32];
      outer.Update(out[..32], Outer(key));
      outer.Final(out, Outer(key) + h);
    }
  }

  lemma CopyKeyed(a: HmacContext, b: HmacContext, key: seq<bv8>, m: seq<bv8>)
    requires a.Keyed(key, m) && b.Separate() && S.Same(a.inner, b.inner) && S.Same(a.outer, b.outer)
    ensures b.Keyed(key, m)
  {
    hide Inner, Outer, S.Context.Absorbed, S.Same;
    S.SameAbsorbed(a.inner, b.inner, Inner(key) + m);
    S.SameAbsorbed(a.outer, b.outer, Outer(key));
  }

  lemma KeyBlocks(key: seq<bv8>, k: seq<bv8>, ipad: seq<bv8>, opad: seq<bv8>)
    requires k == BlockKey(key) && |ipad| == S.BLOCK && |opad| == S.BLOCK
    requires forall j :: 0 <= j < S.BLOCK ==> ipad[j] == Xor(k[j], 0x36) && opad[j] == Xor(k[j], 0x5c)
    ensures ipad == Inner(key) && opad == Outer(key)
  {
    hide BlockKey, Xor;
  }

  // ----- PBKDF2

  lemma PadTailParts(block: seq<bv8>, head: seq<bv8>)
    requires |head| == 32 && block == head + [0x80] + S.Zeros(27) + Int32(768)
    ensures block[32..] == PadTail()
  {
    hide Int32, S.Zeros;
  }

  /** What follows the 32 bytes of a hash in the last block of a 96-byte message. */
  function PadTail(): (t: seq<bv8>)
    ensures |t| == 32
  {
    [0x80] + S.Zeros(27) + Int32(768)
  }

  lemma PadOfBlockAndHash(k: S.Block, u: seq<bv8>)
    requires |u| == HASH_SIZE
    ensures S.Pad(k + u) == k + (u + PadTail())
  {
    LengthOf96();
    ZerosSplit();
    hide S.LengthBytes, Int32, S.Zeros;
    assert S.PadZeros(96) == 23;
  }

  lemma ZerosSplit()
    ensures S.Zeros(27) == S.Zeros(23) + S.Zeros(4)
  {
  }

  /** The upper half of a 64-bit length is zero. */
  lemma LengthOf96()
    ensures S.LengthBytes(768) == S.Zeros(4) + Int32(768)
  {
    hide S.ByteOf;
    HighByte(0x100_0000_0000_0000);
    HighByte(0x1_0000_0000_0000);
    HighByte(0x100_0000_0000);
    HighByte(0x1_0000_0000);
  }

  lemma HighByte(weight: nat)
    requires weight > 768
    ensures S.ByteOf(768, weight) == 0
  {
    assert 768 / weight == 0 by {
      DivModUnique(768, weight, 0, 768);
    }
  }

  /** One raw transform of a cached midstate finishes the hash of a key block and a 32-byte value. */
  lemma MidstateHash(k: S.Block, u: seq<bv8>)
    requires |u| == HASH_SIZE
    ensures S.HashState(k + u) == S.Compress(S.HashBlocks(S.H0, k), u + PadTail())
  {
    hide S.Compress, S.Pad, S.HashBlocks, PadTail;
    PadOfBlockAndHash(k, u);
    S.HashBlocksSnoc(S.H0, k, u + PadTail());
  }

  /** One turn of the loop in `PBKDF2_F`: from U_c in the block to U_{c+1}. */
  method NextU(start: HmacContext, ctx: HmacContext, block: array<bv8>, ghost key: seq<bv8>, ghost u: seq<bv8>)
    requires start.Cached(key) && ctx.Separate() && start.Parts() !! ctx.Parts()
             && block !in start.Parts() + ctx.Parts()
    requires |u| == HASH_SIZE && block.Length == S.BLOCK && block[..] == u + PadTail()
    modifies ctx.inner.state, ctx.outer.state, block
    ensures block[..] == Hmac(key, u) + PadTail()
    ensures S.DigestBytes(ctx.outer.Digest()) == Hmac(key, u)
  {
    hide S.Compress, S.HashBlocks, S.DigestBytes, S.HashState, Inner, Outer, PadTail, S.Whole;
    HalfHmac(start.inner, ctx.inner, block, Inner(key), u);
    HalfHmac(start.outer, ctx.outer, block, Outer(key), S.Hash(Inner(key) + u));
  }

  lemma Midstate(start: HmacContext, key: seq<bv8>)
    requires start.Keyed(key, [])
    ensures start.Cached(key)
  {
    hide S.HashBlocks, Inner, Outer;
    assert Inner(key) + [] == Inner(key) == Inner(key)[..64] && Outer(key) == Outer(key)[..64];
  }

  method HalfHmac(start: S.Context, c: S.Context, block: array<bv8>, ghost k: S.Block, ghost u: seq<bv8>)
    requires start.state.Length == 8 && c.state.Length == 8 && start.state != c.state && block.Length == S.BLOCK
    requires start.Digest() == S.HashBlocks(S.H0, k) && |u| == HASH_SIZE && block[..] == u + PadTail()
    modifies c.state, block
    ensures block[..] == S.Hash(k + u) + PadTail() && S.DigestBytes(c.Digest()) == S.Hash(k + u)
  {
    hide S.Compress, S.HashBlocks, S.DigestBytes, S.HashState, PadTail;
    CopyState(c, start);
    c.Transform(block);
    MidstateHash(k, u);
    Extract(c, block);
    assert block[..] == block[..32] + block[32..];
  }

  /** The loop of `PBKDF2_F`. */
  method Iterate(start: HmacContext, ctx: HmacContext, block: array<bv8>, result: S.Context, iterations: nat,
                 ghost pw: seq<bv8>, ghost salt: seq<bv8>, ghost counter: nat)
    requires start.Cached(pw) && ctx.Separate() && start.Parts() !! ctx.Parts() && block !in start.Parts() + ctx.Parts()
    requires result.state.Length == 8 && result.state !in start.Parts() + ctx.Parts()
    requires iterations >= 1 && block.Length == S.BLOCK && block[..] == U(pw, salt, 1, counter) + PadTail()
    requires S.DigestBytes(result.Digest()) == U(pw, salt, 1, counter)
    modifies ctx.inner.state, ctx.outer.state, block, result.state
    ensures S.DigestBytes(result.Digest()) == F(pw, salt, iterations, counter)
  {
    hide S.Compress, S.HashBlocks, S.DigestBytes, S.HashState, Hmac, Inner, Outer, PadTail, XorBytes, XorWords, Int32;
    var i := 1;
    while i < iterations
      invariant 1 <= i <= iterations
      invariant block[..] == U(pw, salt, i, counter) + PadTail()
      invariant S.DigestBytes(result.Digest()) == F(pw, salt, i, counter)
    {
      NextU(start, ctx, block, pw, U(pw, salt, i, counter));
      DigestBytesXor(result.Digest(), ctx.outer.Digest());
      XorState(result, ctx.outer);
      i := i + 1;
    }
  }

  /** The counter as bytes, and a block that ends in the padding every later turn needs. */
  method Prepare(counter: nat) returns (countbuf: array<bv8>, block: array<bv8>)
    requires counter < UINT32
    ensures fresh(countbuf) && countbuf[..] == Int32(counter)
    ensures fresh(block) && block.Length == S.BLOCK && block[32..] == PadTail()
  {
    hide PadTail, Int32;
    countbuf := new bv8[4];
    WriteInt(countbuf, 0, counter);
    assert countbuf[..] == countbuf[..4];
    block := new bv8[S.BLOCK];
    MdPad(block, HASH_SIZE, S.BLOCK + HASH_SIZE);
    PadTailParts(block[..], block[..32]);
    assert block[32..] == block[..][32..];
  }

  /** The first U, by the streaming HMAC. */
  method FirstU(ctx: HmacContext, countbuf: array<bv8>, salt: seq<bv8>, block: array<bv8>, ghost pw: seq<bv8>,
                ghost counter: nat)
    requires ctx.Keyed(pw, []) && |salt| < UINT32 && countbuf[..] == Int32(counter)
    requires block.Length == S.BLOCK && block[32..] == PadTail() && block !in ctx.Parts() && countbuf !in ctx.Parts()
    modifies ctx.Parts(), block
    ensures ctx.Separate() && block[..] == U(pw, salt, 1, counter) + PadTail()
    ensures S.DigestBytes(ctx.outer.Digest()) == U(pw, salt, 1, counter)
  {
    hide S.HashBlocks, S.DigestBytes, S.HashState, Hmac, Inner, Outer, PadTail, Int32, S.Whole;
    ctx.Update(salt, pw, []);
    ctx.Update(countbuf[..], pw, [] + salt);
    assert [] + salt + Int32(counter) == salt + Int32(counter);
    ctx.Final(block, pw, salt + Int32(counter));
    assert block[..] == block[..32] + block[32..];
  }

  /** The other values, added up from the first one, and the result. */
  method LaterU(start: HmacContext, ctx: HmacContext, block: array<bv8>, iterations: nat, out: array<bv8>,
                ghost pw: seq<bv8>, ghost salt: seq<bv8>, ghost counter: nat)
    requires start.Keyed(pw, []) && ctx.Separate() && start.Parts() !! ctx.Parts()
    requires block !in start.Parts() + ctx.Parts() && out !in start.Parts() + ctx.Parts() && out != block
    requires iterations >= 1 && block.Length == S.BLOCK && block[..] == U(pw, salt, 1, counter) + PadTail()
    requires S.DigestBytes(ctx.outer.Digest()) == U(pw, salt, 1, counter) && out.Length == HASH_SIZE
    modifies ctx.inner.state, ctx.outer.state, block, out
    ensures out[..] == F(pw, salt, iterations, counter)
  {
    hide S.Compress, S.HashBlocks, S.DigestBytes, S.HashState, Hmac, Inner, Outer, PadTail, XorBytes, XorWords, Int32,
         U, F;
    var result := new S.Context.Copy(ctx.outer);
    Midstate(start, pw);
    Iterate(start, ctx, block, result, iterations, pw, salt, counter);
    Extract(result, out);
    assert out[..] == out[..32];
  }

  /** `PBKDF2_F`: the first U by the streaming HMAC, the rest from the cached midstates. */
  method BlockF(start: HmacContext, counter: nat, salt: seq<bv8>, iterations: nat, out: array<bv8>, ghost pw: seq<bv8>)
    requires start.Keyed(pw, []) && counter < UINT32 && |salt| < UINT32 && iterations >= 1
    requires out.Length == HASH_SIZE && out !in start.Parts()
    modifies out
    ensures out[..] == F(pw, salt, iterations, counter)
  {
    hide S.Compress, S.HashBlocks, S.DigestBytes, S.HashState, Hmac, Inner, Outer, PadTail, XorBytes, XorWords, Int32;
    var countbuf, block := Prepare(counter);
    var ctx := new HmacContext.Copy(start);
    CopyKeyed(start, ctx, pw, []);
    FirstU(ctx, countbuf, salt, block, pw, counter);
    LaterU(start, ctx, block, iterations, out, pw, salt, counter);
  }

  /** The block count: the cast to 32 bits is applied to the sum, before the division. */
  function BlocksNeeded(nout: nat): (n: nat)
    ensures n < UINT32 / HASH_SIZE
  {
    (nout + HASH_SIZE - 1) % UINT32 / HASH_SIZE
  }

  /** How many output bytes are written. */
  function Written(nout: nat): (n: nat)
    ensures n <= nout
  {
    var n := HASH_SIZE * BlocksNeeded(nout);
    if nout < n then nout else n
  }

  /** The whole output is written exactly if the rounded length fits in 32 bits. */
  lemma WritesAllIff(nout: nat)
    ensures Written(nout) == nout <==> nout + 31 < UINT32
  {
    var x := nout + 31;
    if x < UINT32 {
      assert x % UINT32 == x;
    } else {
      assert 32 * BlocksNeeded(nout) <= UINT32 - 32;
    }
  }

  /** Copies a block to its place. */
  method Place(out: array<bv8>, offset: nat, block: array<bv8>)
    requires block.Length == HASH_SIZE && block != out && offset < out.Length
    modifies out
    ensures var to := if offset + HASH_SIZE < out.Length then offset + HASH_SIZE else out.Length;
            out[..to] == old(out[..offset]) + block[..to - offset] && out[to..] == old(out[to..])
  {
    var taken := if out.Length - offset < HASH_SIZE then out.Length - offset else HASH_SIZE;
    forall k | 0 <= k < taken {
      out[offset + k] := block[k];
    }
  }

  function Min(a: nat, b: nat): nat { if a < b then a else b }

  /** `PBKDF2`. The iteration count and the output length are asserted to be positive. */
  method Derive(pw: seq<bv8>, salt: seq<bv8>, iterations: nat, out: array<bv8>)
    requires |pw| < UINT32 && |salt| < UINT32 && 1 <= iterations < UINT32 && out.Length > 0
    modifies out
    ensures var n := Written(out.Length);
            out[..n] == DerivedKey(pw, salt, iterations, out.Length)[..n] && out[n..] == old(out[n..])
  {
    hide F, Inner, Outer, BlockKey, S.HashBlocks, Blocks, DerivedKey, BlocksNeeded, Written;
    var ctx := new HmacContext();
    ctx.Init(pw);
    var blocks := BlocksNeeded(out.Length);
    var counter := 1;
    while counter <= blocks
      invariant 1 <= counter <= blocks + 1
      invariant ctx.Keyed(pw, []) && fresh(ctx.Parts())
      invariant var n := Min(out.Length, HASH_SIZE * (counter - 1));
                out[..n] == Blocks(pw, salt, iterations, counter - 1)[..n] && out[n..] == old(out[n..])
    {
      counter := NextBlock(ctx, counter, salt, iterations, out, pw);
    }
    WrittenBlocks(pw, salt, iterations, out.Length);
  }

  /** As many blocks as are computed are the first bytes of the derived key. */
  lemma WrittenBlocks(pw: seq<bv8>, salt: seq<bv8>, c: nat, nout: nat)
    requires c >= 1
    ensures var n, m := Written(nout), BlocksNeeded(nout);
      n == Min(nout, HASH_SIZE * m) && Blocks(pw, salt, c, m)[..n] == DerivedKey(pw, salt, c, nout)[..n]
  {
    hide Blocks;
    var n, m, k := Written(nout), BlocksNeeded(nout), (nout + 31) / 32;
    EnoughBlocks(nout);
    BlocksPrefix(pw, salt, c, m, k);
    assert Blocks(pw, salt, c, k)[..HASH_SIZE * m][..n] == Blocks(pw, salt, c, k)[..nout][..n];
  }

  lemma EnoughBlocks(nout: nat)
    ensures BlocksNeeded(nout) <= (nout + 31) / 32
  {
  }

  lemma {:induction false} BlocksPrefix(pw: seq<bv8>, salt: seq<bv8>, c: nat, n: nat, k: nat)
    requires c >= 1 && n <= k
    ensures Blocks(pw, salt, c, n) == Blocks(pw, salt, c, k)[..HASH_SIZE * n]
  {
    hide F;
    if n < k {
      BlocksPrefix(pw, salt, c, n, k - 1);
    }
  }

  method NextBlock(ctx: HmacContext, counter: nat, salt: seq<bv8>, iterations: nat, out: array<bv8>, ghost pw: seq<bv8>)
    returns (next: nat)
    requires ctx.Keyed(pw, []) && out !in ctx.Parts() && |salt| < UINT32 && iterations >= 1
    requires 1 <= counter <= BlocksNeeded(out.Length)
    requires var n := Min(out.Length, HASH_SIZE * (counter - 1));
             out[..n] == Blocks(pw, salt, iterations, counter - 1)[..n]
    modifies out
    ensures next == counter + 1
    ensures var n := Min(out.Length, HASH_SIZE * counter);
            out[..n] == Blocks(pw, salt, iterations, counter)[..n] && out[n..] == old(out[n..])
  {
    hide F, Inner, Outer, BlockKey, S.HashBlocks;
    var block := new bv8[HASH_SIZE];
    BlockF(ctx, counter, salt, iterations, block, pw);
    var offset := (counter - 1) * HASH_SIZE;
    BlockStarts(out.Length, counter);
    Place(out, offset, block);
    ghost var to := Min(out.Length, HASH_SIZE * counter);
    ghost var before, t := Blocks(pw, salt, iterations, counter - 1), F(pw, salt, iterations, counter);
    assert (before + t)[..to] == before + t[..to - offset];
    next := counter + 1;
  }

  lemma BlockStarts(nout: nat, counter: nat)
    requires 1 <= counter <= BlocksNeeded(nout)
    ensures (counter - 1) * HASH_SIZE < nout
  {
  }
}
