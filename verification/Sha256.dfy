/** SHA-256: the streaming context of the library against the one-shot hash of FIPS 180-4. */
module Sha256 {
  import opened Arith

  const BLOCK := 64
  const LENGTH_MODULUS := 0x1_0000_0000_0000_0000

  /** The loop counters have 32 bits, the lengths 64. */
  const COUNTER_MODULUS := 0x1_0000_0000

  /** The loop counter after so many turns. */
  function CounterAfter(turns: nat): nat { turns % COUNTER_MODULUS }

  lemma CounterStep(i: nat)
    requires i + 1 < COUNTER_MODULUS
    ensures CounterAfter(i + 1) == i + 1
  {
  }

  const K: seq<bv32> :=
    [0x428a2f98, 0x71374491, 0xb5c0fbcf, 0xe9b5dba5, 0x3956c25b, 0x59f111f1, 0x923f82a4, 0xab1c5ed5]
    + [0xd807aa98, 0x12835b01, 0x243185be, 0x550c7dc3, 0x72be5d74, 0x80deb1fe, 0x9bdc06a7, 0xc19bf174]
    + [0xe49b69c1, 0xefbe4786, 0x0fc19dc6, 0x240ca1cc, 0x2de92c6f, 0x4a7484aa, 0x5cb0a9dc, 0x76f988da]
    + [0x983e5152, 0xa831c66d, 0xb00327c8, 0xbf597fc7, 0xc6e00bf3, 0xd5a79147, 0x06ca6351, 0x14292967]
    + [0x27b70a85, 0x2e1b2138, 0x4d2c6dfc, 0x53380d13, 0x650a7354, 0x766a0abb, 0x81c2c92e, 0x92722c85]
    + [0xa2bfe8a1, 0xa81a664b, 0xc24b8b70, 0xc76c51a3, 0xd192e819, 0xd6990624, 0xf40e3585, 0x106aa070]
    + [0x19a4c116, 0x1e376c08, 0x2748774c, 0x34b0bcb5, 0x391c0cb3, 0x4ed8aa4a, 0x5b9cca4f, 0x682e6ff3]
    + [0x748f82ee, 0x78a5636f, 0x84c87814, 0x8cc70208, 0x90befffa, 0xa4506ceb, 0xbef9a3f7, 0xc67178f2]

  const H0: seq<bv32> := [
    0x6a09e667, 0xbb67ae85, 0x3c6ef372, 0xa54ff53a, 0x510e527f, 0x9b05688c, 0x1f83d9ab, 0x5be0cd19]

  // ----- the functions of section 4.1.2 of FIPS 180-4

  function Ch(x: bv32, y: bv32, z: bv32): bv32 { (x & y) ^ (!x & z) }

  function Maj(x: bv32, y: bv32, z: bv32): bv32 { (x & y) ^ (x & z) ^ (y & z) }

  function Rotr(x: bv32, n: nat): bv32
    requires n <= 32
  {
    (x >> n) | (x << (32 - n))
  }

  function Ep0(x: bv32): bv32 { Rotr(x, 2) ^ Rotr(x, 13) ^ Rotr(x, 22) }

  function Ep1(x: bv32): bv32 { Rotr(x, 6) ^ Rotr(x, 11) ^ Rotr(x, 25) }

  function Sig0(x: bv32): bv32 { Rotr(x, 7) ^ Rotr(x, 18) ^ (x >> 3) }

  function Sig1(x: bv32): bv32 { Rotr(x, 17) ^ Rotr(x, 19) ^ (x >> 10) }

  function Word(a: bv8, b: bv8, c: bv8, d: bv8): bv32 {
    (a as bv32 << 24) | (b as bv32 << 16) | (c as bv32 << 8) | (d as bv32)
  }

  function Plus(a: bv32, b: bv32): bv32 { a + b }

  // ----- the compression function, section 6.2.2

  type Digest = s: seq<bv32> | |s| == 8 witness [0, 0, 0, 0, 0, 0, 0, 0]

  type Block = s: seq<bv8> | |s| == 64 witness seq(64, _ => 0)

  function Schedule(block: Block, t: nat): bv32 {
    if t < 16 then Word(block[4 * t], block[4 * t + 1], block[4 * t + 2], block[4 * t + 3])
    else Plus(Plus(Plus(Sig1(Schedule(block, t - 2)), Schedule(block, t - 7)), Sig0(Schedule(block, t - 15))),
              Schedule(block, t - 16))
  }

  /** The working variables a to h after `t` rounds. */
  function Rounds(state: Digest, block: Block, t: nat): Digest
    requires t <= 64
  {
    if t == 0 then state
    else
      var v := Rounds(state, block, t - 1);
      var t1 := Plus(Plus(Plus(Plus(v[7], Ep1(v[4])), Ch(v[4], v[5], v[6])), K[t - 1]), Schedule(block, t - 1));
      var t2 := Plus(Ep0(v[0]), Maj(v[0], v[1], v[2]));
      [Plus(t1, t2), v[0], v[1], v[2], Plus(v[3], t1), v[4], v[5], v[6]]
  }

  function Compress(state: Digest, block: Block): Digest {
    var v := Rounds(state, block, 64);
    [Plus(state[0], v[0]), Plus(state[1], v[1]), Plus(state[2], v[2]), Plus(state[3], v[3]),
     Plus(state[4], v[4]), Plus(state[5], v[5]), Plus(state[6], v[6]), Plus(state[7], v[7])]
  }

  // ----- the hash, sections 5.1.1 and 6.2

  /** The state after every whole block of `m`. */
  function HashBlocks(state: Digest, m: seq<bv8>): Digest
    decreases |m|
  {
    if |m| < BLOCK then state else HashBlocks(Compress(state, m[..BLOCK]), m[BLOCK..])
  }

  function Zeros(n: nat): (z: seq<bv8>)
    ensures |z| == n
  {
    seq(n, _ => 0)
  }

  function ByteOf(n: nat, weight: nat): bv8
    requires weight > 0
  {
    (n / weight % 256) as bv8
  }

  /** A 64-bit length, most significant byte first. */
  function LengthBytes(n: nat): (b: seq<bv8>)
    ensures |b| == 8
  {
    [ByteOf(n, 0x100_0000_0000_0000), ByteOf(n, 0x1_0000_0000_0000), ByteOf(n, 0x100_0000_0000),
     ByteOf(n, 0x1_0000_0000),
     ByteOf(n, 0x100_0000), ByteOf(n, 0x1_0000), ByteOf(n, 0x100), ByteOf(n, 1)]
  }

  /** How many zero bytes follow the 0x80 byte. */
  function PadZeros(length: nat): (n: nat)
    ensures n < BLOCK && (length + 1 + n + 8) % BLOCK == 0
  {
    (55 - length) % BLOCK
  }

  /** The padded message; the bit length is taken modulo 2^64, which the standard never exceeds. */
  function Pad(m: seq<bv8>): (p: seq<bv8>)
    ensures |p| % BLOCK == 0
  {
    m + [0x80] + Zeros(PadZeros(|m|)) + LengthBytes(8 * |m| % LENGTH_MODULUS)
  }

  function Byte3(w: bv32): bv8 { (w >> 24) as bv8 }

  function Byte2(w: bv32): bv8 { ((w >> 16) & 0xff) as bv8 }

  function Byte1(w: bv32): bv8 { ((w >> 8) & 0xff) as bv8 }

  function Byte0(w: bv32): bv8 { (w & 0xff) as bv8 }

  function WordBytes(w: bv32): (b: seq<bv8>)
    ensures |b| == 4
  {
    [Byte3(w), Byte2(w), Byte1(w), Byte0(w)]
  }

  function DigestBytes(d: Digest): (b: seq<bv8>)
    ensures |b| == 32
  {
    seq(32, k requires 0 <= k < 32 => WordBytes(d[k / 4])[k % 4])
  }

  function HashState(m: seq<bv8>): Digest {
    HashBlocks(H0, Pad(m))
  }

  function Hash(m: seq<bv8>): (h: seq<bv8>)
    ensures |h| == 32
  {
    DigestBytes(HashState(m))
  }

  lemma {:induction false} HashBlocksSnoc(state: Digest, m: seq<bv8>, b: Block)
    requires |m| % BLOCK == 0
    ensures HashBlocks(state, m + b) == Compress(HashBlocks(state, m), b)
    decreases |m|
  {
    hide Compress;
    if m == [] {
      assert m + b == b && b[..BLOCK] == b && b[BLOCK..] == [];
    } else {
      assert (m + b)[..BLOCK] == m[..BLOCK] && (m + b)[BLOCK..] == m[BLOCK..] + b;
      HashBlocksSnoc(Compress(state, m[..BLOCK]), m[BLOCK..], b);
    }
  }

  /** How many bytes of a message fill whole blocks. */
  function Whole(length: nat): (n: nat)
    ensures n <= length < n + BLOCK && n % BLOCK == 0
  {
    length / BLOCK * BLOCK
  }

  // ----- the streaming context

  class Context {
    const data: array<bv8>
    var datalen: nat
    var bitlen: nat
    const state: array<bv32>

    ghost predicate Valid()
      reads this, data, state
    {
      data.Length == BLOCK && state.Length == 8 && datalen < BLOCK && bitlen < LENGTH_MODULUS
    }

    ghost function Digest(): Digest
      reads this, state
      requires state.Length == 8
    {
      state[..]
    }

    /** The context has taken in exactly `m`. */
    ghost predicate Absorbed(m: seq<bv8>)
      reads this, data, state
    {
      && Valid()
      && datalen == |m| - Whole(|m|)
      && bitlen == 8 * Whole(|m|) % LENGTH_MODULUS
      && data[..datalen] == m[Whole(|m|)..]
      && Digest() == HashBlocks(H0, m[..Whole(|m|)])
    }

    constructor ()
      ensures Absorbed([]) && fresh(data) && fresh(state)
    {
      data := new bv8[BLOCK];
      state := new bv32[8];
      datalen, bitlen := 0, 0;
      new;
      Init();
    }

    /** A copy of the whole structure. */
    constructor Copy(c: Context)
      requires c.data.Length == BLOCK && c.state.Length == 8
      ensures fresh(data) && fresh(state) && data.Length == BLOCK && state.Length == 8
      ensures Same(c, this)
    {
      data := new bv8[BLOCK](k requires 0 <= k < BLOCK reads c.data => c.data[k]);
      state := new bv32[8](k requires 0 <= k < 8 reads c.state => c.state[k]);
      datalen, bitlen := c.datalen, c.bitlen;
    }

    method Init()
      requires data.Length == BLOCK && state.Length == 8
      modifies this, state
      ensures Absorbed([])
    {
      datalen, bitlen := 0, 0;
      state[0], state[1], state[2], state[3] := 0x6a09e667, 0xbb67ae85, 0x3c6ef372, 0xa54ff53a;
      state[4], state[5], state[6], state[7] := 0x510e527f, 0x9b05688c, 0x1f83d9ab, 0x5be0cd19;
    }

    /** One block, over the message schedule and 64 rounds. */
    method Transform(block: array<bv8>)
      requires block.Length == BLOCK && state.Length == 8
      modifies state
      ensures Digest() == Compress(old(Digest()), block[..])
    {
      hide Ch, Maj, Ep0, Ep1, Sig0, Sig1, Word, Plus, Rounds, Schedule;
      ghost var start: Digest, input: Block := state[..], block[..];
      var m := Expand(block);
      var a, b, c, d, e, f, g, h := RunRounds(m, input);
      ghost var v := Rounds(start, input, 64);
      assert [a, b, c, d, e, f, g, h] == v;
      state[0], state[1] := Plus(state[0], a), Plus(state[1], b);
      state[2], state[3] := Plus(state[2], c), Plus(state[3], d);
      state[4], state[5] := Plus(state[4], e), Plus(state[5], f);
      state[6], state[7] := Plus(state[6], g), Plus(state[7], h);
      EightWords(state[..]);
      CompressWords(start, input);
    }

    static method Expand(block: array<bv8>) returns (m: array<bv32>)
      requires block.Length == BLOCK
      ensures fresh(m) && m.Length == 64
      ensures forall t :: 0 <= t < 64 ==> m[t] == Schedule(block[..], t)
    {
      hide Sig0, Sig1, Word, Plus;
      ghost var input: Block := block[..];
      m := new bv32[64];
      var i, j := 0, 0;
      while i < 16
        invariant 0 <= i <= 16 && j == 4 * i
        invariant forall t :: 0 <= t < i ==> m[t] == Schedule(input, t)
      {
        m[i] := Word(block[j], block[j + 1], block[j + 2], block[j + 3]);
        i, j := i + 1, j + 4;
      }
      while i < 64
        invariant 16 <= i <= 64
        invariant forall t :: 0 <= t < i ==> m[t] == Schedule(input, t)
      {
        m[i] := Plus(Plus(Plus(Sig1(m[i - 2]), m[i - 7]), Sig0(m[i - 15])), m[i - 16]);
        i := i + 1;
      }
    }

    method RunRounds(m: array<bv32>, ghost input: Block)
      returns (a: bv32, b: bv32, c: bv32, d: bv32, e: bv32, f: bv32, g: bv32, h: bv32)
      requires state.Length == 8 && m.Length == 64
      requires forall t :: 0 <= t < 64 ==> m[t] == Schedule(input, t)
      ensures [a, b, c, d, e, f, g, h] == Rounds(Digest(), input, 64)
    {
      hide Ch, Maj, Ep0, Ep1, Plus, Schedule;
      a, b, c, d := state[0], state[1], state[2], state[3];
      e, f, g, h := state[4], state[5], state[6], state[7];
      EightWords(state[..]);
      var i := 0;
      while i < 64
        invariant 0 <= i <= 64
        invariant [a, b, c, d, e, f, g, h] == Rounds(Digest(), input, i)
      {
        var t1 := Plus(Plus(Plus(Plus(h, Ep1(e)), Ch(e, f, g)), K[i]), m[i]);
        var t2 := Plus(Ep0(a), Maj(a, b, c));
        h := g;
        g := f;
        f := e;
        e := Plus(d, t1);
        d := c;
        c := b;
        b := a;
        a := Plus(t1, t2);
        i := i + 1;
      }
    }

    /** Takes bytes in one at a time; every full block is compressed. The loop ends only for fewer than 2^32 bytes
        (`CounterEndsIff`). */
    method Update(bytes: seq<bv8>, ghost m: seq<bv8>)
      requires Absorbed(m) && |bytes| < COUNTER_MODULUS
      modifies this, data, state
      ensures Absorbed(m + bytes)
    {
      hide *;
      var i := 0;
      assert m + bytes[..0] == m;
      while i < |bytes|
        invariant 0 <= i <= |bytes|
        invariant Absorbed(m + bytes[..i])
      {
        ghost var before := m + bytes[..i];
        assert m + bytes[..i + 1] == before + [bytes[i]];
        TakeByte(bytes[i], before);
        CounterStep(i);
        i := CounterAfter(i + 1);
      }
      assert bytes[..i] == bytes;
    }

    method TakeByte(b: bv8, ghost m: seq<bv8>)
      requires Absorbed(m)
      modifies this, data, state
      ensures Absorbed(m + [b])
    {
      hide Compress, HashBlocks, Whole;
      ghost var w := Whole(|m|);
      data[datalen] := b;
      datalen := datalen + 1;
      assert data[..datalen] == m[w..] + [b];
      WholeStep(|m|);
      assert (m + [b])[..w] == m[..w] && (m + [b])[w..] == m[w..] + [b];
      if datalen == BLOCK {
        ghost var block: Block := data[..];
        Transform(data);
        bitlen := (bitlen + 512) % LENGTH_MODULUS;
        datalen := 0;
        HashBlocksSnoc(H0, m[..w], block);
        assert (m + [b])[..w + BLOCK] == m[..w] + block;
        ModPlus(8 * w, 512, LENGTH_MODULUS);
      }
    }

    /** Fills the buffer with the 0x80 byte and zeros up to `limit`. */
    method FillZeros(limit: nat)
      requires Valid() && datalen < limit <= BLOCK
      modifies data
      ensures data[..limit] == old(data[..datalen]) + [0x80] + Zeros(limit - datalen - 1)
    {
      ghost var tail := data[..datalen];
      var i := datalen;
      data[i] := 0x80;
      i := i + 1;
      assert data[..i] == tail + [0x80] + Zeros(0);
      while i < limit
        invariant datalen < i <= limit
        invariant data[..i] == tail + [0x80] + Zeros(i - datalen - 1)
      {
        ghost var before := data[..i];
        data[i] := 0x00;
        i := i + 1;
        assert data[..i] == before + [0x00];
        assert Zeros(i - datalen - 1) == Zeros(i - datalen - 2) + [0x00];
      }
    }

    /** The bit length, in the last eight bytes of the buffer. */
    method PutLength()
      requires data.Length == BLOCK
      modifies data
      ensures data[..] == old(data[..56]) + LengthBytes(bitlen)
    {
      hide ByteOf;
      data[63] := ByteOf(bitlen, 1);
      data[62] := ByteOf(bitlen, 0x100);
      data[61] := ByteOf(bitlen, 0x1_0000);
      data[60] := ByteOf(bitlen, 0x100_0000);
      data[59] := ByteOf(bitlen, 0x1_0000_0000);
      data[58] := ByteOf(bitlen, 0x100_0000_0000);
      data[57] := ByteOf(bitlen, 0x1_0000_0000_0000);
      data[56] := ByteOf(bitlen, 0x100_0000_0000_0000);
    }

    /** Pads, and compresses what is left. */
    method PadBuffer(ghost m: seq<bv8>)
      requires Absorbed(m)
      modifies this, data, state
      ensures data.Length == BLOCK && state.Length == 8 && Digest() == HashState(m)
    {
      hide Compress, HashBlocks, ByteOf, LengthBytes, Pad;
      ghost var w, d := Whole(|m|), datalen;
      ghost var start, length := HashBlocks(H0, m[..w]), LengthBytes(8 * |m| % LENGTH_MODULUS);
      var full := datalen >= 56;
      if !full {
        FillZeros(56);
      } else {
        FillZeros(64);
        assert data[..] == data[..64] == m[w..] + [0x80] + Zeros(63 - d);
        Transform(data);
        forall k | 0 <= k < 56 {
          data[k] := 0;
        }
        assert data[..56] == Zeros(56);
        assert Digest() == Compress(start, m[w..] + [0x80] + Zeros(63 - d));
      }
      ghost var before := Digest();
      LengthIsBits(w, d);
      bitlen := (bitlen + 8 * datalen) % LENGTH_MODULUS;
      PutLength();
      assert data[..] == (if full then Zeros(56) else m[w..] + [0x80] + Zeros(55 - d)) + length;
      Transform(data);
      assert Digest() == Compress(before, (if full then Zeros(56) else m[w..] + [0x80] + Zeros(55 - d)) + length);
      FinalBlocks(m, full);
    }

    /** Leaves the digest of what was taken in in `hash`. */
    method Final(hash: array<bv8>, ghost m: seq<bv8>)
      requires Absorbed(m) && hash != data && hash.Length >= 32
      modifies this, data, state, hash
      ensures hash[..32] == Hash(m) && hash[32..] == old(hash[32..])
      ensures data.Length == BLOCK && state.Length == 8 && Digest() == HashState(m)
    {
      hide HashState, HashBlocks;
      PadBuffer(m);
      WriteDigest(hash);
    }

    /** The state, most significant byte of each word first: byte `i` of all eight words per turn. */
    method WriteDigest(hash: array<bv8>)
      requires state.Length == 8 && hash.Length >= 32
      modifies hash
      ensures hash[..32] == DigestBytes(Digest()) && hash[32..] == old(hash[32..])
    {
      hide WordBytes, Column;
      ghost var d := Digest();
      var i := 0;
      while i < 4
        invariant 0 <= i <= 4
        invariant forall k :: 0 <= k < i ==> Column(hash[..], d, k)
        invariant hash[32..] == old(hash[32..])
      {
        ghost var before := hash[..];
        WriteColumn(hash, i);
        forall k | 0 <= k < i ensures Column(hash[..], d, k) {
          ColumnKept(before, hash[..], d, i, k);
        }
        i := i + 1;
      }
      ColumnsAreBytes(hash[..], d);
      assert hash[..32] == hash[..][..32];
    }

    method WriteColumn(hash: array<bv8>, i: nat)
      requires state.Length == 8 && hash.Length >= 32 && i < 4
      modifies hash
      ensures Column(hash[..], Digest(), i)
      ensures forall x :: 0 <= x < hash.Length && !InColumn(x, i) ==> hash[x] == old(hash[x])
    {
      hide WordBytes;
      hash[i], hash[i + 4] := WordBytes(state[0])[i], WordBytes(state[1])[i];
      hash[i + 8], hash[i + 12] := WordBytes(state[2])[i], WordBytes(state[3])[i];
      hash[i + 16], hash[i + 20] := WordBytes(state[4])[i], WordBytes(state[5])[i];
      hash[i + 24], hash[i + 28] := WordBytes(state[6])[i], WordBytes(state[7])[i];
    }
  }

  ghost predicate Same(a: Context, b: Context)
    reads a, a.data, a.state, b, b.data, b.state
  {
    && b.data.Length == BLOCK && b.state.Length == 8
    && b.data[..] == a.data[..] && b.state[..] == a.state[..] && b.datalen == a.datalen && b.bitlen == a.bitlen
  }

  lemma SameAbsorbed(a: Context, b: Context, m: seq<bv8>)
    requires a.Absorbed(m) && Same(a, b)
    ensures b.Absorbed(m)
  {
    hide HashBlocks, Whole;
    assert b.data[..b.datalen] == b.data[..][..b.datalen] == a.data[..a.datalen];
  }

  predicate InColumn(x: int, i: nat) {
    x == i || x == i + 4 || x == i + 8 || x == i + 12 || x == i + 16 || x == i + 20 || x == i + 24 || x == i + 28
  }

  lemma ColumnKept(before: seq<bv8>, after: seq<bv8>, d: Digest, i: nat, k: nat)
    requires Column(before, d, k) && |after| == |before| && i != k && i < 4
    requires forall x :: 0 <= x < |after| && !InColumn(x, i) ==> after[x] == before[x]
    ensures Column(after, d, k)
  {
    hide WordBytes;
  }

  lemma LengthIsBits(w: nat, d: nat)
    ensures (8 * w % LENGTH_MODULUS + 8 * d) % LENGTH_MODULUS == 8 * (w + d) % LENGTH_MODULUS
  {
    ModPlus(8 * w, 8 * d, LENGTH_MODULUS);
  }

  /** Byte `k` of every word of the digest is in place. */
  ghost predicate Column(hash: seq<bv8>, d: Digest, k: nat) {
    && |hash| >= 32 && k < 4
    && hash[k] == WordBytes(d[0])[k] && hash[k + 4] == WordBytes(d[1])[k]
    && hash[k + 8] == WordBytes(d[2])[k] && hash[k + 12] == WordBytes(d[3])[k]
    && hash[k + 16] == WordBytes(d[4])[k] && hash[k + 20] == WordBytes(d[5])[k]
    && hash[k + 24] == WordBytes(d[6])[k] && hash[k + 28] == WordBytes(d[7])[k]
  }

  lemma ColumnsAreBytes(hash: seq<bv8>, d: Digest)
    requires forall k :: 0 <= k < 4 ==> Column(hash, d, k)
    ensures |hash| >= 32 && hash[..32] == DigestBytes(d)
  {
    hide WordBytes;
    assert Column(hash, d, 0) && Column(hash, d, 1) && Column(hash, d, 2) && Column(hash, d, 3);
    forall x | 0 <= x < 32 ensures hash[x] == DigestBytes(d)[x] {
      ColumnAt(hash, d, x);
    }
  }

  lemma ColumnAt(hash: seq<bv8>, d: Digest, x: nat)
    requires x < 32 && Column(hash, d, x % 4)
    ensures hash[x] == WordBytes(d[x / 4])[x % 4]
  {
    hide WordBytes;
    var j, k := x / 4, x % 4;
    assert x == 4 * j + k;
    assert j == 0 || j == 1 || j == 2 || j == 3 || j == 4 || j == 5 || j == 6 || j == 7;
  }

  /** The blocks that padding adds after the whole blocks of the message. */
  lemma PadParts(m: seq<bv8>)
    ensures var w := Whole(|m|);
            var d, length := |m| - w, LengthBytes(8 * |m| % LENGTH_MODULUS);
            if d < 56 then Pad(m) == m[..w] + (m[w..] + [0x80] + Zeros(55 - d) + length)
            else Pad(m) == m[..w] + (m[w..] + [0x80] + Zeros(63 - d)) + (Zeros(56) + length)
  {
    var w := Whole(|m|);
    var d := |m| - w;
    PadZerosValue(|m|);
    if d >= 56 {
      assert Zeros(119 - d) == Zeros(63 - d) + Zeros(56);
    }
    hide LengthBytes, PadZeros, Whole, Zeros;
    assert m == m[..w] + m[w..];
  }

  lemma PadZerosValue(length: nat)
    ensures PadZeros(length) == if length - Whole(length) < 56 then 55 - (length - Whole(length))
            else 119 - (length - Whole(length))
  {
  }

  lemma FinalBlocks(m: seq<bv8>, full: bool)
    requires full <==> |m| - Whole(|m|) >= 56
    ensures var w := Whole(|m|);
            var d, length := |m| - w, LengthBytes(8 * |m| % LENGTH_MODULUS);
            var start := HashBlocks(H0, m[..w]);
            HashState(m) == if full then Compress(Compress(start, m[w..] + [0x80] + Zeros(63 - d)), Zeros(56) + length)
                            else Compress(start, m[w..] + [0x80] + Zeros(55 - d) + length)
  {
    hide Compress, HashBlocks, LengthBytes, Pad, Zeros, Whole, HashState;
    var w := Whole(|m|);
    var d, length := |m| - w, LengthBytes(8 * |m| % LENGTH_MODULUS);
    PadParts(m);
    HashStateIs(m);
    var rest := m[w..] + [0x80];
    hide *;
    if full {
      TwoMore(m[..w], rest + Zeros(63 - d), Zeros(56) + length);
    } else {
      HashBlocksSnoc(H0, m[..w], rest + Zeros(55 - d) + length);
    }
  }

  lemma TwoMore(front: seq<bv8>, a: Block, b: Block)
    requires |front| % BLOCK == 0
    ensures |front + a| % BLOCK == 0 && |front + a + b| % BLOCK == 0
    ensures HashBlocks(H0, front + a + b) == Compress(Compress(HashBlocks(H0, front), a), b)
  {
    hide Compress, HashBlocks;
    HashBlocksSnoc(H0, front, a);
    HashBlocksSnoc(H0, front + a, b);
  }

  lemma HashStateIs(m: seq<bv8>)
    ensures HashState(m) == HashBlocks(H0, Pad(m))
  {
  }

  lemma EightWords(s: Digest)
    ensures s == [s[0], s[1], s[2], s[3], s[4], s[5], s[6], s[7]]
  {
  }

  lemma CompressWords(start: Digest, block: Block)
    ensures var v := Rounds(start, block, 64);
            Compress(start, block)
            == [Plus(start[0], v[0]), Plus(start[1], v[1]), Plus(start[2], v[2]), Plus(start[3], v[3]),
                Plus(start[4], v[4]), Plus(start[5], v[5]), Plus(start[6], v[6]), Plus(start[7], v[7])]
  {
    hide Rounds, Plus;
  }

  lemma WholeStep(n: nat)
    ensures Whole(n + 1) == if n + 1 == Whole(n) + BLOCK then n + 1 else Whole(n)
  {
  }

  // ----- hashing in pieces

  /** The loop over a piece ends exactly if the piece is shorter than the counter's range. */
  lemma CounterEndsIff(len: nat)
    ensures (exists turns: nat :: CounterAfter(turns) >= len) <==> len < COUNTER_MODULUS
  {
    if len < COUNTER_MODULUS {
      assert CounterAfter(len) >= len;
    }
  }

  function Concat(chunks: seq<seq<bv8>>): seq<bv8> {
    if chunks == [] then [] else Concat(chunks[..|chunks| - 1]) + chunks[|chunks| - 1]
  }

  /** However a message is cut into pieces, the streamed hash is the one-shot hash of the whole. */
  method HashChunks(chunks: seq<seq<bv8>>, hash: array<bv8>)
    requires hash.Length >= 32 && forall i :: 0 <= i < |chunks| ==> |chunks[i]| < COUNTER_MODULUS
    modifies hash
    ensures hash[..32] == Hash(Concat(chunks))
  {
    hide Hash, HashState, HashBlocks;
    var c := new Context();
    var i := 0;
    while i < |chunks|
      invariant 0 <= i <= |chunks|
      invariant fresh(c) && fresh(c.data) && fresh(c.state)
      invariant c.Absorbed(Concat(chunks[..i]))
    {
      assert chunks[..i + 1][..i] == chunks[..i];
      c.Update(chunks[i], Concat(chunks[..i]));
      i := i + 1;
    }
    assert chunks[..i] == chunks;
    c.Final(hash, Concat(chunks));
  }
}
