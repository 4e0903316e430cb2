/** MPEG-TS null packet deletion (section 8.3 of VSF TR-06-2): taking null packets out of a payload and
    putting them back. */
module NullPackets {
  import opened Bits
  import opened Bytes

  // ----- payloads as runs of packets of `ps` bytes

  predicate PacketSize(ps: nat) { ps == 188 || ps == 204 }

  /** Exactly `n` packets. */
  predicate Packets(m: seq<byte>, ps: nat, n: nat) {
    if n == 0 then m == [] else |m| >= ps && Packets(m[ps..], ps, n - 1)
  }

  /** The two bytes after the sync byte are those of a null packet without flags. */
  predicate IsNull(p: seq<byte>) { |p| >= 3 && p[1] == 0x1F && p[2] == 0xFF }

  /** The packet that the receiver puts in. */
  function Null(ps: nat): (p: seq<byte>)
    requires PacketSize(ps)
    ensures |p| == ps
  {
    [0x47, 0x1F, 0xFF, 0x10] + seq(ps - 4, _ => 0xff)
  }

  /** In the fields of the header: a null packet has the 13-bit identifier 8191 and none of the three flags; and the
      packet put in is one, with sync byte 0x47. */
  lemma NullIs(p: seq<byte>, ps: nat)
    requires |p| >= 3 && PacketSize(ps)
    ensures IsNull(p) <==> p[1] / 32 == 0 && 256 * ((p[1] as nat) % 32) + p[2] == 8191
    ensures IsNull(Null(ps)) && Null(ps)[0] == 0x47
  {
  }

  /** The packets that are sent. */
  function Kept(m: seq<byte>, ps: nat, n: nat): seq<byte>
    requires Packets(m, ps, n)
  {
    if n == 0 then [] else (if IsNull(m[..ps]) then [] else m[..ps]) + Kept(m[ps..], ps, n - 1)
  }

  /** The payload with each null packet replaced by the one that the receiver puts in. */
  function Canonical(m: seq<byte>, ps: nat, n: nat): (c: seq<byte>)
    requires PacketSize(ps) && Packets(m, ps, n)
  {
    if n == 0 then [] else (if IsNull(m[..ps]) then Null(ps) else m[..ps]) + Canonical(m[ps..], ps, n - 1)
  }

  function Nulls(m: seq<byte>, ps: nat, n: nat): (k: nat)
    requires Packets(m, ps, n)
    ensures k <= n
  {
    if n == 0 then 0 else (if IsNull(m[..ps]) then 1 else 0) + Nulls(m[ps..], ps, n - 1)
  }

  /** Bit n - 1 - i is set for a null packet at position i. */
  function Marked(m: seq<byte>, ps: nat, n: nat, bits: nat): nat
    requires Packets(m, ps, n)
  {
    if n == 0 then bits else Marked(m[ps..], ps, n - 1, if IsNull(m[..ps]) then SetBit(bits, n - 1) else bits)
  }

  /** The bits of the last `n` packets are what they should be. */
  predicate Marks(bits: nat, m: seq<byte>, ps: nat, n: nat)
    requires Packets(m, ps, n)
  {
    n == 0 || ((Bit(bits, n - 1) <==> IsNull(m[..ps])) && Marks(bits, m[ps..], ps, n - 1))
  }

  lemma {:induction false} MarkedAbove(m: seq<byte>, ps: nat, n: nat, bits: nat, k: nat)
    requires Packets(m, ps, n) && k >= n
    ensures Bit(Marked(m, ps, n, bits), k) <==> Bit(bits, k)
  {
    hide Bit, SetBit;
    if n > 0 {
      var next := if IsNull(m[..ps]) then SetBit(bits, n - 1) else bits;
      MarkedAbove(m[ps..], ps, n - 1, next, k);
      SetBitIs(bits, n - 1, k);
    }
  }

  lemma {:induction false} MarkedMarks(m: seq<byte>, ps: nat, n: nat, bits: nat)
    requires Packets(m, ps, n) && forall k :: 0 <= k < n ==> !Bit(bits, k)
    ensures Marks(Marked(m, ps, n, bits), m, ps, n)
  {
    hide Bit, SetBit;
    if n > 0 {
      var next := if IsNull(m[..ps]) then SetBit(bits, n - 1) else bits;
      forall k | 0 <= k < n - 1 ensures !Bit(next, k) {
        SetBitIs(bits, n - 1, k);
      }
      SetBitIs(bits, n - 1, n - 1);
      MarkedAbove(m[ps..], ps, n - 1, next, n - 1);
      MarkedMarks(m[ps..], ps, n - 1, next);
    }
  }

  lemma {:induction false} Lengths(m: seq<byte>, ps: nat, n: nat)
    requires PacketSize(ps) && Packets(m, ps, n)
    ensures |Canonical(m, ps, n)| == |m| && |Kept(m, ps, n)| <= |m|
  {
    hide IsNull;
    if n > 0 {
      Lengths(m[ps..], ps, n - 1);
    }
  }

  // ----- expansion, on the whole buffer

  function Pos(x: int): (n: nat)
    ensures x <= n && (x <= 0 ==> n == 0) && (x >= 0 ==> n == x)
  {
    if x > 0 then x else 0
  }

  /** A gap for one packet at `offset`: the `remaining` bytes there move up, and a null packet is written. */
  function Insert(b: seq<byte>, offset: nat, remaining: int, ps: nat): (r: seq<byte>)
    requires PacketSize(ps) && offset + ps + Pos(remaining) <= |b|
    ensures |r| == |b|
  {
    var moved := Pos(remaining);
    b[..offset] + Null(ps) + b[offset..offset + moved] + b[offset + ps + moved..]
  }

  /** `expand_null_packets` for bits n - 1 down to 0. */
  function Expand(b: seq<byte>, offset: nat, remaining: int, ps: nat, bits: nat, n: nat): (r: seq<byte>)
    requires PacketSize(ps) && offset + 204 * n + Pos(remaining) <= |b|
    ensures |r| == |b|
    decreases n
  {
    if n == 0 then b
    else if Bit(bits, n - 1) then Expand(Insert(b, offset, remaining, ps), offset + ps, remaining, ps, bits, n - 1)
    else Expand(b, offset + ps, remaining - ps, ps, bits, n - 1)
  }

  /** What a turn has passed is not touched again. */
  lemma {:induction false} ExpandKeepsFront(b: seq<byte>, offset: nat, remaining: int, ps: nat, bits: nat, n: nat)
    requires PacketSize(ps) && offset + 204 * n + Pos(remaining) <= |b|
    ensures Expand(b, offset, remaining, ps, bits, n)[..offset] == b[..offset]
    decreases n
  {
    hide Bit, Null;
    if n > 0 {
      if Bit(bits, n - 1) {
        ExpandKeepsFront(Insert(b, offset, remaining, ps), offset + ps, remaining, ps, bits, n - 1);
        assert Insert(b, offset, remaining, ps)[..offset + ps][..offset] == b[..offset];
        assert Expand(b, offset, remaining, ps, bits, n)[..offset + ps][..offset] == b[..offset];
      } else {
        ExpandKeepsFront(b, offset + ps, remaining - ps, ps, bits, n - 1);
        assert Expand(b, offset, remaining, ps, bits, n)[..offset + ps][..offset] == b[..offset];
      }
    }
  }

  /** How everything unfolds at a null packet. */
  lemma HeadNull(m: seq<byte>, ps: nat, n: nat, bits: nat)
    requires PacketSize(ps) && Packets(m, ps, n) && Marks(bits, m, ps, n) && n > 0 && |m| >= ps && IsNull(m[..ps])
    ensures Packets(m[ps..], ps, n - 1) && Marks(bits, m[ps..], ps, n - 1) && Bit(bits, n - 1)
    ensures Kept(m, ps, n) == Kept(m[ps..], ps, n - 1)
            && Canonical(m, ps, n) == Null(ps) + Canonical(m[ps..], ps, n - 1)
  {
    hide IsNull, Bit, Null;
  }

  /** How everything unfolds at a packet that is kept. */
  lemma HeadData(m: seq<byte>, ps: nat, n: nat, bits: nat)
    requires PacketSize(ps) && Packets(m, ps, n) && Marks(bits, m, ps, n) && n > 0 && |m| >= ps && !IsNull(m[..ps])
    ensures Packets(m[ps..], ps, n - 1) && Marks(bits, m[ps..], ps, n - 1) && !Bit(bits, n - 1)
    ensures Kept(m, ps, n) == m[..ps] + Kept(m[ps..], ps, n - 1)
            && Canonical(m, ps, n) == m[..ps] + Canonical(m[ps..], ps, n - 1)
  {
    hide IsNull, Bit, Null;
  }

  lemma EnoughBytes(m: seq<byte>, ps: nat, n: nat)
    requires Packets(m, ps, n) && n > 0
    ensures |m| >= ps
  {
  }

  lemma ExpandSet(b: seq<byte>, offset: nat, remaining: int, ps: nat, bits: nat, n: nat)
    requires PacketSize(ps) && n > 0 && offset + 204 * n + Pos(remaining) <= |b| && Bit(bits, n - 1)
    ensures offset + ps + Pos(remaining) <= |b| && offset + ps + 204 * (n - 1) + Pos(remaining) <= |b|
    ensures Expand(b, offset, remaining, ps, bits, n)
            == Expand(Insert(b, offset, remaining, ps), offset + ps, remaining, ps, bits, n - 1)
  {
    hide Bit, Insert;
  }

  lemma ExpandUnset(b: seq<byte>, offset: nat, remaining: int, ps: nat, bits: nat, n: nat)
    requires PacketSize(ps) && n > 0 && offset + 204 * n + Pos(remaining) <= |b| && !Bit(bits, n - 1)
    ensures offset + ps + 204 * (n - 1) + Pos(remaining - ps) <= |b|
    ensures Expand(b, offset, remaining, ps, bits, n) == Expand(b, offset + ps, remaining - ps, ps, bits, n - 1)
  {
    hide Bit, Insert;
  }

  ghost predicate At(b: seq<byte>, at: nat, x: seq<byte>) {
    at + |x| <= |b| && b[at..at + |x|] == x
  }

  lemma AtParts(b: seq<byte>, at: nat, x: seq<byte>, y: seq<byte>)
    ensures At(b, at, x + y) <==> At(b, at, x) && At(b, at + |x|, y)
  {
    if at + |x| + |y| <= |b| {
      assert b[at..at + |x + y|] == b[at..at + |x|] + b[at + |x|..at + |x| + |y|];
      assert b[at..at + |x + y|][..|x|] == b[at..at + |x|];
      assert b[at..at + |x + y|][|x|..] == b[at + |x|..at + |x| + |y|];
    }
  }

  /** The first `lim` bytes are the same. */
  ghost predicate SameFront(b: seq<byte>, r: seq<byte>, lim: nat) {
    |r| == |b| && lim <= |b| && r[..lim] == b[..lim]
  }

  lemma AtFront(b: seq<byte>, r: seq<byte>, lim: nat, at: nat, x: seq<byte>)
    requires SameFront(b, r, lim) && at + |x| <= lim
    ensures At(b, at, x) <==> At(r, at, x)
  {
    assert b[at..at + |x|] == b[..lim][at..at + |x|] == r[..lim][at..at + |x|] == r[at..at + |x|];
  }

  lemma AtUnique(b: seq<byte>, at: nat, x: seq<byte>, y: seq<byte>)
    requires At(b, at, x) && At(b, at, y) && |x| == |y|
    ensures x == y
  {
  }

  lemma InsertParts(b: seq<byte>, offset: nat, k: seq<byte>, ps: nat)
    requires PacketSize(ps) && offset + ps + |k| <= |b| && At(b, offset, k)
    ensures var r := Insert(b, offset, |k|, ps);
      SameFront(b, r, offset) && At(r, offset, Null(ps)) && At(r, offset + ps, k)
  {
    hide Null;
  }

  lemma ExpandFront(b: seq<byte>, offset: nat, remaining: int, ps: nat, bits: nat, n: nat)
    requires PacketSize(ps) && offset + 204 * n + Pos(remaining) <= |b|
    ensures SameFront(b, Expand(b, offset, remaining, ps, bits, n), offset)
  {
    ExpandKeepsFront(b, offset, remaining, ps, bits, n);
  }

  lemma RestoredStep(b: seq<byte>, r: seq<byte>, offset: nat, head: seq<byte>, tail: seq<byte>)
    requires SameFront(b, r, offset + |head|) && At(b, offset, head) && At(r, offset + |head|, tail)
    ensures At(r, offset, head + tail)
  {
    hide At, SameFront;
    AtFront(b, r, offset + |head|, offset, head);
    AtParts(r, offset, head, tail);
  }

  /** The buffer holds the kept bytes of `n` packets, with room to expand them. */
  ghost predicate Loaded(b: seq<byte>, offset: nat, ps: nat, bits: nat, m: seq<byte>, n: nat) {
    && PacketSize(ps) && Packets(m, ps, n) && Marks(bits, m, ps, n)
    && offset + 204 * n + |Kept(m, ps, n)| <= |b| && At(b, offset, Kept(m, ps, n))
  }

  ghost predicate Restored(b: seq<byte>, offset: nat, ps: nat, bits: nat, m: seq<byte>, n: nat)
    requires Loaded(b, offset, ps, bits, m, n)
  {
    At(Expand(b, offset, |Kept(m, ps, n)|, ps, bits, n), offset, Canonical(m, ps, n))
  }

  lemma NullBefore(b: seq<byte>, offset: nat, ps: nat, bits: nat, m: seq<byte>, n: nat)
    requires Loaded(b, offset, ps, bits, m, n) && n > 0 && |m| >= ps && IsNull(m[..ps])
    ensures offset + ps + |Kept(m, ps, n)| <= |b|
    ensures var b' := Insert(b, offset, |Kept(m, ps, n)|, ps);
            Loaded(b', offset + ps, ps, bits, m[ps..], n - 1) && At(b', offset, Null(ps))
  {
    HeadNull(m, ps, n, bits);
    hide At, IsNull, Null, Insert, Kept, Canonical, Packets, Marks, Expand;
    InsertParts(b, offset, Kept(m, ps, n), ps);
  }

  lemma NullAfter(b: seq<byte>, offset: nat, ps: nat, bits: nat, m: seq<byte>, n: nat)
    requires Loaded(b, offset, ps, bits, m, n) && n > 0 && |m| >= ps && IsNull(m[..ps])
    requires offset + ps + |Kept(m, ps, n)| <= |b|
    requires var b' := Insert(b, offset, |Kept(m, ps, n)|, ps);
      Loaded(b', offset + ps, ps, bits, m[ps..], n - 1) && At(b', offset, Null(ps))
        && Restored(b', offset + ps, ps, bits, m[ps..], n - 1)
    ensures Restored(b, offset, ps, bits, m, n)
  {
    HeadNull(m, ps, n, bits);
    hide At, IsNull, Null, Insert, Kept, Canonical, Packets, Marks, Expand;
    var k, b' := Kept(m, ps, n), Insert(b, offset, |Kept(m, ps, n)|, ps);
    ExpandSet(b, offset, |k|, ps, bits, n);
    ExpandFront(b', offset + ps, |k|, ps, bits, n - 1);
    RestoredStep(b', Expand(b', offset + ps, |k|, ps, bits, n - 1), offset, Null(ps), Canonical(m[ps..], ps, n - 1));
  }

  lemma DataBefore(b: seq<byte>, offset: nat, ps: nat, bits: nat, m: seq<byte>, n: nat)
    requires Loaded(b, offset, ps, bits, m, n) && n > 0 && |m| >= ps && !IsNull(m[..ps])
    ensures Loaded(b, offset + ps, ps, bits, m[ps..], n - 1) && At(b, offset, m[..ps])
  {
    HeadData(m, ps, n, bits);
    hide At, IsNull, Kept, Packets, Marks;
    AtParts(b, offset, m[..ps], Kept(m[ps..], ps, n - 1));
  }

  lemma DataAfter(b: seq<byte>, offset: nat, ps: nat, bits: nat, m: seq<byte>, n: nat)
    requires Loaded(b, offset, ps, bits, m, n) && n > 0 && |m| >= ps && !IsNull(m[..ps])
    requires Loaded(b, offset + ps, ps, bits, m[ps..], n - 1) && At(b, offset, m[..ps])
             && Restored(b, offset + ps, ps, bits, m[ps..], n - 1)
    ensures Restored(b, offset, ps, bits, m, n)
  {
    HeadData(m, ps, n, bits);
    hide At, IsNull, Null, Insert, Kept, Canonical, Packets, Marks, Expand;
    var k := Kept(m[ps..], ps, n - 1);
    ExpandUnset(b, offset, |Kept(m, ps, n)|, ps, bits, n);
    ExpandFront(b, offset + ps, |k|, ps, bits, n - 1);
    RestoredStep(b, Expand(b, offset + ps, |k|, ps, bits, n - 1), offset, m[..ps], Canonical(m[ps..], ps, n - 1));
  }

  /** A buffer that holds what was kept is expanded to the canonical payload. */
  lemma {:induction false} ExpandRestores(b: seq<byte>, offset: nat, ps: nat, bits: nat, m: seq<byte>, n: nat)
    requires Loaded(b, offset, ps, bits, m, n)
    ensures Restored(b, offset, ps, bits, m, n)
    decreases n
  {
    if n == 0 {
      assert Canonical(m, ps, 0) == [];
      return;
    }
    EnoughBytes(m, ps, n);
    hide *;
    if IsNull(m[..ps]) {
      NullBefore(b, offset, ps, bits, m, n);
      ExpandRestores(Insert(b, offset, |Kept(m, ps, n)|, ps), offset + ps, ps, bits, m[ps..], n - 1);
      NullAfter(b, offset, ps, bits, m, n);
    } else {
      DataBefore(b, offset, ps, bits, m, n);
      ExpandRestores(b, offset + ps, ps, bits, m[ps..], n - 1);
      DataAfter(b, offset, ps, bits, m, n);
    }
  }

  lemma SizeBound(ps: nat)
    requires PacketSize(ps)
    ensures 188 <= ps <= 204
  {
  }

  // ----- fewer than seven packets

  /** A packet that is kept comes after a null packet. */
  predicate LateData(m: seq<byte>, ps: nat, n: nat)
    requires Packets(m, ps, n)
  {
    n > 0 && if IsNull(m[..ps]) then Kept(m[ps..], ps, n - 1) != [] else LateData(m[ps..], ps, n - 1)
  }

  lemma {:induction false} KeptHead(m: seq<byte>, ps: nat, n: nat)
    requires PacketSize(ps) && Packets(m, ps, n) && Kept(m, ps, n) != []
    ensures |Kept(m, ps, n)| >= ps && !IsNull(Kept(m, ps, n)[..ps])
  {
    hide IsNull;
    if n > 0 {
      if IsNull(m[..ps]) {
        assert Kept(m, ps, n) == Kept(m[ps..], ps, n - 1);
        KeptHead(m[ps..], ps, n - 1);
      } else {
        assert Kept(m, ps, n)[..ps] == m[..ps];
      }
    }
  }

  /** The bytes of the packets before the first null packet. */
  function Lead(m: seq<byte>, ps: nat, n: nat): (l: nat)
    requires Packets(m, ps, n)
    ensures l <= ps * n
  {
    if n == 0 || IsNull(m[..ps]) then 0 else ps + Lead(m[ps..], ps, n - 1)
  }

  lemma SliceBehind(x: seq<byte>, y: seq<byte>, i: nat, k: nat)
    requires i + k <= |y|
    ensures (x + y)[|x| + i..|x| + i + k] == y[i..i + k]
  {
  }

  /** There the canonical payload has its first null packet. */
  lemma {:induction false} LeadCanonical(m: seq<byte>, ps: nat, n: nat)
    requires PacketSize(ps) && Packets(m, ps, n) && Nulls(m, ps, n) > 0
    ensures var l, c := Lead(m, ps, n), Canonical(m, ps, n); l + ps <= |c| && c[l..l + ps] == Null(ps)
  {
    hide IsNull, Null;
    if !IsNull(m[..ps]) {
      LeadCanonical(m[ps..], ps, n - 1);
      SliceBehind(m[..ps], Canonical(m[ps..], ps, n - 1), Lead(m[ps..], ps, n - 1), ps);
    }
  }

  /** What was kept goes on with another packet there, or ends there if only null packets follow. */
  lemma {:induction false} LeadKept(m: seq<byte>, ps: nat, n: nat)
    requires PacketSize(ps) && Packets(m, ps, n)
    ensures var l, k := Lead(m, ps, n), Kept(m, ps, n);
      && (LateData(m, ps, n) ==> l + ps <= |k| && !IsNull(k[l..l + ps]))
      && (OnlyTrailing(m, ps, n) ==> l == |k|)
  {
    if LateData(m, ps, n) {
      LateStep(m, ps, n);
      hide IsNull, Nulls, LateData, Packets;
      if !IsNull(m[..ps]) {
        LeadKept(m[ps..], ps, n - 1);
        SliceBehind(m[..ps], Kept(m[ps..], ps, n - 1), Lead(m[ps..], ps, n - 1), ps);
      }
    } else if OnlyTrailing(m, ps, n) {
      TrailingStep(m, ps, n);
      hide IsNull, OnlyTrailing;
      if !IsNull(m[..ps]) {
        LeadKept(m[ps..], ps, n - 1);
      }
    }
  }

  /** The expansion changes nothing while it passes those packets. */
  lemma {:induction false} LeadFront(b: seq<byte>, offset: nat, remaining: int, ps: nat, bits: nat, m: seq<byte>,
                                     n: nat)
    requires PacketSize(ps) && Packets(m, ps, n) && Marks(bits, m, ps, n)
    requires offset + 204 * n + Pos(remaining) <= |b|
    ensures SameFront(b, Expand(b, offset, remaining, ps, bits, n), offset + Lead(m, ps, n))
    decreases n
  {
    if n == 0 || IsNull(m[..ps]) {
      ExpandFront(b, offset, remaining, ps, bits, n);
      hide Expand;
    } else {
      HeadData(m, ps, n, bits);
      ExpandUnset(b, offset, remaining, ps, bits, n);
      hide Expand, IsNull, Marks, PacketSize;
      LeadFront(b, offset + ps, remaining - ps, ps, bits, m[ps..], n - 1);
    }
  }

  /** An expansion that is ahead of the payload by a packet or more misses the first null packet, unless the buffer
      held one there. */
  lemma Diverges(b: seq<byte>, at: nat, offset: nat, remaining: int, ps: nat, bits: nat, m: seq<byte>, n: nat)
    requires PacketSize(ps) && Packets(m, ps, n) && Marks(bits, m, ps, n) && Nulls(m, ps, n) > 0
    requires at + ps <= offset && offset + 204 * n + Pos(remaining) <= |b|
    requires !At(b, at + Lead(m, ps, n), Null(ps))
    ensures !At(Expand(b, offset, remaining, ps, bits, n), at, Canonical(m, ps, n))
  {
    hide *;
    var r, c, l := Expand(b, offset, remaining, ps, bits, n), Canonical(m, ps, n), Lead(m, ps, n);
    LeadCanonical(m, ps, n);
    LeadFront(b, offset, remaining, ps, bits, m, n);
    AtFront(b, r, offset + l, at + l, Null(ps));
    assert c == c[..l] + (c[l..l + ps] + c[l + ps..]);
    AtParts(r, at, c[..l], c[l..l + ps] + c[l + ps..]);
    AtParts(r, at + l, c[l..l + ps], c[l + ps..]);
  }

  /** A kept packet is not a null packet. */
  lemma NullDiffers(b: seq<byte>, at: nat, k: seq<byte>, l: nat, ps: nat)
    requires PacketSize(ps) && At(b, at, k) && l + ps <= |k| && !IsNull(k[l..l + ps])
    ensures !At(b, at + l, Null(ps))
  {
    hide *;
    assert k == k[..l] + (k[l..l + ps] + k[l + ps..]);
    AtParts(b, at, k[..l], k[l..l + ps] + k[l + ps..]);
    AtParts(b, at + l, k[l..l + ps], k[l + ps..]);
    NullIsNull(ps);
    if At(b, at + l, Null(ps)) {
      AtUnique(b, at + l, k[l..l + ps], Null(ps));
      assert false;
    }
  }

  lemma LateStep(m: seq<byte>, ps: nat, n: nat)
    requires PacketSize(ps) && Packets(m, ps, n) && LateData(m, ps, n)
    ensures n > 0 && |m| >= ps && Packets(m[ps..], ps, n - 1)
    ensures if IsNull(m[..ps]) then |Kept(m, ps, n)| >= ps && !IsNull(Kept(m, ps, n)[..ps])
            else LateData(m[ps..], ps, n - 1)
  {
    if IsNull(m[..ps]) {
      assert Kept(m, ps, n) == Kept(m[ps..], ps, n - 1);
      KeptHead(m, ps, n);
    }
  }

  lemma NullIsNull(ps: nat)
    requires PacketSize(ps)
    ensures IsNull(Null(ps))
  {
  }

  /** Null packets at the end only: the buffer behind the kept packets decides, as nothing is moved there. */
  predicate OnlyTrailing(m: seq<byte>, ps: nat, n: nat)
    requires Packets(m, ps, n)
  {
    Nulls(m, ps, n) > 0 && !LateData(m, ps, n)
  }

  lemma {:induction false} TrailingStep(m: seq<byte>, ps: nat, n: nat)
    requires PacketSize(ps) && Packets(m, ps, n) && OnlyTrailing(m, ps, n)
    ensures n > 0 && |m| >= ps && Packets(m[ps..], ps, n - 1)
    ensures if IsNull(m[..ps]) then Kept(m, ps, n) == [] else OnlyTrailing(m[ps..], ps, n - 1)
  {
  }

  /** The first turns have nothing to insert and run ahead of the payload. */
  lemma {:induction false} DivergesFrom(b: seq<byte>, offset: nat, remaining: int, ps: nat, bits: nat, j: nat,
                                        m: seq<byte>, n: nat)
    requires PacketSize(ps) && Packets(m, ps, n) && Marks(bits, m, ps, n)
    requires LateData(m, ps, n) || (OnlyTrailing(m, ps, n) && !At(b, |Kept(m, ps, n)|, Null(ps)))
    requires j >= n && (j > n || offset >= ps) && forall k :: n <= k < j ==> !Bit(bits, k)
    requires offset + 204 * j + Pos(remaining) <= |b| && At(b, 0, Kept(m, ps, n))
    ensures !At(Expand(b, offset, remaining, ps, bits, j), 0, Canonical(m, ps, n))
    decreases j
  {
    if j > n {
      SizeBound(ps);
      ExpandUnset(b, offset, remaining, ps, bits, j);
      hide *;
      DivergesFrom(b, offset + ps, remaining - ps, ps, bits, j - 1, m, n);
    } else {
      LeadKept(m, ps, n);
      LateHasNull(m, ps, n);
      hide *;
      if LateData(m, ps, n) {
        NullDiffers(b, 0, Kept(m, ps, n), Lead(m, ps, n), ps);
      }
      Diverges(b, 0, offset, remaining, ps, bits, m, n);
    }
  }

  lemma {:induction false} LateHasNull(m: seq<byte>, ps: nat, n: nat)
    requires Packets(m, ps, n) && (LateData(m, ps, n) || OnlyTrailing(m, ps, n))
    ensures Nulls(m, ps, n) > 0
  {
    hide IsNull, Kept;
    if LateData(m, ps, n) && !IsNull(m[..ps]) {
      LateHasNull(m[ps..], ps, n - 1);
    }
  }

  // ----- lengths and counts

  /** How many of the bits below `n` are set, and the bytes that their packets add. */
  function Ones(bits: nat, n: nat): (k: nat)
    ensures k <= n
  {
    if n == 0 then 0 else Ones(bits, n - 1) + if Bit(bits, n - 1) then 1 else 0
  }

  function Grown(bits: nat, n: nat, ps: nat): nat {
    if n == 0 then 0 else Grown(bits, n - 1, ps) + if Bit(bits, n - 1) then ps else 0
  }

  lemma {:induction false} CountsAgree(bits: nat, m: seq<byte>, ps: nat, n: nat)
    requires PacketSize(ps) && Packets(m, ps, n) && Marks(bits, m, ps, n)
    ensures Ones(bits, n) == Nulls(m, ps, n) && |Kept(m, ps, n)| + Grown(bits, n, ps) == |m|
  {
    hide Bit, IsNull;
    if n > 0 {
      CountsAgree(bits, m[ps..], ps, n - 1);
    }
  }

  /** The packet size that bit 7 announces. */
  function SizeFrom(bits: nat): nat { if Bit(bits, 7) then 204 else 188 }

  /** The initial bits of a payload whose packets have `ps` bytes, over cleared bits. */
  function SizeBits(ps: nat): nat { if ps == 204 then 128 else 0 }

  lemma SizeBitsAre(ps: nat, k: nat)
    requires PacketSize(ps)
    ensures Bit(SizeBits(ps), k) <==> ps == 204 && k == 7
    ensures ps == 204 ==> SetBit(0, 7) == SizeBits(ps)
  {
    ZeroHasNoBits(k);
    SetBitIs(0, 7, k);
    assert SetBit(0, 0) == 1 && SetBit(0, 1) == 2 && SetBit(0, 2) == 4;
    assert SetBit(0, 3) == 8 && SetBit(0, 4) == 16;
    assert SetBit(0, 5) == 32 && SetBit(0, 6) == 64;
    assert SetBit(0, 7) == 128;
  }

  /** For seven packets, expanding what was suppressed restores length, order and every packet, with each
      null packet replaced by the canonical one, and reports the same number. */
  lemma RoundTrip(m: seq<byte>, ps: nat, b: seq<byte>)
    requires PacketSize(ps) && Packets(m, ps, 7) && At(b, 0, Kept(m, ps, 7)) && |Kept(m, ps, 7)| + 7 * 204 <= |b|
    ensures var bits, len := Marked(m, ps, 7, SizeBits(ps)), |Kept(m, ps, 7)|;
      && SizeFrom(bits) == ps && len + Grown(bits, 7, ps) == |m| && Ones(bits, 7) == Nulls(m, ps, 7)
      && At(Expand(b, 0, len, ps, bits, 7), 0, Canonical(m, ps, 7))
  {
    forall k | 0 <= k < 7 ensures !Bit(SizeBits(ps), k) {
      SizeBitsAre(ps, k);
    }
    SizeBitsAre(ps, 7);
    MarkedAbove(m, ps, 7, SizeBits(ps), 7);
    MarkedMarks(m, ps, 7, SizeBits(ps));
    hide Packets, Marks, Kept, Canonical, Expand, Marked, Nulls, Ones, Grown, Bit, At, SizeBits;
    var bits := Marked(m, ps, 7, SizeBits(ps));
    CountsAgree(bits, m, ps, 7);
    ExpandRestores(b, 0, ps, bits, m, 7);
  }

  /** The buffer holds what was sent for `m`, with room to expand it. */
  ghost predicate Received(b: seq<byte>, m: seq<byte>, ps: nat, n: nat)
    requires PacketSize(ps) && Packets(m, ps, n)
  {
    At(b, 0, Kept(m, ps, n)) && |Kept(m, ps, n)| + 7 * 204 <= |b|
  }

  /** Expanding it, with the bits that were sent, gives back `m` in canonical form. */
  ghost predicate GivesBack(b: seq<byte>, m: seq<byte>, ps: nat, n: nat)
    requires PacketSize(ps) && Packets(m, ps, n) && Received(b, m, ps, n)
  {
    At(Expand(b, 0, |Kept(m, ps, n)|, ps, Marked(m, ps, n, SizeBits(ps)), 7), 0, Canonical(m, ps, n))
  }

  /** Nothing else is known of the buffer when the packet comes in. */
  ghost predicate AlwaysGivesBack(m: seq<byte>, ps: nat, n: nat)
    requires PacketSize(ps) && Packets(m, ps, n)
  {
    forall b: seq<byte> :: Received(b, m, ps, n) ==> GivesBack(b, m, ps, n)
  }

  /** For fewer than seven packets it fails when a kept packet comes after a null packet, and otherwise
      when what happens to be in the buffer behind the kept packets is not a null packet. */
  lemma ShortPayloadFails(m: seq<byte>, ps: nat, n: nat, b: seq<byte>)
    requires PacketSize(ps) && n < 7 && Packets(m, ps, n) && Received(b, m, ps, n)
    requires LateData(m, ps, n) || (OnlyTrailing(m, ps, n) && !At(b, |Kept(m, ps, n)|, Null(ps)))
    ensures SizeFrom(Marked(m, ps, n, SizeBits(ps))) == ps && !GivesBack(b, m, ps, n)
  {
    MarkedBits(m, ps, n);
    hide Packets, Marks, Kept, Canonical, Expand, Marked, Bit, At, SizeBits, LateData, OnlyTrailing;
    DivergesFrom(b, 0, |Kept(m, ps, n)|, ps, Marked(m, ps, n, SizeBits(ps)), 7, m, n);
  }

  lemma MarkedBits(m: seq<byte>, ps: nat, n: nat)
    requires PacketSize(ps) && Packets(m, ps, n) && n <= 7
    ensures var bits := Marked(m, ps, n, SizeBits(ps));
            Marks(bits, m, ps, n) && SizeFrom(bits) == ps && forall k :: n <= k < 7 ==> !Bit(bits, k)
  {
    forall k | 0 <= k < n ensures !Bit(SizeBits(ps), k) {
      SizeBitsAre(ps, k);
    }
    forall k | n <= k <= 7 ensures Bit(Marked(m, ps, n, SizeBits(ps)), k) <==> ps == 204 && k == 7 {
      SizeBitsAre(ps, k);
      MarkedAbove(m, ps, n, SizeBits(ps), k);
    }
    MarkedMarks(m, ps, n, SizeBits(ps));
  }

  lemma {:induction false} ExpandNothing(b: seq<byte>, offset: nat, remaining: int, ps: nat, bits: nat, n: nat)
    requires PacketSize(ps) && offset + 204 * n + Pos(remaining) <= |b| && forall k :: 0 <= k < n ==> !Bit(bits, k)
    ensures Expand(b, offset, remaining, ps, bits, n) == b
    decreases n
  {
    hide Bit;
    if n > 0 {
      ExpandUnset(b, offset, remaining, ps, bits, n);
      ExpandNothing(b, offset + ps, remaining - ps, ps, bits, n - 1);
    }
  }

  lemma {:induction false} NoNulls(m: seq<byte>, ps: nat, n: nat, bits: nat)
    requires PacketSize(ps) && Packets(m, ps, n) && Nulls(m, ps, n) == 0 && Marks(bits, m, ps, n)
    ensures Kept(m, ps, n) == Canonical(m, ps, n) && forall k :: 0 <= k < n ==> !Bit(bits, k)
  {
    hide Bit, IsNull;
    if n > 0 {
      NoNulls(m[ps..], ps, n - 1, bits);
    }
  }

  /** The payload comes back whatever the buffer held before if and only if it has seven packets or no
      null packet among them. */
  lemma GivesBackIff(m: seq<byte>, ps: nat, n: nat)
    requires PacketSize(ps) && n <= 7 && Packets(m, ps, n)
    ensures AlwaysGivesBack(m, ps, n) <==> n == 7 || Nulls(m, ps, n) == 0
  {
    var bits, k := Marked(m, ps, n, SizeBits(ps)), Kept(m, ps, n);
    MarkedBits(m, ps, n);
    hide Packets, Marks, Kept, Canonical, Expand, Marked, Nulls, Bit, SizeBits, LateData, Null;
    if n == 7 {
      forall b: seq<byte> | Received(b, m, ps, n) ensures GivesBack(b, m, ps, n) {
        RoundTrip(m, ps, b);
      }
    } else if Nulls(m, ps, n) == 0 {
      NoNulls(m, ps, n, bits);
      forall b: seq<byte> | Received(b, m, ps, n) ensures GivesBack(b, m, ps, n) {
        ExpandNothing(b, 0, |k|, ps, bits, 7);
      }
    } else {
      var b: seq<byte> := k + seq(7 * 204, _ => 0);
      assert At(b, 0, k);
      NotNull(b, |k|, ps);
      ShortPayloadFails(m, ps, n, b);
      assert Received(b, m, ps, n) && !GivesBack(b, m, ps, n);
    }
  }

  lemma NotNull(b: seq<byte>, at: nat, ps: nat)
    requires PacketSize(ps) && at < |b| && b[at] == 0
    ensures !At(b, at, Null(ps))
  {
    assert Null(ps)[0] == 0x47;
    if at + ps <= |b| {
      assert b[at..at + ps][0] == 0;
    }
  }

  // ----- the code

  /** The RTP header extension. */
  class HeaderExt {
    var flags: nat
    var npdBits: nat

    constructor ()
      ensures flags == 0 && npdBits == 0
    {
      flags, npdBits := 0, 0;
    }
  }

  /** The packet size that divides the payload, if any. */
  function SizeOf(len: nat): nat {
    if len % 188 == 0 then 188 else if len % 204 == 0 then 204 else 0
  }

  lemma {:induction false} PacketsOf(m: seq<byte>, ps: nat, n: nat)
    requires (ps == 188 && |m| == 188 * n) || (ps == 204 && |m| == 204 * n)
    ensures Packets(m, ps, n)
  {
    if n > 0 {
      PacketsOf(m[ps..], ps, n - 1);
    }
  }

  lemma WholePackets(m: seq<byte>)
    requires SizeOf(|m|) != 0
    ensures Packets(m, SizeOf(|m|), |m| / SizeOf(|m|)) && PacketSize(SizeOf(|m|))
  {
    PacketsOf(m, SizeOf(|m|), |m| / SizeOf(|m|));
  }

  method MoveUp(buf: array<byte>, offset: nat, remaining: nat, ps: nat)
    requires offset + ps + remaining <= buf.Length
    modifies buf
    ensures buf[..] == old(buf[..offset + ps]) + old(buf[offset..offset + remaining])
            + old(buf[offset + ps + remaining..])
  {
    forall k | 0 <= k < remaining {
      buf[offset + ps + k] := buf[offset + k];
    }
  }

  method WriteNull(buf: array<byte>, offset: nat, ps: nat)
    requires PacketSize(ps) && offset + ps <= buf.Length
    modifies buf
    ensures buf[..] == old(buf[..offset]) + Null(ps) + old(buf[offset + ps..])
  {
    forall k | 4 <= k < ps {
      buf[offset + k] := 0xff;
    }
    buf[offset], buf[offset + 1], buf[offset + 2], buf[offset + 3] := 0x47, 0x1F, 0xFF, 0x10;
    ghost var p := Null(ps);
    assert forall k :: 0 <= k < ps ==> buf[offset + k] == p[k];
  }

  method InsertInPlace(buf: array<byte>, offset: nat, remaining: int, ps: nat)
    requires PacketSize(ps) && offset + ps + Pos(remaining) <= buf.Length
    modifies buf
    ensures buf[..] == Insert(old(buf[..]), offset, remaining, ps)
  {
    hide *;
    ghost var b := buf[..];
    if remaining > 0 {
      MoveUp(buf, offset, remaining, ps);
    }
    ghost var front, back := buf[..offset], buf[offset + ps..];
    Inserted(b, buf[..], offset, remaining, ps, front, back);
    WriteNull(buf, offset, ps);
  }

  lemma Inserted(b: seq<byte>, c: seq<byte>, offset: nat, remaining: int, ps: nat, front: seq<byte>, back: seq<byte>)
    requires PacketSize(ps) && offset + ps + Pos(remaining) <= |b|
    requires c == if remaining > 0 then b[..offset + ps] + b[offset..offset + remaining] + b[offset + ps + remaining..]
                  else b
    requires |c| == |b| ==> front == c[..offset] && back == c[offset + ps..]
    ensures Insert(b, offset, remaining, ps) == front + Null(ps) + back
  {
    Moved(b, c, offset, Pos(remaining), ps);
    hide Null;
    assert front + Null(ps) + (b[offset..offset + Pos(remaining)] + b[offset + ps + Pos(remaining)..])
        == front + Null(ps) + b[offset..offset + Pos(remaining)] + b[offset + ps + Pos(remaining)..];
  }

  lemma Moved(b: seq<byte>, c: seq<byte>, offset: nat, moved: nat, ps: nat)
    requires offset + ps + moved <= |b|
    requires c == if moved > 0 then b[..offset + ps] + b[offset..offset + moved] + b[offset + ps + moved..] else b
    ensures |c| == |b| && c[..offset] == b[..offset]
            && c[offset + ps..] == b[offset..offset + moved] + b[offset + ps + moved..]
  {
  }

  /** `expand_null_packets`, in the receiver's buffer. */
  method ExpandNullPackets(buf: array<byte>, len: nat, bits: nat) returns (counter: nat, newLen: nat)
    requires len + 7 * 204 <= buf.Length
    modifies buf
    ensures PacketSize(SizeFrom(bits)) && buf[..] == Expand(old(buf[..]), 0, len, SizeFrom(bits), bits, 7)
    ensures counter == Ones(bits, 7) && newLen == len + Grown(bits, 7, SizeFrom(bits))
  {
    var ps := SizeFrom(bits);
    SizeBound(ps);
    hide *;
    ghost var whole := Expand(buf[..], 0, len, ps, bits, 7);
    counter, newLen := 0, len;
    var offset, remaining: int, n := 0, len, 7;
    while n > 0
      invariant 0 <= n <= 7 && offset >= 0 && offset + 204 * n + Pos(remaining) <= buf.Length
      invariant whole == Expand(buf[..], offset, remaining, ps, bits, n)
      invariant counter + Ones(bits, n) == Ones(bits, 7) && newLen + Grown(bits, n, ps) == len + Grown(bits, 7, ps)
    {
      CountStep(bits, n, ps);
      remaining := ExpandTurn(buf, offset, remaining, ps, bits, n);
      if Bit(bits, n - 1) {
        newLen := newLen + ps;
        counter := counter + 1;
      }
      offset := offset + ps;
      n := n - 1;
    }
    ExpandDone(buf[..], offset, remaining, ps, bits);
  }

  /** One turn: a null packet is put in, or a packet is passed. */
  method ExpandTurn(buf: array<byte>, offset: nat, remaining: int, ps: nat, bits: nat, n: nat) returns (left: int)
    requires PacketSize(ps) && n > 0 && offset + 204 * n + Pos(remaining) <= buf.Length
    modifies buf
    ensures offset + ps + 204 * (n - 1) + Pos(left) <= buf.Length
    ensures Expand(buf[..], offset + ps, left, ps, bits, n - 1) == Expand(old(buf[..]), offset, remaining, ps, bits, n)
  {
    hide *;
    left := remaining;
    if Bit(bits, n - 1) {
      ExpandSet(buf[..], offset, remaining, ps, bits, n);
      InsertInPlace(buf, offset, remaining, ps);
    } else {
      ExpandUnset(buf[..], offset, remaining, ps, bits, n);
      left := remaining - ps;
    }
  }

  lemma CountStep(bits: nat, n: nat, ps: nat)
    requires n > 0
    ensures Ones(bits, n) == Ones(bits, n - 1) + if Bit(bits, n - 1) then 1 else 0
    ensures Grown(bits, n, ps) == Grown(bits, n - 1, ps) + if Bit(bits, n - 1) then ps else 0
  {
    hide Bit;
  }

  lemma ExpandDone(b: seq<byte>, offset: nat, remaining: int, ps: nat, bits: nat)
    requires PacketSize(ps) && offset + Pos(remaining) <= |b|
    ensures Expand(b, offset, remaining, ps, bits, 0) == b && Ones(bits, 0) == 0 && Grown(bits, 0, ps) == 0
  {
  }

  // ----- suppression

  /** What the loop has put out, marked and counted agrees with what is still to come. */
  ghost predicate Running(m: seq<byte>, ps: nat, n: nat, bits0: nat, out: seq<byte>, bits: nat, suppressed: nat,
                          rest: seq<byte>, k: nat)
    requires Packets(m, ps, n) && Packets(rest, ps, k)
  {
    && Kept(m, ps, n) == out + Kept(rest, ps, k)
    && Marked(m, ps, n, bits0) == Marked(rest, ps, k, bits)
    && Nulls(m, ps, n) == suppressed + Nulls(rest, ps, k)
  }

  lemma RunningStart(m: seq<byte>, ps: nat, n: nat, bits: nat)
    requires Packets(m, ps, n)
    ensures Running(m, ps, n, bits, [], bits, 0, m, n)
  {
    hide Kept, Marked, Nulls;
    assert [] + Kept(m, ps, n) == Kept(m, ps, n);
  }

  lemma RunningStep(m: seq<byte>, ps: nat, n: nat, bits0: nat, out: seq<byte>, bits: nat, suppressed: nat,
                    rest: seq<byte>, k: nat)
    requires Packets(m, ps, n) && Packets(rest, ps, k) && k > 0
             && Running(m, ps, n, bits0, out, bits, suppressed, rest, k)
    ensures |rest| >= ps && Packets(rest[ps..], ps, k - 1)
    ensures if IsNull(rest[..ps]) then
            Running(m, ps, n, bits0, out, SetBit(bits, k - 1), suppressed + 1, rest[ps..], k - 1)
            else Running(m, ps, n, bits0, out + rest[..ps], bits, suppressed, rest[ps..], k - 1)
  {
    hide IsNull, SetBit;
    if !IsNull(rest[..ps]) {
      assert out + (rest[..ps] + Kept(rest[ps..], ps, k - 1)) == out + rest[..ps] + Kept(rest[ps..], ps, k - 1);
    } else {
      assert [] + Kept(rest[ps..], ps, k - 1) == Kept(rest[ps..], ps, k - 1);
    }
  }

  lemma RunningEnd(m: seq<byte>, ps: nat, n: nat, bits0: nat, out: seq<byte>, bits: nat, suppressed: nat,
                   rest: seq<byte>)
    requires Packets(m, ps, n) && Packets(rest, ps, 0) && Running(m, ps, n, bits0, out, bits, suppressed, rest, 0)
    ensures rest == [] && Kept(m, ps, n) == out && Marked(m, ps, n, bits0) == bits && Nulls(m, ps, n) == suppressed
  {
    assert Kept(rest, ps, 0) == [] && Marked(rest, ps, 0, bits) == bits && Nulls(rest, ps, 0) == 0;
    hide Kept, Marked, Nulls;
    assert out + [] == out;
  }

  lemma LastNotNull(m: seq<byte>, ps: nat, n: nat, bits0: nat, out: seq<byte>, bits: nat, rest: seq<byte>)
    requires Packets(m, ps, n) && Packets(rest, ps, 1) && Running(m, ps, n, bits0, out, bits, 0, rest, 1)
             && !IsNull(rest[..ps])
    ensures Nulls(m, ps, n) == 0
  {
    assert Nulls(rest[ps..], ps, 0) == 0;
  }

  /** The bytes that the loop copies: the kept packets, except the last one if nothing is suppressed. */
  function Copied(m: seq<byte>, ps: nat, n: nat): int
    requires Packets(m, ps, n)
  {
    if Nulls(m, ps, n) == 0 then |m| - ps else |Kept(m, ps, n)|
  }

  lemma {:induction false} KeptSize(m: seq<byte>, ps: nat, n: nat)
    requires PacketSize(ps) && Packets(m, ps, n)
    ensures |m| == ps * n && |Kept(m, ps, n)| == ps * (n - Nulls(m, ps, n))
  {
    hide IsNull;
    if n > 0 {
      KeptSize(m[ps..], ps, n - 1);
    }
  }

  /** There is room for the next packet that is copied. */
  lemma RoomForNext(m: seq<byte>, ps: nat, n: nat, bits0: nat, out: seq<byte>, bits: nat, suppressed: nat,
                    rest: seq<byte>,
                    k: nat)
    requires PacketSize(ps) && Packets(m, ps, n) && Packets(rest, ps, k) && k > 0
    requires Running(m, ps, n, bits0, out, bits, suppressed, rest, k)
    requires |rest| >= ps && !IsNull(rest[..ps]) && (k == 1 ==> suppressed > 0)
    ensures |out| + ps <= Copied(m, ps, n)
  {
    assert |Kept(rest, ps, k)| == ps + |Kept(rest[ps..], ps, k - 1)|;
    if Nulls(m, ps, n) == 0 {
      KeptSize(m, ps, n);
      KeptSize(rest, ps, k);
      assert ps * k >= ps * 2;
    }
  }

  /** The loop of `suppress_null_packets`. `stopped` is the return from the last packet when nothing was
      suppressed, without copying it. */
  method RunSuppress(input: seq<byte>, out: array<byte>, ps: nat, n: nat, bits0: nat)
    returns (stopped: bool, suppressed: nat, len: nat, bits: nat)
    requires PacketSize(ps) && Packets(input, ps, n) && n > 0 && Copied(input, ps, n) <= out.Length
    modifies out
    ensures stopped ==> Nulls(input, ps, n) == 0 && len == |input|
    ensures !stopped ==> suppressed == Nulls(input, ps, n) > 0 && bits == Marked(input, ps, n, bits0)
    ensures !stopped ==> len <= out.Length && out[..len] == Kept(input, ps, n)
  {
    RunningStart(input, ps, n, bits0);
    SizeBound(ps);
    hide *;
    stopped, suppressed, len, bits := false, 0, |input|, bits0;
    var offset, outOffset, k := 0, 0, n;
    assert input[0..] == input && out[..0] == [];
    while k > 0
      invariant 0 <= k <= n && 0 <= offset <= |input| && 0 <= outOffset <= out.Length && Packets(input[offset..], ps, k)
      invariant Running(input, ps, n, bits0, out[..outOffset], bits, suppressed, input[offset..], k)
      invariant len == outOffset + |input| - offset && (suppressed == 0 ==> len == |input| && k > 0)
    {
      ghost var rest := input[offset..];
      RunningStep(input, ps, n, bits0, out[..outOffset], bits, suppressed, rest, k);
      assert rest[..ps] == input[offset..offset + ps] && rest[ps..] == input[offset + ps..];
      if IsNull(input[offset..offset + ps]) {
        len := len - ps;
        bits := SetBit(bits, k - 1);
        suppressed := suppressed + 1;
      } else {
        if k == 1 && suppressed == 0 {
          LastNotNull(input, ps, n, bits0, out[..outOffset], bits, rest);
          return true, 0, |input|, bits;
        }
        RoomForNext(input, ps, n, bits0, out[..outOffset], bits, suppressed, rest, k);
        CopyPacket(input, offset, out, outOffset, ps);
        outOffset := outOffset + ps;
      }
      offset := offset + ps;
      k := k - 1;
    }
    RunningEnd(input, ps, n, bits0, out[..outOffset], bits, suppressed, input[offset..]);
  }

  method CopyPacket(input: seq<byte>, offset: nat, out: array<byte>, outOffset: nat, ps: nat)
    requires offset + ps <= |input| && outOffset + ps <= out.Length
    modifies out
    ensures out[..outOffset + ps] == old(out[..outOffset]) + input[offset..offset + ps]
  {
    forall k | 0 <= k < ps {
      out[outOffset + k] := input[offset + k];
    }
  }

  /** The three results for the whole packets of a payload. */
  function NullCount(m: seq<byte>): nat
    requires SizeOf(|m|) != 0
  {
    WholePackets(m);
    Nulls(m, SizeOf(|m|), |m| / SizeOf(|m|))
  }

  function KeptOf(m: seq<byte>): seq<byte>
    requires SizeOf(|m|) != 0
  {
    WholePackets(m);
    Kept(m, SizeOf(|m|), |m| / SizeOf(|m|))
  }

  function MarkedOf(m: seq<byte>, bits: nat): nat
    requires SizeOf(|m|) != 0
  {
    WholePackets(m);
    Marked(m, SizeOf(|m|), |m| / SizeOf(|m|), bits)
  }

  lemma ResultsOf(m: seq<byte>, bits: nat)
    requires SizeOf(|m|) != 0
    ensures Packets(m, SizeOf(|m|), |m| / SizeOf(|m|)) && PacketSize(SizeOf(|m|))
    ensures var ps, n := SizeOf(|m|), |m| / SizeOf(|m|);
      NullCount(m) == Nulls(m, ps, n) && KeptOf(m) == Kept(m, ps, n) && MarkedOf(m, bits) == Marked(m, ps, n, bits)
  {
    WholePackets(m);
    hide Nulls, Kept, Marked, Packets;
  }

  function InitialBits(len: nat, bits: nat): nat { if SizeOf(len) == 204 then SetBit(bits, 7) else bits }

  /** The bytes that `suppress_null_packets` writes to its output. */
  function Written(m: seq<byte>): int {
    var ps := SizeOf(|m|);
    if m == [] || ps == 0 || |m| / ps > 7 || m[0] != 0x47 then 0
    else if NullCount(m) == 0 then |m| - ps else |KeptOf(m)|
  }

  /** The call in `rist_sender_enqueue` passes a buffer of 6 * 204 + 4 bytes less the 8 of the header extension.
      That is too small for six packets of 204 bytes, which are written when the payload has seven of them and at
      most one is a null packet; every other payload fits. */
  lemma CallSiteFits(m: seq<byte>)
    ensures Written(m) <= 6 * 204 + 4 - 8
       <==> !(|m| == 7 * 204 && m[0] == 0x47 && NullCount(m) <= 1)
  {
    var ps := SizeOf(|m|);
    if m != [] && ps != 0 && |m| / ps <= 7 {
      ResultsOf(m, 0);
      KeptSize(m, ps, |m| / ps);
      hide Nulls, Kept, Packets, NullCount, KeptOf;
      SixPackets(|m|, ps, |m| / ps, NullCount(m), |KeptOf(m)|);
    }
  }

  lemma SixPackets(len: nat, ps: nat, n: nat, nulls: nat, kept: nat)
    requires PacketSize(ps) && len == ps * n && n <= 7 && nulls <= n && kept == ps * (n - nulls)
    ensures (if nulls == 0 then len - ps else kept) <= 6 * 204 + 4 - 8 <==> !(ps == 204 && n == 7 && nulls <= 1)
  {
    if ps == 188 {
      assert len == 188 * n && kept == 188 * (n - nulls);
    } else {
      assert len == 204 * n && kept == 204 * (n - nulls);
    }
  }

  /** `suppress_null_packets`; the output needs room for what is written. When the first byte is not
      the sync byte, the macro that should clear bit 7 keeps it and clears the others. */
  method SuppressNullPackets(input: seq<byte>, out: array<byte>, ext: HeaderExt) returns (result: int, len: nat)
    requires input != [] && Written(input) <= out.Length
    modifies out, ext
    ensures var ps := SizeOf(|input|);
      if ps == 0 || |input| / ps > 7 then result == -1
      else if input[0] != 0x47 then result == -1 && ext.flags == 128
      else result == NullCount(input) && ext.flags == SetBit(old(ext.flags), 7)
    ensures result > 0 ==>
              && SizeOf(|input|) != 0 && len <= out.Length && out[..len] == KeptOf(input)
              && ext.npdBits == MarkedOf(input, InitialBits(|input|, old(ext.npdBits)))
    ensures result <= 0 ==> len == |input|
  {
    len := |input|;
    var ps := SizeOf(|input|);
    if ps == 0 {
      return -1, len;
    }
    CountOf(|input|);
    hide *;
    if ps == 204 {
      ext.npdBits := SetBit(ext.npdBits, 7);
    }
    InitialIs(|input|, old(ext.npdBits));
    ResultsOf(input, ext.npdBits);
    var count := |input| / ps;
    if count > 7 {
      return -1, len;
    }
    ext.flags := SetBit(ext.flags, 7);
    if input[0] != 0x47 {
      UnsetMacro(old(ext.flags));
      ext.flags := if Bit(ext.flags, 7) then 128 else 0;
      return -1, len;
    }
    var stopped, suppressed, newLen, bits := RunSuppress(input, out, ps, count, ext.npdBits);
    if stopped {
      return 0, len;
    }
    ext.npdBits := bits;
    result, len := suppressed, newLen;
  }

  lemma CountOf(len: nat)
    requires len > 0 && SizeOf(len) != 0
    ensures PacketSize(SizeOf(len)) && 188 <= SizeOf(len) && len / SizeOf(len) > 0
  {
  }

  lemma InitialIs(len: nat, bits: nat)
    ensures InitialBits(len, bits) == if SizeOf(len) == 204 then SetBit(bits, 7) else bits
  {
  }

  lemma UnsetMacro(flags: nat)
    ensures Bit(SetBit(flags, 7), 7)
  {
    SetBitIs(flags, 7, 7);
  }

  /** From the sender's payload to the receiver's buffer: with seven packets and at least one of them
      suppressed, the receiver ends up with the canonical payload. */
  method Transfer(payload: seq<byte>, out: array<byte>, buf: array<byte>)
    returns (suppressed: int, counter: nat, newLen: nat)
    requires (|payload| == 7 * 188 || |payload| == 7 * 204) && Written(payload) <= out.Length
    requires out != buf && buf.Length >= 14 * 204
    modifies out, buf
    ensures suppressed == -1 <==> payload[0] != 0x47
    ensures suppressed > 0 ==>
              var ps := |payload| / 7;
              && counter == suppressed && newLen == |payload| <= buf.Length && PacketSize(ps) && Packets(payload, ps, 7)
              && buf[..newLen] == Canonical(payload, ps, 7)
  {
    SevenPackets(payload);
    counter, newLen := 0, 0;
    var ext := new HeaderExt();
    var len;
    suppressed, len := SuppressNullPackets(payload, out, ext);
    if suppressed > 0 {
      var ps := |payload| / 7;
      Lengths(payload, ps, 7);
      SevenResults(payload);
      hide *;
      CopyPacket(out[..len], 0, buf, 0, len);
      ghost var b := buf[..];
      LoadedAt(b, Kept(payload, ps, 7));
      RoundTrip(payload, ps, b);
      counter, newLen := ExpandNullPackets(buf, len, ext.npdBits);
      FrontOf(buf[..], Canonical(payload, ps, 7));
    }
  }

  lemma SevenPackets(m: seq<byte>)
    requires |m| == 7 * 188 || |m| == 7 * 204
    ensures SizeOf(|m|) == |m| / 7 && |m| / SizeOf(|m|) == 7 && SizeOf(|m|) != 0
    ensures Packets(m, |m| / 7, 7) && PacketSize(|m| / 7)
    ensures InitialBits(|m|, 0) == SizeBits(|m| / 7)
  {
    PacketsOf(m, |m| / 7, 7);
    SizeBitsAre(204, 7);
  }

  lemma SevenResults(m: seq<byte>)
    requires |m| == 7 * 188 || |m| == 7 * 204
    ensures var ps := |m| / 7;
      && SizeOf(|m|) == ps != 0 && PacketSize(ps) && Packets(m, ps, 7)
      && KeptOf(m) == Kept(m, ps, 7) && NullCount(m) == Nulls(m, ps, 7)
      && MarkedOf(m, InitialBits(|m|, 0)) == Marked(m, ps, 7, SizeBits(ps))
      && |Kept(m, ps, 7)| <= |m| <= 7 * 204
  {
    SevenPackets(m);
    ResultsOf(m, InitialBits(|m|, 0));
    Lengths(m, |m| / 7, 7);
    hide Packets, Kept, Nulls, Marked, KeptOf, NullCount, MarkedOf, InitialBits, SizeBits, Canonical;
  }

  lemma LoadedAt(b: seq<byte>, k: seq<byte>)
    requires |k| <= |b| && b[..|k|] == k
    ensures At(b, 0, k)
  {
    assert b[0..0 + |k|] == b[..|k|];
  }

  lemma FrontOf(b: seq<byte>, x: seq<byte>)
    requires At(b, 0, x)
    ensures |x| <= |b| && b[..|x|] == x
  {
    assert b[0..0 + |x|] == b[..|x|];
  }
}
