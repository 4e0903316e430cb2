/** The RTCP packets in the numbers of RFC 3550 and RFC 4585: what the receiver writes, and what the sender reads. */
module RtcpFormat {
  import Arith
  import opened Bits
  import opened Bytes
  import opened NackRecords
  import opened Rtcp
  import opened RtcpReader

  // ----- what is written

  predicate IsWord(b: seq<byte>, at: nat, n: nat) {
    at + 4 <= |b| && n == 16777216 * (b[at] as nat) + 65536 * (b[at + 1] as nat) + 256 * (b[at + 2] as nat) + b[at + 3]
  }

  lemma Be32Is(n: nat)
    requires n < 0x1_0000_0000
    ensures IsWord(Be32(n), 0, n)
  {
    var hi, lo := n / 65536, n % 65536;
    assert Be32(n) == [hi / 256 % 256, hi % 256, lo / 256 % 256, lo % 256];
  }

  lemma WordIn(b: seq<byte>, front: seq<byte>, n: nat, back: seq<byte>)
    requires n < 0x1_0000_0000 && b == front + Be32(n) + back
    ensures IsWord(b, |front|, n)
  {
    Be32Is(n);
    hide Be32;
    forall i | 0 <= i < 4 ensures b[|front| + i] == Be32(n)[i] {
    }
  }

  /** Section 6.4.2 of RFC 3550: version 2 and no report block, type 201, one word more, the source. */
  lemma RrIs(flow: nat)
    requires flow < 0x1_0000_0000
    ensures var b := RrBytes(flow); b[..4] == [0x80, 201, 0, 1] && IsWord(b, 4, flow)
  {
    assert RrBytes(flow) == [0x80, 201, 0, 1] + Be32(flow) + [];
    WordIn(RrBytes(flow), [0x80, 201, 0, 1], flow, []);
  }

  /** Section 6.5: one chunk, type 202, the length in words less one, the source, a name item, at least one byte of
      padding. */
  lemma SdesIs(flow: nat, cname: seq<byte>, n: nat)
    requires flow < 0x1_0000_0000 && n < 256 && SdesSize(n) - 10 <= |cname|
    ensures var b := SdesBytes(flow, cname, n);
      && b[..2] == [0x81, 202] && 4 * (256 * (b[2] as nat) + b[3] + 1) == |b| && IsWord(b, 4, flow)
      && b[8..10] == [1, n] && 10 + n < |b| <= 10 + n + 4 && b[10..10 + n] == cname[..n]
  {
    var b, size := SdesBytes(flow, cname, n), SdesSize(n);
    var front, back := [0x81, 202] + Be16((size - 1) / 4), [1, n] + cname[..size - 10];
    assert b == front + Be32(flow) + back;
    WordIn(b, front, flow, back);
    assert b[10..10 + n] == cname[..n];
  }

  /** Section 6.2.1 of RFC 4585 for masks: format 1, type 205, the length, the sender's own source left zero, the
      source that is asked. For ranges an application packet, section 6.7 of RFC 3550: subtype 0, type 204, the
      source, the name. */
  lemma NackIs(flow: nat, range: bool, n: nat)
    requires flow < 0x1_0000_0000 && n + 2 < 65536
    ensures var b := NackHeader(flow, range, n);
      && b[..2] == (if range then [0x80, 204] else [0x81, 205]) && 256 * (b[2] as nat) + b[3] == n + 2
      && (if range then IsWord(b, 4, flow) && b[8..12] == [82, 73, 83, 84] else IsWord(b, 4, 0) && IsWord(b, 8, flow))
  {
    var b, length := NackHeader(flow, range, n), Be16(2 + n);
    if range {
      WordIn(b, [0x80, 204] + length, flow, RIST);
    } else {
      assert b == [0x81, 205] + length + Be32(0) + (Be32(flow) + []);
      WordIn(b, [0x81, 205] + length, 0, Be32(flow));
      assert b == ([0x81, 205] + length + Be32(0)) + Be32(flow) + [];
      WordIn(b, [0x81, 205] + length + Be32(0), flow, []);
    }
  }

  // ----- what is read

  function Pair(p: seq<byte>, at: nat): nat
    requires at + 2 <= |p|
  {
    256 * (p[at] as nat) + p[at + 1]
  }

  /** Section 6.2.1 of RFC 4585: a number stands in the record at `at` if it is the first one, or its bit is set,
      counting from the least significant bit for the number after the first. */
  ghost predicate Masked(p: seq<byte>, at: nat, x: nat)
    requires at + 4 <= |p|
  {
    var first, mask := Pair(p, at), Pair(p, at + 2);
    x == first || (first < x <= first + 16 && mask / Pow2(x - first - 1) % 2 == 1)
  }

  /** The record gives the first of the numbers and how many follow. */
  ghost predicate Ranged(p: seq<byte>, at: nat, x: nat)
    requires at + 4 <= |p|
  {
    Pair(p, at) <= x <= Pair(p, at) + Pair(p, at + 2)
  }

  lemma {:induction false} InRun(start: nat, n: nat, x: nat)
    ensures x in Run(start, n) <==> start <= x < start + n
  {
    if n > 0 {
      InRun(start, n - 1, x);
    }
  }

  lemma {:induction false} BitIs(mask: nat, j: nat)
    ensures Bit(mask, j) <==> mask / Pow2(j) % 2 == 1
  {
    if j > 0 {
      BitIs(mask / 2, j - 1);
      HalfDiv(mask, Pow2(j - 1));
    }
  }

  lemma HalfDiv(m: nat, p: nat)
    requires p > 0
    ensures m / (2 * p) == m / 2 / p
  {
    var q, r := Arith.DivMod(m / 2, p);
    assert m == 2 * p * q + (2 * r + m % 2);
    Arith.DivModUnique(m, 2 * p, q, 2 * r + m % 2);
  }

  lemma MaskIs(p: seq<byte>, at: nat, x: nat)
    requires at + 4 <= |p|
    ensures x in ExpandMask(Record(U16(p, at), U16(p, at + 2))) <==> Masked(p, at, x)
  {
    InExpandMask(Record(U16(p, at), U16(p, at + 2)), x);
    if x > U16(p, at) {
      BitIs(U16(p, at + 2), x - U16(p, at) - 1);
    }
    hide Bit, Pow2, ExpandMask;
  }

  lemma RangeIs(p: seq<byte>, at: nat, x: nat)
    requires at + 4 <= |p|
    ensures x in Run(U16(p, at), U16(p, at + 2) + 1) <==> Ranged(p, at, x)
  {
    InRun(U16(p, at), U16(p, at + 2) + 1, x);
    hide Run;
  }

  lemma FirstRecord(p: seq<byte>, at: nat, n: nat)
    requires n > 0 && at + 4 * n <= |p|
    ensures ReadRecords(p, at, n) == [Record(U16(p, at), U16(p, at + 2))] + ReadRecords(p, at + 4, n - 1)
  {
  }

  /** The i-th record behind the header. */
  function RecordAt(at: nat, i: nat): nat { at + 4 * i }

  ghost predicate StandsIn(p: seq<byte>, at: nat, n: nat, range: bool, x: nat)
    requires at + 4 * n <= |p|
  {
    exists i: nat :: i < n && if range then Ranged(p, RecordAt(at, i), x) else Masked(p, RecordAt(at, i), x)
  }

  lemma StandsInMore(p: seq<byte>, at: nat, n: nat, range: bool, x: nat)
    requires n > 0 && at + 4 * n <= |p|
    ensures StandsIn(p, at, n, range, x)
       <==> (if range then Ranged(p, at, x) else Masked(p, at, x)) || StandsIn(p, at + 4, n - 1, range, x)
  {
    hide Ranged, Masked;
    assert RecordAt(at, 0) == at;
    if StandsIn(p, at, n, range, x) {
      var i: nat :| i < n && if range then Ranged(p, RecordAt(at, i), x) else Masked(p, RecordAt(at, i), x);
      assert i > 0 ==> RecordAt(at, i) == RecordAt(at + 4, i - 1);
    }
    if StandsIn(p, at + 4, n - 1, range, x) {
      var i: nat :| i < n - 1
                    && if range then Ranged(p, RecordAt(at + 4, i), x) else Masked(p, RecordAt(at + 4, i), x);
      assert RecordAt(at + 4, i) == RecordAt(at, i + 1);
    }
  }

  function Expand(rs: seq<Record>, range: bool): seq<nat> { if range then ExpandRanges(rs) else ExpandMasks(rs) }

  lemma ExpandFirst(r: Record, rest: seq<Record>, range: bool, x: nat)
    ensures x in Expand([r] + rest, range)
       <==> (if range then x in Run(r.start, r.extra + 1) else x in ExpandMask(r)) || x in Expand(rest, range)
  {
    hide Run, ExpandMask;
    assert ([r] + rest)[1..] == rest;
  }

  lemma NoneStands(p: seq<byte>, at: nat, range: bool, x: nat)
    requires at <= |p|
    ensures Expand(ReadRecords(p, at, 0), range) == [] && !StandsIn(p, at, 0, range, x)
  {
  }

  lemma {:induction false} NumbersAre(p: seq<byte>, at: nat, n: nat, range: bool, x: nat)
    requires at + 4 * n <= |p|
    ensures x in Expand(ReadRecords(p, at, n), range) <==> StandsIn(p, at, n, range, x)
    decreases n
  {
    if n == 0 {
      NoneStands(p, at, range, x);
    } else {
      FirstRecord(p, at, n);
      RangeIs(p, at, x);
      hide *;
      var r := Record(U16(p, at), U16(p, at + 2));
      NumbersAre(p, at + 4, n - 1, range, x);
      StandsInMore(p, at, n, range, x);
      MaskIs(p, at, x);
      ExpandFirst(r, ReadRecords(p, at + 4, n - 1), range, x);
    }
  }

  predicate IsRequest(p: seq<byte>) {
    && 12 <= |p| == 4 * (Pair(p, 2) + 1) < 65536 && p[0] / 64 == 2
    && (p[1] == 205 || (p[1] == 204 && p[0] % 32 == 0 && p[8..12] == [82, 73, 83, 84]))
  }

  lemma RequestFields(p: seq<byte>, st: State, peer: Peer)
    requires IsRequest(p)
    ensures KindAt(p, 0) == Request && SizeAt(p, 0) == |p| && RecordCount(p, 0) == |p| / 4 - 3
    ensures Extent(p, 0, st, peer) <= |p| && RequestExtent(p, 0) <= |p|
  {
    assert Field16(p, 2) == Pair(p, 2);
    hide Field16, WalkAt;
  }

  lemma RequestEvent(p: seq<byte>, st: State, peer: Peer)
    requires IsRequest(p)
    ensures 12 <= |p|
            && EventAt(p, 0, st, peer) == Nack(st.msb, Expand(ReadRecords(p, 12, |p| / 4 - 3), p[1] == 204))
  {
    RequestFields(p, st, peer);
    assert ReadRecords(p, 12, 0) == [] && ExpandMasks([]) == [];
    assert EventAt(p, 0, st, peer) == NackEvent(p, 0, st.msb);
    hide ReadRecords, ExpandMasks, ExpandRanges, RecordCount, RequestExtent, KindAt, EventAt, Extent;
  }

  lemma NackGoesOn(msb: nat, numbers: seq<nat>)
    ensures !Stops(Nack(msb, numbers))
  {
  }

  lemma OnePacket(p: seq<byte>, st: State, peer: Peer)
    requires 4 <= |p| == SizeAt(p, 0) && !Stops(EventAt(p, 0, st, peer))
    ensures ParseFrom(p, 0, st, peer) == [EventAt(p, 0, st, peer)]
  {
    hide EventAt, StateAfter, Stops, SizeAt;
    var rest := ParseFrom(p, |p|, StateAfter(st, EventAt(p, 0, st, peer)), peer);
    assert rest == [];
  }

  /** A packet of version 2 that fills the buffer, of type 205, or of type 204 with subtype 0 and the name "RIST", is a
      request, for exactly the numbers that stand in its records. */
  lemma RequestIs(p: seq<byte>, st: State, peer: Peer, x: nat)
    requires 12 <= |p| == 4 * (256 * (p[2] as nat) + p[3] + 1) < 65536 && p[0] / 64 == 2
    requires p[1] == 205 || (p[1] == 204 && p[0] % 32 == 0 && p[8..12] == [82, 73, 83, 84])
    ensures var es, n := ParseFrom(p, 0, st, peer), |p| / 4 - 3;
      && |es| == 1 && es[0].Nack? && es[0].msb == st.msb
      && (x in es[0].numbers <==> StandsIn(p, 12, n, p[1] == 204, x))
  {
    assert IsRequest(p);
    hide *;
    NumbersAre(p, 12, |p| / 4 - 3, p[1] == 204, x);
    RequestFields(p, st, peer);
    RequestEvent(p, st, peer);
    NackGoesOn(st.msb, Expand(ReadRecords(p, 12, |p| / 4 - 3), p[1] == 204));
    OnePacket(p, st, peer);
  }

  /** An empty report is of type 201, and a description of type 202: its name follows the length byte. */
  lemma ReportAndNameAre(p: seq<byte>, st: State, peer: Peer)
    requires 12 <= |p| == 4 * (256 * (p[2] as nat) + p[3] + 1) < 65536
    ensures p[1] == 201 && |p| != 32 ==> ParseFrom(p, 0, st, peer) == [Rr]
    ensures p[1] == 202 && p[9] <= 128 && 10 + p[9] <= |p| ==>
              ParseFrom(p, 0, st, peer) == [Sdes(p[10..10 + p[9]])]
  {
    assert Field16(p, 2) == Pair(p, 2) && SizeAt(p, 0) == |p|;
    hide Field16, Field32, ParseFrom, WalkAt, SizeAt, NackEvent, RequestExtent;
    if p[1] == 201 && |p| != 32 {
      assert EventAt(p, 0, st, peer) == Rr;
      OnePacket(p, st, peer);
    }
    if p[1] == 202 && p[9] <= 128 && 10 + p[9] <= |p| {
      assert EventAt(p, 0, st, peer) == Sdes(p[10..10 + p[9]]);
      OnePacket(p, st, peer);
    }
  }
}
