/** The compound RTCP packet that carries retransmission requests (section 6.1 of RFC 3550), as the
    receiver writes it. */
module Rtcp {
  import opened Bytes
  import opened NackRecords

  const PTYPE_RR := 201
  const PTYPE_SDES := 202
  const PTYPE_CUSTOM := 204
  const PTYPE_BITMASK := 205

  // ----- the format

  function Be16(n: nat): (b: seq<byte>)
    ensures |b| == 2
  {
    [n / 256 % 256, n % 256]
  }

  function Be32(n: nat): (b: seq<byte>)
    ensures |b| == 4
  {
    Be16(n / 65536) + Be16(n % 65536)
  }

  function U16(b: seq<byte>, at: nat): nat
    requires at + 2 <= |b|
  {
    256 * (b[at] as nat) + b[at + 1]
  }

  lemma U16Be16(n: nat)
    requires n < 65536
    ensures U16(Be16(n), 0) == n
  {
  }

  function RrBytes(flow: nat): (b: seq<byte>)
    ensures |b| == 8
  {
    [0x80, PTYPE_RR] + Be16(1) + Be32(flow)
  }

  /** The size of the description packet for a name of `n` bytes: a terminator, and up to a multiple of 4. */
  function SdesSize(n: nat): nat { (10 + n + 1 + 3) / 4 * 4 }

  /** The copy of the name and its padding stays inside the 128 bytes of the peer's name exactly up to 125
      characters; of a longer name two bytes past the end are read. */
  lemma NameFits(n: nat)
    requires n < 128
    ensures SdesSize(n) - 10 <= 128 <==> n <= 125
    ensures n > 125 ==> SdesSize(n) - 10 == 130
  {
  }

  /** The name is copied with the bytes behind it as padding, whatever they are. */
  function SdesBytes(flow: nat, cname: seq<byte>, n: nat): (b: seq<byte>)
    requires n < 256 && SdesSize(n) - 10 <= |cname|
    ensures |b| == SdesSize(n)
  {
    [0x81, PTYPE_SDES] + Be16((SdesSize(n) - 1) / 4) + Be32(flow) + [1, n] + cname[..SdesSize(n) - 10]
  }

  const RIST: seq<byte> := [82, 73, 83, 84]

  function RecordBytes(rs: seq<Record>): (b: seq<byte>)
    ensures |b| == 4 * |rs|
  {
    if rs == [] then [] else Be16(rs[0].start) + Be16(rs[0].extra) + RecordBytes(rs[1..])
  }

  function NackHeader(flow: nat, range: bool, n: nat): (b: seq<byte>)
    ensures |b| == 12
  {
    if range then [0x80, PTYPE_CUSTOM] + Be16(2 + n) + Be32(flow) + RIST
    else [0x81, PTYPE_BITMASK] + Be16(2 + n) + Be32(0) + Be32(flow)
  }

  function RecordsOf(s: seq<Seq16>, range: bool): (rs: seq<Record>)
    requires s != []
    ensures 1 <= |rs| <= |s|
  {
    if range then Ranges(s) else Masks(s)
  }

  function NackBytes(flow: nat, range: bool, s: seq<Seq16>): seq<byte>
    requires s != []
  {
    NackHeader(flow, range, |RecordsOf(s, range)|) + RecordBytes(RecordsOf(s, range))
  }

  function Compound(flow: nat, cname: seq<byte>, n: nat, range: bool, s: seq<Seq16>): seq<byte>
    requires n < 256 && SdesSize(n) - 10 <= |cname| && s != []
  {
    RrBytes(flow) + SdesBytes(flow, cname, n) + NackBytes(flow, range, s)
  }

  // ----- bytes in a buffer

  ghost predicate Holds(p: seq<byte>, at: nat, b: seq<byte>) {
    at + |b| <= |p| && p[at..at + |b|] == b
  }

  lemma HoldsAt(p: seq<byte>, at: nat, b: seq<byte>, i: nat)
    requires Holds(p, at, b) && i < |b|
    ensures p[at + i] == b[i]
  {
    assert p[at..at + |b|][i] == b[i];
  }

  lemma HoldsSlice(p: seq<byte>, at: nat, b: seq<byte>, i: nat, j: nat)
    requires Holds(p, at, b) && i <= j <= |b|
    ensures p[at + i..at + j] == b[i..j]
  {
    forall k | i <= k < j ensures p[at + k] == b[k] {
      HoldsAt(p, at, b, k);
    }
  }

  lemma HoldsU16(p: seq<byte>, at: nat, b: seq<byte>, i: nat)
    requires Holds(p, at, b) && i + 2 <= |b|
    ensures U16(p, at + i) == U16(b, i)
  {
    HoldsAt(p, at, b, i);
    HoldsAt(p, at, b, i + 1);
  }

  lemma HoldsPart(p: seq<byte>, at: nat, a: seq<byte>, b: seq<byte>)
    requires Holds(p, at, a + b)
    ensures Holds(p, at, a) && Holds(p, at + |a|, b)
  {
    assert p[at..at + |a|] == p[at..at + |a + b|][..|a|] == a;
    assert p[at + |a|..at + |a| + |b|] == p[at..at + |a + b|][|a|..] == b;
  }

  lemma HoldsSize(p: seq<byte>, at: nat, b: seq<byte>)
    requires Holds(p, at, b)
    ensures at + |b| <= |p|
  {
  }
}
