/** Retransmission requests as records of a start and an extra field: ranges, and bit masks as in section
    6.2.1 of RFC 4585. */
module NackRecords {
  import opened Bits

  type Seq16 = n: nat | n < 65536

  datatype Record = Record(start: Seq16, extra: Seq16)

  // ----- ranges

  /** The records from an open one on, `last` being the last number it covers. */
  function RangesFrom(open: Record, last: Seq16, rest: seq<Seq16>): (rs: seq<Record>)
    ensures 1 <= |rs| <= 1 + |rest|
    decreases |rest|
  {
    if rest == [] then [open]
    else if open.extra == 65535 then [open] + RangesFrom(Record(rest[0], 0), rest[0], rest[1..])
    else if rest[0] == last + 1 then RangesFrom(Record(open.start, open.extra + 1), rest[0], rest[1..])
    else [open] + RangesFrom(Record(rest[0], 0), rest[0], rest[1..])
  }

  function Ranges(s: seq<Seq16>): (rs: seq<Record>)
    requires s != []
    ensures 1 <= |rs| <= |s|
  {
    RangesFrom(Record(s[0], 0), s[0], s[1..])
  }

  /** The numbers that a receiver of range records asks for; the additions are in 32 bits. */
  function Run(start: nat, n: nat): seq<nat> {
    if n == 0 then [] else Run(start, n - 1) + [start + n - 1]
  }

  function ExpandRanges(rs: seq<Record>): seq<nat> {
    if rs == [] then [] else Run(rs[0].start, rs[0].extra + 1) + ExpandRanges(rs[1..])
  }

  lemma {:induction false} RangesFromExpand(open: Record, last: Seq16, rest: seq<Seq16>)
    requires last == open.start + open.extra
    ensures ExpandRanges(RangesFrom(open, last, rest)) == Run(open.start, open.extra + 1) + rest
    decreases |rest|
  {
    if rest == [] {
      assert ExpandRanges([]) == [];
    } else {
      assert rest == [rest[0]] + rest[1..];
      if open.extra != 65535 && rest[0] == last + 1 {
        RangesFromExpand(Record(open.start, open.extra + 1), rest[0], rest[1..]);
      } else {
        RangesFromExpand(Record(rest[0], 0), rest[0], rest[1..]);
        RunOne(rest[0]);
        var more := RangesFrom(Record(rest[0], 0), rest[0], rest[1..]);
        assert ([open] + more)[1..] == more;
      }
    }
  }

  lemma RunOne(start: nat)
    ensures Run(start, 1) == [start]
  {
    assert Run(start, 0) == [];
  }

  /** Range records stand for exactly the list they were made from. */
  lemma RangesRoundTrip(s: seq<Seq16>)
    requires s != []
    ensures ExpandRanges(Ranges(s)) == s
  {
    RangesFromExpand(Record(s[0], 0), s[0], s[1..]);
    RunOne(s[0]);
    assert s == [s[0]] + s[1..];
  }

  // ----- bit masks

  /** The records from an open one on: a number at most 16 after its start sets a bit. */
  function MasksFrom(open: Record, rest: seq<Seq16>): (rs: seq<Record>)
    ensures 1 <= |rs| <= 1 + |rest|
    decreases |rest|
  {
    if rest == [] then [open]
    else if open.start < rest[0] <= open.start + 16 then
      SetBit16(open.extra, rest[0] - open.start - 1);
      MasksFrom(Record(open.start, SetBit(open.extra, rest[0] - open.start - 1)), rest[1..])
    else [open] + MasksFrom(Record(rest[0], 0), rest[1..])
  }

  function Masks(s: seq<Seq16>): (rs: seq<Record>)
    requires s != []
    ensures 1 <= |rs| <= |s|
  {
    MasksFrom(Record(s[0], 0), s[1..])
  }

  /** The numbers of bits 0 to n - 1, in order. */
  function ExpandBits(r: Record, n: nat): seq<nat> {
    if n == 0 then [] else ExpandBits(r, n - 1) + if Bit(r.extra, n - 1) then [r.start + n] else []
  }

  function ExpandMask(r: Record): seq<nat> { [r.start] + ExpandBits(r, 16) }

  function ExpandMasks(rs: seq<Record>): seq<nat> {
    if rs == [] then [] else ExpandMask(rs[0]) + ExpandMasks(rs[1..])
  }

  lemma {:induction false} InExpandBits(r: Record, n: nat, x: nat)
    ensures x in ExpandBits(r, n) <==> r.start < x <= r.start + n && Bit(r.extra, x - r.start - 1)
  {
    if n > 0 {
      InExpandBits(r, n - 1, x);
    }
  }

  lemma InExpandMask(r: Record, x: nat)
    ensures x in ExpandMask(r) <==> x == r.start || (r.start < x <= r.start + 16 && Bit(r.extra, x - r.start - 1))
  {
    InExpandBits(r, 16, x);
  }

  lemma {:induction false} MasksFromExpand(open: Record, rest: seq<Seq16>, x: nat)
    ensures x in ExpandMasks(MasksFrom(open, rest)) <==> x in ExpandMask(open) || x in rest
    decreases |rest|
  {
    hide ExpandMask, Bit, SetBit;
    if rest == [] {
      assert ExpandMasks([]) == [];
    } else {
      assert rest == [rest[0]] + rest[1..];
      if open.start < rest[0] <= open.start + 16 {
        var j := rest[0] - open.start - 1;
        SetBit16(open.extra, j);
        var next := Record(open.start, SetBit(open.extra, j));
        MasksFromExpand(next, rest[1..], x);
        InExpandMask(open, x);
        InExpandMask(next, x);
        if x > open.start {
          SetBitIs(open.extra, j, x - open.start - 1);
        }
      } else {
        var next := Record(rest[0], 0);
        MasksFromExpand(next, rest[1..], x);
        FreshMask(rest[0], x);
        var more := MasksFrom(next, rest[1..]);
        assert ([open] + more)[1..] == more;
      }
    }
  }

  lemma FreshMask(start: Seq16, x: nat)
    ensures x in ExpandMask(Record(start, 0)) <==> x == start
  {
    InExpandMask(Record(start, 0), x);
    if x > start {
      ZeroHasNoBits(x - start - 1);
    }
  }

  /** Bit-mask records stand for exactly the set of numbers they were made from. */
  lemma MasksRoundTrip(s: seq<Seq16>, x: nat)
    requires s != []
    ensures x in ExpandMasks(Masks(s)) <==> x in s
  {
    hide ExpandMask;
    MasksFromExpand(Record(s[0], 0), s[1..], x);
    FreshMask(s[0], x);
    assert s == [s[0]] + s[1..];
  }
}
