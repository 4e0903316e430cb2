/** The RTCP writers in place on the packet buffer. */
module RtcpBuffer {
  import opened Bits
  import opened Bytes
  import opened NackRecords
  import opened Rtcp

  /** Bytes outside `at..at + n` are as they were. */
  ghost predicate Kept(before: seq<byte>, after: seq<byte>, at: nat, n: nat) {
    |after| == |before| && forall k :: 0 <= k < |after| ==> k < at || at + n <= k ==> after[k] == before[k]
  }

  method Put(buf: array<byte>, at: nat, b: seq<byte>)
    requires at + |b| <= buf.Length
    modifies buf
    ensures Holds(buf[..], at, b) && Kept(old(buf[..]), buf[..], at, |b|)
  {
    forall k | 0 <= k < |b| {
      buf[at + k] := b[k];
    }
  }

  lemma HoldsKept(before: seq<byte>, after: seq<byte>, lo: nat, b: seq<byte>, at: nat, n: nat)
    requires Holds(before, lo, b) && Kept(before, after, at, n) && (lo + |b| <= at || at + n <= lo)
    ensures Holds(after, lo, b)
  {
    forall k | 0 <= k < |b| ensures after[lo + k] == b[k] {
      HoldsAt(before, lo, b, k);
    }
  }

  lemma HoldsJoin(p: seq<byte>, at: nat, a: seq<byte>, b: seq<byte>)
    requires Holds(p, at, a) && Holds(p, at + |a|, b)
    ensures Holds(p, at, a + b)
  {
    forall k | 0 <= k < |a + b| ensures p[at + k] == (a + b)[k] {
      if k < |a| {
        HoldsAt(p, at, a, k);
      } else {
        HoldsAt(p, at + |a|, b, k - |a|);
      }
    }
  }

  lemma RecordBytesAppend(rs: seq<Record>, r: Record)
    ensures RecordBytes(rs + [r]) == RecordBytes(rs) + (Be16(r.start) + Be16(r.extra))
  {
    hide Be16;
    if rs == [] {
      assert rs + [r] == [r];
      assert RecordBytes([]) == [];
    } else {
      assert (rs + [r])[1..] == rs[1..] + [r];
      RecordBytesAppend(rs[1..], r);
    }
  }

  // ----- the records

  /** The closed records and the start of the open one are in the buffer. */
  ghost predicate Open(p: seq<byte>, at: nat, closed: seq<Record>, start: Seq16) {
    Holds(p, at, RecordBytes(closed)) && Holds(p, at + 4 * |closed|, Be16(start))
  }

  /** Writes the extra field of the open record. */
  method Close(buf: array<byte>, at: nat, rec: nat, start: Seq16, extra: Seq16, ghost closed: seq<Record>)
    requires rec == at + 4 * |closed| && rec + 4 <= buf.Length && Open(buf[..], at, closed, start)
    modifies buf
    ensures Holds(buf[..], at, RecordBytes(closed + [Record(start, extra)])) && buf[..at] == old(buf[..at])
  {
    hide Be16, RecordBytes, Holds;
    ghost var before := buf[..];
    Put(buf, rec + 2, Be16(extra));
    HoldsKept(before, buf[..], at, RecordBytes(closed), rec + 2, 2);
    HoldsKept(before, buf[..], rec, Be16(start), rec + 2, 2);
    HoldsJoin(buf[..], rec, Be16(start), Be16(extra));
    HoldsJoin(buf[..], at, RecordBytes(closed), Be16(start) + Be16(extra));
    RecordBytesAppend(closed, Record(start, extra));
  }

  /** Closes the open record and starts the next one with `next`. */
  method Advance(buf: array<byte>, at: nat, rec: nat, start: Seq16, extra: Seq16, next: Seq16,
                 ghost closed: seq<Record>)
    requires rec == at + 4 * |closed| && rec + 8 <= buf.Length && Open(buf[..], at, closed, start)
    modifies buf
    ensures Open(buf[..], at, closed + [Record(start, extra)], next) && buf[..at] == old(buf[..at])
  {
    hide Be16, RecordBytes, Holds;
    Close(buf, at, rec, start, extra, closed);
    ghost var before := buf[..];
    Put(buf, rec + 4, Be16(next));
    HoldsKept(before, buf[..], at, RecordBytes(closed + [Record(start, extra)]), rec + 4, 2);
  }

  method Begin(buf: array<byte>, at: nat, start: Seq16)
    requires at + 2 <= buf.Length
    modifies buf
    ensures Open(buf[..], at, [], start) && buf[..at] == old(buf[..at])
  {
    hide Be16;
    Put(buf, at, Be16(start));
    assert RecordBytes([]) == [];
  }

  /** The records closed so far and those still to come are all the records. */
  ghost predicate Splits(all: seq<Record>, closed: seq<Record>, rest: seq<Record>) { all == closed + rest }

  lemma SplitNext(all: seq<Record>, closed: seq<Record>, r: Record, rest: seq<Record>)
    requires Splits(all, closed, [r] + rest)
    ensures Splits(all, closed + [r], rest)
  {
    assert closed + ([r] + rest) == closed + [r] + rest;
  }

  lemma SplitStart(all: seq<Record>)
    ensures Splits(all, [], all)
  {
  }

  predicate Extends(open: Record, last: Seq16, next: Seq16) { open.extra != 65535 && next as nat == last as nat + 1 }

  /** One number more: it extends the open record or starts another. */
  lemma RangesTurn(all: seq<Record>, closed: seq<Record>, open: Record, last: Seq16, s: seq<Seq16>, i: nat)
    requires i < |s| && Splits(all, closed, RangesFrom(open, last, s[i..]))
    ensures if Extends(open, last, s[i]) then
            Splits(all, closed, RangesFrom(Record(open.start, open.extra + 1), s[i], s[i + 1..]))
            else Splits(all, closed + [open], RangesFrom(Record(s[i], 0), s[i], s[i + 1..]))
  {
    assert s[i..][1..] == s[i + 1..];
    if !Extends(open, last, s[i]) {
      SplitNext(all, closed, open, RangesFrom(Record(s[i], 0), s[i], s[i + 1..]));
    }
  }

  predicate Reaches(open: Record, next: Seq16) { open.start < next && next as nat <= open.start as nat + 16 }

  lemma MasksTurn(all: seq<Record>, closed: seq<Record>, open: Record, s: seq<Seq16>, i: nat)
    requires i < |s| && Splits(all, closed, MasksFrom(open, s[i..]))
    ensures Reaches(open, s[i]) ==> SetBit(open.extra, s[i] - open.start - 1) < 65536
    ensures if Reaches(open, s[i]) then
            Splits(all, closed, MasksFrom(Record(open.start, SetBit(open.extra, s[i] - open.start - 1)), s[i + 1..]))
            else Splits(all, closed + [open], MasksFrom(Record(s[i], 0), s[i + 1..]))
  {
    hide SetBit, Splits;
    assert s[i..][1..] == s[i + 1..];
    if Reaches(open, s[i]) {
      SetBit16(open.extra, s[i] - open.start - 1);
    } else {
      SplitNext(all, closed, open, MasksFrom(Record(s[i], 0), s[i + 1..]));
    }
  }

  /** The range records of `rist_receiver_send_nacks`, from position `at`. */
  method WriteRanges(buf: array<byte>, at: nat, s: seq<Seq16>) returns (count: nat)
    requires s != [] && at + 4 * |s| <= buf.Length
    modifies buf
    ensures count == |Ranges(s)| && Holds(buf[..], at, RecordBytes(Ranges(s))) && buf[..at] == old(buf[..at])
  {
    ghost var all := Ranges(s);
    SplitStart(all);
    AllRanges(s);
    hide *;
    var rec, extra := at, 0;
    var start: nat, last: nat := s[0], s[0];
    Begin(buf, at, start);
    count := 1;
    ghost var closed: seq<Record> := [];
    var i := 1;
    while i < |s|
      invariant 1 <= i <= |s| && count == |closed| + 1 <= i && rec == at + 4 * |closed|
      invariant 0 <= extra < 65536 && start < 65536 && last < 65536
      invariant Open(buf[..], at, closed, start) && buf[..at] == old(buf[..at])
      invariant Splits(all, closed, RangesFrom(Record(start, extra), last, s[i..]))
    {
      var tmp: nat := s[i];
      RangesTurn(all, closed, Record(start, extra), last, s, i);
      if Extends(Record(start, extra), last, tmp) {
        RoomToExtend(Record(start, extra), last, tmp);
        extra := extra + 1;
      } else {
        Advance(buf, at, rec, start, extra, tmp, closed);
        closed := closed + [Record(start, extra)];
        rec, count, start, extra := rec + 4, count + 1, tmp, 0;
      }
      last := tmp;
      i := i + 1;
    }
    LastRange(all, closed, Record(start, extra), last, s[i..]);
    Close(buf, at, rec, start, extra, closed);
  }

  lemma AllRanges(s: seq<Seq16>)
    requires s != []
    ensures Ranges(s) == RangesFrom(Record(s[0], 0), s[0], s[1..])
  {
  }

  lemma RoomToExtend(open: Record, last: Seq16, next: Seq16)
    requires Extends(open, last, next)
    ensures open.extra + 1 < 65536
  {
  }

  lemma LastRange(all: seq<Record>, closed: seq<Record>, open: Record, last: Seq16, rest: seq<Seq16>)
    requires rest == [] && Splits(all, closed, RangesFrom(open, last, rest))
    ensures all == closed + [open]
  {
  }

  lemma AllMasks(s: seq<Seq16>)
    requires s != []
    ensures Masks(s) == MasksFrom(Record(s[0], 0), s[1..])
  {
  }

  lemma LastMask(all: seq<Record>, closed: seq<Record>, open: Record, rest: seq<Seq16>)
    requires rest == [] && Splits(all, closed, MasksFrom(open, rest))
    ensures all == closed + [open]
  {
  }

  /** The bit-mask records, from position `at`. */
  method WriteMasks(buf: array<byte>, at: nat, s: seq<Seq16>) returns (count: nat)
    requires s != [] && at + 4 * |s| <= buf.Length
    modifies buf
    ensures count == |Masks(s)| && Holds(buf[..], at, RecordBytes(Masks(s))) && buf[..at] == old(buf[..at])
  {
    ghost var all := Masks(s);
    SplitStart(all);
    AllMasks(s);
    hide *;
    var rec: nat, last: nat, extra: nat := at, s[0], 0;
    Begin(buf, at, last);
    count := 1;
    ghost var closed: seq<Record> := [];
    var i := 1;
    while i < |s|
      invariant 1 <= i <= |s| && count == |closed| + 1 <= i && rec == at + 4 * |closed| && extra < 65536 && last < 65536
      invariant Open(buf[..], at, closed, last) && buf[..at] == old(buf[..at])
      invariant Splits(all, closed, MasksFrom(Record(last, extra), s[i..]))
    {
      var tmp: nat := s[i];
      MasksTurn(all, closed, Record(last, extra), s, i);
      if Reaches(Record(last, extra), tmp) {
        ReachedBit(Record(last, extra), tmp);
        extra := SetBit(extra, tmp - last - 1);
      } else {
        Advance(buf, at, rec, last, extra, tmp, closed);
        closed := closed + [Record(last, extra)];
        rec, count, extra, last := rec + 4, count + 1, 0, tmp;
      }
      i := i + 1;
    }
    LastMask(all, closed, Record(last, extra), s[i..]);
    Close(buf, at, rec, last, extra, closed);
  }

  lemma ReachedBit(open: Record, next: Seq16)
    requires Reaches(open, next)
    ensures 0 <= next - open.start - 1 < 16
  {
  }

  // ----- the compound packet

  /** A header in three parts; the length may come last. */
  method PutHeader(buf: array<byte>, at: nat, first: seq<byte>, size: nat, tail: seq<byte>)
    requires |first| == 2 && at + 4 + |tail| <= buf.Length
    modifies buf
    ensures Holds(buf[..], at, first + Be16(size) + tail) && buf[..at] == old(buf[..at])
  {
    hide *;
    Put(buf, at, first);
    ghost var p := buf[..];
    BeforeKept(old(buf[..]), p, at, 2);
    Put(buf, at + 4, tail);
    ghost var q := buf[..];
    BeforeKept(p, q, at + 4, |tail|);
    HoldsKept(p, q, at, first, at + 4, |tail|);
    Put(buf, at + 2, Be16(size));
    ghost var r := buf[..];
    BeforeKept(q, r, at + 2, 2);
    HoldsKept(q, r, at, first, at + 2, 2);
    HoldsKept(q, r, at + 4, tail, at + 2, 2);
    HoldsJoin(r, at, first, Be16(size));
    HoldsJoin(r, at, first + Be16(size), tail);
    assert buf[..at] == r[..at] == q[..at] == p[..at];
  }

  lemma BeforeKept(before: seq<byte>, after: seq<byte>, at: nat, n: nat)
    requires Kept(before, after, at, n)
    ensures |after| == |before| && forall k :: 0 <= k <= at && k <= |before| ==> after[..k] == before[..k]
  {
  }

  lemma PrefixHolds(before: seq<byte>, after: seq<byte>, lo: nat, b: seq<byte>, at: nat)
    requires Holds(before, lo, b) && lo + |b| <= at <= |before| && |after| == |before| && after[..at] == before[..at]
    ensures Holds(after, lo, b)
  {
    forall k | 0 <= k < |b| ensures after[lo + k] == b[k] {
      HoldsAt(before, lo, b, k);
      assert after[lo + k] == after[..at][lo + k] == before[..at][lo + k];
    }
  }

  /** `rist_rtcp_write_empty_rr`. */
  method WriteEmptyRr(buf: array<byte>, at: nat, flow: nat) returns (next: nat)
    requires at + 8 <= buf.Length
    modifies buf
    ensures next == at + 8 && Holds(buf[..], at, RrBytes(flow)) && buf[..at] == old(buf[..at])
  {
    hide Holds, Be16, Be32;
    PutHeader(buf, at, [0x80, PTYPE_RR], 1, Be32(flow));
    next := at + 8;
  }

  /** `rist_rtcp_write_sdes`: the name is copied from its buffer with as many of the bytes behind it as
      the padding takes. */
  method WriteSdes(buf: array<byte>, at: nat, cname: seq<byte>, n: nat, flow: nat) returns (next: nat)
    requires n < 256 && SdesSize(n) - 10 <= |cname| && at + SdesSize(n) <= buf.Length
    modifies buf
    ensures next == at + SdesSize(n) && Holds(buf[..], at, SdesBytes(flow, cname, n)) && buf[..at] == old(buf[..at])
  {
    var size := SdesSize(n);
    SdesJoin(flow, cname, n);
    hide *;
    var padding := size - n - 10;
    PutHeader(buf, at, [0x81, PTYPE_SDES], (size - 1) / 4, Be32(flow) + [1, n] + cname[..n + padding]);
    next := at + size;
  }

  lemma SdesJoin(flow: nat, cname: seq<byte>, n: nat)
    requires n < 256 && SdesSize(n) - 10 <= |cname|
    ensures SdesSize(n) >= 11 + n
    ensures SdesBytes(flow, cname, n)
         == [0x81, PTYPE_SDES] + Be16((SdesSize(n) - 1) / 4)
           + (Be32(flow) + [1, n] + cname[..n + (SdesSize(n) - n - 10)])
  {
    hide Be16, Be32;
  }

  /** The request packet: the records first, then the header with their count. */
  method WriteNack(buf: array<byte>, at: nat, flow: nat, range: bool, s: seq<Seq16>) returns (next: nat)
    requires s != [] && at + 12 + 4 * |s| <= buf.Length
    modifies buf
    ensures next == at + |NackBytes(flow, range, s)| <= buf.Length
    ensures Holds(buf[..], at, NackBytes(flow, range, s)) && buf[..at] == old(buf[..at])
  {
    ghost var rs := RecordsOf(s, range);
    NackJoin(flow, range, s);
    RecordsChoice(s, range);
    hide *;
    var count;
    if range {
      count := WriteRanges(buf, at + 12, s);
    } else {
      count := WriteMasks(buf, at + 12, s);
    }
    ghost var p := buf[..];
    assert p[..at] == p[..at + 12][..at] == old(buf[..at + 12])[..at] == old(buf[..at]);
    HeaderWrite(buf, at, flow, range, count);
    assert Kept(p, buf[..], at, 12);
    HoldsKept(p, buf[..], at + 12, RecordBytes(rs), at, 12);
    HoldsJoin(buf[..], at, NackHeader(flow, range, count), RecordBytes(rs));
    BeforeKept(p, buf[..], at, 12);
    next := at + 12 + 4 * count;
  }

  lemma RecordsChoice(s: seq<Seq16>, range: bool)
    requires s != []
    ensures RecordsOf(s, range) == if range then Ranges(s) else Masks(s)
  {
  }

  lemma NackJoin(flow: nat, range: bool, s: seq<Seq16>)
    requires s != []
    ensures var rs := RecordsOf(s, range);
      && NackBytes(flow, range, s) == NackHeader(flow, range, |rs|) + RecordBytes(rs)
      && |NackBytes(flow, range, s)| == 12 + 4 * |rs| <= 12 + 4 * |s|
  {
    hide NackHeader, RecordBytes, RecordsOf;
  }

  method HeaderWrite(buf: array<byte>, at: nat, flow: nat, range: bool, count: nat)
    requires at + 12 <= buf.Length
    modifies buf
    ensures Holds(buf[..], at, NackHeader(flow, range, count)) && Kept(old(buf[..]), buf[..], at, 12)
  {
    hide Be16, Be32;
    Put(buf, at, NackHeader(flow, range, count));
  }

  /** `rist_receiver_send_nacks`, up to the call that sends the buffer. */
  method SendNacks(buf: array<byte>, flow: nat, cname: seq<byte>, n: nat, range: bool, s: seq<Seq16>) returns (len: nat)
    requires n < 256 && SdesSize(n) - 10 <= |cname| && 8 + SdesSize(n) + 12 + 4 * |s| <= buf.Length
    modifies buf
    ensures len <= buf.Length
    ensures buf[..len] == if s == [] then RrBytes(flow) + SdesBytes(flow, cname, n)
            else Compound(flow, cname, n, range, s)
  {
    CompoundIs(flow, cname, n, range, s);
    hide *;
    len := WriteEmptyRr(buf, 0, flow);
    ghost var p, a, b := buf[..], RrBytes(flow), SdesBytes(flow, cname, n);
    len := WriteSdes(buf, len, cname, n, flow);
    ghost var q := buf[..];
    PrefixHolds(p, q, 0, a, 8);
    HoldsJoin(q, 0, a, b);
    if s == [] {
      WholePrefix(q, a + b);
      assert q[..len] == buf[..len];
    } else {
      len := AppendNack(buf, len, flow, range, s, a + b);
    }
  }

  /** The request behind what has been written so far. */
  method AppendNack(buf: array<byte>, at: nat, flow: nat, range: bool, s: seq<Seq16>, ghost front: seq<byte>)
    returns (len: nat)
    requires s != [] && at == |front| && Holds(buf[..], 0, front) && at + 12 + 4 * |s| <= buf.Length
    modifies buf
    ensures len <= buf.Length && buf[..len] == front + NackBytes(flow, range, s)
  {
    hide *;
    ghost var q := buf[..];
    len := WriteNack(buf, at, flow, range, s);
    ghost var r := buf[..];
    assert r[..at] == q[..at];
    PrefixHolds(q, r, 0, front, at);
    HoldsJoin(r, 0, front, NackBytes(flow, range, s));
    WholePrefix(r, front + NackBytes(flow, range, s));
    assert r[..len] == buf[..len];
  }

  lemma CompoundIs(flow: nat, cname: seq<byte>, n: nat, range: bool, s: seq<Seq16>)
    requires n < 256 && SdesSize(n) - 10 <= |cname|
    ensures s != [] ==>
              Compound(flow, cname, n, range, s)
              == RrBytes(flow) + SdesBytes(flow, cname, n) + NackBytes(flow, range, s)
  {
    hide RrBytes, SdesBytes, NackBytes;
  }

  lemma WholePrefix(p: seq<byte>, b: seq<byte>)
    requires Holds(p, 0, b)
    ensures |b| <= |p| && p[..|b|] == b
  {
  }
}
