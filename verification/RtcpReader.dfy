/** The reader of compound RTCP packets: what it does with each packet, how far it reads, and when it
    leaves the buffer or does not come to an end. */
module RtcpReader {
  import opened Bytes
  import opened NackRecords
  import opened Rtcp

  const PTYPE_SR := 200
  const PTYPE_XR := 207
  /** The size of `receiver_name`. */
  const NAME_SIZE := 128

  // ----- fields of the buffer

  /** A byte of the buffer; what lies behind it is not known to be anything. */
  function ByteAt(p: seq<byte>, i: nat): nat { if i < |p| then p[i] else 0 }

  function Field16(p: seq<byte>, i: nat): (v: nat)
    ensures v < 65536
  {
    256 * ByteAt(p, i) + ByteAt(p, i + 1)
  }

  function Field32(p: seq<byte>, i: nat): nat { 65536 * Field16(p, i) + Field16(p, i + 2) }

  /** The size in bytes that a length field stands for, in 16 bits. */
  function SizeOf(words: nat): nat { 4 * (1 + words) % 65536 }

  /** It is zero for one length in 16384. */
  lemma SizeZeroIff(words: nat)
    requires words < 65536
    ensures SizeOf(words) == 0 <==> words % 16384 == 16383
  {
    var q, r := words / 16384, words % 16384;
    assert 4 * (1 + words) == 4 * (1 + r) + 65536 * q;
    assert 4 * (1 + words) % 65536 == 4 * (1 + r) % 65536;
  }

  // ----- what the handlers consult

  /** The sender reports it knows of, the clock, and the settings: whether the time stamp that stands at a
      position leads to a round trip, the source that echoes and reports must name, and whether the offset of
      the RTC mode is still to be set. */
  datatype Peer = Peer(ssrc: nat, offsetUnset: bool, usable: (nat, nat) -> bool)

  /** What earlier packets of the compound have changed: the upper half of the numbers, and whether echoes
      have replaced reports. */
  datatype State = State(msb: nat, echo: bool)

  datatype Kind = SeqExtension | EchoAnswer | EchoQuestion | OtherCustom | Request | Report | Description | SenderReport
    | Extended | Other

  function KindAt(p: seq<byte>, at: nat): Kind
    requires at + 4 <= |p|
  {
    var ptype, subtype := p[at + 1], p[at] % 32;
    if ptype == PTYPE_CUSTOM then
      if subtype == 1 then SeqExtension
      else if subtype == 3 then EchoAnswer
      else if subtype == 2 then EchoQuestion
      else if subtype == 0 then Request
      else OtherCustom
    else if ptype == PTYPE_BITMASK then Request
    else if ptype == PTYPE_RR then Report
    else if ptype == PTYPE_SDES then Description
    else if ptype == PTYPE_SR then SenderReport
    else if ptype == PTYPE_XR then Extended
    else Other
  }

  // ----- the blocks of an extended report

  /** How far the blocks are read, whether the loop over them ends, and where they start. */
  datatype Walk = Walk(extent: nat, endless: bool, blocks: seq<nat>)

  /** What is read of one block: its header, and of a delay block as much as turns out to be of use. */
  function BlockExtent(p: seq<byte>, block: nat, peer: Peer): (n: nat)
    ensures n >= 4
  {
    if ByteAt(p, block) != 5 then 4
    else if Field32(p, block + 4) != peer.ssrc then 8
    else if !peer.usable(block, Field32(p, block + 8)) then 12
    else 16
  }

  /** A delay block of another source, or one that cannot be used, ends the loop. */
  function BlockEnds(p: seq<byte>, block: nat, peer: Peer): bool {
    ByteAt(p, block) == 5 && BlockExtent(p, block, peer) < 16
  }

  function Max(a: nat, b: nat): nat { if a < b then b else a }

  /** The loop of `rist_handle_xr_pkt` from `block`, with `left` bytes to go. */
  function WalkFrom(p: seq<byte>, block: nat, left: int, peer: Peer): Walk
    decreases left
  {
    if left <= 0 then Walk(0, false, [])
    else
      var end, size := block + BlockExtent(p, block, peer), SizeOf(Field16(p, block + 2));
      if end > |p| || BlockEnds(p, block, peer) then Walk(end, false, [block])
      else if size == 0 then Walk(end, true, [block])
      else
        var rest := WalkFrom(p, block + size, left - size, peer);
        Walk(Max(end, rest.extent), rest.endless, [block] + rest.blocks)
  }

  function WalkAt(p: seq<byte>, at: nat, peer: Peer): Walk {
    WalkFrom(p, at + 8, 4 * Field16(p, at + 2) - 4, peer)
  }

  /** The walk ends unless it comes to a block whose length stands for zero bytes. */
  lemma {:induction false} EndlessIff(p: seq<byte>, block: nat, left: int, peer: Peer)
    ensures var w := WalkFrom(p, block, left, peer);
      w.endless <==> exists b: nat :: b in w.blocks && BlockHolds(p, b, peer)
    decreases left
  {
    var w := WalkFrom(p, block, left, peer);
    var end, size := block + BlockExtent(p, block, peer), SizeOf(Field16(p, block + 2));
    SizeZeroIff(Field16(p, block + 2));
    hide SizeOf, Field16, Field32, BlockExtent, BlockEnds;
    if left > 0 {
      if end > |p| || BlockEnds(p, block, peer) || size == 0 {
        assert w.blocks == [block];
        assert block in w.blocks;
      } else {
        var rest := WalkFrom(p, block + size, left - size, peer);
        EndlessIff(p, block + size, left - size, peer);
        assert w.blocks == [block] + rest.blocks;
        if w.endless {
          var b: nat :| b in rest.blocks && BlockHolds(p, b, peer);
          assert b in w.blocks;
        }
        assert !BlockHolds(p, block, peer);
      }
    }
  }

  /** The loop stays at this block: it is inside the buffer, it does not end the loop, and its length field is
      16383 modulo 16384. */
  predicate BlockHolds(p: seq<byte>, block: nat, peer: Peer) {
    block + BlockExtent(p, block, peer) <= |p| && !BlockEnds(p, block, peer) && Field16(p, block + 2) % 16384 == 16383
  }

  // ----- how far a packet is read

  /** The number of records that a request announces. */
  function RecordCount(p: seq<byte>, at: nat): nat { (Field16(p, at + 2) - 2) % 65536 }

  function IsRist(p: seq<byte>, at: nat): bool { at + 12 <= |p| && p[at + 8..at + 12] == RIST }

  /** What `rist_sender_recv_nack` needs: eight bytes by its assertion, which the caller's count makes seven,
      then the name and all records that are announced. */
  function RequestExtent(p: seq<byte>, at: nat): nat
    requires at + 4 <= |p|
  {
    if p[at] / 64 != 2 then 7
    else if p[at + 1] == PTYPE_CUSTOM && !IsRist(p, at) then 12
    else if p[at + 1] != PTYPE_CUSTOM && RecordCount(p, at) == 0 then 7
    else 12 + 4 * RecordCount(p, at)
  }

  /** How many bytes from its start the handling of a packet needs. */
  function Extent(p: seq<byte>, at: nat, st: State, peer: Peer): (n: nat)
    requires at + 4 <= |p|
  {
    match KindAt(p, at)
    case SeqExtension => 14
    case EchoAnswer => if Field32(p, at + 4) != peer.ssrc then 8 else 24
    case EchoQuestion => 20
    case OtherCustom => 4
    case Request => RequestExtent(p, at)
    case Report =>
      if Field16(p, at + 2) != 7 || st.echo then 4 else if peer.usable(at, Field32(p, at + 24)) then 32 else 28
    case Description => if ByteAt(p, at + 9) > |p| - at + 1 then 10 else 10 + ByteAt(p, at + 9)
    case SenderReport => if peer.offsetUnset then 20 else 16
    case Extended => Max(4, if WalkAt(p, at, peer).extent > at then WalkAt(p, at, peer).extent - at else 0)
    case Other => 4
  }

  // ----- the events

  /** What the reader does with one packet of the compound. `Outside` stands for a read past the buffer or a
      failed assertion, `Overrun` for a name that does not fit its array, `Stuck` for a loop without end. */
  datatype Event =
    | Rr | FullRr | Sdes(name: seq<byte>) | Nack(msb: nat, numbers: seq<nat>) | BadNack
    | SeqMsb(msb: nat) | EchoResponse | EchoRequest | UnknownCustom | Sr | Xr | Unknown(ptype: byte)
    | Rejected | Outside | Overrun | Stuck

  function ReadRecords(p: seq<byte>, at: nat, n: nat): (rs: seq<Record>)
    requires at + 4 * n <= |p|
    ensures |rs| == n
    decreases n
  {
    if n == 0 then [] else [Record(U16(p, at), U16(p, at + 2))] + ReadRecords(p, at + 4, n - 1)
  }

  /** `rist_sender_recv_nack`. */
  function NackEvent(p: seq<byte>, at: nat, msb: nat): Event
    requires at + 4 <= |p| && at + RequestExtent(p, at) <= |p|
  {
    var custom := p[at + 1] == PTYPE_CUSTOM;
    if p[at] / 64 != 2 || (custom && !IsRist(p, at)) then BadNack
    else if !custom && RecordCount(p, at) == 0 then Nack(msb, [])
    else
      var rs := ReadRecords(p, at + 12, RecordCount(p, at));
      Nack(msb, if custom then ExpandRanges(rs) else ExpandMasks(rs))
  }

  function SdesEvent(p: seq<byte>, at: nat): Event
    requires at + 10 <= |p|
  {
    var n := ByteAt(p, at + 9);
    if at + 10 + n > |p| then Rejected else if n > NAME_SIZE then Overrun else Sdes(p[at + 10..at + 10 + n])
  }

  /** The switch over packet types. */
  function EventAt(p: seq<byte>, at: nat, st: State, peer: Peer): Event
    requires at + 4 <= |p|
  {
    if at + Extent(p, at, st, peer) > |p| then Outside
    else
      match KindAt(p, at)
      case SeqExtension => SeqMsb(Field16(p, at + 12))
      case EchoAnswer => EchoResponse
      case EchoQuestion => EchoRequest
      case OtherCustom => UnknownCustom
      case Request => NackEvent(p, at, st.msb)
      case Report => if Field16(p, at + 2) == 7 then FullRr else Rr
      case Description => SdesEvent(p, at)
      case SenderReport => Sr
      case Extended => if WalkAt(p, at, peer).endless then Stuck else Xr
      case Other => Unknown(p[at + 1])
  }

  function StateAfter(st: State, e: Event): State {
    match e
    case SeqMsb(msb) => st.(msb := 65536 * msb)
    case EchoResponse => st.(echo := true)
    case EchoRequest => st.(echo := true)
    case _ => st
  }

  predicate Stops(e: Event) { e.Rejected? || e.Outside? || e.Overrun? || e.Stuck? }

  function SizeAt(p: seq<byte>, at: nat): nat { SizeOf(Field16(p, at + 2)) }

  /** `rist_recv_rtcp` from position `at`: the count of the bytes left is one too large. */
  function ParseFrom(p: seq<byte>, at: nat, st: State, peer: Peer): seq<Event>
    decreases |p| - at
  {
    if at >= |p| then []
    else if |p| - at + 1 < 4 then [Rejected]
    else if at + 4 > |p| then [Outside]
    else if SizeAt(p, at) > |p| - at + 1 then [Rejected]
    else
      var e := EventAt(p, at, st, peer);
      if Stops(e) then [e]
      else if SizeAt(p, at) == 0 then [e, Stuck]
      else [e] + ParseFrom(p, at + SizeAt(p, at), StateAfter(st, e), peer)
  }

  // ----- when the reader leaves the buffer, and when it does not end

  /** A position where the reader looks at a packet, with what it knows there. */
  datatype Visit = Visit(at: nat, st: State)

  /** The positions visited, including one where only part of a header is left. */
  function Visits(p: seq<byte>, at: nat, st: State, peer: Peer): seq<Visit>
    decreases |p| - at
  {
    if at >= |p| || |p| - at + 1 < 4 then []
    else if at + 4 > |p| || SizeAt(p, at) > |p| - at + 1 then [Visit(at, st)]
    else
      var e := EventAt(p, at, st, peer);
      if Stops(e) || SizeAt(p, at) == 0 then [Visit(at, st)]
      else [Visit(at, st)] + Visits(p, at + SizeAt(p, at), StateAfter(st, e), peer)
  }

  /** The bytes needed at a visited position: those of the header, and unless it announces more than is left,
      those of the packet. */
  function Needs(p: seq<byte>, v: Visit, peer: Peer): nat {
    if v.at + 4 > |p| || SizeAt(p, v.at) > |p| - v.at + 1 then 4 else Extent(p, v.at, v.st, peer)
  }

  /** The reader stays at this packet: it has handled it and its length field is 16383 modulo 16384, or a block of
      an extended report holds it. */
  predicate StaysAt(p: seq<byte>, v: Visit, peer: Peer) {
    && v.at + 4 <= |p| && SizeAt(p, v.at) <= |p| - v.at + 1 && v.at + Extent(p, v.at, v.st, peer) <= |p|
    && ((KindAt(p, v.at) == Extended && WalkAt(p, v.at, peer).endless)
        || (Field16(p, v.at + 2) % 16384 == 16383 && !Stops(EventAt(p, v.at, v.st, peer))))
  }

  /** A name longer than its array is copied. */
  predicate Overruns(p: seq<byte>, v: Visit, peer: Peer) {
    && v.at + 4 <= |p| && SizeAt(p, v.at) <= |p| - v.at + 1 && v.at + Extent(p, v.at, v.st, peer) <= |p|
    && KindAt(p, v.at) == Description && NAME_SIZE < ByteAt(p, v.at + 9) && v.at + 10 + ByteAt(p, v.at + 9) <= |p|
  }

  lemma RequestGoesOn(p: seq<byte>, at: nat, msb: nat)
    requires at + 4 <= |p| && at + RequestExtent(p, at) <= |p|
    ensures !Stops(NackEvent(p, at, msb))
  {
  }

  /** One visit: what it leads to, in terms of the header fields. */
  lemma VisitEvent(p: seq<byte>, v: Visit, peer: Peer)
    requires v.at + 4 <= |p| && SizeAt(p, v.at) <= |p| - v.at + 1
    ensures var e := EventAt(p, v.at, v.st, peer);
      && (e.Outside? <==> v.at + Needs(p, v, peer) > |p|)
      && (e.Overrun? <==> Overruns(p, v, peer))
      && (e.Stuck? || (!Stops(e) && SizeAt(p, v.at) == 0) <==> StaysAt(p, v, peer))
  {
    SizeZeroIff(Field16(p, v.at + 2));
    hide SizeOf, Field16, Field32, WalkAt, RequestExtent, NackEvent;
    if v.at + Extent(p, v.at, v.st, peer) <= |p| && KindAt(p, v.at) == Request {
      RequestGoesOn(p, v.at, v.st.msb);
    }
  }

  /** The reader leaves the buffer if and only if a packet that it visits needs more bytes than there are, writes
      past the name if and only if it visits a description with a longer one, and does not come to an end if and
      only if it stays at a packet or at a block of one. */
  lemma {:induction false} ReaderIff(p: seq<byte>, at: nat, st: State, peer: Peer)
    ensures var es, vs := ParseFrom(p, at, st, peer), Visits(p, at, st, peer);
      && (Outside in es <==> exists v :: v in vs && v.at + Needs(p, v, peer) > |p|)
      && (Overrun in es <==> exists v :: v in vs && Overruns(p, v, peer))
      && (Stuck in es <==> exists v :: v in vs && StaysAt(p, v, peer))
    decreases |p| - at
  {
    if at < |p| && |p| - at + 1 >= 4 {
      if at + 4 > |p| || SizeAt(p, at) > |p| - at + 1 || Stops(EventAt(p, at, st, peer)) || SizeAt(p, at) == 0 {
        LastVisit(p, at, st, peer);
      } else {
        var e := EventAt(p, at, st, peer);
        ReaderIff(p, at + SizeAt(p, at), StateAfter(st, e), peer);
        OneVisit(p, at, st, peer);
        hide *;
        VisitsJoin(p, Visit(at, st), Visits(p, at + SizeAt(p, at), StateAfter(st, e), peer), peer);
      }
    }
  }

  lemma LastVisit(p: seq<byte>, at: nat, st: State, peer: Peer)
    requires at < |p| && |p| - at + 1 >= 4
    requires at + 4 > |p| || SizeAt(p, at) > |p| - at + 1 || Stops(EventAt(p, at, st, peer)) || SizeAt(p, at) == 0
    ensures var v, es := Visit(at, st), ParseFrom(p, at, st, peer);
      && Visits(p, at, st, peer) == [v] && v in [v] && (Outside in es <==> at + Needs(p, v, peer) > |p|)
      && (Overrun in es <==> Overruns(p, v, peer)) && (Stuck in es <==> StaysAt(p, v, peer))
  {
    if at + 4 <= |p| && SizeAt(p, at) <= |p| - at + 1 {
      VisitEvent(p, Visit(at, st), peer);
      hide EventAt, StaysAt, Overruns, Needs, SizeAt;
    }
  }

  lemma OneVisit(p: seq<byte>, at: nat, st: State, peer: Peer)
    requires at + 4 <= |p| && SizeAt(p, at) <= |p| - at + 1
    requires !Stops(EventAt(p, at, st, peer)) && SizeAt(p, at) != 0
    ensures var v, e, next := Visit(at, st), EventAt(p, at, st, peer), at + SizeAt(p, at);
      var es, rest := ParseFrom(p, at, st, peer), ParseFrom(p, next, StateAfter(st, e), peer);
      && Visits(p, at, st, peer) == [v] + Visits(p, next, StateAfter(st, e), peer)
      && (Outside in es <==> Outside in rest || at + Needs(p, v, peer) > |p|)
      && (Overrun in es <==> Overrun in rest || Overruns(p, v, peer))
      && (Stuck in es <==> Stuck in rest || StaysAt(p, v, peer))
  {
    VisitEvent(p, Visit(at, st), peer);
    hide EventAt, StaysAt, Overruns, Needs, SizeAt;
  }

  lemma VisitsJoin(p: seq<byte>, v: Visit, later: seq<Visit>, peer: Peer)
    ensures (exists w :: w in [v] + later && w.at + Needs(p, w, peer) > |p|)
            <==> v.at + Needs(p, v, peer) > |p| || exists w :: w in later && w.at + Needs(p, w, peer) > |p|
    ensures (exists w :: w in [v] + later && Overruns(p, w, peer))
            <==> Overruns(p, v, peer) || exists w :: w in later && Overruns(p, w, peer)
    ensures (exists w :: w in [v] + later && StaysAt(p, w, peer))
            <==> StaysAt(p, v, peer) || exists w :: w in later && StaysAt(p, w, peer)
  {
    hide Needs, Overruns, StaysAt;
    assert v in [v] + later;
    assert forall w :: w in later ==> w in [v] + later;
  }

  /** Packets that are as long as their type needs and end inside the buffer are read inside it. */
  lemma FittingStaysInside(p: seq<byte>, at: nat, st: State, peer: Peer)
    requires forall v :: v in Visits(p, at, st, peer) ==>
               v.at + 4 <= |p| && Extent(p, v.at, v.st, peer) <= SizeAt(p, v.at) && v.at + SizeAt(p, v.at) <= |p|
    ensures Outside !in ParseFrom(p, at, st, peer)
  {
    hide SizeAt, Extent;
    ReaderIff(p, at, st, peer);
  }

  // ----- inputs for which it does

  /** A report whose length field is 16383. */
  lemma StuckInput(st: State, peer: Peer)
    ensures ParseFrom([0x80, PTYPE_RR, 0x3f, 0xff], 0, st, peer) == [Rr, Stuck]
  {
  }

  /** Three bytes are taken for four. */
  lemma HeaderOutside(st: State, peer: Peer)
    ensures ParseFrom([0x80, PTYPE_RR, 0], 0, st, peer) == [Outside]
  {
  }

  /** An extension packet of one word: the number is behind it. */
  lemma ExtensionOutside(st: State, peer: Peer)
    ensures ParseFrom([0x81, PTYPE_CUSTOM, 0, 0], 0, st, peer) == [Outside]
  {
  }

  /** A name of 129 bytes. */
  lemma NameOverruns(st: State, peer: Peer)
    ensures ParseFrom([0x81, PTYPE_SDES, 0, 34, 0, 0, 0, 0, 1, 129] + seq(130, _ => 0), 0, st, peer) == [Overrun]
  {
  }

  /** An extended report with a block whose length field is 65535. */
  lemma BlockStuck(st: State, peer: Peer)
    ensures ParseFrom([0x80, PTYPE_XR, 0, 2, 0, 0, 0, 0, 4, 0, 0xff, 0xff], 0, st, peer) == [Stuck]
  {
    var p := [0x80, PTYPE_XR, 0, 2, 0, 0, 0, 0, 4, 0, 0xff, 0xff];
    assert WalkFrom(p, 8, 4, peer) == Walk(12, true, [8]);
  }

  // ----- reading what was written

  lemma FieldsAgree(p: seq<byte>, i: nat)
    requires i + 2 <= |p|
    ensures Field16(p, i) == U16(p, i)
  {
  }

  /** An ordinary packet of `size` bytes. */
  lemma PacketStep(p: seq<byte>, at: nat, st: State, peer: Peer, size: nat, e: Event)
    requires at + size <= |p| && 4 <= size < 65536 && size == 4 * (1 + U16(p, at + 2))
    requires EventAt(p, at, st, peer) == e && !Stops(e) && StateAfter(st, e) == st
    ensures ParseFrom(p, at, st, peer) == [e] + ParseFrom(p, at + size, st, peer)
  {
    SizeIs(p, at, size);
    hide EventAt, Stops, StateAfter, SizeAt, U16;
  }

  lemma SizeIs(p: seq<byte>, at: nat, size: nat)
    requires at + 4 <= |p| && 4 <= size < 65536 && size == 4 * (1 + U16(p, at + 2))
    ensures SizeAt(p, at) == size
  {
    FieldsAgree(p, at + 2);
    hide U16, Field16;
  }

  lemma RrParsed(p: seq<byte>, at: nat, flow: nat, st: State, peer: Peer)
    requires Holds(p, at, RrBytes(flow))
    ensures ParseFrom(p, at, st, peer) == [Rr] + ParseFrom(p, at + 8, st, peer)
  {
    hide ParseFrom, NackEvent, SdesEvent, WalkAt, RequestExtent;
    var b := RrBytes(flow);
    HoldsSize(p, at, b);
    RrFields(flow);
    hide Holds;
    HoldsAt(p, at, b, 0);
    HoldsAt(p, at, b, 1);
    HoldsU16(p, at, b, 2);
    FieldsAgree(p, at + 2);
    hide RrBytes, U16, Field16, Field32;
    PacketStep(p, at, st, peer, 8, Rr);
  }

  lemma RrFields(flow: nat)
    ensures var b := RrBytes(flow); b[0] == 0x80 && b[1] == PTYPE_RR && U16(b, 2) == 1
  {
  }

  /** A written description, of any padding; a name longer than the reader's array overruns it. */
  lemma SdesParsed(p: seq<byte>, at: nat, flow: nat, cname: seq<byte>, n: nat, st: State, peer: Peer)
    requires n < 256 && SdesSize(n) - 10 <= |cname| && Holds(p, at, SdesBytes(flow, cname, n))
    ensures ParseFrom(p, at, st, peer)
         == if n <= NAME_SIZE then [Sdes(cname[..n])] + ParseFrom(p, at + SdesSize(n), st, peer) else [Overrun]
  {
    hide ParseFrom, NackEvent, WalkAt, RequestExtent;
    var b := SdesBytes(flow, cname, n);
    HoldsSize(p, at, b);
    SdesLength(flow, cname, n);
    HoldsSlice(p, at, b, 10, 10 + n);
    hide SdesBytes, SdesSize;
    HoldsAt(p, at, b, 0);
    HoldsAt(p, at, b, 1);
    HoldsU16(p, at, b, 2);
    HoldsAt(p, at, b, 9);
    FieldsAgree(p, at + 2);
    hide Holds, U16, Field16, Field32;
    if n <= NAME_SIZE {
      PacketStep(p, at, st, peer, SdesSize(n), Sdes(cname[..n]));
    } else {
      StopStep(p, at, st, peer, SdesSize(n), Overrun);
    }
  }

  lemma StopStep(p: seq<byte>, at: nat, st: State, peer: Peer, size: nat, e: Event)
    requires at + size <= |p| && 4 <= size < 65536 && size == 4 * (1 + U16(p, at + 2))
    requires EventAt(p, at, st, peer) == e && Stops(e)
    ensures ParseFrom(p, at, st, peer) == [e]
  {
    SizeIs(p, at, size);
    hide EventAt, Stops, SizeAt, U16;
  }

  lemma SdesLength(flow: nat, cname: seq<byte>, n: nat)
    requires n < 256 && SdesSize(n) - 10 <= |cname|
    ensures var b := SdesBytes(flow, cname, n);
      && 4 * (1 + U16(b, 2)) == SdesSize(n) && 11 + n <= SdesSize(n) < 65536
      && b[0] == 0x81 && b[1] == PTYPE_SDES && b[9] == n && b[10..10 + n] == cname[..n]
  {
    U16Be16((SdesSize(n) - 1) / 4);
  }

  lemma NoRecords(p: seq<byte>, at: nat)
    ensures at <= |p| ==> ReadRecords(p, at, 0) == []
  {
  }

  lemma FirstRecord(p: seq<byte>, at: nat, rs: seq<Record>)
    requires rs != [] && Holds(p, at, RecordBytes(rs))
    ensures RecordBytes(rs) == Be16(rs[0].start) + Be16(rs[0].extra) + RecordBytes(rs[1..])
    ensures at + 4 * |rs| <= |p|
    ensures ReadRecords(p, at, |rs|) == [Record(U16(p, at), U16(p, at + 2))] + ReadRecords(p, at + 4, |rs| - 1)
  {
    hide Be16, U16;
  }

  /** The records are read back as they were written. */
  lemma {:induction false} RecordsReadBack(p: seq<byte>, at: nat, rs: seq<Record>)
    requires Holds(p, at, RecordBytes(rs))
    ensures ReadRecords(p, at, |rs|) == rs
    decreases |rs|
  {
    hide *;
    if rs == [] {
      NoRecords(p, at);
    } else {
      var a, b, rest := Be16(rs[0].start), Be16(rs[0].extra), RecordBytes(rs[1..]);
      FirstRecord(p, at, rs);
      HoldsPart(p, at, a + b, rest);
      HoldsPart(p, at, a, b);
      HoldsSize(p, at + 2, b);
      HoldsU16(p, at, a, 0);
      HoldsU16(p, at + 2, b, 0);
      U16Be16(rs[0].start);
      U16Be16(rs[0].extra);
      RecordsReadBack(p, at + 4, rs[1..]);
      assert rs == [rs[0]] + rs[1..];
    }
  }

  lemma HeaderFields(p: seq<byte>, at: nat, flow: nat, range: bool, n: nat)
    requires n <= 200 && Holds(p, at, NackHeader(flow, range, n))
    ensures p[at] == (if range then 0x80 else 0x81) && p[at + 1] == (if range then PTYPE_CUSTOM else PTYPE_BITMASK)
    ensures U16(p, at + 2) == 2 + n && (range ==> p[at + 8..at + 12] == RIST)
  {
    var b := NackHeader(flow, range, n);
    HoldsAt(p, at, b, 0);
    HoldsAt(p, at, b, 1);
    HoldsU16(p, at, b, 2);
    U16Be16(2 + n);
    HeaderLength(flow, range, n);
    HoldsSlice(p, at, b, 8, 12);
  }

  lemma HeaderLength(flow: nat, range: bool, n: nat)
    requires n <= 200
    ensures U16(NackHeader(flow, range, n), 2) == 2 + n && (range ==> NackHeader(flow, range, n)[8..12] == RIST)
  {
    U16Be16(2 + n);
  }

  function Numbers(s: seq<Seq16>, range: bool): seq<nat>
    requires s != []
  {
    if range then s else ExpandMasks(Masks(s))
  }

  lemma RequestIs(p: seq<byte>, at: nat, flow: nat, range: bool, s: seq<Seq16>, st: State, peer: Peer)
    requires 1 <= |s| <= 200 && Holds(p, at, NackBytes(flow, range, s))
    ensures at + 12 + 4 * |RecordsOf(s, range)| <= |p| && U16(p, at + 2) == 2 + |RecordsOf(s, range)|
    ensures EventAt(p, at, st, peer) == Nack(st.msb, Numbers(s, range))
  {
    hide Holds, NackHeader, RecordBytes, Ranges, Masks, U16, ExpandRanges, ExpandMasks, EventAt;
    var rs := RecordsOf(s, range);
    HoldsPart(p, at, NackHeader(flow, range, |rs|), RecordBytes(rs));
    HoldsSize(p, at, NackBytes(flow, range, s));
    HeaderFields(p, at, flow, range, |rs|);
    RecordsReadBack(p, at + 12, rs);
    WellFormedRequest(p, at, st, peer, range, rs);
    if range {
      RangesRoundTrip(s);
    }
  }

  lemma WellFormedRequest(p: seq<byte>, at: nat, st: State, peer: Peer, range: bool, rs: seq<Record>)
    requires 1 <= |rs| <= 200 && at + 12 + 4 * |rs| <= |p| && U16(p, at + 2) == 2 + |rs|
             && ReadRecords(p, at + 12, |rs|) == rs
    requires p[at] == (if range then 0x80 else 0x81) && p[at + 1] == (if range then PTYPE_CUSTOM else PTYPE_BITMASK)
    requires range ==> p[at + 8..at + 12] == RIST
    ensures EventAt(p, at, st, peer) == Nack(st.msb, if range then ExpandRanges(rs) else ExpandMasks(rs))
  {
    FieldsAgree(p, at + 2);
    assert RecordCount(p, at) == |rs|;
    hide RecordCount, U16, Field16, Field32, ReadRecords, ExpandRanges, ExpandMasks, WalkAt, SdesEvent;
    assert KindAt(p, at) == Request;
    assert RequestExtent(p, at) == 12 + 4 * |rs|;
    hide KindAt;
    assert NackEvent(p, at, st.msb) == Nack(st.msb, if range then ExpandRanges(rs) else ExpandMasks(rs));
    hide NackEvent, RequestExtent, IsRist;
  }

  lemma NackParsed(p: seq<byte>, at: nat, flow: nat, range: bool, s: seq<Seq16>, st: State, peer: Peer)
    requires 1 <= |s| <= 200 && Holds(p, at, NackBytes(flow, range, s))
    ensures ParseFrom(p, at, st, peer)
         == [Nack(st.msb, Numbers(s, range))] + ParseFrom(p, at + |NackBytes(flow, range, s)|, st, peer)
  {
    hide Holds, NackHeader, RecordBytes, RecordsOf, U16, EventAt, Numbers, ParseFrom;
    RequestIs(p, at, flow, range, s, st, peer);
    PacketStep(p, at, st, peer, 12 + 4 * |RecordsOf(s, range)|, Nack(st.msb, Numbers(s, range)));
  }

  /** Reading the compound visits exactly the three packets, consumes everything, and finds the list in
      the range form and its set in the mask form; with a name that does not fit, it overruns the name. */
  lemma CompoundRoundTrip(flow: nat, cname: seq<byte>, n: nat, range: bool, s: seq<Seq16>, echo: bool, peer: Peer)
    requires n < 256 && SdesSize(n) - 10 <= |cname| && 1 <= |s| <= 200
    ensures ParseFrom(Compound(flow, cname, n, range, s), 0, State(0, echo), peer)
         == if n <= NAME_SIZE then [Rr, Sdes(cname[..n]), Nack(0, Numbers(s, range))] else [Rr, Overrun]
    ensures forall x: nat :: x in Numbers(s, range) <==> x in s
  {
    hide *;
    var p, st := Compound(flow, cname, n, range, s), State(0, echo);
    CompoundHolds(flow, cname, n, range, s);
    RrParsed(p, 0, flow, st, peer);
    SdesParsed(p, 8, flow, cname, n, st, peer);
    NackParsed(p, 8 + SdesSize(n), flow, range, s, st, peer);
    NothingLeft(p, |p|, st, peer);
    forall x: nat ensures x in Numbers(s, range) <==> x in s {
      NumbersAreSet(s, range, x);
    }
  }

  lemma CompoundHolds(flow: nat, cname: seq<byte>, n: nat, range: bool, s: seq<Seq16>)
    requires n < 256 && SdesSize(n) - 10 <= |cname| && s != []
    ensures var p := Compound(flow, cname, n, range, s);
      && Holds(p, 0, RrBytes(flow)) && Holds(p, 8, SdesBytes(flow, cname, n))
        && Holds(p, 8 + SdesSize(n), NackBytes(flow, range, s))
      && |p| == 8 + SdesSize(n) + |NackBytes(flow, range, s)|
  {
    hide RrBytes, SdesBytes, NackBytes, SdesSize;
    var a, b, c := RrBytes(flow), SdesBytes(flow, cname, n), NackBytes(flow, range, s);
    var p := a + b + c;
    assert p == p[0..0 + |p|];
    HoldsPart(p, 0, a + b, c);
    HoldsPart(p, 0, a, b);
  }

  lemma NothingLeft(p: seq<byte>, at: nat, st: State, peer: Peer)
    requires at >= |p|
    ensures ParseFrom(p, at, st, peer) == []
  {
  }

  lemma NumbersAreSet(s: seq<Seq16>, range: bool, x: nat)
    requires s != []
    ensures x in Numbers(s, range) <==> x in s
  {
    hide Masks, ExpandMasks;
    if !range {
      MasksRoundTrip(s, x);
    }
  }

  // ----- the reader's loops

  /** The loop over the blocks of an extended report. */
  method WalkBlocks(p: seq<byte>, at: nat, peer: Peer) returns (extent: nat, endless: bool)
    ensures extent == WalkAt(p, at, peer).extent && endless == WalkAt(p, at, peer).endless
  {
    ghost var all := WalkAt(p, at, peer);
    hide BlockExtent, BlockEnds, SizeOf, Field16, ByteAt;
    var offset, left: int := at + 8, 4 * Field16(p, at + 2) - 4;
    extent, endless := 0, false;
    while left > 0
      invariant offset >= 0 && !endless
      invariant var rest := WalkFrom(p, offset, left, peer);
                all.extent == Max(extent, rest.extent) && all.endless == rest.endless
      decreases left
    {
      var end := offset + BlockExtent(p, offset, peer);
      extent := Max(extent, end);
      if end > |p| || BlockEnds(p, offset, peer) {
        return;
      }
      var size := SizeOf(Field16(p, offset + 2));
      if size == 0 {
        endless := true;
        return;
      }
      offset, left := offset + size, left - size;
    }
  }

  ghost predicate Read(all: seq<Event>, done: seq<Event>, rest: seq<Event>) { all == done + rest }

  lemma ReadMore(all: seq<Event>, done: seq<Event>, es: seq<Event>, rest: seq<Event>)
    requires Read(all, done, es + rest)
    ensures Read(all, done + es, rest)
  {
    assert done + (es + rest) == done + es + rest;
  }

  /** One turn of the reader, as the specification unfolds. */
  lemma ParseUnfold(p: seq<byte>, at: nat, st: State, peer: Peer)
    ensures ParseFrom(p, at, st, peer)
         == if at >= |p| then []
            else if |p| - at + 1 < 4 then [Rejected]
            else if at + 4 > |p| then [Outside]
            else if SizeAt(p, at) > |p| - at + 1 then [Rejected]
            else
              var e := EventAt(p, at, st, peer);
              if Stops(e) then [e]
              else if SizeAt(p, at) == 0 then [e, Stuck]
              else [e] + ParseFrom(p, at + SizeAt(p, at), StateAfter(st, e), peer)
  {
    hide EventAt, SizeAt, StateAfter, Stops;
  }

  /** `rist_recv_rtcp`: every packet of the compound in turn, until one is malformed. */
  method RecvRtcp(p: seq<byte>, echo: bool, peer: Peer) returns (events: seq<Event>)
    ensures events == ParseFrom(p, 0, State(0, echo), peer)
  {
    hide *;
    ghost var all := ParseFrom(p, 0, State(0, echo), peer);
    events := [];
    ReadStart(all);
    var processed, st := 0, State(0, echo);
    while processed < |p|
      invariant 0 <= processed
      invariant Read(all, events, ParseFrom(p, processed, st, peer))
      decreases |p| - processed
    {
      ParseUnfold(p, processed, st, peer);
      var bytesLeft := |p| - processed + 1;
      if bytesLeft < 4 {
        ReadEnd(all, events, [Rejected]);
        return events + [Rejected];
      }
      if processed + 4 > |p| {
        ReadEnd(all, events, [Outside]);
        return events + [Outside];
      }
      var bytes := SizeAt(p, processed);
      if bytes > bytesLeft {
        ReadEnd(all, events, [Rejected]);
        return events + [Rejected];
      }
      var e := EventAt(p, processed, st, peer);
      if Stops(e) {
        ReadEnd(all, events, [e]);
        return events + [e];
      }
      if bytes == 0 {
        ReadEnd(all, events, [e, Stuck]);
        return events + [e, Stuck];
      }
      var st' := StateAfter(st, e);
      ReadMore(all, events, [e], ParseFrom(p, processed + bytes, st', peer));
      events := events + [e];
      processed, st := processed + bytes, st';
    }
    ParseUnfold(p, processed, st, peer);
    ReadEnd(all, events, []);
    assert events + [] == events;
  }

  lemma ReadStart(all: seq<Event>)
    ensures Read(all, [], all)
  {
  }

  lemma ReadEnd(all: seq<Event>, done: seq<Event>, last: seq<Event>)
    requires Read(all, done, last)
    ensures done + last == all
  {
  }
}
