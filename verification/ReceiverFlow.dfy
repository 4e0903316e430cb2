/** The receiver's flow: storing packets by number, and handing them out in order. */
module ReceiverFlow {
  import opened ReceiverQueue
  import M = MissingList

  const UINT32 := 0x1_0000_0000

  /** A block handed to the application, with its two gap flags. */
  datatype Block = Block(packet: Packet, discontinuity: bool, bufferStart: bool)

  /** Every block without a flag continues its predecessor. */
  ghost predicate Labelled(bs: seq<Block>) {
    forall i :: 0 <= i < |bs| ==>
      bs[i].discontinuity || bs[i].bufferStart
      || (i > 0 && bs[i].packet.seqNr == Next(bs[i - 1].packet.seqNr))
  }

  datatype Stats = Stats(droppedLate: nat, droppedFull: nat, received: nat, dupes: nat, reordered: nat, lost: nat)

  /** What becomes of a packet on arrival. */
  datatype Kind = Ignored | First | Late | Full | Dupe | Stored

  predicate ClearedUpTo(q: seq<Option<Packet>>, from: Seq16, n: nat) {
    |q| == QUEUE_MAX && forall i: Seq16 :: Ahead(from, i) < n ==> q[i].None?
  }

  /** Nothing but slot `i` is occupied. */
  predicate Alone(q: seq<Option<Packet>>, i: Seq16) {
    forall k :: 0 <= k < |q| ==> k != i ==> q[k].None?
  }

  function At(from: Seq16, n: nat): Seq16 { (from + n) % 65536 }

  lemma StartCleared(q: Ring, from: Seq16)
    ensures ClearedUpTo(q, from, 0) && At(from, 0) == from
  {
  }

  /** Somewhere at or after slot `i`, in ring order from `start`, a packet with bytes is stored. */
  ghost predicate BytesFrom(q: Ring, start: Seq16, i: Seq16) {
    exists j: Seq16 :: Ahead(start, i) <= Ahead(start, j) && SizeOf(q[j]) > 0
  }

  /** Going round from `start` until the count is zero: with a surplus everything is cleared, otherwise
      everything up to the last packet with bytes. */
  ghost predicate Emptied(before: Ring, start: Seq16, excess: int, after: seq<Option<Packet>>) {
    && |after| == QUEUE_MAX
    && forall i: Seq16 :: after[i] == if excess > 0 || BytesFrom(before, start, i) then None else before[i]
  }

  /** The first `n` slots from `start` are cleared, and that was due; the others are as before. */
  ghost predicate Emptying(before: Ring, start: Seq16, excess: int, q: seq<Option<Packet>>, n: nat) {
    && |q| == QUEUE_MAX
    && (forall i: Seq16 :: q[i] == if Ahead(start, i) < n then None else before[i])
    && (excess > 0 || forall i: Seq16 :: Ahead(start, i) < n ==> BytesFrom(before, start, i))
  }

  lemma EmptyingStart(q: Ring, start: Seq16, excess: int)
    ensures Emptying(q, start, excess, q, 0) && At(start, 0) == start
  {
  }

  lemma EmptyingStep(before: Ring, start: Seq16, excess: int, q: Ring, n: nat)
    requires n < QUEUE_MAX && Emptying(before, start, excess, q, n)
    requires excess > 0 || Bytes(q) > 0
    ensures Emptying(before, start, excess, q[At(start, n) := None], n + 1)
    ensures q[At(start, n)].None? ==> Emptying(before, start, excess, q, n + 1)
  {
    AheadAt(start, n);
    if excess <= 0 {
      var j := SomeBytes(q);
      hide Bytes;
      forall i: Seq16 | Ahead(start, i) < n + 1 ensures BytesFrom(before, start, i) {
        assert Ahead(start, i) <= Ahead(start, j) && SizeOf(before[j]) > 0;
      }
    }
    hide Bytes, BytesFrom;
    forall i: Seq16 ensures q[At(start, n) := None][i] == if Ahead(start, i) < n + 1 then None else before[i] {
      SameAhead(start, i, At(start, n));
    }
  }

  /** The ring after a restart: emptied, with the first packet in its slot. */
  ghost predicate Restarted(before: Ring, start: Seq16, excess: int, p: Packet, after: seq<Option<Packet>>) {
    && |after| == QUEUE_MAX && after[p.seqNr] == Some(p)
    && forall i: Seq16 :: i != p.seqNr ==> after[i] == if excess > 0 || BytesFrom(before, start, i) then None
      else before[i]
  }

  lemma RestartedWith(before: Ring, start: Seq16, excess: int, p: Packet, q: seq<Option<Packet>>)
    requires Emptied(before, start, excess, q)
    ensures |q| == QUEUE_MAX && Restarted(before, start, excess, p, q[p.seqNr := Some(p)])
  {
  }

  lemma NothingToEmpty(q: Ring, start: Seq16)
    requires Bytes(q) == 0
    ensures Emptied(q, start, 0, q)
  {
    forall i: Seq16 ensures !BytesFrom(q, start, i) {
      forall j: Seq16 ensures SizeOf(q[j]) == 0 {
        BytesAtLeast(q, j);
      }
    }
  }

  /** After a restart the slot behind the new output index is empty, unless the emptying left a packet there:
      one without bytes, past the last packet with bytes, while the byte count had no surplus. */
  lemma BehindRestart(before: Ring, start: Seq16, excess: int, p: Packet, after: Ring)
    requires Restarted(before, start, excess, p, after)
    ensures after[Previous(p.seqNr)].None? <==>
              before[Previous(p.seqNr)].None? || excess > 0 || BytesFrom(before, start, Previous(p.seqNr))
    ensures NoneZero(before) && Bytes(before) + excess >= 0 && p.size > 0 ==> Alone(after, p.seqNr) && NoneZero(after)
  {
    hide Bytes;
    if NoneZero(before) {
      forall i: Seq16 | i != p.seqNr ensures after[i].None? {
        assert before[i].Some? ==> Ahead(start, i) <= Ahead(start, i) && SizeOf(before[i]) > 0;
      }
    }
  }

  lemma SameAhead(start: Seq16, i: Seq16, j: Seq16)
    ensures Ahead(start, i) == Ahead(start, j) <==> i == j
  {
  }

  lemma EmptyingEnd(before: Ring, start: Seq16, excess: int, q: seq<Option<Packet>>, n: nat)
    requires Emptying(before, start, excess, q, n)
    requires n == QUEUE_MAX || (excess == 0 && Bytes(q) == 0)
    ensures Emptied(before, start, excess, q)
  {
    forall i: Seq16 ensures q[i] == if excess > 0 || BytesFrom(before, start, i) then None else before[i] {
      if n < QUEUE_MAX && n <= Ahead(start, i) && BytesFrom(before, start, i) {
        var j: Seq16 :| Ahead(start, i) <= Ahead(start, j) && SizeOf(before[j]) > 0;
        BytesAtLeast(q, j);
        assert false;
      }
    }
  }

  lemma EmptyingAll(before: Ring, start: Seq16, excess: int, q: seq<Option<Packet>>, n: nat)
    requires n == QUEUE_MAX && Emptying(before, start, excess, q, n)
    ensures AllEmpty(q)
  {
    forall i | 0 <= i < |q| ensures q[i].None? {
      assert Ahead(start, i) < n;
    }
  }

  lemma ClearNext(q: seq<Option<Packet>>, from: Seq16, n: nat)
    requires ClearedUpTo(q, from, n) && n < QUEUE_MAX
    ensures ClearedUpTo(q[At(from, n) := None], from, n + 1)
    ensures q[At(from, n)].None? ==> ClearedUpTo(q, from, n + 1)
  {
    forall i: Seq16 | Ahead(from, i) == n ensures i == At(from, n) {
    }
  }

  lemma AtNext(from: Seq16, n: nat)
    requires n < QUEUE_MAX
    ensures (At(from, n) + 1) % QUEUE_MAX == At(from, n + 1)
    ensures At(from, n + 1) == from <==> n + 1 == QUEUE_MAX
  {
  }

  lemma AllCleared(q: seq<Option<Packet>>, from: Seq16, n: nat)
    requires n == QUEUE_MAX && ClearedUpTo(q, from, n)
    ensures AllEmpty(q)
  {
    forall i: Seq16 ensures q[i].None? {
      assert Ahead(from, i) < n;
    }
  }

  /** A packet as it reaches `receiver_enqueue`: `packetTime` and `lastPacketTs` come from the clock
      offset, `time` is the clock when its buffer is made. */
  datatype Arrival = Arrival(seqNr: Seq16, len: nat, sourceTime: nat, now: nat, packetTime: nat, lastPacketTs: nat,
                             time: nat,
                             retry: bool, rtt: nat, peer: nat, state: M.PeerState, recoveryTicks: nat,
                               clock: nat -> nat)

  function PacketOf(a: Arrival, packetTime: nat): Packet {
    Packet(a.seqNr, a.len, a.sourceTime, a.time, packetTime, packetTime + a.recoveryTicks)
  }

  /** The packet holds what arrived, and is to be put out when the recovery time has passed, counted from `base`. */
  predicate Carries(slot: Option<Packet>, a: Arrival, base: nat) {
    && slot.Some?
    && var p := slot.value;
    && p.seqNr == a.seqNr && p.size == a.len && p.sourceTime == a.sourceTime && p.time == a.time
    && p.packetTime == base && p.targetOutputTime == base + a.recoveryTicks
  }

  /** The number after the last one found, with the mask that the source uses. */
  function Expected(lastFound: Seq16): nat { Next(lastFound) / 2 * 2 }

  predicate Behind(a: Arrival, lastFound: Seq16) {
    a.packetTime < a.lastPacketTs && a.seqNr != Expected(lastFound)
  }

  /** The mask clears the lowest bit, so it is the next number only after an odd one; after an even one it is
      that number again. */
  lemma ExpectedIs(lastFound: Seq16)
    ensures Expected(lastFound) == if lastFound % 2 == 1 then Next(lastFound) else lastFound
    ensures Expected(lastFound) != Next(lastFound) <==> lastFound % 2 == 0
  {
  }

  /** Hence of the packets that come in order, those after an even number are treated as out of order as soon as
      their time is behind: dropped when they are also too late, and otherwise stored without moving the last
      number found. After an odd number neither happens. */
  lemma InOrderArrival(a: Arrival, lastFound: Seq16, outputIdx: Seq16, slot: Option<Packet>)
    requires a.seqNr == Next(lastFound)
    ensures var behind, kind := a.packetTime < a.lastPacketTs, KindOf(a, true, lastFound, outputIdx, slot);
      && (Behind(a, lastFound) <==> behind && lastFound % 2 == 0)
      && (kind == Late <==> behind && lastFound % 2 == 0 && TooLate(a))
      && (kind == Stored && !a.retry ==>
            LastFoundAfter(kind, a, lastFound) == if behind && lastFound % 2 == 0 then lastFound else a.seqNr)
  {
    ExpectedIs(lastFound);
    hide Expected, TooLate;
  }

  predicate TooLate(a: Arrival) { 10 * a.now > 10 * a.packetTime + 11 * a.recoveryTicks }

  function KindOf(a: Arrival, hasItems: bool, lastFound: Seq16, outputIdx: Seq16, slot: Option<Packet>): Kind {
    if !hasItems then if a.retry then Ignored else First
    else if Behind(a, lastFound) && TooLate(a) then Late
    else if a.seqNr == Previous(outputIdx) then Full
    else if slot.Some? && slot.value.sourceTime == a.sourceTime then Dupe
    else Stored
  }

  function CodeOf(kind: Kind): int {
    match kind
    case First => 0
    case Stored => 0
    case Dupe => 1
    case _ => -1
  }

  /** What an arrival adds to the counts that decide whether the flow starts over. */
  function StatsAfter(kind: Kind, outOfOrder: bool, s: Stats): Stats {
    match kind
    case Ignored => s
    case First => Stats(0, 0, 0, 0, 0, 0)
    case Late => s.(droppedLate := s.droppedLate + 1)
    case Full => s.(droppedFull := s.droppedFull + 1)
    case Dupe => s.(dupes := s.dupes + 1)
    case Stored => s.(received := s.received + 1, reordered := if outOfOrder then s.reordered + 1 else s.reordered)
  }

  /** Whether the flow runs on: too many packets that are late, or for a full buffer, stop it. */
  predicate RunsOn(kind: Kind, after: Stats) {
    match kind
    case Ignored => false
    case Late => after.droppedLate <= 5 * after.received
    case Full => after.droppedFull <= 100
    case _ => true
  }

  function LastFoundAfter(kind: Kind, a: Arrival, lastFound: Seq16): Seq16 {
    match kind
    case First => a.seqNr
    case Full => if a.packetTime > a.lastPacketTs then a.seqNr else lastFound
    case Stored => if a.retry || Behind(a, lastFound) then lastFound else a.seqNr
    case _ => lastFound
  }

  /** The entries that a stored packet adds to the missing list. */
  function Queued(a: Arrival, outOfOrder: bool, lastFound: Seq16, missingCounter: nat,
                  q: seq<Option<Packet>>): seq<M.Record>
    requires |q| == QUEUE_MAX && q[a.seqNr].Some?
  {
    if a.retry || outOfOrder || Previous(a.seqNr) == lastFound || M.Blocked(a.state, missingCounter) then []
    else M.GapRecords(M.GapOf(q, lastFound, a.seqNr, a.rtt, a.peer, a.recoveryTicks, a.clock),
                      M.GapLength(lastFound, a.seqNr))
  }

  /** Between two flagged blocks the numbers run on without a gap. */
  lemma {:induction false} Consecutive(bs: seq<Block>, i: nat, j: nat)
    requires Labelled(bs) && i <= j < |bs|
    requires forall k :: i < k <= j ==> !bs[k].discontinuity && !bs[k].bufferStart
    ensures bs[j].packet.seqNr == At(bs[i].packet.seqNr, j - i)
  {
    if i < j {
      Consecutive(bs, i, j - 1);
    }
  }

  lemma LabelledAppend(bs: seq<Block>, b: Block)
    requires Labelled(bs)
    requires b.discontinuity || b.bufferStart || (bs != [] && b.packet.seqNr == Next(bs[|bs| - 1].packet.seqNr))
    ensures Labelled(bs + [b])
  {
  }

  // ----- what leaves the ring

  /** A packet that left the ring at `time`, handed over or dropped. */
  datatype Exit = Exit(packet: Packet, time: nat, handed: bool)

  predicate Due(p: Packet, now: nat, ticks: nat) {
    p.targetOutputTime <= now || 10 * Sub64(now, p.time) > 11 * ticks
  }

  predicate Expired(p: Packet, now: nat, ticks: nat) { Sub64(now, p.time) > 2 * ticks }

  /** A packet leaves when its time has come, handed over unless it is too old. */
  predicate Timely(e: Exit, ticks: nat) {
    Due(e.packet, e.time, ticks) && (e.handed <==> !Expired(e.packet, e.time, ticks))
  }

  /** What is too old is due as well. */
  lemma ExpiredIsDue(p: Packet, now: nat, ticks: nat)
    ensures Expired(p, now, ticks) ==> Due(p, now, ticks)
  {
  }

  /** The rules of the output in numbers: by the clock reading `t` a packet leaves once its output time has come or it
      is older than 1.1 times the buffer, and it is handed over exactly if it is no older than twice the buffer. */
  lemma TimelyIs(e: Exit, ticks: nat)
    requires e.packet.time <= e.time < UINT64
    ensures var age := e.time - e.packet.time;
      Timely(e, ticks) <==>
        && (e.packet.targetOutputTime <= e.time || 10 * age > 11 * ticks) && (e.handed <==> age <= 2 * ticks)
  {
  }

  /** The same for the packets that leave in a run of the output, by its clock. */
  ghost predicate Aged(exits: seq<Exit>, clock: nat -> nat, ticks: nat) {
    forall i :: 0 <= i < |exits| ==> AgeRule(exits[i], clock(i), ticks)
  }

  predicate AgeRule(e: Exit, t: nat, ticks: nat) {
    && (e.packet.targetOutputTime <= t || 10 * Sub64(t, e.packet.time) > 11 * ticks)
    && (e.handed <==> Sub64(t, e.packet.time) <= 2 * ticks)
  }

  /** Why the output stops for now. */
  datatype Halt = Running | Idle | Drained(dead: bool) | FullCircle | TooOld(holes: nat) | Stopped
    | Early(holes: nat, time: nat, earlier: bool)

  /** A flow that has been silent for too long, holds only old packets, or has lost count starts over. */
  predicate Restarts(halt: Halt) { halt.FullCircle? || halt.TooOld? || halt == Drained(true) }

  /** The next stored packet is `holes` slots ahead. */
  ghost predicate NextIn(q: Ring, idx: Seq16, holes: nat) {
    holes < QUEUE_MAX && ClearedUpTo(q, idx, holes) && q[At(idx, holes)].Some?
  }

  /** Behind a hole a packet is reached once its output time has come or it is too old. */
  predicate Reached(p: Packet, holes: nat, now: nat, ticks: nat) {
    holes == 0 || p.targetOutputTime <= now || Expired(p, now, ticks)
  }

  /** The next packet has to wait: it is not due, by the clock read for it; or, behind a hole, by the reading before
      that (`earlier`) it is not reached. */
  ghost predicate Waits(q: Ring, idx: Seq16, holes: nat, time: nat, earlier: bool, ticks: nat) {
    && NextIn(q, idx, holes)
    && var p := q[At(idx, holes)].value;
      if earlier then !Reached(p, holes, time, ticks) else !Due(p, time, ticks)
  }

  function LastTime(exits: seq<Exit>, initial: nat): nat { if exits == [] then initial else exits[|exits| - 1].time }

  /** Since when nothing has been stored. */
  function SilentSince(exits: seq<Exit>, initial: nat): nat {
    if exits == [] then initial
    else var since := LastTime(exits[..|exits| - 1], initial); if since == 0 then exits[|exits| - 1].time else since
  }

  /** How many packets in a row have been dropped for their age. */
  function Lates(exits: seq<Exit>, initial: nat): nat {
    if exits == [] then initial else if exits[|exits| - 1].handed then 0 else Lates(exits[..|exits| - 1], initial) + 1
  }

  /** The clock is read once for each packet, and no more than 100 packets in a row are dropped. */
  ghost predicate Timed(exits: seq<Exit>, late: nat, clock: nat -> nat) {
    forall i :: 0 <= i < |exits| ==>
        exits[i].time == clock(i)
        && (!exits[i].handed ==> Lates(exits[..i + 1], late) <= 100)
  }

  /** The counter of old packets and the time of the last output, after the packets that left. */
  ghost predicate Counted(halt: Halt, exits: seq<Exit>, late0: nat, time0: nat, late: nat, time: nat, clock: nat -> nat,
                          ticks: nat) {
    && Timed(exits, late0, clock)
    && (if halt.TooOld? then late == Lates(exits, late0) + 1 > 100 else late == Lates(exits, late0))
    && (if halt.Drained? then time == SilentSince(exits, time0)
        && (halt.dead <==> Sub64(LastTime(exits, time0), time) > ticks)
        else time == LastTime(exits, time0))
  }

  /** What one turn does to the same counters. */
  ghost predicate Turned(halt: Halt, exits: seq<Exit>, exits': seq<Exit>, later: nat, ticks: nat, late: nat, late': nat,
                         time: nat, time': nat) {
    !halt.Idle? && !halt.Stopped? &&
    if halt.Running? || halt.Drained? then
      && exits' != [] && exits'[..|exits'| - 1] == exits
      && var e := exits'[|exits'| - 1];
      && e.time == later && (if e.handed then late' == 0 else late' == late + 1 <= 100)
      && if halt.Running? then time' == later
         else time' == (if time == 0 then later else time) && (halt.dead <==> Sub64(later, time') > ticks)
    else
      exits' == exits && time' == time && if halt.TooOld? then late' == late + 1 > 100 else late' == late
  }

  lemma CountTurn(halt: Halt, exits: seq<Exit>, exits': seq<Exit>, late0: nat, time0: nat, late: nat, late': nat,
                  time: nat, time': nat,
                  later: nat, clock: nat -> nat, ticks: nat)
    requires Counted(Running, exits, late0, time0, late, time, clock, ticks) && later == clock(|exits|)
    requires Turned(halt, exits, exits', later, ticks, late, late', time, time')
    ensures Counted(halt, exits', late0, time0, late', time', clock, ticks)
    ensures halt.Running? ==> LastTime(exits', time0) == later && |exits'| == |exits| + 1
    ensures !halt.Idle? && !halt.Stopped? && if halt.Running? || halt.Drained? then exits' != [] else exits' == exits
  {
    if halt.Running? || halt.Drained? {
      var n := |exits|;
      assert exits'[..n + 1] == exits';
      forall i | 0 <= i < |exits'|
        ensures exits'[i].time == clock(i) && (!exits'[i].handed ==> Lates(exits'[..i + 1], late0) <= 100) {
        if i < n {
          assert exits'[..i + 1] == exits[..i + 1] && exits'[i] == exits[i];
        }
      }
    }
  }

  lemma TurnLeaves(halt: Halt, exits: seq<Exit>, e: Exit, ticks: nat, late: nat, late': nat, time: nat, time': nat)
    requires halt.Running? || halt.Drained?
    requires if e.handed then late' == 0 else late' == late + 1 <= 100
    requires if halt.Running? then time' == e.time
             else time' == (if time == 0 then e.time else time) && (halt.dead <==> Sub64(e.time, time') > ticks)
    ensures Turned(halt, exits, exits + [e], e.time, ticks, late, late', time, time')
  {
  }

  lemma TurnStays(halt: Halt, exits: seq<Exit>, later: nat, ticks: nat, late: nat, late': nat, time: nat)
    requires (halt.FullCircle? || halt.TooOld? || halt.Early?) && if halt.TooOld? then late' == late + 1 > 100
             else late' == late
    ensures Turned(halt, exits, exits, later, ticks, late, late', time, time)
  {
  }

  /** A flow before its output, and the settings of the output. */
  datatype Start = Start(ring: Ring, outputIdx: Seq16, stream: Stream, delivered: seq<Block>, stats: Stats,
                         tooLate: nat, lastOutputTime: nat, excess: int, hasItems: bool, known: bool, behindEmpty: bool,
                           now: nat, clock: nat -> nat, ticks: nat)

  /** Where the stream stands: the slot looked at next, the last number handed over, and whether the next
      block is the start of a flow. */
  datatype Stream = Stream(idx: Seq16, last: nat, bufferStart: bool)

  /** The flags of the next block: a gap is marked if holes were skipped or its number is not the next one. */
  function NextBlock(s: Stream, p: Packet): Block {
    Block(p, p.seqNr != s.idx || p.seqNr != (s.last + 1) % 65536, s.bufferStart)
  }

  function StreamStep(s: Stream, e: Exit): Stream {
    if e.handed then Stream(Next(e.packet.seqNr), e.packet.seqNr, false)
      else Stream(Next(e.packet.seqNr), s.last, s.bufferStart)
  }

  function Emitted(s: Stream, e: Exit): seq<Block> {
    if e.handed then [NextBlock(s, e.packet)] else []
  }

  function StreamAfter(s: Stream, exits: seq<Exit>): Stream {
    if exits == [] then s else StreamStep(StreamAfter(s, exits[..|exits| - 1]), exits[|exits| - 1])
  }

  /** The blocks handed over for the packets that left, with their flags. */
  function BlocksOf(s: Stream, exits: seq<Exit>): seq<Block> {
    if exits == [] then []
    else BlocksOf(s, exits[..|exits| - 1]) + Emitted(StreamAfter(s, exits[..|exits| - 1]), exits[|exits| - 1])
  }

  /** What a packet that leaves adds to the count of lost ones: the slots skipped for it, or one if the numbers jump
      without a slot skipped. */
  function LostBy(s: Stream, e: Exit): nat { Ahead(s.idx, e.packet.seqNr) + Jump(s, e) }

  function Jump(s: Stream, e: Exit): nat {
    if e.handed && e.packet.seqNr == s.idx && e.packet.seqNr != (s.last + 1) % 65536 then 1 else 0
  }

  function LostSoFar(s: Stream, exits: seq<Exit>): nat {
    if exits == [] then 0
    else LostSoFar(s, exits[..|exits| - 1]) + LostBy(StreamAfter(s, exits[..|exits| - 1]), exits[|exits| - 1])
  }

  /** The slots skipped for a packet that then stays count as well. */
  function LostAtEnd(halt: Halt): nat {
    match halt
    case TooOld(holes) => holes
    case Early(holes, _, earlier) => if earlier then 0 else holes
    case _ => 0
  }

  function Lose(s: Stats, n: nat): Stats { s.(lost := s.lost + n) }

  lemma LoseMore(s: Stats, m: nat, n: nat)
    ensures Lose(Lose(s, m), n) == Lose(s, m + n) && Lose(s, 0) == s
  {
  }

  /** One more packet has left, or none. */
  ghost predicate Moved(s: Stream, s': Stream, exits: seq<Exit>, exits': seq<Exit>, blocks: seq<Block>, lost: nat,
                        halt: Halt) {
    || (exits' == exits && s' == s && blocks == [] && lost == LostAtEnd(halt))
    || (exits' != [] && exits'[..|exits'| - 1] == exits && LostAtEnd(halt) == 0
        && s' == StreamStep(s, exits'[|exits'| - 1]) && blocks == Emitted(s, exits'[|exits'| - 1])
        && lost == LostBy(s, exits'[|exits'| - 1]))
  }

  lemma MovedMore(s0: Stream, s: Stream, s': Stream, exits: seq<Exit>, exits': seq<Exit>, blocks: seq<Block>,
                  more: seq<Block>, lost: nat, halt: Halt)
    requires s == StreamAfter(s0, exits) && blocks == BlocksOf(s0, exits)
             && Moved(s, s', exits, exits', more, lost, halt)
    ensures s' == StreamAfter(s0, exits') && blocks + more == BlocksOf(s0, exits')
    ensures LostSoFar(s0, exits) + lost == LostSoFar(s0, exits') + LostAtEnd(halt)
  {
    hide StreamStep, Emitted, LostBy, LostAtEnd;
  }

  lemma MovedOut(s: Stream, s': Stream, exits: seq<Exit>, e: Exit, blocks: seq<Block>, holes: nat, halt: Halt)
    requires s' == StreamStep(s, e) && blocks == Emitted(s, e) && holes == Ahead(s.idx, e.packet.seqNr)
    requires halt.Running? || halt.Drained?
    ensures Moved(s, s', exits, exits + [e], blocks, holes + Jump(s, e), halt)
  {
    hide StreamStep, Emitted, Ahead, Jump;
  }

  /** Packets left in ring order from `start`, at most `n` slots ahead, each from its slot, when their time had come. */
  ghost predicate InTurn(exits: seq<Exit>, q0: Ring, start: Seq16, n: nat, ticks: nat) {
    && (forall i :: 0 <= i < |exits| ==>
          && q0[exits[i].packet.seqNr] == Some(exits[i].packet) && Ahead(start, exits[i].packet.seqNr) < n
          && Timely(exits[i], ticks))
    && (forall i, j :: 0 <= i < j < |exits| ==>
        Ahead(start, exits[i].packet.seqNr) < Ahead(start, exits[j].packet.seqNr))
  }

  ghost predicate Left(exits: seq<Exit>, s: Seq16) {
    exists i :: 0 <= i < |exits| && exits[i].packet.seqNr == s
  }

  /** Exactly the slots of the packets that left have changed. */
  ghost predicate Accounted(exits: seq<Exit>, q0: Ring, q: Ring) {
    forall s: Seq16 :: q[s] == if Left(exits, s) then None else q0[s]
  }

  /** The ring has been worked off for `n` slots from `start`. */
  ghost predicate Advanced(exits: seq<Exit>, q0: Ring, q: Ring, start: Seq16, n: nat, ticks: nat) {
    n <= QUEUE_MAX && InTurn(exits, q0, start, n, ticks) && Accounted(exits, q0, q) && ClearedUpTo(q, start, n)
  }

  lemma LeftAppend(exits: seq<Exit>, e: Exit, s: Seq16)
    ensures Left(exits + [e], s) <==> Left(exits, s) || s == e.packet.seqNr
  {
    if Left(exits, s) {
      var i :| 0 <= i < |exits| && exits[i].packet.seqNr == s;
      assert (exits + [e])[i].packet.seqNr == s;
    }
    assert (exits + [e])[|exits|] == e;
  }

  lemma ExitAccounted(exits: seq<Exit>, q0: Ring, q: Ring, e: Exit)
    requires Accounted(exits, q0, q)
    ensures Accounted(exits + [e], q0, q[e.packet.seqNr := None])
  {
    hide Left;
    forall s: Seq16 ensures q[e.packet.seqNr := None][s] == if Left(exits + [e], s) then None else q0[s] {
      LeftAppend(exits, e, s);
    }
  }

  lemma ExitInTurn(exits: seq<Exit>, q0: Ring, start: Seq16, n: nat, m: nat, ticks: nat, e: Exit)
    requires InTurn(exits, q0, start, n, ticks) && n <= m < QUEUE_MAX
    requires e.packet.seqNr == At(start, m) && q0[e.packet.seqNr] == Some(e.packet)
    requires Timely(e, ticks)
    ensures InTurn(exits + [e], q0, start, m + 1, ticks)
  {
    hide Timely;
    AheadAt(start, m);
    hide Ahead, At;
  }

  lemma AheadAt(start: Seq16, m: nat)
    requires m < QUEUE_MAX
    ensures Ahead(start, At(start, m)) == m
  {
  }

  /** Two cleared stretches in a row, before a stored packet, stay within one turn of the ring. */
  lemma ClearedFar(q: Ring, start: Seq16, n: nat, holes: nat)
    requires ClearedUpTo(q, start, n) && n <= QUEUE_MAX && holes < QUEUE_MAX
    requires ClearedUpTo(q, At(start, n), holes) && q[At(At(start, n), holes)].Some?
    ensures n + holes < QUEUE_MAX && At(At(start, n), holes) == At(start, n + holes) && ClearedUpTo(q, start, n + holes)
  {
    hide At, Ahead;
    AtAt(start, n, holes);
    if n + holes >= QUEUE_MAX {
      Wrapped(start, n, holes);
      assert false;
    }
    forall i: Seq16 | n <= Ahead(start, i) < n + holes ensures q[i].None? {
      AheadShift(start, n, i);
    }
  }

  /** Everything that changes when the packet after `holes` empty slots leaves. */
  lemma ExitStep(exits: seq<Exit>, q0: Ring, q: Ring, start: Seq16, n: nat, holes: nat, ticks: nat, e: Exit)
    requires Advanced(exits, q0, q, start, n, ticks) && InPlace(q)
    requires NextIn(q, At(start, n), holes) && q[At(At(start, n), holes)] == Some(e.packet)
    requires Timely(e, ticks)
    ensures var idx := At(At(start, n), holes);
      && e.packet.seqNr == idx && Next(idx) == At(start, n + holes + 1) && Previous(Next(idx)) == idx
      && Advanced(exits + [e], q0, q[idx := None], start, n + holes + 1, ticks)
  {
    hide At, Timely, InTurn, Left, ClearedUpTo;
    ClearedFar(q, start, n, holes);
    AtNext(start, n + holes);
    ExitAccounted(exits, q0, q, e);
    ExitInTurn(exits, q0, start, n, n + holes, ticks, e);
    ClearNext(q, start, n + holes);
  }

  lemma AtAt(start: Seq16, n: nat, holes: nat)
    ensures At(At(start, n), holes) == At(start, n + holes)
  {
  }

  lemma Wrapped(start: Seq16, n: nat, holes: nat)
    requires n <= QUEUE_MAX && holes < QUEUE_MAX <= n + holes
    ensures Ahead(start, At(start, n + holes)) < n
  {
  }

  lemma AheadShift(start: Seq16, n: nat, i: Seq16)
    requires n <= Ahead(start, i)
    ensures Ahead(At(start, n), i) == Ahead(start, i) - n
  {
  }

  class Flow {
    const queue: array<Option<Packet>>
    var queueSize: nat
    var outputIdx: Seq16
    var hasItems: bool
    var flowBufferStart: bool
    var lastSeqOutput: nat
    var lastSeqFound: Seq16
    /** `stats_instant`. */
    var stats: Stats
    var tooLate: nat
    var lastOutputTime: nat
    const missing: M.List
    /** Everything handed out so far. */
    ghost var delivered: seq<Block>

    ghost predicate Valid()
      reads this, queue, missing, missing.repr
    {
      && Flowing()
      && missing.Valid() && missing.nacks.Length == M.MAX_NACKS && missing.nacksCounter <= M.MAX_NACKS
    }

    ghost predicate RingOk()
      reads `queueSize, queue
    {
      queue.Length == QUEUE_MAX && InPlace(queue[..]) && Bytes(queue[..]) <= queueSize
    }

    /** The last number handed out is known, unless the next block is marked as a start. */
    ghost predicate LastKnown()
      reads this, queue
    {
      || StreamKnown()
      || (!hasItems && AllEmpty(queue[..]))
    }

    /** Whatever is stored can be labelled. */
    ghost predicate Ready()
      reads `flowBufferStart, `delivered, `lastSeqOutput, queue
    {
      lastSeqOutput < UINT32 && Labelled(delivered) && (StreamKnown() || AllEmpty(queue[..]))
    }

    ghost predicate StreamKnown()
      reads `flowBufferStart, `delivered, `lastSeqOutput
    {
      flowBufferStart || (delivered != [] && lastSeqOutput == delivered[|delivered| - 1].packet.seqNr)
    }

    /** The bytes counted beyond those stored. */
    ghost function Excess(): int
      reads `queueSize, queue
    {
      queueSize - Bytes(queue[..])
    }

    /** The slot just behind the output index is empty. */
    ghost predicate BehindEmpty()
      reads `outputIdx, queue
    {
      queue.Length == QUEUE_MAX && queue[Previous(outputIdx)].None?
    }

    /** Also, no stored packet has length zero. */
    ghost predicate Clean()
      reads this, queue
    {
      BehindEmpty() && NoneZero(queue[..])
    }

    constructor ()
      ensures Valid() && Clean() && queueSize == 0 == Excess() && !hasItems && delivered == []
      ensures fresh(queue) && fresh(missing) && fresh(missing.nacks) && missing.repr == {} && AllEmpty(queue[..])
    {
      queue := new Option<Packet>[QUEUE_MAX](_ => None);
      missing := new M.List();
      queueSize, outputIdx, hasItems, flowBufferStart, lastSeqOutput, lastSeqFound := 0, 0, false, false, 0, 0;
      stats, tooLate, lastOutputTime := Stats(0, 0, 0, 0, 0, 0), 0, 0;
      delivered := [];
      new;
      BytesOfEmpty(queue[..]);
    }

    /** `receiver_insert_queue_packet`. */
    method Insert(p: Packet)
      requires RingOk()
      modifies queue, `queueSize
      ensures RingOk() && queue[..] == old(queue[..])[p.seqNr := Some(p)]
      ensures queueSize == old(queueSize) + p.size && Excess() == old(Excess()) + SizeOf(old(queue[p.seqNr]))
    {
      BytesUpdate(queue[..], p.seqNr, Some(p));
      queue[p.seqNr] := Some(p);
      queueSize := queueSize + p.size;
      assert queue[..] == old(queue[..])[p.seqNr := Some(p)];
    }

    /** Frees the slot `i`. */
    method Clear(i: Seq16)
      requires RingOk() && queue[i].Some?
      modifies queue, `queueSize
      ensures RingOk() && queue[..] == old(queue[..])[i := None]
      ensures Excess() == old(Excess()) && Count(queue[..]) + 1 == old(Count(queue[..]))
    {
      BytesUpdate(queue[..], i, None);
      CountUpdate(queue[..], i);
      BytesAtLeast(queue[..], i);
      queueSize := queueSize - queue[i].value.size;
      queue[i] := None;
      assert queue[..] == old(queue[..])[i := None];
    }

    /** Drops the packet in slot `i` but not its bytes. */
    method Forget(i: Seq16)
      requires RingOk()
      modifies queue
      ensures RingOk() && queue[..] == old(queue[..])[i := None] && Excess() == old(Excess()) + SizeOf(old(queue[i]))
    {
      BytesUpdate(queue[..], i, None);
      queue[i] := None;
      assert queue[..] == old(queue[..])[i := None];
    }

    /** Stores a packet; another one in its slot is dropped first. */
    method Put(p: Packet)
      requires RingOk()
      modifies queue, `queueSize
      ensures RingOk() && queue[..] == old(queue[..])[p.seqNr := Some(p)]
              && Excess() == old(Excess()) + SizeOf(old(queue[p.seqNr]))
    {
      RingHasSlots(this);
      hide RingOk, Excess;
      ghost var q: Ring := queue[..];
      if queue[p.seqNr].Some? {
        Forget(p.seqNr);
      }
      assert queue[p.seqNr].None? && queue[..][p.seqNr := Some(p)] == q[p.seqNr := Some(p)];
      Insert(p);
    }

    /** `empty_receiver_queue`: once around the ring, until the byte count is zero. */
    method EmptyQueue()
      requires RingOk()
      modifies queue, `queueSize
      ensures RingOk() && Excess() == old(Excess()) && (queueSize == 0 || AllEmpty(queue[..]))
      ensures Emptied(old(queue[..]), outputIdx, old(Excess()), queue[..])
    {
      ghost var before: Ring, excess := queue[..], Excess();
      hide InPlace, Bytes, Count, AllEmpty, Emptying, Emptied, At;
      EmptyingStart(before, outputIdx, excess);
      var counter := outputIdx;
      ghost var n := 0;
      while queueSize > 0
        invariant 0 <= n < QUEUE_MAX && counter == At(outputIdx, n)
        invariant RingOk() && Excess() == excess
        invariant Emptying(before, outputIdx, excess, queue[..], n)
        decreases QUEUE_MAX - n
      {
        EmptyingStep(before, outputIdx, excess, queue[..], n);
        if queue[counter].Some? {
          Clear(counter);
        }
        counter := (counter + 1) % QUEUE_MAX;
        n := n + 1;
        AtNext(outputIdx, n - 1);
        if counter == outputIdx {
          EmptyingAll(before, outputIdx, excess, queue[..], n);
          EmptyingEnd(before, outputIdx, excess, queue[..], n);
          return;
        }
      }
      EmptyingEnd(before, outputIdx, excess, queue[..], n);
    }

    /** Empties the ring of a flow that starts over, and stores its first packet. */
    method RestartQueue(p: Packet)
      requires RingOk()
      modifies queue, `queueSize, `outputIdx
      ensures RingOk() && Excess() == old(Excess()) && outputIdx == p.seqNr
      ensures Restarted(old(queue[..]), old(outputIdx), old(Excess()), p, queue[..])
    {
      hide InPlace, AllEmpty, Emptied;
      if queueSize > 0 {
        EmptyQueue();
      } else {
        NothingToEmpty(queue[..], outputIdx);
      }
      LeftoverSize(queue[..], queueSize, p.seqNr);
      hide Bytes;
      RestartedWith(old(queue[..]), outputIdx, old(Excess()), p, queue[..]);
      Insert(p);
      outputIdx := p.seqNr;
    }

    /** The first packet of a flow, or the first after a reset. */
    method StartFlow(a: Arrival)
      requires Valid() && !hasItems
      modifies this, queue, missing
      ensures Valid() && hasItems && flowBufferStart && delivered == old(delivered) && Excess() == old(Excess())
      ensures outputIdx == lastSeqFound == a.seqNr && missing.contents == []
      ensures Restarted(old(queue[..]), old(outputIdx), old(Excess()), PacketOf(a, a.now), queue[..])
      ensures missing.repr == old(missing.repr) && stats == StatsAfter(First, false, old(stats))
      ensures lastSeqOutput == (a.seqNr - 1) % UINT32 && tooLate == old(tooLate)
              && lastOutputTime == old(lastOutputTime)
    {
      FlowingReady(this);
      hide Flowing, RingOk, Ready, Excess, M.List.Valid, Restarted;
      RestartQueue(PacketOf(a, a.now));
      StartSession(a);
    }

    /** What else is set when a flow starts. */
    method StartSession(a: Arrival)
      requires RingOk() && Labelled(delivered)
      requires missing.Valid() && missing.nacks.Length == M.MAX_NACKS && missing.nacksCounter <= M.MAX_NACKS
      modifies `flowBufferStart, `lastSeqOutput, `lastSeqFound, `stats, `hasItems, missing
      ensures Valid() && hasItems && flowBufferStart && lastSeqFound == a.seqNr && missing.contents == []
      ensures missing.repr == old(missing.repr) && stats == StatsAfter(First, false, old(stats))
      ensures lastSeqOutput == (a.seqNr - 1) % UINT32
    {
      hide RingOk, Labelled, M.List.Valid, AllEmpty;
      missing.Flush();
      flowBufferStart := true;
      lastSeqOutput := (a.seqNr - 1) % UINT32;
      lastSeqFound := a.seqNr;
      stats := Stats(0, 0, 0, 0, 0, 0);
      hasItems := true;
    }

    /** A packet that came too late: counted, and the flow restarts if too many do. */
    method DropLate()
      modifies `stats, `hasItems
      ensures stats == StatsAfter(Late, false, old(stats)) && hasItems == (old(hasItems) && RunsOn(Late, stats))
    {
      stats := stats.(droppedLate := stats.droppedLate + 1);
      if stats.droppedLate > 5 * stats.received {
        hasItems := false;
      }
      if (stats.droppedLate > stats.received * 5 && stats.received > 100)
        || (stats.droppedLate > 100 && stats.received == 0) {
        hasItems := false;
      }
    }

    /** A packet for the slot behind the output index. */
    method DropFull(a: Arrival)
      modifies `stats, `hasItems, `lastSeqFound
      ensures stats == StatsAfter(Full, false, old(stats)) && hasItems == (old(hasItems) && RunsOn(Full, stats))
      ensures lastSeqFound == LastFoundAfter(Full, a, old(lastSeqFound))
    {
      if a.packetTime > a.lastPacketTs {
        lastSeqFound := a.seqNr;
      }
      stats := stats.(droppedFull := stats.droppedFull + 1);
      if stats.droppedFull > 100 {
        hasItems := false;
      }
    }

    /** Stores a packet, dropping another one in its slot without taking its size off the count, and
        looks for a gap. */
    method Store(a: Arrival, outOfOrder: bool)
      requires Valid() && hasItems
      modifies queue, `queueSize, `stats, `lastSeqFound, missing, missing.repr
      ensures Valid() && queue[..] == old(queue[..])[a.seqNr := Some(PacketOf(a, a.packetTime))]
      ensures Carries(queue[a.seqNr], a, a.packetTime)
      ensures Excess() == old(Excess()) + SizeOf(old(queue[a.seqNr]))
      ensures lastSeqFound == if a.retry || outOfOrder then old(lastSeqFound) else a.seqNr
      ensures stats == StatsAfter(Stored, outOfOrder, old(stats))
      ensures fresh(missing.repr - old(missing.repr))
      ensures missing.contents == old(missing.contents)
              + Queued(a, outOfOrder, old(lastSeqFound), old(missing.missingCounter), queue[..])
    {
      RingHasSlots(this);
      hide RingOk, Excess, Labelled, M.List.Valid, Queued, InPlace, AllEmpty;
      Put(PacketOf(a, a.packetTime));
      stats := stats.(received := stats.received + 1, reordered := if outOfOrder then stats.reordered + 1
                      else stats.reordered);
      LookForGap(a, outOfOrder);
    }

    /** Queues what is missing in front of a packet that was just stored, unless it is a retransmission. */
    method LookForGap(a: Arrival, outOfOrder: bool)
      requires missing.Valid() && queue.Length == QUEUE_MAX && queue[a.seqNr].Some?
      modifies `lastSeqFound, missing`missing, missing`missingTail, missing`spine, missing`contents, missing`repr,
               missing.repr
      ensures missing.Valid() && fresh(missing.repr - old(missing.repr))
      ensures lastSeqFound == if a.retry || outOfOrder then old(lastSeqFound) else a.seqNr
      ensures missing.contents == old(missing.contents)
              + Queued(a, outOfOrder, old(lastSeqFound), missing.missingCounter, queue[..])
    {
      hide M.List.Valid, M.GapRecords, M.GapLength, M.GapOf;
      if !a.retry {
        if !outOfOrder && Previous(a.seqNr) != lastSeqFound {
          missing.MarkMissing(queue, lastSeqFound, a.seqNr, a.rtt, a.peer, a.state, a.recoveryTicks, a.clock);
        }
        if !outOfOrder {
          lastSeqFound := a.seqNr;
        }
      }
    }

    /** `receiver_enqueue`. */
    method Enqueue(a: Arrival) returns (code: int)
      requires Valid()
      modifies this, queue, missing, missing.repr
      ensures Valid() && delivered == old(delivered) && fresh(missing.repr - old(missing.repr))
      ensures old(Clean()) && a.len > 0 ==> Clean()
      ensures code == CodeOf(old(Fate(a)))
      ensures stats == StatsAfter(old(Fate(a)), Behind(a, old(lastSeqFound)) && !a.retry, old(stats))
              && hasItems == RunsOn(old(Fate(a)), stats)
      ensures lastSeqFound == LastFoundAfter(old(Fate(a)), a, old(lastSeqFound))
      ensures tooLate == old(tooLate) && lastOutputTime == old(lastOutputTime)
      ensures if old(Fate(a)) == First then flowBufferStart && lastSeqOutput == (a.seqNr - 1) % UINT32
              else flowBufferStart == old(flowBufferStart) && lastSeqOutput == old(lastSeqOutput)
      ensures old(Fate(a)) == First ==> outputIdx == a.seqNr && missing.contents == [] && Excess() == old(Excess())
      ensures old(Fate(a)) == First ==>
              && Restarted(old(queue[..]), old(outputIdx), old(Excess()), PacketOf(a, a.now), queue[..])
              && Carries(queue[a.seqNr], a, a.now)
      ensures old(Fate(a)) == First ==>
                (BehindEmpty() <==> || old(queue[Previous(a.seqNr)]).None? || old(Excess()) > 0
                                    || BytesFrom(old(queue[..]), old(outputIdx), Previous(a.seqNr)))
      ensures old(Fate(a)) != First ==> outputIdx == old(outputIdx)
      ensures old(Fate(a)) != First && old(Fate(a)) != Stored ==>
                queue[..] == old(queue[..]) && missing.contents == old(missing.contents) && Excess() == old(Excess())
      ensures old(Fate(a)) == Stored ==>
                && queue[..] == old(queue[..])[a.seqNr := Some(PacketOf(a, a.packetTime))]
                && Carries(queue[a.seqNr], a, a.packetTime)
                && Excess() == old(Excess()) + SizeOf(old(queue[a.seqNr]))
                && missing.contents == old(missing.contents)
                     + Queued(a, Behind(a, old(lastSeqFound)), old(lastSeqFound), old(missing.missingCounter),
                              queue[..])
    {
      RingHasSlots(this);
      hide RingOk, Excess, Labelled, M.List.Valid, InPlace, AllEmpty, NoneZero, Alone, Expected, TooLate, Queued;
      if !hasItems && a.retry {
        return -1;
      }
      if !hasItems {
        StartFlow(a);
        BehindRestart(old(queue[..]), old(outputIdx), old(Excess()), PacketOf(a, a.now), queue[..]);
        return 0;
      }
      code := Accept(a);
    }

    /** The part of `receiver_enqueue` for a flow that is running. */
    method Accept(a: Arrival) returns (code: int)
      requires Valid() && hasItems
      modifies `stats, `hasItems, `lastSeqFound, `queueSize, queue, missing, missing.repr
      ensures Valid() && fresh(missing.repr - old(missing.repr))
      ensures old(Clean()) && a.len > 0 ==> Clean()
      ensures code == CodeOf(old(Fate(a)))
      ensures stats == StatsAfter(old(Fate(a)), Behind(a, old(lastSeqFound)) && !a.retry, old(stats))
              && hasItems == RunsOn(old(Fate(a)), stats)
      ensures lastSeqFound == LastFoundAfter(old(Fate(a)), a, old(lastSeqFound))
      ensures old(Fate(a)) != Stored ==>
                queue[..] == old(queue[..]) && missing.contents == old(missing.contents) && Excess() == old(Excess())
      ensures old(Fate(a)) == Stored ==>
                && queue[..] == old(queue[..])[a.seqNr := Some(PacketOf(a, a.packetTime))]
                && Carries(queue[a.seqNr], a, a.packetTime)
                && Excess() == old(Excess()) + SizeOf(old(queue[a.seqNr]))
                && missing.contents == old(missing.contents)
                     + Queued(a, Behind(a, old(lastSeqFound)), old(lastSeqFound), old(missing.missingCounter),
                              queue[..])
    {
      RingHasSlots(this);
      CleanFacts(queue[..], outputIdx, a);
      hide RingOk, Excess, Labelled, M.List.Valid, InPlace, AllEmpty, NoneZero, Alone, Expected, TooLate;
      var outOfOrder := false;
      if a.packetTime < a.lastPacketTs && a.seqNr != Expected(lastSeqFound) {
        if TooLate(a) {
          DropLate();
          return -1;
        }
        if !a.retry {
          outOfOrder := true;
        }
      }
      if a.seqNr == Previous(outputIdx) {
        DropFull(a);
        return -1;
      }
      if queue[a.seqNr].Some? && queue[a.seqNr].value.sourceTime == a.sourceTime {
        stats := stats.(dupes := stats.dupes + 1);
        return 1;
      }
      Store(a, outOfOrder);
      return 0;
    }

    ghost function Fate(a: Arrival): Kind
      reads this, queue
      requires queue.Length == QUEUE_MAX
    {
      KindOf(a, hasItems, lastSeqFound, outputIdx, queue[a.seqNr])
    }

    /** Looks for the first stored packet after an empty slot, at most once around the ring. */
    method FindFirst(start: Seq16) returns (found: bool, counter: Seq16, holes: nat)
      requires queue.Length == QUEUE_MAX && queue[start].None?
      ensures found ==>
                queue[counter].Some? && holes < QUEUE_MAX && counter == At(start, holes)
                && ClearedUpTo(queue[..], start, holes)
      ensures found ==> holes > 0
      ensures !found ==> AllEmpty(queue[..])
    {
      hide At, ClearedUpTo, AllEmpty;
      StartCleared(queue[..], start);
      ClearNext(queue[..], start, 0);
      counter, holes, found := start, 0, false;
      while queue[counter].None?
        invariant holes < QUEUE_MAX && counter == At(start, holes) && ClearedUpTo(queue[..], start, holes)
        invariant holes > 0 || counter == start
        decreases QUEUE_MAX - holes
      {
        ClearNext(queue[..], start, holes);
        AtNext(start, holes);
        counter := (counter + 1) % QUEUE_MAX;
        holes := holes + 1;
        if counter == start {
          AllCleared(queue[..], start, holes);
          return;
        }
      }
      found := true;
    }

    /** Hands a packet over with its flags. */
    method Deliver(b: Packet, holes: nat) returns (block: Block)
      requires lastSeqOutput < UINT32 && Labelled(delivered) && StreamKnown()
      modifies `stats, `tooLate, `flowBufferStart, `lastSeqOutput, `delivered
      ensures lastSeqOutput < UINT32 && Labelled(delivered) && StreamKnown() && tooLate == 0 && !flowBufferStart
      ensures delivered == old(delivered) + [block] && block.packet == b && block.bufferStart == old(flowBufferStart)
      ensures block.discontinuity <==> holes > 0 || b.seqNr != (old(lastSeqOutput) + 1) % 65536
      ensures stats == Lose(old(stats), if holes == 0 && b.seqNr != (old(lastSeqOutput) + 1) % 65536 then 1 else 0)
    {
      tooLate := 0;
      hide Labelled;
      var gap := holes;
      if b.seqNr != (lastSeqOutput + 1) % 65536 && holes == 0 {
        stats := stats.(lost := stats.lost + 1);
        gap := 1;
      }
      block := Block(b, gap > 0, flowBufferStart);
      LabelledAppend(delivered, block);
      flowBufferStart := false;
      delivered := delivered + [block];
      lastSeqOutput := b.seqNr;
    }

    /** The next packet and how many empty slots come before it, unless it is not due yet or there is none. */
    method Locate(now: nat, ticks: nat) returns (found: bool, idx: Seq16, holes: nat, ghost halt: Halt)
      requires RingOk() && queueSize > 0
      modifies `stats, `hasItems, `queueSize
      ensures RingOk() && (found <==> halt.Running?)
      ensures halt.FullCircle?
              || ((halt.Running? || halt == Early(holes, now, true)) && queueSize == old(queueSize)
                  && hasItems == old(hasItems))
      ensures halt.FullCircle? ==>
                !hasItems && queueSize == 0 && AllEmpty(queue[..]) && old(Excess()) > 0
                && Excess() == 0
      ensures halt.Early? ==> Waits(queue[..], outputIdx, holes, now, true, ticks)
      ensures found ==> NextIn(queue[..], outputIdx, holes) && idx == At(outputIdx, holes)
      ensures found ==> Reached(queue[idx].value, holes, now, ticks)
      ensures stats == if found then Lose(old(stats), holes) else old(stats)
    {
      RingHasSlots(this);
      hide InPlace, Bytes, AllEmpty, ClearedUpTo, At, Due;
      StartCleared(queue[..], outputIdx);
      found, idx, holes, halt := true, outputIdx, 0, Running;
      if queue[idx].None? {
        found, idx, holes := FindFirst(outputIdx);
        if !found {
          BytesOfEmpty(queue[..]);
          halt := FullCircle;
          hasItems := false;
          queueSize := 0;
          return;
        }
        var b := queue[idx].value;
        if Sub64(now, b.time) > 2 * ticks {
        } else if b.targetOutputTime > now {
          found, halt := false, Early(holes, now, true);
          return;
        }
        stats := stats.(lost := stats.lost + holes);
      }
    }

    /** Whether the packet found is handed over, dropped for its age, or left for later. */
    method Judge(b: Packet, now: nat, ticks: nat) returns (leaves: bool, handed: bool)
      modifies `tooLate, `hasItems
      ensures leaves ==> Timely(Exit(b, now, handed), ticks)
      ensures !leaves && handed ==> !Due(b, now, ticks)
      ensures tooLate == if handed then old(tooLate) else old(tooLate) + 1
      ensures !handed ==> Expired(b, now, ticks) && (leaves <==> tooLate <= 100)
      ensures hasItems == (old(hasItems) && (leaves || handed))
    {
      leaves, handed := true, true;
      var delay := Sub64(now, b.time);
      if 10 * delay > 11 * ticks {
        if delay > 2 * ticks {
          tooLate := tooLate + 1;
          handed := false;
          if tooLate > 100 {
            hasItems := false;
            leaves := false;
          }
        }
      } else if b.targetOutputTime > now {
        leaves := false;
      }
    }

    /** Takes the packet out and moves the output index past it; a flow that has been empty for longer
        than the buffer starts over. */
    method Remove(idx: Seq16, now: nat, ticks: nat) returns (drained: bool)
      requires RingOk() && queue[idx].Some?
      modifies queue, `queueSize, `outputIdx, `lastOutputTime, `hasItems
      ensures RingOk() && queue[..] == old(queue[..])[idx := None] && outputIdx == Next(idx)
              && Excess() == old(Excess())
      ensures Count(queue[..]) < old(Count(queue[..])) && (drained <==> queueSize == 0)
      ensures lastOutputTime == if drained && old(lastOutputTime) != 0 then old(lastOutputTime) else now
      ensures hasItems == (old(hasItems) && !(drained && Sub64(now, lastOutputTime) > ticks))
    {
      RingHasSlots(this);
      hide RingOk, Excess, Count;
      Clear(idx);
      outputIdx := Next(idx);
      drained := queueSize == 0;
      if drained {
        if lastOutputTime == 0 {
          lastOutputTime := now;
        }
        var delta := Sub64(now, lastOutputTime);
        if delta > ticks {
          hasItems := false;
        }
      } else {
        lastOutputTime := now;
      }
    }

    ghost function StreamNow(): Stream
      reads `outputIdx, `lastSeqOutput, `flowBufferStart
    {
      Stream(outputIdx, lastSeqOutput, flowBufferStart)
    }

    /** The ring and the stream, without the missing list. */
    ghost predicate Flowing()
      reads this, queue
    {
      RingOk() && lastSeqOutput < UINT32 && Labelled(delivered) && LastKnown()
    }

    /** The ring `q0` has been worked off for `n` slots from `start`. */
    ghost predicate Working(exits: seq<Exit>, q0: Ring, start: Seq16, n: nat, ticks: nat)
      reads `outputIdx, queue
    {
      queue.Length == QUEUE_MAX && Advanced(exits, q0, queue[..], start, n, ticks) && outputIdx == At(start, n)
    }

    /** One packet leaves, if one is found and its time has come. */
    method Turn(now: nat, later: nat, ticks: nat, ghost exits: seq<Exit>, ghost q0: Ring, ghost start: Seq16,
                ghost n: nat)
      returns (more: bool, blocks: seq<Block>, ghost exits': seq<Exit>, ghost n': nat, ghost lost: nat,
               ghost halt: Halt)
      requires RingOk() && Ready() && queueSize > 0 && Working(exits, q0, start, n, ticks)
      modifies `stats, `tooLate, `flowBufferStart, `lastSeqOutput, `delivered, queue, `queueSize, `outputIdx,
               `lastOutputTime, `hasItems
      ensures RingOk() && Ready() && Working(exits', q0, start, n', ticks) && (more <==> halt.Running?)
      ensures old(StreamKnown()) ==> StreamKnown()
      ensures delivered == old(delivered) + blocks && stats == Lose(old(stats), lost)
      ensures Moved(old(StreamNow()), StreamNow(), exits, exits', blocks, lost, halt)
      ensures if halt.FullCircle? then old(Excess()) > 0 && Excess() == 0 else Excess() == old(Excess())
      ensures more ==> Count(queue[..]) < old(Count(queue[..])) && queueSize > 0
      ensures old(BehindEmpty()) ==> BehindEmpty()
      ensures Turned(halt, exits, exits', later, ticks, old(tooLate), tooLate, old(lastOutputTime), lastOutputTime)
      ensures hasItems == (old(hasItems) && !Restarts(halt))
      ensures !more ==> Halts(halt, now, later, ticks)
    {
      RingHasSlots(this);
      hide RingOk, Excess, Count, AllEmpty, Labelled, Advanced, Timely, At, ClearedUpTo, StreamKnown, Previous,
           Next, Turned, Halts, NextIn, Emitted, StreamStep, LostAtEnd, LostBy, Jump, Lose;
      more, blocks, exits', n', lost := false, [], exits, n, 0;
      var leaves, idx, holes, handed;
      leaves, idx, holes, handed, halt := Choose(now, later, ticks);
      if leaves {
        ghost var jump;
        more, blocks, exits', n', jump,
          halt := TakeOut(idx, holes, handed, later, ticks, exits, q0, start, n, old(tooLate));
        DrainedHalts(this, halt, now, later, ticks);
        lost := holes + jump;
        LoseMore(old(stats), holes, jump);
      } else {
        lost := LostAtEnd(halt);
        TurnStays(halt, exits, later, ticks, old(tooLate), tooLate, lastOutputTime);
      }
    }

    /** The packet chosen leaves. */
    method TakeOut(idx: Seq16, holes: nat, handed: bool, now: nat, ticks: nat, ghost exits: seq<Exit>, ghost q0: Ring,
                   ghost start: Seq16,
                   ghost n: nat, ghost late: nat)
      returns (more: bool, blocks: seq<Block>, ghost exits': seq<Exit>, ghost n': nat, ghost jump: nat,
               ghost halt: Halt)
      requires RingOk() && Ready() && Working(exits, q0, start, n, ticks) && NextIn(queue[..], outputIdx, holes)
               && idx == At(outputIdx, holes)
      requires queue[idx].Some? && Timely(Exit(queue[idx].value, now, handed), ticks)
      requires if handed then tooLate == late else tooLate == late + 1 <= 100
      modifies `stats, `tooLate, `flowBufferStart, `lastSeqOutput, `delivered, queue, `queueSize, `outputIdx,
               `lastOutputTime, `hasItems
      ensures RingOk() && Ready() && StreamKnown() && Working(exits', q0, start, n', ticks) && BehindEmpty()
      ensures delivered == old(delivered) + blocks && Excess() == old(Excess())
      ensures stats == Lose(old(stats), jump)
      ensures Moved(old(StreamNow()), StreamNow(), exits, exits', blocks, holes + jump, halt)
      ensures halt == (if more then Running else Drained(Sub64(now, lastOutputTime) > ticks))
      ensures if more then Count(queue[..]) < old(Count(queue[..])) && queueSize > 0 else queueSize == 0
      ensures Turned(halt, exits, exits', now, ticks, late, tooLate, old(lastOutputTime), lastOutputTime)
      ensures hasItems == (old(hasItems) && !Restarts(halt))
    {
      ghost var stream, e := StreamNow(), Exit(queue[idx].value, now, handed);
      ExitHoles(this, exits, q0, start, n, ticks, holes);
      hide *;
      jump := Jump(stream, e);
      more, blocks := LeaveSlot(idx, holes, handed, now, ticks, exits, q0, start, n, e);
      ghost var dead := Sub64(now, lastOutputTime) > ticks;
      halt := if more then Running else Drained(dead);
      HaltOfLast(halt, more, dead);
      MovedOut(stream, StreamNow(), exits, e, blocks, holes, halt);
      TurnLeaves(halt, exits, e, ticks, late, tooLate, old(lastOutputTime), lastOutputTime);
      exits', n' := exits + [e], n + holes + 1;
    }

    /** The packet leaves, and the work on the ring goes on behind it. */
    method LeaveSlot(idx: Seq16, holes: nat, handed: bool, now: nat, ticks: nat, ghost exits: seq<Exit>,
                     ghost q0: Ring, ghost start: Seq16, ghost n: nat, ghost e: Exit)
      returns (more: bool, blocks: seq<Block>)
      requires RingOk() && Ready() && Working(exits, q0, start, n, ticks) && NextIn(queue[..], outputIdx, holes)
      requires idx == At(outputIdx, holes) && queue[idx] == Some(e.packet) && e.time == now && e.handed == handed
      requires Timely(e, ticks)
      modifies `stats, `tooLate, `flowBufferStart, `lastSeqOutput, `delivered, queue, `queueSize, `outputIdx,
               `lastOutputTime, `hasItems
      ensures RingOk() && Ready() && StreamKnown() && Working(exits + [e], q0, start, n + holes + 1, ticks)
      ensures BehindEmpty() && delivered == old(delivered) + blocks && Excess() == old(Excess())
      ensures stats == Lose(old(stats), Jump(old(StreamNow()), e)) && blocks == Emitted(old(StreamNow()), e)
      ensures StreamNow() == StreamStep(old(StreamNow()), e)
      ensures if more then Count(queue[..]) < old(Count(queue[..])) && queueSize > 0 else queueSize == 0
      ensures tooLate == if handed then 0 else old(tooLate)
      ensures lastOutputTime == if more || old(lastOutputTime) == 0 then now else old(lastOutputTime)
      ensures hasItems == (old(hasItems) && (more || Sub64(now, lastOutputTime) <= ticks))
    {
      RingHasSlots(this);
      InPlaceOf(this);
      ReadyKnown(this, idx);
      WorkingParts(this, exits, q0, start, n, ticks);
      HolesIff(outputIdx, holes);
      hide *;
      ExitStep(exits, q0, queue[..], start, n, holes, ticks, e);
      more, blocks := Leave(idx, queue[idx].value, holes, handed, now, ticks);
      WorkingIs(this, exits + [e], q0, start, n + holes + 1, ticks);
      BehindIs(this, idx);
      KnownReady(this);
    }

    /** One turn on its own: arrivals may come between the turns of the output loop. */
    method TurnAlone(now: nat, later: nat, ticks: nat) returns (more: bool, blocks: seq<Block>, ghost halt: Halt)
      requires Valid() && queueSize > 0
      modifies `stats, `tooLate, `flowBufferStart, `lastSeqOutput, `delivered, queue, `queueSize, `outputIdx,
               `lastOutputTime, `hasItems
      ensures Valid() && (old(Clean()) ==> Clean()) && delivered == old(delivered) + blocks
      ensures if halt.FullCircle? then old(Excess()) > 0 && Excess() == 0 else Excess() == old(Excess())
      ensures hasItems == (old(hasItems) && !Restarts(halt))
    {
      ValidParts(this);
      FlowingReady(this);
      ghost var r := StartNow(now, _ => later, ticks);
      StartIs(this, r);
      AdvancedStart(queue[..], outputIdx, ticks);
      WorkingIs(this, [], queue[..], outputIdx, 0, ticks);
      hide *;
      ghost var exits, n, lost;
      more, blocks, exits, n, lost, halt := Turn(now, later, ticks, [], r.ring, r.outputIdx, 0);
      WorkingParts(this, exits, r.ring, r.outputIdx, n, ticks);
      ReadyFlowing(this);
      AdvancedEnd(exits, r.ring, queue[..], r.outputIdx, n, ticks);
      ValidIs(this);
      CleanIs(this, r);
    }

    /** Finds the next packet and decides whether it leaves now. */
    method Choose(now: nat, later: nat, ticks: nat)
      returns (leaves: bool, idx: Seq16, holes: nat, handed: bool, ghost halt: Halt)
      requires RingOk() && queueSize > 0
      modifies `stats, `tooLate, `hasItems, `queueSize
      ensures RingOk() && (leaves <==> halt.Running?) && !halt.Drained? && !halt.Idle? && !halt.Stopped?
      ensures if halt.FullCircle? then AllEmpty(queue[..]) && old(Excess()) > 0 && Excess() == 0
              else queueSize == old(queueSize)
      ensures leaves ==> NextIn(queue[..], outputIdx, holes) && idx == At(outputIdx, holes)
      ensures leaves ==> Timely(Exit(queue[idx].value, later, handed), ticks)
      ensures tooLate == if halt.TooOld? || (leaves && !handed) then old(tooLate) + 1 else old(tooLate)
      ensures (leaves && !handed ==> tooLate <= 100) && (halt.TooOld? ==> tooLate > 100)
      ensures hasItems == (old(hasItems) && !Restarts(halt))
      ensures !leaves ==> Halts(halt, now, later, ticks)
      ensures stats == Lose(old(stats), if leaves then holes else LostAtEnd(halt))
    {
      RingHasSlots(this);
      hide RingOk, Excess, Timely, Due, Expired, Reached, At, ClearedUpTo, AllEmpty;
      var found;
      leaves, handed := false, false;
      found, idx, holes, halt := Locate(now, ticks);
      if found {
        leaves, handed := Judge(queue[idx].value, later, ticks);
        if !leaves {
          halt := if handed then Early(holes, later, false) else TooOld(holes);
        }
      }
    }

    /** What holds when a turn was the last one. */
    ghost predicate Halts(halt: Halt, now: nat, later: nat, ticks: nat)
      reads `queueSize, `outputIdx, queue
    {
      && queue.Length == QUEUE_MAX
      && (halt.Drained? ==> queueSize == 0)
      && (halt.FullCircle? ==> queueSize == 0 && AllEmpty(queue[..]))
      && (halt.TooOld? ==>
           NextIn(queue[..], outputIdx, halt.holes)
           && Reached(queue[At(outputIdx, halt.holes)].value, halt.holes, now, ticks)
           && Expired(queue[At(outputIdx, halt.holes)].value, later, ticks))
      && (halt.Early? ==>
           halt.time == (if halt.earlier then now else later)
           && Waits(queue[..], outputIdx, halt.holes, halt.time, halt.earlier, ticks))
    }

    /** Hands the packet over, or not, and takes it out. */
    method Leave(idx: Seq16, b: Packet, holes: nat, handed: bool, now: nat, ticks: nat)
      returns (more: bool, blocks: seq<Block>)
      requires RingOk() && queue[idx] == Some(b) && lastSeqOutput < UINT32 && Labelled(delivered) && StreamKnown()
      requires b.seqNr == idx && (holes > 0 <==> idx != outputIdx)
      modifies `stats, `tooLate, `flowBufferStart, `lastSeqOutput, `delivered, queue, `queueSize, `outputIdx,
               `lastOutputTime, `hasItems
      ensures RingOk() && lastSeqOutput < UINT32 && Labelled(delivered) && StreamKnown()
      ensures queue[..] == old(queue[..])[idx := None] && outputIdx == Next(idx) && Excess() == old(Excess())
      ensures delivered == old(delivered) + blocks && blocks == Emitted(old(StreamNow()), Exit(b, now, handed))
      ensures StreamNow() == StreamStep(old(StreamNow()), Exit(b, now, handed))
      ensures stats == Lose(old(stats), Jump(old(StreamNow()), Exit(b, now, handed)))
      ensures more ==> Count(queue[..]) < old(Count(queue[..]))
      ensures tooLate == (if handed then 0 else old(tooLate)) && (more <==> queueSize > 0)
      ensures lastOutputTime == if more || old(lastOutputTime) == 0 then now else old(lastOutputTime)
      ensures hasItems == (old(hasItems) && (more || Sub64(now, lastOutputTime) <= ticks))
    {
      RingHasSlots(this);
      hide RingOk, Excess, Count, Labelled;
      blocks := [];
      if handed {
        var block := Deliver(b, holes);
        blocks := [block];
      }
      var drained := Remove(idx, now, ticks);
      more := !drained;
    }

    /** `receiver_output`, until nothing more is due: `clock(i)` is read for the i-th packet looked at. `Since` says
        what it did to the state `r` that it found. */
    method Output(now: nat, clock: nat -> nat, ticks: nat, shutdown: nat -> bool)
      returns (blocks: seq<Block>, ghost r: Start, ghost exits: seq<Exit>, ghost n: nat, ghost halt: Halt)
      requires Valid()
      modifies `stats, `tooLate, `flowBufferStart, `lastSeqOutput, `delivered, queue, `queueSize, `outputIdx,
               `lastOutputTime, `hasItems
      ensures Valid() && delivered == old(delivered) + blocks && (old(Clean()) ==> Clean())
      ensures r == old(StartNow(now, clock, ticks)) && Since(r, blocks, exits, n, halt)
      ensures Finished(halt, exits, now, clock, ticks, shutdown)
    {
      ValidParts(this);
      FlowingReady(this);
      r := StartNow(now, clock, ticks);
      StartIs(this, r);
      hide *;
      blocks, exits, n, halt := Drain(now, clock, ticks, shutdown, r);
      SinceParts(this, r, blocks, exits, n, halt);
      ReadyFlowing(this);
      AdvancedEnd(exits, r.ring, queue[..], r.outputIdx, n, ticks);
      ValidIs(this);
      CleanIs(this, r);
    }

    /** Nothing is left to do: nothing is stored, the next packet has to wait, or the flow starts over or shuts down. */
    ghost predicate Finished(halt: Halt, exits: seq<Exit>, now: nat, clock: nat -> nat, ticks: nat,
                             shutdown: nat -> bool)
      reads `queueSize, `outputIdx, queue
    {
      && !halt.Running?
      && (halt.Idle? ==> queueSize == 0 && exits == [])
      && (halt.Stopped? ==> queueSize > 0 && shutdown(|exits|))
      && (halt.Drained? ==> exits != [] && Halts(halt, now, clock(|exits| - 1), ticks))
      && (!halt.Drained? ==> Halts(halt, LastTime(exits, now), clock(|exits|), ticks))
    }

    /** What the turns have done since the state that `r` describes: the packets of `exits` left in ring order, each
        from its slot and as its age says, and exactly their slots have changed; `blocks`, with the flags that the
        stream gives them, were handed over; the counters and the surplus are what follows from that. */
    ghost predicate Since(r: Start, blocks: seq<Block>, exits: seq<Exit>, n: nat, halt: Halt)
      reads this, queue
    {
      && RingOk() && Ready() && Working(exits, r.ring, r.outputIdx, n, r.ticks)
      && (r.known ==> StreamKnown()) && delivered == r.delivered + blocks
      && blocks == BlocksOf(r.stream, exits) && StreamNow() == StreamAfter(r.stream, exits)
      && stats == Lose(r.stats, LostSoFar(r.stream, exits) + LostAtEnd(halt))
      && (if halt.FullCircle? then r.excess > 0 && Excess() == 0 else Excess() == r.excess)
      && (r.behindEmpty ==> BehindEmpty())
      && Counted(halt, exits, r.tooLate, r.lastOutputTime, tooLate, lastOutputTime, r.clock, r.ticks)
      && hasItems == (r.hasItems && !Restarts(halt))
    }

    ghost function StartNow(now: nat, clock: nat -> nat, ticks: nat): Start
      reads this, queue
      requires queue.Length == QUEUE_MAX
    {
      Start(queue[..], outputIdx, StreamNow(), delivered, stats, tooLate, lastOutputTime, Excess(), hasItems,
            StreamKnown(), BehindEmpty(), now, clock, ticks)
    }

    /** One turn, taken into account. */
    method Proceed(now: nat, later: nat, ticks: nat, blocks: seq<Block>, ghost r: Start, ghost exits: seq<Exit>,
                   ghost n: nat)
      returns (more: bool, blocks': seq<Block>, ghost exits': seq<Exit>, ghost n': nat, ghost halt: Halt)
      requires Since(r, blocks, exits, n, Running) && queueSize > 0
      requires now == LastTime(exits, r.now) && later == r.clock(|exits|) && ticks == r.ticks
      modifies `stats, `tooLate, `flowBufferStart, `lastSeqOutput, `delivered, queue, `queueSize, `outputIdx,
               `lastOutputTime, `hasItems
      ensures Since(r, blocks', exits', n', halt) && (more <==> halt.Running?)
      ensures more ==>
                |exits'| == |exits| + 1 && LastTime(exits', r.now) == later && queueSize > 0
                && Count(queue[..]) < old(Count(queue[..]))
      ensures !more ==>
                Halts(halt, now, later, ticks) && !halt.Idle? && !halt.Stopped?
                && if halt.Drained? then exits' != [] else exits' == exits
    {
      hide RingOk, Excess, Count, AllEmpty, Labelled, Working, At, BlocksOf, StreamAfter, Moved, StreamNow, Ready,
           StreamKnown, BehindEmpty, Counted, Turned, NextIn, Waits, Halts, LostSoFar, Lose;
      var bs;
      ghost var lost;
      more, bs, exits', n', lost, halt := Turn(now, later, ticks, exits, r.ring, r.outputIdx, n);
      CountTurn(halt, exits, exits', r.tooLate, r.lastOutputTime, old(tooLate), tooLate, old(lastOutputTime),
                lastOutputTime, later, r.clock, ticks);
      MovedMore(r.stream, old(StreamNow()), StreamNow(), exits, exits', blocks, bs, lost, halt);
      LoseMore(r.stats, LostSoFar(r.stream, exits), lost);
      blocks' := blocks + bs;
    }

    method Drain(now: nat, clock: nat -> nat, ticks: nat, shutdown: nat -> bool, ghost r: Start)
      returns (blocks: seq<Block>, ghost exits: seq<Exit>, ghost n: nat, ghost halt: Halt)
      requires RingOk() && Ready() && r == StartNow(now, clock, ticks)
      modifies `stats, `tooLate, `flowBufferStart, `lastSeqOutput, `delivered, queue, `queueSize, `outputIdx,
               `lastOutputTime, `hasItems
      ensures Since(r, blocks, exits, n, halt) && Finished(halt, exits, now, clock, ticks, shutdown)
    {
      blocks, exits, n, halt := [], [], 0, Running;
      SinceStart(this, now, clock, ticks);
      hide Since, StartNow, Halts, Count, Finished;
      var time, turn := now, 0;
      while queueSize > 0 && !shutdown(turn)
        invariant Since(r, blocks, exits, n, Running) && halt.Running? && turn == |exits|
        invariant time == LastTime(exits, now) && (queueSize > 0 || exits == [])
        decreases Count(queue[..])
      {
        var more;
        ghost var earlier := exits;
        more, blocks, exits, n, halt := Proceed(time, clock(turn), ticks, blocks, r, exits, n);
        if !more {
          FinishedLast(this, halt, earlier, exits, now, clock, ticks, shutdown);
          return;
        }
        time := clock(turn);
        turn := turn + 1;
      }
      halt := if queueSize == 0 then Idle else Stopped;
      SinceEnd(this, r, blocks, exits, n, halt, shutdown);
    }

    /** The flow starts over with the next packet, as on a change of flow id. */
    method Reset()
      requires Valid()
      modifies `hasItems
      ensures Valid() && !hasItems && (old(Clean()) ==> Clean())
    {
      hide Labelled, RingOk, M.List.Valid, StreamKnown, NoneZero;
      hasItems := false;
    }

    /** The statistics are taken and cleared by the thread that reports them. */
    method TakeStats() returns (taken: Stats)
      requires Valid()
      modifies `stats
      ensures Valid() && taken == old(stats) && stats == Stats(0, 0, 0, 0, 0, 0)
    {
      hide Labelled, RingOk, M.List.Valid, StreamKnown;
      taken := stats;
      stats := Stats(0, 0, 0, 0, 0, 0);
    }

    /** A pass over the missing list against the ring. */
    method NackOutput(clock: nat -> nat, configs: nat -> M.Config, peers: nat -> M.PeerState, authenticated: bool,
                      canSend: bool)
      returns (groups: seq<seq<Seq16>>)
      requires Valid()
      modifies missing, missing.repr, missing.nacks
      ensures Valid() && missing.repr == old(missing.repr)
      ensures !authenticated ==>
                && missing.contents == old(missing.contents) && groups == []
                && missing.nacks[..missing.nacksCounter] == old(missing.nacks[..missing.nacksCounter])
      ensures authenticated ==>
                var env := M.Env(clock, queue[..], configs, peers);
                && missing.contents == M.Survivors(env, old(missing.contents))
                && missing.Groups(groups, M.PassGroups(env, old(missing.contents), canSend,
                                                       old(missing.nacks[..missing.nacksCounter])))
    {
      RingHasSlots(this);
      hide Labelled, RingOk, M.List.Valid, StreamKnown, AllEmpty, M.Survivors, M.PassGroups;
      groups := missing.NackOutput(queue, clock, configs, peers, authenticated, canSend);
    }
  }

  /** A zero-length packet is the exception: it survives a restart, so the slot behind the new output
      index can be occupied. */
  method ZeroLengthStays(a: Arrival, b: Arrival) returns (f: Flow)
    requires a.seqNr == 5 && a.len == 0 && !a.retry && b.seqNr == 6 && !b.retry
    ensures f.Valid() && !f.BehindEmpty()
  {
    f := OnlyEmptyPacket(a);
    f.Reset();
    FirstOf(f, b);
    hide *;
    var code := f.Enqueue(b);
  }

  /** A flow that holds one packet, which is empty. */
  method OnlyEmptyPacket(a: Arrival) returns (f: Flow)
    requires a.seqNr == 5 && a.len == 0 && !a.retry
    ensures fresh(f) && fresh(f.queue) && fresh(f.missing) && fresh(f.missing.repr) && f.Valid() && f.Excess() == 0
    ensures f.queue.Length == QUEUE_MAX && f.queue[5].Some? && forall i: Seq16 :: SizeOf(f.queue[i]) == 0
  {
    f := new Flow();
    FirstOf(f, a);
    ghost var empty: Ring := f.queue[..];
    hide *;
    var code := f.Enqueue(a);
    OnlyFirst(empty, PacketOf(a, a.now), f.queue[..]);
  }

  lemma FirstOf(f: Flow, a: Arrival)
    requires f.Valid() && !f.hasItems && !a.retry
    ensures f.Fate(a) == First && f.queue.Length == QUEUE_MAX
    ensures Previous(6) == 5 && PacketOf(a, a.now).size == a.len && PacketOf(a, a.now).seqNr == a.seqNr
  {
  }

  lemma OnlyFirst(empty: Ring, p: Packet, q: seq<Option<Packet>>)
    requires AllEmpty(empty) && p.size == 0 && Restarted(empty, 0, 0, p, q)
    ensures |q| == QUEUE_MAX && q[p.seqNr] == Some(p) && forall i: Seq16 :: SizeOf(q[i]) == 0
  {
  }

  lemma AgesOfExits(halt: Halt, exits: seq<Exit>, r: Start, n: nat, late: nat, time: nat)
    requires InTurn(exits, r.ring, r.outputIdx, n, r.ticks)
    requires Counted(halt, exits, r.tooLate, r.lastOutputTime, late, time, r.clock, r.ticks)
    ensures Aged(exits, r.clock, r.ticks)
  {
    hide Sub64, Lates;
    forall i | 0 <= i < |exits| ensures AgeRule(exits[i], r.clock(i), r.ticks) {
      assert Timely(exits[i], r.ticks) && exits[i].time == r.clock(i);
    }
  }

  lemma OneNext(q: Ring, idx: Seq16, h: nat, k: nat)
    requires NextIn(q, idx, h) && NextIn(q, idx, k)
    ensures h == k
  {
    hide ClearedUpTo, At;
    if h < k {
      ClearedBefore(q, idx, h, k);
      assert false;
    } else if k < h {
      ClearedBefore(q, idx, k, h);
      assert false;
    }
  }

  lemma ClearedBefore(q: Ring, idx: Seq16, h: nat, k: nat)
    requires h < k && h < QUEUE_MAX && ClearedUpTo(q, idx, k)
    ensures q[At(idx, h)].None?
  {
    AheadAt(idx, h);
  }

  /** What the output leaves behind. When it comes to the next stored packet, which lies behind a hole only if its
      output time has come or it is too old by the reading before, a packet that is due stays only if it is too old
      and 100 in a row have been dropped; then, and only then, the flow starts over for old packets. Every other
      packet that stays has not been reached or is not due. */
  lemma NothingDueStays(f: Flow, halt: Halt, exits: seq<Exit>, now: nat, clock: nat -> nat, ticks: nat,
                        shutdown: nat -> bool, late0: nat, time0: nat, holes: nat)
    requires f.Finished(halt, exits, now, clock, ticks, shutdown) && f.queueSize > 0 && !halt.Stopped?
    requires Counted(halt, exits, late0, time0, f.tooLate, f.lastOutputTime, clock, ticks)
    requires NextIn(f.queue[..], f.outputIdx, holes)
    ensures var p, t, t0 := f.queue[At(f.outputIdx, holes)].value, clock(|exits|), LastTime(exits, now);
      var reached := holes == 0 || p.targetOutputTime <= t0 || Sub64(t0, p.time) > 2 * ticks;
      var due := p.targetOutputTime <= t || 10 * Sub64(t, p.time) > 11 * ticks;
      && (halt.TooOld? <==> reached && due)
      && (halt.TooOld? ==> Sub64(t, p.time) > 2 * ticks && Lates(exits, late0) >= 100)
      && (halt.Early? <==> !reached || !due)
  {
    hide Lates, SilentSince, Timed, ClearedUpTo, At, Sub64;
    if halt.TooOld? || halt.Early? {
      OneNext(f.queue[..], f.outputIdx, halt.holes, holes);
      ExpiredIsDue(f.queue[At(f.outputIdx, holes)].value, clock(|exits|), ticks);
    }
  }

  lemma ValidParts(f: Flow)
    requires f.Valid()
    ensures f.Flowing() && f.missing.Valid()
    ensures f.missing.nacks.Length == M.MAX_NACKS && f.missing.nacksCounter <= M.MAX_NACKS
    ensures f.queue.Length == QUEUE_MAX
  {
  }

  lemma ValidIs(f: Flow)
    requires f.Flowing() && f.missing.Valid()
    requires f.missing.nacks.Length == M.MAX_NACKS && f.missing.nacksCounter <= M.MAX_NACKS
    ensures f.Valid()
  {
  }

  lemma StartIs(f: Flow, r: Start)
    requires f.queue.Length == QUEUE_MAX && r == f.StartNow(r.now, r.clock, r.ticks)
    ensures r.ring == f.queue[..] && r.outputIdx == f.outputIdx && r.stream == f.StreamNow()
            && r.delivered == f.delivered
    ensures r.stats == f.stats && r.tooLate == f.tooLate && r.lastOutputTime == f.lastOutputTime
    ensures r.excess == f.Excess() && r.hasItems == f.hasItems && r.known == f.StreamKnown()
    ensures r.behindEmpty == f.BehindEmpty() && (f.Clean() <==> r.behindEmpty && NoneZero(r.ring))
  {
  }

  lemma SinceParts(f: Flow, r: Start, blocks: seq<Block>, exits: seq<Exit>, n: nat, halt: Halt)
    requires f.Since(r, blocks, exits, n, halt)
    ensures f.queue.Length == QUEUE_MAX && f.RingOk() && f.Ready() && (r.known ==> f.StreamKnown())
    ensures Advanced(exits, r.ring, f.queue[..], r.outputIdx, n, r.ticks) && f.outputIdx == At(r.outputIdx, n)
    ensures f.delivered == r.delivered + blocks && blocks == BlocksOf(r.stream, exits)
    ensures f.StreamNow() == StreamAfter(r.stream, exits)
    ensures f.stats == Lose(r.stats, LostSoFar(r.stream, exits) + LostAtEnd(halt))
    ensures if halt.FullCircle? then r.excess > 0 && f.Excess() == 0 else f.Excess() == r.excess
    ensures r.behindEmpty ==> f.BehindEmpty()
    ensures Counted(halt, exits, r.tooLate, r.lastOutputTime, f.tooLate, f.lastOutputTime, r.clock, r.ticks)
    ensures f.hasItems == (r.hasItems && !Restarts(halt))
  {
    hide Flow.RingOk, Flow.Ready, Flow.StreamKnown, Flow.StreamNow, Flow.Excess, Flow.BehindEmpty, Advanced, At,
         BlocksOf,
         StreamAfter, Lose, LostSoFar, LostAtEnd, Counted, Restarts;
  }

  lemma CleanIs(f: Flow, r: Start)
    requires f.queue.Length == QUEUE_MAX && (r.behindEmpty ==> f.BehindEmpty())
    requires NoneZero(r.ring) ==> NoneZero(f.queue[..])
    ensures r.behindEmpty && NoneZero(r.ring) ==> f.Clean()
  {
  }

  lemma SinceStart(f: Flow, now: nat, clock: nat -> nat, ticks: nat)
    requires f.RingOk() && f.Ready()
    ensures f.Since(f.StartNow(now, clock, ticks), [], [], 0, Running) && LastTime([], now) == now
  {
    AdvancedStart(f.queue[..], f.outputIdx, ticks);
  }

  lemma SinceEnd(f: Flow, r: Start, blocks: seq<Block>, exits: seq<Exit>, n: nat, halt: Halt,
                 shutdown: nat -> bool)
    requires f.Since(r, blocks, exits, n, Running) && if halt.Idle? then f.queueSize == 0 && exits == []
             else halt.Stopped? && f.queueSize > 0 && shutdown(|exits|)
    ensures f.Since(r, blocks, exits, n, halt) && f.Finished(halt, exits, r.now, r.clock, r.ticks, shutdown)
  {
  }

  lemma FinishedLast(f: Flow, halt: Halt, earlier: seq<Exit>, exits: seq<Exit>, now: nat, clock: nat -> nat, ticks: nat,
                     shutdown: nat -> bool)
    requires !halt.Running? && !halt.Idle? && !halt.Stopped? && if halt.Drained? then exits != [] else exits == earlier
    requires f.Halts(halt, LastTime(earlier, now), clock(|earlier|), ticks)
    ensures f.Finished(halt, exits, now, clock, ticks, shutdown)
  {
  }

  lemma DrainedHalts(f: Flow, halt: Halt, now: nat, later: nat, ticks: nat)
    requires f.queue.Length == QUEUE_MAX && (halt.Running? || (halt.Drained? && f.queueSize == 0))
    ensures f.Halts(halt, now, later, ticks)
  {
  }

  lemma FlowingReady(f: Flow)
    requires f.Flowing()
    ensures f.queue.Length == QUEUE_MAX && f.RingOk() && f.Ready() && (!f.StreamKnown() ==> !f.hasItems)
    ensures Labelled(f.delivered)
  {
  }

  lemma ReadyFlowing(f: Flow)
    requires f.RingOk() && f.Ready() && (f.hasItems ==> f.StreamKnown())
    ensures f.Flowing()
  {
  }

  lemma AdvancedStart(q: Ring, start: Seq16, ticks: nat)
    ensures Advanced([], q, q, start, 0, ticks) && At(start, 0) == start
  {
  }

  lemma AdvancedEnd(exits: seq<Exit>, q0: Ring, q: Ring, start: Seq16, n: nat, ticks: nat)
    requires Advanced(exits, q0, q, start, n, ticks)
    ensures n <= QUEUE_MAX && InTurn(exits, q0, start, n, ticks) && Accounted(exits, q0, q)
    ensures NoneZero(q0) ==> NoneZero(q)
  {
  }

  lemma ExitHoles(f: Flow, exits: seq<Exit>, q0: Ring, start: Seq16, n: nat, ticks: nat, holes: nat)
    requires f.RingOk() && f.Working(exits, q0, start, n, ticks) && NextIn(f.queue[..], f.outputIdx, holes)
    ensures var idx := At(f.outputIdx, holes);
      holes == Ahead(f.StreamNow().idx, idx) && f.queue[idx].Some? && f.queue[idx].value.seqNr == idx
  {
    InPlaceOf(f);
    AheadAt(f.outputIdx, holes);
    hide At, Ahead, Advanced;
  }

  lemma WorkingParts(f: Flow, exits: seq<Exit>, q0: Ring, start: Seq16, n: nat, ticks: nat)
    requires f.Working(exits, q0, start, n, ticks)
    ensures f.queue.Length == QUEUE_MAX && Advanced(exits, q0, f.queue[..], start, n, ticks)
            && f.outputIdx == At(start, n)
    ensures f.StreamNow().idx == f.outputIdx
  {
  }

  lemma WorkingIs(f: Flow, exits: seq<Exit>, q0: Ring, start: Seq16, n: nat, ticks: nat)
    requires f.queue.Length == QUEUE_MAX && Advanced(exits, q0, f.queue[..], start, n, ticks)
             && f.outputIdx == At(start, n)
    ensures f.Working(exits, q0, start, n, ticks)
  {
  }

  lemma BehindIs(f: Flow, idx: Seq16)
    requires f.queue.Length == QUEUE_MAX && Previous(f.outputIdx) == idx && f.queue[idx].None?
    ensures f.BehindEmpty()
  {
  }

  lemma HaltOfLast(halt: Halt, more: bool, dead: bool)
    requires halt == if more then Running else Drained(dead)
    ensures Restarts(halt) <==> !more && dead
  {
  }

  lemma HolesIff(idx: Seq16, holes: nat)
    requires holes < QUEUE_MAX
    ensures holes > 0 <==> At(idx, holes) != idx
  {
  }

  lemma ReadyKnown(f: Flow, i: Seq16)
    requires f.Ready() && f.queue.Length == QUEUE_MAX && f.queue[i].Some?
    ensures f.lastSeqOutput < UINT32 && Labelled(f.delivered) && f.StreamKnown()
  {
  }

  lemma KnownReady(f: Flow)
    requires f.lastSeqOutput < UINT32 && Labelled(f.delivered) && f.StreamKnown()
    ensures f.Ready()
  {
  }

  lemma InPlaceOf(f: Flow)
    requires f.RingOk()
    ensures InPlace(f.queue[..])
  {
  }

  lemma RingHasSlots(f: Flow)
    requires f.RingOk()
    ensures f.queue.Length == QUEUE_MAX
  {
  }

  /** What storing a non-empty packet does to a clean ring. */
  lemma CleanFacts(q: Ring, outputIdx: Seq16, a: Arrival)
    ensures a.seqNr != Previous(outputIdx) && a.len > 0 && NoneZero(q) && q[Previous(outputIdx)].None? ==>
              var q' := q[a.seqNr := Some(PacketOf(a, a.packetTime))]; q'[Previous(outputIdx)].None? && NoneZero(q')
  {
  }

  /** When the byte count has reached zero, what may be left in a slot has no bytes. */
  lemma LeftoverSize(q: Ring, queueSize: nat, i: Seq16)
    requires Bytes(q) <= queueSize && (queueSize == 0 || AllEmpty(q))
    ensures SizeOf(q[i]) == 0
  {
    BytesAtLeast(q, i);
  }
}
