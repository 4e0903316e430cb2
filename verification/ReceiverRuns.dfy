/** Whole runs of the receiver's flow: from the arrival of a packet to the time at which it is handed over. */
module ReceiverRuns {
  import opened ReceiverFlow
  import opened ReceiverQueue
  import M = MissingList

  /** One call: a packet arrives, the output runs, requests are sent, the flow id changes, or the statistics are
      taken. */
  datatype Op = Arrive(a: Arrival)
    | Serve(now: nat, clock: nat -> nat, ticks: nat, shutdown: nat -> bool)
    | Ask(times: nat -> nat, configs: nat -> M.Config, peers: nat -> M.PeerState, authenticated: bool, canSend: bool)
    | Restart
    | Report

  /** A packet that left the ring: the call in which it arrived, and the call and the turn in which it left. */
  datatype Passed = Passed(packet: Packet, origin: nat, served: nat, turn: nat, handed: bool)

  /** The calls so far, with what became of each arrival (`Ignored` for the other calls) and whether the flow was
      running before each call; the call in which the packet in each slot arrived; and the packets that left. */
  datatype History = History(ops: seq<Op>, fates: seq<Kind>, running: seq<bool>, born: seq<nat>, passed: seq<Passed>)

  // ----- a packet and its arrival

  predicate Keeps(kind: Kind) { kind == First || kind == Stored }

  /** Call `i` is an arrival that was stored. */
  ghost predicate Kept(h: History, i: nat) {
    i < |h.ops| && i < |h.fates| && h.ops[i].Arrive? && Keeps(h.fates[i])
  }

  /** The time that its place in the output counts from. */
  ghost function Base(h: History, i: nat): nat
    requires Kept(h, i)
  {
    if h.fates[i] == First then h.ops[i].a.now else h.ops[i].a.packetTime
  }

  /** The packet is that of arrival `i`, to be put out once the buffer time has passed. */
  ghost predicate StoredBy(h: History, i: nat, p: Packet) {
    Kept(h, i) && Carries(Some(p), h.ops[i].a, Base(h, i))
  }

  /** What has come over the packets that were stored: as long as a packet is, its slot tells its arrival. */
  ghost predicate Origins(h: History, q: seq<Option<Packet>>) {
    && |q| == |h.born| == QUEUE_MAX
    && forall s: Seq16 :: q[s].Some? ==> q[s].value.seqNr == s && StoredBy(h, h.born[s], q[s].value)
  }

  // ----- the packets that left

  /** In the numbers of the arrival: by the clock reading `t` the packet had been buffered for the recovery
      time, or it was older than 1.1 times the buffer; and it was handed over exactly if it was no older than
      twice the buffer. */
  predicate InTime(a: Arrival, base: nat, t: nat, ticks: nat, handed: bool) {
    var age := (t - a.time) % 0x1_0000_0000_0000_0000;
    && (t >= base + a.recoveryTicks || 10 * age > 11 * ticks)
    && (handed <==> age <= 2 * ticks)
  }

  ghost predicate PassOk(h: History, e: Passed) {
    && StoredBy(h, e.origin, e.packet)
    && e.origin < e.served < |h.ops| && h.ops[e.served].Serve?
    && var serve := h.ops[e.served];
      InTime(h.ops[e.origin].a, Base(h, e.origin), serve.clock(e.turn), serve.ticks, e.handed)
  }

  ghost predicate Passes(h: History) {
    forall k :: 0 <= k < |h.passed| ==> PassOk(h, h.passed[k])
  }

  /** No arrival leaves twice, or leaves and is still stored. */
  ghost predicate Once(h: History, q: seq<Option<Packet>>)
    requires |q| == |h.born| == QUEUE_MAX
  {
    && (forall k, l :: 0 <= k < l < |h.passed| ==> h.passed[k].origin != h.passed[l].origin)
    && (forall k, s: Seq16 :: 0 <= k < |h.passed| && q[s].Some? ==> h.passed[k].origin != h.born[s])
  }

  /** A later call took the slot of arrival `i`: another packet with its number, or the start of a flow. */
  ghost predicate Displaced(h: History, i: nat)
    requires Kept(h, i)
  {
    exists j :: i < j && Kept(h, j) && (h.fates[j] == First || h.ops[j].a.seqNr == h.ops[i].a.seqNr)
  }

  ghost predicate HasLeft(h: History, i: nat) {
    exists k :: 0 <= k < |h.passed| && h.passed[k].origin == i
  }

  /** No packet is lost: every arrival that was stored is still stored, has left, or was displaced. */
  ghost predicate Conserved(h: History, q: seq<Option<Packet>>)
    requires |q| == |h.born| == QUEUE_MAX
  {
    forall i: nat :: Kept(h, i) ==>
      var s := h.ops[i].a.seqNr; (q[s].Some? && h.born[s] == i) || HasLeft(h, i) || Displaced(h, i)
  }

  /** The packets handed over, in order. */
  ghost function HandedOver(passed: seq<Passed>): seq<Packet> {
    if passed == [] then []
    else var e := passed[|passed| - 1]; HandedOver(passed[..|passed| - 1]) + if e.handed then [e.packet] else []
  }

  ghost function PacketsIn(blocks: seq<Block>): seq<Packet> {
    if blocks == [] then [] else PacketsIn(blocks[..|blocks| - 1]) + [blocks[|blocks| - 1].packet]
  }

  // ----- when the flow starts

  ghost predicate StepsOn(op: Op, kind: Kind, before: bool, after: bool) {
    match op
    case Arrive(a) =>
      && (kind == First <==> !before && !a.retry) && (kind == Ignored <==> !before && a.retry)
      && (kind == First || kind == Dupe || kind == Stored ==> after) && (kind == Ignored ==> !after)
    case Serve(_, _, _, _) => after ==> before
    case Restart => !after
    case _ => after == before
  }

  ghost predicate Flows(h: History, now: bool) {
    && |h.ops| == |h.fates| && |h.running| == |h.ops| + 1 && !h.running[0] && h.running[|h.ops|] == now
    && forall i :: 0 <= i < |h.ops| ==> StepsOn(h.ops[i], h.fates[i], h.running[i], h.running[i + 1])
  }

  // ----- duplicates and late packets

  /** Arrival `j` was stored before arrival `i` came with the same number and source time. */
  ghost predicate Twin(h: History, j: nat, i: nat) {
    && j < i < |h.ops| && Kept(h, j) && h.ops[i].Arrive?
    && h.ops[j].a.seqNr == h.ops[i].a.seqNr && h.ops[j].a.sourceTime == h.ops[i].a.sourceTime
  }

  ghost predicate LeftBefore(h: History, j: nat, i: nat) {
    exists k :: 0 <= k < |h.passed| && h.passed[k].origin == j && h.passed[k].served < i
  }

  ghost predicate DisplacedBefore(h: History, j: nat, i: nat)
    requires Kept(h, j)
  {
    exists m :: j < m < i && Kept(h, m) && (h.fates[m] == First || h.ops[m].a.seqNr == h.ops[j].a.seqNr)
  }

  /** A packet is refused as a duplicate only if its twin was stored and has not left, and stored only if every
      twin has left or was displaced; one that is refused as late comes out of order, more than 1.1 times the
      buffer after its time. */
  ghost predicate FateOk(h: History, i: nat)
    requires i < |h.ops| && i < |h.fates|
  {
    h.ops[i].Arrive? ==>
      match h.fates[i]
      case Dupe => exists j: nat :: Twin(h, j, i) && !LeftBefore(h, j, i)
      case Stored => forall j: nat :: Twin(h, j, i) ==> LeftBefore(h, j, i) || DisplacedBefore(h, j, i)
      case Late =>
        var a := h.ops[i].a; a.packetTime < a.lastPacketTs && 10 * (a.now - a.packetTime) > 11 * a.recoveryTicks
      case _ => true
  }

  ghost predicate Fates(h: History) {
    |h.ops| == |h.fates| && forall i :: 0 <= i < |h.ops| ==> FateOk(h, i)
  }

  /** What is known of a flow after the calls of a history. */
  ghost predicate Told(f: Flow, h: History)
    reads f, f.queue, f.missing, f.missing.repr
  {
    && f.Valid()
    && Flows(h, f.hasItems)
    && Origins(h, f.queue[..])
    && Passes(h)
    && Once(h, f.queue[..])
    && Conserved(h, f.queue[..])
    && Fates(h)
    && PacketsIn(f.delivered) == HandedOver(h.passed)
  }

  // ----- a call in which nothing leaves

  ghost function Noted(h: History, op: Op, kind: Kind, after: bool): History {
    History(h.ops + [op], h.fates + [kind], h.running + [after],
            if op.Arrive? && Keeps(kind) && op.a.seqNr < |h.born| then h.born[op.a.seqNr := |h.ops|]
              else h.born, h.passed)
  }

  /** How a call changes the ring: a stored packet takes its slot, and the start of a flow may clear others. */
  ghost predicate Changes(op: Op, kind: Kind, q: seq<Option<Packet>>, q': seq<Option<Packet>>) {
    && |q| == |q'| == QUEUE_MAX
    && if op.Arrive? && kind == Stored then q' == q[op.a.seqNr := Some(PacketOf(op.a, op.a.packetTime))]
       else if op.Arrive? && kind == First then
         && q'[op.a.seqNr] == Some(PacketOf(op.a, op.a.now))
         && forall s: Seq16 :: s != op.a.seqNr ==> q'[s] == q[s] || q'[s].None?
       else q' == q
  }

  lemma NotedKept(h: History, op: Op, kind: Kind, after: bool, i: nat)
    requires |h.ops| == |h.fates|
    ensures var h' := Noted(h, op, kind, after);
      && (Kept(h', i) <==> Kept(h, i) || (i == |h.ops| && op.Arrive? && Keeps(kind)))
      && (i < |h.ops| ==> h'.ops[i] == h.ops[i] && h'.fates[i] == h.fates[i])
  {
  }

  lemma NotedStored(h: History, op: Op, kind: Kind, after: bool, i: nat, p: Packet)
    requires |h.ops| == |h.fates| && i < |h.ops|
    ensures StoredBy(Noted(h, op, kind, after), i, p) <==> StoredBy(h, i, p)
  {
  }

  lemma NotedFlows(h: History, now: bool, op: Op, kind: Kind, after: bool)
    requires Flows(h, now) && StepsOn(op, kind, now, after)
    ensures Flows(Noted(h, op, kind, after), after)
  {
    hide StepsOn;
  }

  lemma NotedOrigins(h: History, op: Op, kind: Kind, after: bool, q: seq<Option<Packet>>, q': seq<Option<Packet>>)
    requires |h.ops| == |h.fates| && Origins(h, q) && Changes(op, kind, q, q')
    ensures Origins(Noted(h, op, kind, after), q')
  {
    var h' := Noted(h, op, kind, after);
    forall s: Seq16 | q'[s].Some? ensures q'[s].value.seqNr == s && StoredBy(h', h'.born[s], q'[s].value) {
      if op.Arrive? && Keeps(kind) && s == op.a.seqNr {
      } else {
        NotedStored(h, op, kind, after, h.born[s], q[s].value);
      }
    }
  }

  lemma NotedPasses(h: History, op: Op, kind: Kind, after: bool)
    requires |h.ops| == |h.fates| && Passes(h)
    ensures Passes(Noted(h, op, kind, after))
  {
    var h' := Noted(h, op, kind, after);
    hide InTime;
    forall k | 0 <= k < |h'.passed| ensures PassOk(h', h'.passed[k]) {
      assert PassOk(h, h.passed[k]);
      NotedStored(h, op, kind, after, h.passed[k].origin, h.passed[k].packet);
    }
  }

  lemma NotedOnce(h: History, op: Op, kind: Kind, after: bool, q: seq<Option<Packet>>, q': seq<Option<Packet>>)
    requires Origins(h, q) && Passes(h) && Once(h, q) && Changes(op, kind, q, q')
    ensures Once(Noted(h, op, kind, after), q')
  {
    hide InTime, StoredBy;
    forall k | 0 <= k < |h.passed| ensures h.passed[k].origin < |h.ops| {
      assert PassOk(h, h.passed[k]);
    }
  }

  lemma NotedConserved(h: History, op: Op, kind: Kind, after: bool, q: seq<Option<Packet>>, q': seq<Option<Packet>>)
    requires |h.ops| == |h.fates| && |h.born| == |q| == QUEUE_MAX && Conserved(h, q) && Changes(op, kind, q, q')
    ensures Conserved(Noted(h, op, kind, after), q')
  {
    var h', n := Noted(h, op, kind, after), |h.ops|;
    forall i: nat | Kept(h', i)
      ensures var s := h'.ops[i].a.seqNr; (q'[s].Some? && h'.born[s] == i) || HasLeft(h', i) || Displaced(h', i)
    {
      NotedKept(h, op, kind, after, i);
      NotedKept(h, op, kind, after, n);
      if i < n {
        if HasLeft(h, i) {
          var k :| 0 <= k < |h.passed| && h.passed[k].origin == i;
          assert h'.passed[k].origin == i;
        } else if Displaced(h, i) {
          var j :| i < j && Kept(h, j) && (h.fates[j] == First || h.ops[j].a.seqNr == h.ops[i].a.seqNr);
          NotedKept(h, op, kind, after, j);
        } else if op.Arrive? && Keeps(kind) && (kind == First || op.a.seqNr == h.ops[i].a.seqNr) {
          assert i < n && Kept(h', n);
        }
      }
    }
  }

  /** How the decision about an arrival comes from the packet in its slot. */
  ghost predicate Judged(op: Op, kind: Kind, q: seq<Option<Packet>>) {
    op.Arrive? && |q| == QUEUE_MAX ==>
      var a, slot := op.a, q[op.a.seqNr];
      && (kind == Dupe ==> slot.Some? && slot.value.sourceTime == a.sourceTime)
      && (kind == Stored ==> slot.None? || slot.value.sourceTime != a.sourceTime)
      && (kind == Late ==> a.packetTime < a.lastPacketTs && 10 * (a.now - a.packetTime) > 11 * a.recoveryTicks)
  }

  lemma NotedFateBefore(h: History, op: Op, kind: Kind, after: bool, i: nat)
    requires Fates(h) && i < |h.ops|
    ensures FateOk(Noted(h, op, kind, after), i)
  {
    var h' := Noted(h, op, kind, after);
    assert FateOk(h, i);
    forall j: nat | j < |h.ops| ensures Kept(h', j) <==> Kept(h, j) {
      NotedKept(h, op, kind, after, j);
    }
    if h.ops[i].Arrive? && h.fates[i] == Dupe {
      var j: nat :| Twin(h, j, i) && !LeftBefore(h, j, i);
      assert Twin(h', j, i) && !LeftBefore(h', j, i);
    } else if h.ops[i].Arrive? && h.fates[i] == Stored {
      forall j: nat | Twin(h', j, i) ensures LeftBefore(h', j, i) || DisplacedBefore(h', j, i) {
        assert Twin(h, j, i);
        if LeftBefore(h, j, i) {
        } else {
          var m :| j < m < i && Kept(h, m) && (h.fates[m] == First || h.ops[m].a.seqNr == h.ops[j].a.seqNr);
          assert Kept(h', m);
        }
      }
    }
  }

  lemma NotedFateNow(h: History, op: Op, kind: Kind, after: bool, q: seq<Option<Packet>>)
    requires |h.ops| == |h.fates| && Origins(h, q) && Passes(h) && Once(h, q) && Conserved(h, q) && Judged(op, kind, q)
    ensures FateOk(Noted(h, op, kind, after), |h.ops|)
  {
    var h', n := Noted(h, op, kind, after), |h.ops|;
    if op.Arrive? && kind == Dupe {
      var j := h.born[op.a.seqNr];
      NotedKept(h, op, kind, after, j);
      assert StoredBy(h, j, q[op.a.seqNr].value);
      forall k | 0 <= k < |h'.passed| ensures h'.passed[k].origin != j {
      }
      assert Twin(h', j, n) && !LeftBefore(h', j, n);
    } else if op.Arrive? && kind == Stored {
      forall j: nat | Twin(h', j, n) ensures LeftBefore(h', j, n) || DisplacedBefore(h', j, n) {
        NotedKept(h, op, kind, after, j);
        TwinGone(h, q, op.a, j);
        if HasLeft(h, j) {
          var k :| 0 <= k < |h.passed| && h.passed[k].origin == j;
          assert PassOk(h, h.passed[k]) && h'.passed[k].origin == j;
        } else {
          var m :| j < m && Kept(h, m) && (h.fates[m] == First || h.ops[m].a.seqNr == h.ops[j].a.seqNr);
          NotedKept(h, op, kind, after, m);
        }
      }
    }
  }

  /** If the slot holds no packet with the source time of `a`, every twin that was stored is gone. */
  lemma TwinGone(h: History, q: seq<Option<Packet>>, a: Arrival, j: nat)
    requires Origins(h, q) && Conserved(h, q) && Kept(h, j)
    requires h.ops[j].a.seqNr == a.seqNr && h.ops[j].a.sourceTime == a.sourceTime
    requires q[a.seqNr].None? || q[a.seqNr].value.sourceTime != a.sourceTime
    ensures HasLeft(h, j) || Displaced(h, j)
  {
    hide HasLeft, Displaced;
    if q[a.seqNr].Some? {
      assert StoredBy(h, h.born[a.seqNr], q[a.seqNr].value);
    }
  }

  lemma NotedFates(h: History, op: Op, kind: Kind, after: bool, q: seq<Option<Packet>>)
    requires Fates(h) && Origins(h, q) && Passes(h) && Once(h, q) && Conserved(h, q) && Judged(op, kind, q)
    ensures Fates(Noted(h, op, kind, after))
  {
    hide FateOk, Origins, Passes, Once, Conserved;
    NotedFateNow(h, op, kind, after, q);
    forall i | 0 <= i < |h.ops| ensures FateOk(Noted(h, op, kind, after), i) {
      NotedFateBefore(h, op, kind, after, i);
    }
  }

  // ----- a call in which packets leave

  ghost function Leaving(exits: seq<Exit>, born: seq<nat>, served: nat): seq<Passed>
    requires |born| == QUEUE_MAX
  {
    seq(|exits|, i requires 0 <= i < |exits| =>
          Passed(exits[i].packet, born[exits[i].packet.seqNr], served, i, exits[i].handed))
  }

  ghost function Served(h: History, op: Op, after: bool, exits: seq<Exit>): History
    requires |h.born| == QUEUE_MAX
  {
    History(h.ops + [op], h.fates + [Ignored], h.running + [after], h.born,
            h.passed + Leaving(exits, h.born, |h.ops|))
  }

  lemma ServedKept(h: History, op: Op, after: bool, exits: seq<Exit>, i: nat)
    requires |h.ops| == |h.fates| && |h.born| == QUEUE_MAX && op.Serve?
    ensures var h' := Served(h, op, after, exits);
      && (Kept(h', i) <==> Kept(h, i))
      && (i < |h.ops| ==> h'.ops[i] == h.ops[i] && h'.fates[i] == h.fates[i])
  {
  }

  lemma ServedStored(h: History, op: Op, after: bool, exits: seq<Exit>, i: nat, p: Packet)
    requires |h.ops| == |h.fates| && |h.born| == QUEUE_MAX && op.Serve?
    ensures StoredBy(Served(h, op, after, exits), i, p) <==> StoredBy(h, i, p)
  {
    ServedKept(h, op, after, exits, i);
  }

  lemma ServedFlows(h: History, now: bool, op: Op, after: bool, exits: seq<Exit>)
    requires Flows(h, now) && |h.born| == QUEUE_MAX && StepsOn(op, Ignored, now, after)
    ensures Flows(Served(h, op, after, exits), after)
  {
    hide StepsOn, Leaving;
  }

  lemma ServedOrigins(h: History, op: Op, after: bool, exits: seq<Exit>, q: Ring, q': Ring)
    requires |h.ops| == |h.fates| && Origins(h, q) && op.Serve? && Accounted(exits, q, q')
    ensures Origins(Served(h, op, after, exits), q')
  {
    hide StoredBy, Left, Leaving;
    forall s: Seq16 | q'[s].Some? ensures StoredBy(Served(h, op, after, exits), h.born[s], q'[s].value) {
      ServedStored(h, op, after, exits, h.born[s], q[s].value);
    }
  }

  /** In the fields of the packet the rule of the output is that of its arrival. */
  lemma AgeInTime(h: History, i: nat, e: Exit, t: nat, ticks: nat)
    requires StoredBy(h, i, e.packet) && AgeRule(e, t, ticks)
    ensures InTime(h.ops[i].a, Base(h, i), t, ticks, e.handed)
  {
  }

  lemma ServedPasses(h: History, op: Op, after: bool, exits: seq<Exit>, q: Ring, start: Seq16, n: nat)
    requires |h.ops| == |h.fates| && Origins(h, q) && Passes(h) && op.Serve?
    requires InTurn(exits, q, start, n, op.ticks) && Aged(exits, op.clock, op.ticks)
    ensures Passes(Served(h, op, after, exits))
  {
    hide InTime, StoredBy, AgeRule, Timely, Ahead;
    var h', m := Served(h, op, after, exits), |h.passed|;
    forall k | 0 <= k < |h'.passed| ensures PassOk(h', h'.passed[k]) {
      var e := h'.passed[k];
      if k < m {
        assert PassOk(h, h.passed[k]);
      } else {
        var exit := exits[k - m];
        assert q[exit.packet.seqNr] == Some(exit.packet) && AgeRule(exit, op.clock(k - m), op.ticks);
        AgeInTime(h, e.origin, exit, op.clock(k - m), op.ticks);
      }
      KeptBefore(h, e.origin, e.packet);
      ServedStored(h, op, after, exits, e.origin, e.packet);
      ServedKept(h, op, after, exits, e.origin);
    }
  }

  lemma KeptBefore(h: History, i: nat, p: Packet)
    requires StoredBy(h, i, p)
    ensures i < |h.ops| && Kept(h, i) && h.ops[i].a.seqNr == p.seqNr
  {
  }

  lemma ServedOnce(h: History, op: Op, after: bool, exits: seq<Exit>, q: Ring, q': Ring, start: Seq16, n: nat,
                   ticks: nat)
    requires |h.ops| == |h.fates| && Origins(h, q) && Once(h, q) && op.Serve?
    requires InTurn(exits, q, start, n, ticks) && Accounted(exits, q, q')
    ensures Once(Served(h, op, after, exits), q')
  {
    hide StoredBy, Timely, Ahead;
    var h', m := Served(h, op, after, exits), |h.passed|;
    forall k, l | 0 <= k < l < |h'.passed| ensures h'.passed[k].origin != h'.passed[l].origin {
      if l >= m {
        LeavesFrom(h, q, exits, start, n, ticks, l - m);
        if k >= m {
          LeavesFrom(h, q, exits, start, n, ticks, k - m);
          NotTwice(exits, q, start, n, ticks, k - m, l - m);
        }
      }
    }
    forall k, s: Seq16 | 0 <= k < |h'.passed| && q'[s].Some? ensures h'.passed[k].origin != h.born[s] {
      KeptBefore(h, h.born[s], q[s].value);
      if k >= m {
        LeavesFrom(h, q, exits, start, n, ticks, k - m);
        assert Left(exits, exits[k - m].packet.seqNr);
      }
    }
  }

  /** The packet in a slot arrived with the number of the slot, so different slots have different arrivals. */
  lemma LeavesFrom(h: History, q: Ring, exits: seq<Exit>, start: Seq16, n: nat, ticks: nat, i: nat)
    requires Origins(h, q) && InTurn(exits, q, start, n, ticks) && i < |exits|
    ensures var p := exits[i].packet;
      q[p.seqNr] == Some(p) && Kept(h, h.born[p.seqNr]) && h.ops[h.born[p.seqNr]].a.seqNr == p.seqNr
  {
    hide Timely, Ahead, StoredBy;
    KeptBefore(h, h.born[exits[i].packet.seqNr], exits[i].packet);
  }

  lemma NotTwice(exits: seq<Exit>, q: Ring, start: Seq16, n: nat, ticks: nat, i: nat, j: nat)
    requires InTurn(exits, q, start, n, ticks) && i < j < |exits|
    ensures exits[i].packet.seqNr != exits[j].packet.seqNr
  {
    hide Timely;
  }

  lemma ServedConserved(h: History, op: Op, after: bool, exits: seq<Exit>, q: Ring, q': Ring)
    requires |h.ops| == |h.fates| && |h.born| == QUEUE_MAX && Conserved(h, q) && op.Serve?
    requires Accounted(exits, q, q')
    ensures Conserved(Served(h, op, after, exits), q')
  {
    var h', m := Served(h, op, after, exits), |h.passed|;
    forall i: nat | Kept(h', i)
      ensures var s := h'.ops[i].a.seqNr; (q'[s].Some? && h'.born[s] == i) || HasLeft(h', i) || Displaced(h', i)
    {
      ServedKept(h, op, after, exits, i);
      var s := h.ops[i].a.seqNr;
      if HasLeft(h, i) {
        var k :| 0 <= k < |h.passed| && h.passed[k].origin == i;
        assert h'.passed[k].origin == i;
      } else if Displaced(h, i) {
        var j :| i < j && Kept(h, j) && (h.fates[j] == First || h.ops[j].a.seqNr == h.ops[i].a.seqNr);
        ServedKept(h, op, after, exits, j);
      } else if Left(exits, s) {
        var k :| 0 <= k < |exits| && exits[k].packet.seqNr == s;
        assert h'.passed[m + k].origin == i;
      }
    }
  }

  lemma ServedFates(h: History, op: Op, after: bool, exits: seq<Exit>)
    requires Fates(h) && |h.born| == QUEUE_MAX && op.Serve?
    ensures Fates(Served(h, op, after, exits))
  {
    var h' := Served(h, op, after, exits);
    hide FateOk;
    forall i | 0 <= i < |h'.ops| ensures FateOk(h', i) {
      if i < |h.ops| {
        ServedFateBefore(h, op, after, exits, i);
      } else {
        ServedFateNow(h', i);
      }
    }
  }

  lemma ServedFateNow(h: History, i: nat)
    requires i < |h.ops| && i < |h.fates| && h.ops[i].Serve?
    ensures FateOk(h, i)
  {
  }

  lemma ServedFateBefore(h: History, op: Op, after: bool, exits: seq<Exit>, i: nat)
    requires Fates(h) && |h.born| == QUEUE_MAX && op.Serve? && i < |h.ops|
    ensures FateOk(Served(h, op, after, exits), i)
  {
    var h', m := Served(h, op, after, exits), |h.passed|;
    assert FateOk(h, i);
    forall j: nat ensures Kept(h', j) <==> Kept(h, j) {
      ServedKept(h, op, after, exits, j);
    }
    if h.ops[i].Arrive? && h.fates[i] == Dupe {
      var j: nat :| Twin(h, j, i) && !LeftBefore(h, j, i);
      assert Twin(h', j, i) && !LeftBefore(h', j, i);
    } else if h.ops[i].Arrive? && h.fates[i] == Stored {
      forall j: nat | Twin(h', j, i) ensures LeftBefore(h', j, i) || DisplacedBefore(h', j, i) {
        assert Twin(h, j, i);
        if LeftBefore(h, j, i) {
          var k :| 0 <= k < m && h.passed[k].origin == j && h.passed[k].served < i;
          assert h'.passed[k].origin == j;
        } else {
          var k :| j < k < i && Kept(h, k) && (h.fates[k] == First || h.ops[k].a.seqNr == h.ops[j].a.seqNr);
          assert Kept(h', k);
        }
      }
    }
  }

  lemma PacketsAppend(blocks: seq<Block>, b: Block)
    ensures PacketsIn(blocks + [b]) == PacketsIn(blocks) + [b.packet]
  {
    assert (blocks + [b])[..|blocks|] == blocks;
  }

  lemma HandedOverAppend(passed: seq<Passed>, e: Passed)
    ensures HandedOver(passed + [e]) == HandedOver(passed) + if e.handed then [e.packet] else []
  {
    assert (passed + [e])[..|passed|] == passed;
  }

  lemma LeavingLast(exits: seq<Exit>, born: seq<nat>, served: nat)
    requires |born| == QUEUE_MAX && exits != []
    ensures var n, e := |exits| - 1, exits[|exits| - 1];
      Leaving(exits, born, served)
      == Leaving(exits[..n], born, served) + [Passed(e.packet, born[e.packet.seqNr], served, n, e.handed)]
  {
  }

  lemma BlocksLast(s: Stream, exits: seq<Exit>) returns (b: Block)
    requires exits != []
    ensures var fewer, e := exits[..|exits| - 1], exits[|exits| - 1];
      b.packet == e.packet && BlocksOf(s, exits) == BlocksOf(s, fewer) + if e.handed then [b] else []
  {
    hide StreamAfter;
    b := NextBlock(StreamAfter(s, exits[..|exits| - 1]), exits[|exits| - 1].packet);
  }

  lemma Regroup<T>(a: seq<T>, b: seq<T>, c: seq<T>)
    ensures a + (b + c) == (a + b) + c && a + [] == a
  {
  }

  lemma {:induction false} HandedOverMore(passed: seq<Passed>, exits: seq<Exit>, born: seq<nat>, served: nat, s: Stream,
                                          blocks: seq<Block>)
    requires |born| == QUEUE_MAX && PacketsIn(blocks) == HandedOver(passed)
    ensures PacketsIn(blocks + BlocksOf(s, exits)) == HandedOver(passed + Leaving(exits, born, served))
  {
    if exits == [] {
      assert blocks + BlocksOf(s, exits) == blocks && passed + Leaving(exits, born, served) == passed;
    } else {
      hide *;
      var n, e := |exits| - 1, exits[|exits| - 1];
      var fewer, p := exits[..n], Passed(e.packet, born[e.packet.seqNr], served, n, e.handed);
      HandedOverMore(passed, fewer, born, served, s, blocks);
      LeavingLast(exits, born, served);
      Regroup(passed, Leaving(fewer, born, served), [p]);
      HandedOverAppend(passed + Leaving(fewer, born, served), p);
      var b := BlocksLast(s, exits);
      Regroup(blocks, BlocksOf(s, fewer), if e.handed then [b] else []);
      if e.handed {
        PacketsAppend(blocks + BlocksOf(s, fewer), b);
      } else {
        Regroup(blocks + BlocksOf(s, fewer), [], []);
      }
    }
  }

  // ----- the calls

  /** What an output leaves waiting, in the numbers of its arrival: by the last readings of the clock (`t`, and
      `t0` the one before) the next stored packet lies behind a hole and has neither been buffered for the
      recovery time nor is older than twice the buffer, or it has not been buffered for the recovery time and is
      no older than 1.1 times the buffer; unless it is too old and 100 in a row have been dropped, and then the
      flow starts over. */
  ghost predicate Settled(f: Flow, h: History, serve: Op, turns: nat, t0: nat, halt: Halt)
    reads f, f.queue
    requires serve.Serve? && Origins(h, f.queue[..])
  {
    f.queueSize > 0 && !halt.Stopped? ==>
      forall holes: nat :: NextIn(f.queue[..], f.outputIdx, holes) ==>
        Waiting(h, h.born[At(f.outputIdx, holes)], holes, t0, serve.clock(turns), serve.ticks, halt)
  }

  ghost predicate Waiting(h: History, i: nat, holes: nat, t0: nat, t: nat, ticks: nat, halt: Halt) {
    && Kept(h, i)
    && var a, out := h.ops[i].a, Base(h, i) + h.ops[i].a.recoveryTicks;
      var reached := holes == 0 || t0 >= out || (t0 - a.time) % 0x1_0000_0000_0000_0000 > 2 * ticks;
      var due := t >= out || 10 * ((t - a.time) % 0x1_0000_0000_0000_0000) > 11 * ticks;
      && (halt.TooOld? <==> reached && due) && (halt.Early? <==> !reached || !due)
      && (halt.TooOld? ==> (t - a.time) % 0x1_0000_0000_0000_0000 > 2 * ticks)
  }

  ghost predicate Known(h: History, q: seq<Option<Packet>>, running: bool, delivered: seq<Block>) {
    && Flows(h, running) && Origins(h, q) && Passes(h) && Once(h, q) && Conserved(h, q) && Fates(h)
    && PacketsIn(delivered) == HandedOver(h.passed)
  }

  lemma ToldParts(f: Flow, h: History)
    requires Told(f, h)
    ensures f.Valid() && f.queue.Length == QUEUE_MAX
    ensures Known(h, f.queue[..], f.hasItems, f.delivered)
  {
  }

  lemma NotedTold(f: Flow, h: History, op: Op, kind: Kind, q: seq<Option<Packet>>, before: bool)
    requires f.Valid() && Known(h, q, before, f.delivered)
    requires Changes(op, kind, q, f.queue[..]) && StepsOn(op, kind, before, f.hasItems) && Judged(op, kind, q)
    ensures Told(f, Noted(h, op, kind, f.hasItems))
  {
    hide Flow.Valid, Changes, StepsOn, Judged, Flows, Origins, Passes, Once, Conserved, Fates, HandedOver, PacketsIn;
    NotedFates(h, op, kind, f.hasItems, q);
    NotedFlows(h, before, op, kind, f.hasItems);
    NotedLengths(h, q, before);
    NotedOrigins(h, op, kind, f.hasItems, q, f.queue[..]);
    NotedPasses(h, op, kind, f.hasItems);
    NotedOnce(h, op, kind, f.hasItems, q, f.queue[..]);
    NotedConserved(h, op, kind, f.hasItems, q, f.queue[..]);
  }

  lemma NotedLengths(h: History, q: seq<Option<Packet>>, before: bool)
    requires Flows(h, before) && Origins(h, q)
    ensures |h.ops| == |h.fates| && |q| == |h.born| == QUEUE_MAX
  {
  }

  lemma FateSteps(f: Flow, a: Arrival, after: Stats)
    requires f.queue.Length == QUEUE_MAX
    ensures StepsOn(Arrive(a), f.Fate(a), f.hasItems, RunsOn(f.Fate(a), after))
    ensures Judged(Arrive(a), f.Fate(a), f.queue[..])
  {
    hide Expected;
  }

  lemma StoredChanges(op: Op, kind: Kind, q: Ring, q': Ring, start: Seq16, excess: int)
    requires op.Arrive?
    requires kind == First ==> Restarted(q, start, excess, PacketOf(op.a, op.a.now), q')
    requires kind == Stored ==> q' == q[op.a.seqNr := Some(PacketOf(op.a, op.a.packetTime))]
    requires !Keeps(kind) ==> q' == q
    ensures Changes(op, kind, q, q')
  {
    hide BytesFrom;
  }

  /** An arrival. */
  method TakeIn(f: Flow, a: Arrival, ghost h: History) returns (code: int, ghost h': History)
    requires Told(f, h)
    modifies f, f.queue, f.missing, f.missing.repr
    ensures h' == Noted(h, Arrive(a), old(f.Fate(a)), f.hasItems) && Told(f, h')
    ensures code == CodeOf(old(f.Fate(a))) && fresh(f.missing.repr - old(f.missing.repr))
  {
    ToldParts(f, h);
    hide *;
    ghost var op, kind, q: Ring, start, excess, before := Arrive(a), f.Fate(a), f.queue[..], f.outputIdx, f.Excess(),
      f.hasItems;
    forall after ensures StepsOn(op, kind, before, RunsOn(kind, after)) && Judged(op, kind, q) {
      FateSteps(f, a, after);
    }
    code := f.Enqueue(a);
    StoredChanges(op, kind, q, f.queue[..], start, excess);
    NotedTold(f, h, op, kind, q, before);
    h' := Noted(h, op, kind, f.hasItems);
  }

  lemma ServedTold(f: Flow, h: History, op: Op, q: Ring, before: bool, delivered: seq<Block>, r: Start,
                   exits: seq<Exit>,
                   n: nat)
    requires f.Valid() && Known(h, q, before, delivered) && op.Serve? && (f.hasItems ==> before)
    requires InTurn(exits, q, r.outputIdx, n, op.ticks) && Aged(exits, op.clock, op.ticks)
    requires f.queue.Length == QUEUE_MAX && Accounted(exits, q, f.queue[..])
    requires f.delivered == delivered + BlocksOf(r.stream, exits)
    ensures |h.born| == QUEUE_MAX && Told(f, Served(h, op, f.hasItems, exits))
  {
    hide Flow.Valid, Flows, Passes, Once, Conserved, Fates, HandedOver, PacketsIn, InTurn, Aged, Accounted, BlocksOf,
         Origins, Leaving;
    NotedLengths(h, q, before);
    ServedFates(h, op, f.hasItems, exits);
    ServedFlows(h, before, op, f.hasItems, exits);
    ServedOrigins(h, op, f.hasItems, exits, q, f.queue[..]);
    ServedPasses(h, op, f.hasItems, exits, q, r.outputIdx, n);
    ServedOnce(h, op, f.hasItems, exits, q, f.queue[..], r.outputIdx, n, op.ticks);
    ServedConserved(h, op, f.hasItems, exits, q, f.queue[..]);
    HandedOverMore(h.passed, exits, h.born, |h.ops|, r.stream, delivered);
  }

  lemma ToldOrigins(f: Flow, h: History)
    requires Told(f, h)
    ensures f.Valid() && f.queue.Length == QUEUE_MAX && Origins(h, f.queue[..])
  {
  }

  lemma SlotBorn(h: History, q: Ring, idx: Seq16, holes: nat)
    requires Origins(h, q) && NextIn(q, idx, holes)
    ensures q[At(idx, holes)].Some? && StoredBy(h, h.born[At(idx, holes)], q[At(idx, holes)].value)
  {
    hide StoredBy, ClearedUpTo, At;
  }

  lemma WaitingOf(h: History, i: nat, p: Packet, holes: nat, t0: nat, t: nat, ticks: nat, halt: Halt)
    requires StoredBy(h, i, p)
    requires var reached := holes == 0 || p.targetOutputTime <= t0 || Sub64(t0, p.time) > 2 * ticks;
      var due := p.targetOutputTime <= t || 10 * Sub64(t, p.time) > 11 * ticks;
      && (halt.TooOld? <==> reached && due) && (halt.Early? <==> !reached || !due)
      && (halt.TooOld? ==> Sub64(t, p.time) > 2 * ticks)
    ensures Waiting(h, i, holes, t0, t, ticks, halt)
  {
  }

  lemma WaitingIs(f: Flow, h: History, op: Op, halt: Halt, exits: seq<Exit>, late0: nat, time0: nat, holes: nat)
    requires op.Serve? && f.queue.Length == QUEUE_MAX && Origins(h, f.queue[..])
    requires f.Finished(halt, exits, op.now, op.clock, op.ticks, op.shutdown) && f.queueSize > 0 && !halt.Stopped?
    requires Counted(halt, exits, late0, time0, f.tooLate, f.lastOutputTime, op.clock, op.ticks)
    requires NextIn(f.queue[..], f.outputIdx, holes)
    ensures Waiting(h, h.born[At(f.outputIdx, holes)], holes, LastTime(exits, op.now), op.clock(|exits|), op.ticks,
                    halt)
  {
    var s, t0, t := At(f.outputIdx, holes), LastTime(exits, op.now), op.clock(|exits|);
    SlotBorn(h, f.queue[..], f.outputIdx, holes);
    hide *;
    NothingDueStays(f, halt, exits, op.now, op.clock, op.ticks, op.shutdown, late0, time0, holes);
    WaitingOf(h, h.born[s], f.queue[s].value, holes, t0, t, op.ticks, halt);
  }

  /** A run of the output. */
  method PutOut(f: Flow, op: Op, ghost h: History)
    returns (blocks: seq<Block>, ghost h': History, ghost exits: seq<Exit>, ghost halt: Halt)
    requires Told(f, h) && op.Serve?
    modifies f, f.queue
    ensures |h.born| == QUEUE_MAX && h' == Served(h, op, f.hasItems, exits) && Told(f, h')
    ensures f.missing.repr == old(f.missing.repr) && f.delivered == old(f.delivered) + blocks
    ensures Origins(h', f.queue[..]) && Settled(f, h', op, |exits|, LastTime(exits, op.now), halt)
  {
    ToldParts(f, h);
    ghost var q: Ring, before, delivered := f.queue[..], f.hasItems, f.delivered;
    ghost var r0 := f.StartNow(op.now, op.clock, op.ticks);
    StartIs(f, r0);
    hide *;
    ghost var r, n;
    blocks, r, exits, n, halt := f.Output(op.now, op.clock, op.ticks, op.shutdown);
    SinceParts(f, r, blocks, exits, n, halt);
    AdvancedEnd(exits, q, f.queue[..], r.outputIdx, n, op.ticks);
    AgesOfExits(halt, exits, r, n, f.tooLate, f.lastOutputTime);
    ServedTold(f, h, op, q, before, delivered, r, exits, n);
    h' := Served(h, op, f.hasItems, exits);
    ToldOrigins(f, h');
    forall holes: nat | f.queueSize > 0 && !halt.Stopped? && NextIn(f.queue[..], f.outputIdx, holes)
      ensures Waiting(h', h'.born[At(f.outputIdx, holes)], holes, LastTime(exits, op.now), op.clock(|exits|), op.ticks,
                      halt) {
      WaitingIs(f, h', op, halt, exits, r.tooLate, r.lastOutputTime, holes);
    }
    SettledIs(f, h', op, |exits|, LastTime(exits, op.now), halt);
  }

  lemma SettledIs(f: Flow, h: History, op: Op, turns: nat, t0: nat, halt: Halt)
    requires op.Serve? && Origins(h, f.queue[..])
    requires forall holes: nat | f.queueSize > 0 && !halt.Stopped? && NextIn(f.queue[..], f.outputIdx, holes) ::
        Waiting(h, h.born[At(f.outputIdx, holes)], holes, t0, op.clock(turns), op.ticks, halt)
    ensures Settled(f, h, op, turns, t0, halt)
  {
    hide Waiting, NextIn, At;
  }

  /** Requests, a change of flow id, or the statistics: the ring stays. */
  method Other(f: Flow, op: Op, ghost h: History) returns (ghost h': History)
    requires Told(f, h) && !op.Arrive? && !op.Serve?
    modifies f, f.missing, f.missing.repr, f.missing.nacks
    ensures h' == Noted(h, op, Ignored, f.hasItems) && Told(f, h')
    ensures f.missing.repr == old(f.missing.repr)
  {
    ToldParts(f, h);
    ghost var q, before := f.queue[..], f.hasItems;
    h' := Noted(h, op, Ignored, before && !op.Restart?);
    hide Flow.Valid, Flow.Clean, Origins, Passes, Once, Conserved, Fates, HandedOver, PacketsIn, M.Survivors,
         M.PassGroups,
         M.List.Groups;
    match op {
      case Ask(times, configs, peers, authenticated, canSend) =>
        var groups := f.NackOutput(times, configs, peers, authenticated, canSend);
      case Restart =>
        f.Reset();
      case Report =>
        var taken := f.TakeStats();
    }
    hide Flows;
    NotedTold(f, h, op, Ignored, q, before);
  }

  method Step(f: Flow, op: Op, ghost h: History)
    returns (ghost h': History, ghost turns: nat, ghost t0: nat, ghost halt: Halt)
    requires Told(f, h)
    modifies f, f.queue, f.missing, f.missing.repr, f.missing.nacks
    ensures h'.ops == h.ops + [op] && Told(f, h') && fresh(f.missing.repr - old(f.missing.repr))
    ensures op.Serve? ==> Origins(h', f.queue[..]) && Settled(f, h', op, turns, t0, halt)
  {
    hide Told, Settled, Origins;
    turns, t0, halt := 0, 0, Idle;
    if op.Arrive? {
      var code;
      code, h' := TakeIn(f, op.a, h);
    } else if op.Serve? {
      var blocks;
      ghost var exits;
      blocks, h', exits, halt := PutOut(f, op, h);
      turns, t0 := |exits|, LastTime(exits, op.now);
    } else {
      h' := Other(f, op, h);
    }
  }

  lemma ToldAtFirst(f: Flow)
    requires f.Valid() && AllEmpty(f.queue[..]) && !f.hasItems && f.delivered == []
    ensures Told(f, History([], [], [false], seq(QUEUE_MAX, _ => 0), []))
  {
  }

  /** One call after another. */
  method Run(f: Flow, ops: seq<Op>, ghost h0: History)
    returns (ghost h: History, ghost turns: nat, ghost t0: nat, ghost halt: Halt)
    requires Told(f, h0) && h0.ops == []
    modifies f, f.queue, f.missing, f.missing.repr, f.missing.nacks
    ensures h.ops == ops && Told(f, h)
    ensures ops != [] && ops[|ops| - 1].Serve? ==>
              Origins(h, f.queue[..]) && Settled(f, h, ops[|ops| - 1], turns, t0, halt)
  {
    hide *;
    h, turns, t0, halt := h0, 0, 0, Idle;
    for i := 0 to |ops|
      invariant h.ops == ops[..i] && Told(f, h) && fresh(f.missing.repr - old(f.missing.repr))
      invariant i > 0 && ops[i - 1].Serve? ==>
                  Origins(h, f.queue[..]) && Settled(f, h, ops[i - 1], turns, t0, halt)
    {
      assert ops[..i + 1] == ops[..i] + [ops[i]];
      h, turns, t0, halt := Step(f, ops[i], h);
    }
    assert ops[..|ops|] == ops;
  }

  /** Every run of a flow, from its start: whatever calls come in whatever order, what `Told` says holds of the
      packets that arrived and left, and if the last call was a run of the output, what is left waiting is not
      due. */
  method Session(ops: seq<Op>) returns (f: Flow, ghost h: History, ghost turns: nat, ghost t0: nat, ghost halt: Halt)
    ensures h.ops == ops && Told(f, h)
    ensures ops != [] && ops[|ops| - 1].Serve? ==>
              Origins(h, f.queue[..]) && Settled(f, h, ops[|ops| - 1], turns, t0, halt)
  {
    f := new Flow();
    ToldAtFirst(f);
    hide *;
    h, turns, t0, halt := Run(f, ops, History([], [], [false], seq(QUEUE_MAX, _ => 0), []));
  }
}
