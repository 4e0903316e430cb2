/** The receiver's ring under its two threads: a packet is stored in single steps, without a lock, while the
    output loop takes packets out. Every interleaving of the steps is a run. */
module RingRace {
  import opened ReceiverQueue

  /** The part of `receiver_enqueue` for a flow that is running. The slot is found free (or is freed), then the
      buffer is put into it, its fields are written, and its size is counted. `Broken` stands for fields written
      through a slot that is empty again. */
  datatype Arrival = Resting | Checked(p: Packet) | Placing(p: Packet) | Placed(p: Packet) | Filled(p: Packet)
    | Broken(p: Packet)

  /** The output loop: reading the count, looking for a packet, and the four steps by which one leaves. */
  datatype Output =
    | Asleep
    | Top(idx: Seq16)
    | Seeking(idx: Seq16, c: Seq16, seen: nat)
    | Circling
    | Zeroing
    | Found(c: Seq16, p: Packet)
    | Taking(c: Seq16, p: Packet)
    | Clearing(c: Seq16, p: Packet)
    | Advancing(c: Seq16)
    | Ending(idx: Seq16)

  /** The shared cells and the two threads. */
  datatype State = State(ring: Ring, count: nat, outputIdx: Seq16, hasItems: bool, arrival: Arrival, output: Output)

  /** What the clock makes of a packet that was found. */
  datatype Verdict = Leaves | Waits | StartsOver

  datatype Event = Arrive(p: Packet) | ArrivalStep | OutputStep(v: Verdict)

  function Arrives(s: State): State {
    match s.arrival
    case Resting => s
    case Broken(_) => s
    case Checked(p) =>
      if s.ring[p.seqNr].None? then s.(arrival := Placing(p))
      else if s.ring[p.seqNr].value.sourceTime == p.sourceTime then s.(arrival := Resting)
      else s.(ring := s.ring[p.seqNr := None], arrival := Placing(p))
    case Placing(p) => s.(ring := s.ring[p.seqNr := Some(p)], arrival := Placed(p))
    case Placed(p) => s.(arrival := if s.ring[p.seqNr] == Some(p) then Filled(p) else Broken(p))
    case Filled(p) => s.(count := (s.count + p.size) % UINT64, arrival := Resting)
  }

  function Outputs(s: State, v: Verdict): State {
    match s.output
    case Asleep => s.(output := Top(s.outputIdx))
    case Top(idx) => s.(output := if s.count == 0 then Asleep else Seeking(idx, idx, 0))
    case Seeking(idx, c, seen) =>
      if seen > 0 && c == idx then s.(output := Circling)
      else if s.ring[c].Some? then s.(output := Found(c, s.ring[c].value))
      else s.(output := Seeking(idx, Next(c), seen + 1))
    case Circling => s.(hasItems := false, output := Zeroing)
    case Zeroing => s.(count := 0, output := Asleep)
    case Found(c, p) =>
      if v == Leaves then s.(output := Taking(c, p))
      else s.(output := Asleep, hasItems := s.hasItems && v != StartsOver)
    case Taking(c, p) => s.(count := (s.count - p.size) % UINT64, output := Clearing(c, p))
    case Clearing(c, _) => s.(ring := s.ring[c := None], output := Advancing(c))
    case Advancing(c) => s.(outputIdx := Next(c), output := Ending(Next(c)))
    case Ending(idx) =>
      if s.count == 0 then s.(output := Asleep, hasItems := s.hasItems && v != StartsOver) else s.(output := Top(idx))
  }

  /** A packet for the slot behind the output index is dropped. */
  function Step(s: State, e: Event): State {
    match e
    case Arrive(p) => if s.arrival.Resting? && p.seqNr != Previous(s.outputIdx) then s.(arrival := Checked(p)) else s
    case ArrivalStep => Arrives(s)
    case OutputStep(v) => Outputs(s, v)
  }

  function Run(s: State, events: seq<Event>): State
    decreases |events|
  {
    if events == [] then s else Run(Step(s, events[0]), events[1..])
  }

  // ----- the books

  /** The packet that is in its slot, or was, and is not counted yet. */
  function Uncounted(s: State): Option<Packet> {
    match s.arrival
    case Placed(p) => Some(p)
    case Filled(p) => Some(p)
    case Broken(p) => Some(p)
    case _ => None
  }

  /** The packet whose size is off the count while it is still in its slot. */
  function Leaving(s: State): Option<Packet> {
    if s.output.Clearing? then Some(s.output.p) else None
  }

  /** Up to multiples of 2^64 the count is the stored bytes, without a packet that is still to be counted, whether
      it is in the ring or has left it, and without one that is about to leave. */
  predicate Books(s: State) {
    s.count < UINT64 && (s.count + SizeOf(Uncounted(s)) + SizeOf(Leaving(s)) - Bytes(s.ring)) % UINT64 == 0
  }

  /** The slot of a packet that is being stored holds nothing else. */
  predicate ArrivalKnows(ring: Ring, a: Arrival) {
    match a
    case Placing(p) => ring[p.seqNr].None?
    case Placed(p) => ring[p.seqNr].None? || ring[p.seqNr] == Some(p)
    case Filled(p) => ring[p.seqNr].None? || ring[p.seqNr] == Some(p)
    case Broken(p) => ring[p.seqNr].None? || ring[p.seqNr] == Some(p)
    case _ => true
  }

  /** A packet that was found is in its slot, and the walk has come as far as it says. */
  predicate OutputKnows(ring: Ring, o: Output) {
    match o
    case Found(c, p) => ring[c] == Some(p)
    case Taking(c, p) => ring[c] == Some(p)
    case Clearing(c, p) => ring[c] == Some(p)
    case Seeking(idx, c, seen) => seen <= QUEUE_MAX && c == (idx + seen) % QUEUE_MAX
    case _ => true
  }

  /** What the threads know of the slots that they work on. */
  predicate Slots(s: State) { InPlace(s.ring) && ArrivalKnows(s.ring, s.arrival) && OutputKnows(s.ring, s.output) }

  predicate Ok(s: State) { Slots(s) && Books(s) && !s.output.Circling? && !s.output.Zeroing? }

  /** The step does not replace a packet. */
  predicate Plain(s: State, e: Event) {
    e.ArrivalStep? && s.arrival.Checked? ==>
      s.ring[s.arrival.p.seqNr].None? || s.ring[s.arrival.p.seqNr].value.sourceTime == s.arrival.p.sourceTime
  }

  /** By the step a packet leaves that has not been counted. */
  predicate Hasty(s: State, e: Event) {
    e.OutputStep? && s.output.Taking? && Uncounted(s) == Some(s.output.p)
  }

  lemma SumMod(x: int, y: int, k: int)
    requires x % UINT64 == 0 && y == x + UINT64 * k
    ensures y % UINT64 == 0
  {
  }

  lemma WrapBooks(count: int, d: int, rest: int)
    requires (count + rest) % UINT64 == 0
    ensures ((count + d) % UINT64 + rest - d) % UINT64 == 0
  {
    var k := (count + d) / UINT64;
    SumMod(count + rest, (count + d) % UINT64 + rest - d, -k);
  }

  lemma ArrivalSlots(s: State)
    requires Slots(s) && Plain(s, ArrivalStep)
    ensures Slots(Arrives(s))
  {
    hide Bytes;
  }

  lemma ArrivalBooks(s: State)
    requires Ok(s) && Plain(s, ArrivalStep)
    ensures Ok(Arrives(s))
  {
    ArrivalSlots(s);
    if s.arrival.Placing? {
      BytesUpdate(s.ring, s.arrival.p.seqNr, Some(s.arrival.p));
    }
    hide Bytes, Slots;
    if s.arrival.Filled? {
      WrapBooks(s.count, s.arrival.p.size, SizeOf(Uncounted(s)) + SizeOf(Leaving(s)) - Bytes(s.ring));
    }
  }

  lemma OutputSlots(s: State, v: Verdict)
    requires Slots(s) && !s.output.Circling? && !s.output.Zeroing?
    ensures Slots(Outputs(s, v))
  {
    hide Bytes, InPlace;
    if s.output.Clearing? {
      hide ArrivalKnows;
      ClearingSlots(s.ring, s.output.c, s.arrival);
    } else {
      assert Outputs(s, v).ring == s.ring && Outputs(s, v).arrival == s.arrival;
      hide ArrivalKnows;
    }
  }

  lemma ClearingSlots(ring: Ring, c: Seq16, a: Arrival)
    requires InPlace(ring) && ArrivalKnows(ring, a)
    ensures InPlace(ring[c := None]) && ArrivalKnows(ring[c := None], a)
  {
  }

  /** Only two of the steps touch the books. */
  lemma OutputBooks(s: State, v: Verdict)
    requires Ok(s) && !Outputs(s, v).output.Circling?
    ensures Ok(Outputs(s, v))
  {
    OutputSlots(s, v);
    hide Bytes, Slots;
    if s.output.Taking? {
      WrapBooks(s.count, -(s.output.p.size as int), SizeOf(Uncounted(s)) + SizeOf(Leaving(s)) - Bytes(s.ring));
    } else if s.output.Clearing? {
      ClearingBooks(s, v);
    }
  }

  lemma ClearingBooks(s: State, v: Verdict)
    requires Ok(s) && s.output.Clearing?
    ensures Books(Outputs(s, v))
  {
    BytesUpdate(s.ring, s.output.c, None);
    hide Bytes;
  }

  // ----- runs in which no packet leaves before it is counted

  predicate Occupied(ring: Ring, i: Seq16) { ring[i].Some? }

  /** The uncounted packet is still in its slot and is not the one that is leaving, and while the loop seeks, a packet
      lies ahead of it. */
  ghost predicate Unhurried(s: State) {
    && !s.arrival.Broken?
    && (Uncounted(s).Some? ==> s.ring[Uncounted(s).value.seqNr] == Uncounted(s) && Leaving(s) != Uncounted(s))
    && (s.output.Seeking? ==> exists i: Seq16 :: s.output.seen <= Ahead(s.output.idx, i) && Occupied(s.ring, i))
  }

  /** With the books in order and no packet taken hastily, a count above zero means that a packet is stored. */
  lemma CountedIsStored(s: State)
    requires Ok(s) && Unhurried(s) && s.count > 0 && s.output.Top?
    ensures exists i: Seq16 :: Occupied(s.ring, i)
  {
    if Bytes(s.ring) == 0 {
      if Uncounted(s).Some? {
        BytesAtLeast(s.ring, Uncounted(s).value.seqNr);
      }
      assert false;
    }
    var i := SomeBytes(s.ring);
    assert Occupied(s.ring, i);
  }

  /** The walk is one slot further on; an occupied slot ahead is not the one just found empty. */
  lemma SeekOn(ring: Ring, idx: Seq16, seen: nat, i: Seq16)
    requires seen <= Ahead(idx, i) && Occupied(ring, i)
    ensures seen < QUEUE_MAX && (seen > 0 ==> (idx + seen) % QUEUE_MAX != idx)
    ensures ring[(idx + seen) % QUEUE_MAX].None? ==> seen + 1 <= Ahead(idx, i)
  {
  }

  lemma OutputUnhurried(s: State, v: Verdict)
    requires Ok(s) && Unhurried(s) && !Hasty(s, OutputStep(v))
    ensures !Outputs(s, v).output.Circling? && Unhurried(Outputs(s, v))
  {
    if s.output.Top? && s.count > 0 {
      CountedIsStored(s);
      var i: Seq16 :| Occupied(s.ring, i);
      hide Books, InPlace;
      assert 0 <= Ahead(s.output.idx, i) && Occupied(Outputs(s, v).ring, i);
    } else if s.output.Seeking? {
      var i: Seq16 :| s.output.seen <= Ahead(s.output.idx, i) && Occupied(s.ring, i);
      SeekOn(s.ring, s.output.idx, s.output.seen, i);
      hide Books, InPlace;
      assert Occupied(Outputs(s, v).ring, i);
    } else {
      hide Books, InPlace, Occupied, Ahead;
    }
  }

  lemma ArrivalUnhurried(s: State)
    requires Ok(s) && Unhurried(s) && Plain(s, ArrivalStep)
    ensures Unhurried(Arrives(s))
  {
    hide Bytes, Books;
    if s.output.Seeking? {
      var i: Seq16 :| s.output.seen <= Ahead(s.output.idx, i) && Occupied(s.ring, i);
      assert Occupied(Arrives(s).ring, i);
    }
  }

  lemma StepUnhurried(s: State, e: Event)
    requires Ok(s) && Unhurried(s) && Plain(s, e) && !Hasty(s, e)
    ensures Ok(Step(s, e)) && Unhurried(Step(s, e))
  {
    hide Bytes, Outputs, Arrives;
    match e
    case Arrive(p) =>
    case ArrivalStep =>
      ArrivalBooks(s);
      ArrivalUnhurried(s);
    case OutputStep(v) =>
      OutputUnhurried(s, v);
      OutputBooks(s, v);
  }

  /** Every step of the run replaces no packet and lets none leave before it is counted. */
  predicate Patient(s: State, events: seq<Event>)
    decreases |events|
  {
    events == [] || (Plain(s, events[0]) && !Hasty(s, events[0]) && Patient(Step(s, events[0]), events[1..]))
  }

  /** In such a run the output loop never goes full circle, and the books stay in order. */
  lemma {:induction false} PatientRun(s: State, events: seq<Event>)
    requires Ok(s) && Unhurried(s) && Patient(s, events)
    ensures Ok(Run(s, events)) && Unhurried(Run(s, events))
    ensures !Run(s, events).output.Circling? && !Run(s, events).arrival.Broken?
    decreases |events|
  {
    hide Step, Plain, Hasty, Slots, Books;
    if events != [] {
      StepUnhurried(s, events[0]);
      PatientRun(Step(s, events[0]), events[1..]);
    }
  }

  // ----- when the loop goes full circle

  /** The loop is looking for a packet, and the slots that it has passed are empty. */
  predicate Seeks(s: State) {
    && s.output.Seeking? && s.output.seen <= QUEUE_MAX && s.output.c == (s.output.idx + s.output.seen) % QUEUE_MAX
    && forall i: Seq16 :: Ahead(s.output.idx, i) < s.output.seen ==> s.ring[i].None?
  }

  lemma SeeksOn(s: State)
    requires Seeks(s)
    ensures var s' := Outputs(s, Leaves);
      && s' == s.(output := s'.output)
      && (s'.output.Circling? || s'.output.Found? || (Seeks(s') && s'.output.seen == s.output.seen + 1))
      && (s'.output.Seeking? ==> s'.output.seen <= QUEUE_MAX)
      && (s'.output.Circling? ==> AllEmpty(s.ring)) && (s'.output.Found? ==> !AllEmpty(s.ring))
  {
    hide SizeOf, Bytes;
    if s.output.seen == QUEUE_MAX {
      forall i | 0 <= i < |s.ring| ensures s.ring[i].None? {
        assert Ahead(s.output.idx, i) < s.output.seen;
      }
    }
  }

  /** The output thread alone, until it has found a packet or gone round. */
  function Seek(s: State): (s': State)
    requires Seeks(s)
    ensures s' == s.(output := s'.output)
    decreases QUEUE_MAX - s.output.seen
  {
    SeeksOn(s);
    var s' := Outputs(s, Leaves);
    if s'.output.Seeking? then Seek(s') else s'
  }

  lemma {:induction false} SeekResult(s: State)
    requires Seeks(s)
    ensures Seek(s).output.Circling? <==> AllEmpty(s.ring)
    decreases QUEUE_MAX - s.output.seen
  {
    SeeksOn(s);
    var s' := Outputs(s, Leaves);
    hide Outputs, AllEmpty;
    if s'.output.Seeking? {
      assert Seek(s) == Seek(s');
      SeekResult(s');
    } else {
      assert Seek(s) == s';
    }
  }

  /** From the top of the loop the full circle comes next if and only if the ring is empty and a packet with bytes has
      left it that is still to be counted. */
  lemma FullCircleIff(s: State)
    requires Ok(s) && s.output.Top?
    ensures var s' := Outputs(s, Leaves);
      (Seeks(s') && Seek(s').output.Circling?)
      <==> AllEmpty(s.ring) && Uncounted(s).Some? && Uncounted(s).value.size % UINT64 != 0
  {
    var s' := Outputs(s, Leaves);
    if s.count > 0 {
      assert Seeks(s');
      SeekResult(s');
    }
    if AllEmpty(s.ring) {
      BytesOfEmpty(s.ring);
    }
  }

  /** A packet that is gone before its fields are written leaves nothing to write them to. */
  lemma BrokenIff(s: State)
    requires Slots(s) && s.arrival.Placed?
    ensures Arrives(s).arrival.Broken? <==> s.ring[s.arrival.p.seqNr].None?
  {
  }

  /** The slot behind the output index stays empty in a step unless the step puts a packet there, or moves the index
      past a slot that has been filled again. */
  lemma BehindIff(s: State, e: Event)
    requires s.ring[Previous(s.outputIdx)].None?
    ensures Step(s, e).ring[Previous(Step(s, e).outputIdx)].Some? <==>
              || (e.ArrivalStep? && s.arrival.Placing? && s.arrival.p.seqNr == Previous(s.outputIdx))
              || (e.OutputStep? && s.output.Advancing? && s.ring[s.output.c].Some?)
  {
  }

  /** With no step of the output in between, storing a packet is one event. */
  lemma StoredAtOnce(s: State)
    requires s.arrival.Placing? && s.ring[s.arrival.p.seqNr].None?
    ensures var p := s.arrival.p;
      Run(s, [ArrivalStep, ArrivalStep, ArrivalStep])
      == s.(ring := s.ring[p.seqNr := Some(p)], count := (s.count + p.size) % UINT64, arrival := Resting)
  {
    RunThree(s, ArrivalStep, ArrivalStep, ArrivalStep);
  }

  lemma RunThree(s: State, a: Event, b: Event, c: Event)
    ensures Run(s, [a, b, c]) == Step(Step(Step(s, a), b), c)
  {
    hide Step;
    assert [a, b, c][1..] == [b, c] && [b, c][1..] == [c] && [c][1..] == [];
    var s1, s2 := Step(s, a), Step(Step(s, a), b);
    assert Run(s, [a, b, c]) == Run(s1, [b, c]);
    assert Run(s1, [b, c]) == Run(s2, [c]);
    assert Run(s2, [c]) == Run(Step(s2, c), []);
  }

  // ----- a run that does

  lemma {:induction false} RunJoin(s: State, a: seq<Event>, b: seq<Event>)
    ensures Run(s, a + b) == Run(Run(s, a), b)
    decreases |a|
  {
    hide Step;
    if a == [] {
      assert a + b == b;
    } else {
      assert (a + b)[0] == a[0] && (a + b)[1..] == a[1..] + b;
      RunJoin(Step(s, a[0]), a[1..], b);
    }
  }

  lemma {:induction false} SeekIsRun(s: State) returns (events: seq<Event>)
    requires Seeks(s)
    ensures Run(s, events) == Seek(s)
    decreases QUEUE_MAX - s.output.seen
  {
    SeeksOn(s);
    var s' := Outputs(s, Leaves);
    assert Step(s, OutputStep(Leaves)) == s';
    hide Seeks, Outputs, Step;
    if s'.output.Seeking? {
      var rest := SeekIsRun(s');
      events := [OutputStep(Leaves)] + rest;
      assert events[1..] == rest;
    } else {
      events := [OutputStep(Leaves)];
      assert events[1..] == [] && Run(s', []) == s';
    }
  }

  /** The packet at the index leaves, in seven steps. */
  lemma TakeFirst(s: State) returns (events: seq<Event>)
    requires s.output.Top? && s.count > 0 && s.ring[s.output.idx].Some?
    ensures var idx, count := s.output.idx, (s.count - s.ring[s.output.idx].value.size) % UINT64;
      Run(s, events) == s.(ring := s.ring[idx := None], count := count, outputIdx := Next(idx),
                           output := if count == 0 then Asleep else Top(Next(idx)))
  {
    var o, idx, p := OutputStep(Leaves), s.output.idx, s.ring[s.output.idx].value;
    var found := s.(output := Taking(idx, p));
    var moved := s.(count := (s.count - p.size) % UINT64, ring := s.ring[idx := None], outputIdx := Next(idx),
                    output := Ending(Next(idx)));
    assert Step(Step(Step(s, o), o), o) == found;
    assert Step(Step(Step(found, o), o), o) == moved;
    var left := Step(moved, o);
    hide Step;
    events := [o, o, o] + ([o, o, o] + [o]);
    RunThree(s, o, o, o);
    RunThree(found, o, o, o);
    RunJoin(s, [o, o, o], [o, o, o] + [o]);
    RunJoin(found, [o, o, o], [o]);
    assert [o][1..] == [] && Run(left, []) == left;
  }

  function PacketNr(nr: Seq16, size: nat): Packet { Packet(nr, size, 0, 0, 0, 0) }

  function EmptyRing(): Ring { seq(QUEUE_MAX, _ => None) }

  /** Packets 0 and 2 are stored and counted; the loop is about to look at packet 0. */
  function BeforeGap(): State {
    State(EmptyRing()[0 := Some(PacketNr(0, 100))][2 := Some(PacketNr(2, 100))], 200, 0, true, Resting, Top(0))
  }

  lemma BeforeGapOk()
    ensures Ok(BeforeGap()) && Unhurried(BeforeGap())
  {
    var q := EmptyRing();
    BytesOfEmpty(q);
    BytesUpdate(q, 0, Some(PacketNr(0, 100)));
    BytesUpdate(q[0 := Some(PacketNr(0, 100))], 2, Some(PacketNr(2, 100)));
  }

  /** The third packet is stored, and its fields are written, but it is not counted. */
  lemma FillGap() returns (events: seq<Event>)
    ensures Run(BeforeGap(), events)
         == BeforeGap().(ring := BeforeGap().ring[1 := Some(PacketNr(1, 1316))], arrival := Filled(PacketNr(1, 1316)))
  {
    var a, s := ArrivalStep, BeforeGap();
    var arrived := Step(s, Arrive(PacketNr(1, 1316)));
    RunThree(arrived, a, a, a);
    events := [Arrive(PacketNr(1, 1316))] + [a, a, a];
    assert events[1..] == [a, a, a];
  }

  lemma TakeThree(s: State) returns (events: seq<Event>)
    requires s == BeforeGap().(ring := BeforeGap().ring[1 := Some(PacketNr(1, 1316))],
                               arrival := Filled(PacketNr(1, 1316)))
    ensures Run(s, events) == State(EmptyRing(), UINT64 - 1316, 3, true, Filled(PacketNr(1, 1316)), Top(3))
  {
    var q := EmptyRing();
    var e1 := TakeFirst(s);
    var s1 := Run(s, e1);
    assert s1.ring == q[1 := Some(PacketNr(1, 1316))][2 := Some(PacketNr(2, 100))] && s1.count == 100;
    var e2 := TakeFirst(s1);
    var s2 := Run(s1, e2);
    assert s2.ring == q[2 := Some(PacketNr(2, 100))] && s2.count == UINT64 - 1216;
    var e3 := TakeFirst(s2);
    var s3 := Run(s2, e3);
    assert s3.ring == q;
    events := e1 + (e2 + e3);
    RunJoin(s, e1, e2 + e3);
    RunJoin(s1, e2, e3);
  }

  /** The loop goes round an empty ring, and the packet is counted afterwards. */
  lemma GoRound(s: State, p: Packet) returns (events: seq<Event>)
    requires s.output.Top? && s.count > 0 && AllEmpty(s.ring) && s.arrival == Filled(p)
    ensures Run(s, events) == s.(count := p.size % UINT64, hasItems := false, arrival := Resting, output := Asleep)
  {
    var o := OutputStep(Leaves);
    var s1 := Step(s, o);
    assert Seeks(s1);
    SeekResult(s1);
    var around := SeekIsRun(s1);
    var s2 := Seek(s1);
    RunThree(s2, o, o, ArrivalStep);
    events := [o] + (around + [o, o, ArrivalStep]);
    assert events[1..] == around + [o, o, ArrivalStep];
    RunJoin(s1, around, [o, o, ArrivalStep]);
  }

  /** Then all three leave. The count wraps, the loop finds the ring empty, stops the flow and sets the count to zero,
      and the size of the third packet is added to an empty ring. */
  lemma UncountedLeaves() returns (events: seq<Event>)
    ensures Ok(BeforeGap()) && Unhurried(BeforeGap())
    ensures var s := Run(BeforeGap(), events);
      AllEmpty(s.ring) && s.count == 1316 && !s.hasItems && s.arrival.Resting? && s.output.Asleep?
  {
    BeforeGapOk();
    hide Ok, Unhurried;
    var e1 := FillGap();
    var s1 := Run(BeforeGap(), e1);
    var e2 := TakeThree(s1);
    var s2 := Run(s1, e2);
    assert AllEmpty(s2.ring);
    var e3 := GoRound(s2, PacketNr(1, 1316));
    events := e1 + (e2 + e3);
    hide Step, Outputs, Arrives;
    RunJoin(BeforeGap(), e1, e2 + e3);
    RunJoin(s1, e2, e3);
  }
}
