/** The lock-free output queue between the receiver's output thread and one reading application:
    atomic steps of a producer and a consumer, interleaved in every possible way. */
module OutputFifo {
  import opened Arith

  datatype Option<+T> = None | Some(value: T)

  /** A block, and whether the output loop has marked it as a start or as coming after a gap. */
  datatype Block = Block(seqNo: nat, flagged: bool)

  // ----- index arithmetic

  const WORD := 0x1_0000_0000_0000_0000   // unsigned long

  function Pow2(k: nat): (p: nat)
    ensures p > 0
  {
    if k == 0 then 1 else 2 * Pow2(k - 1)
  }

  /** What `rist_receiver_set_output_fifo_size` accepts: zero or a power of two that fits 32 bits. */
  ghost predicate IsFifoSize(n: nat) {
    n == 0 || exists k: nat :: k < 32 && n == Pow2(k)
  }

  /** `x & (n - 1)` for such a size; the size has 32 bits, so that for size zero the mask has 32 bits set. */
  function Masked(x: nat, n: nat): nat {
    if n == 0 then x % 0x1_0000_0000 else x % n
  }

  /** `(write - read) & (n - 1)` in unsigned arithmetic. */
  function Distance(write: nat, read: nat, n: nat): nat
    requires read <= WORD
  {
    Masked((write + WORD - read) % WORD, n)
  }

  lemma Pow2Add(a: nat, b: nat)
    ensures Pow2(a + b) == Pow2(a) * Pow2(b)
  {
    if a > 0 { Pow2Add(a - 1, b); }
  }

  lemma Pow2Values()
    ensures Pow2(32) == 0x1_0000_0000 && Pow2(64) == WORD
  {
    Pow2Of4();
    hide Pow2;
    Pow2Add(4, 4);
    Pow2Add(8, 8);
    Pow2Add(16, 16);
    Pow2Add(32, 32);
  }

  lemma Pow2Of4()
    ensures Pow2(4) == 16
  {
  }

  lemma SizeDividesWord(n: nat)
    requires IsFifoSize(n) && n > 0
    ensures n <= 0x1_0000_0000 && WORD % n == 0
  {
    hide Pow2;
    var k: nat :| k < 32 && n == Pow2(k);
    Pow2Values();
    Pow2Add(k, 64 - k);
    Pow2Add(k, 32 - k);
    MulMono(n, 1, Pow2(32 - k));
    DivModUnique(WORD, n, Pow2(64 - k), 0);
  }

  /** Between two counters less than a lap apart, the masked difference of the wrapped indices is
      the true difference. */
  lemma DistanceIsDifference(w: nat, r: nat, n: nat)
    requires IsFifoSize(n) && n > 0 && r <= w < r + n
    ensures r % n <= WORD && Distance(w % n, r % n, n) == w - r
  {
    SizeDividesWord(n);
    var qw, a := DivMod(w, n);
    var qr, b := DivMod(r, n);
    var k, zero := DivMod(WORD, n);
    var y := a + WORD - b;
    ModMod(y, WORD, n);
    Distribute(n, qr - qw, k);
    Distribute(n, qr, -qw);
    assert n * -qw == -(n * qw);
    assert y == (w - r) + n * (qr - qw + k);
    ModShift(w - r, n, qr - qw + k);
    DivModUnique(w - r, n, 0, w - r);
  }

  // ----- the state

  /** Where the output thread stands. `w` and `r` are the index values it has loaded. */
  datatype Producer =
    | Idle
    | HasWrite(b: Block, w: nat)
    | HasBoth(b: Block, w: nat, r: nat)
    | Stored(w: nat)
    | Refused

  /** Where the reading application stands: from choosing the flow to handing the block over.
      `num` is the queue length it last computed, `r` the read index it expects. */
  datatype Consumer =
    | Waiting
    | Sizing(r: nat)
    | Chosen(num: nat)
    | Loaded(num: nat, r: nat)
    | Looping(num: nat, r: nat)
    | Swapping(num: nat, r: nat)
    | Won(num: nat, r: nat)
    | Took(num: nat, r: nat, b: Option<Block>)
    | Checking(num: nat, b: Option<Block>)
    | Clearing(num: nat, b: Option<Block>, expected: bool)

  /** The shared cells, the two threads, and the history of the run: blocks stored, how many
      compare-and-swaps succeeded (in all, and when the producer last loaded the read index),
      blocks handed over with their overflow mark, blocks refused because the queue was full,
      and how many refusals the marks have accounted for. */
  datatype State = State(
    size: nat, slots: seq<Option<Block>>, read: nat, write: nat, overflow: bool,
    producer: Producer, consumer: Consumer,
    stored: seq<Block>, swaps: nat, seen: nat, delivered: seq<(Block, bool)>, refused: nat, reported: nat)

  function Init(size: nat): State {
    State(size, seq(size, _ => None), 0, 0, false, Idle, Waiting, [], 0, 0, [], 0, 0)
  }

  // ----- the steps

  /** `Produce` starts the hand-over of a block. A consumer step says whether a weak
      compare-and-swap fails although the values agree. */
  datatype Event = Produce(b: Block) | ProducerStep | ConsumerStep(spurious: bool)

  function Produces(s: State): State {
    match s.producer
    case Idle | Refused => s
    case HasWrite(b, w) => s.(producer := HasBoth(b, w, s.read), seen := s.swaps)
    case HasBoth(b, w, r) =>
      if r > WORD || w >= |s.slots| || Distance(w, r, s.size) + 1 == s.size || s.size == 0 then
        s.(producer := Refused)
      else
        s.(slots := s.slots[w := Some(b)], stored := s.stored + [b], producer := Stored(w))
    case Stored(w) => s.(write := Masked(w + 1, s.size), producer := Idle)
  }

  function Refuses(s: State): State {
    s.(overflow := true, refused := s.refused + 1, producer := Idle)
  }

  function Consumes(s: State, spurious: bool): State {
    match s.consumer
    case Waiting => s.(consumer := Sizing(s.read))
    case Sizing(r) =>
      var num := if r > WORD then 0 else Distance(s.write, r, s.size);
      s.(consumer := if num == 0 then Waiting else Chosen(num))
    case Chosen(num) => s.(consumer := Loaded(num, s.read))
    case Loaded(num, r) =>
      s.(consumer := if s.write != r then Looping(num, r) else Checking(num, None))
    case Looping(_, r) =>
      s.(consumer := Swapping(if r > WORD then 0 else Distance(s.write, r, s.size), r))
    case Swapping(num, r) =>
      if s.read == r && !spurious then
        s.(read := Masked(r + 1, s.size), swaps := s.swaps + 1, consumer := Won(num, r))
      else
        s.(consumer := if num > 0 then Looping(num, s.read) else Checking(num, None))
    case Won(num, r) =>
      s.(consumer := Took(num, r, if r < |s.slots| then s.slots[r] else None))
    case Took(num, r, b) =>
      s.(slots := if r < |s.slots| then s.slots[r := None] else s.slots, consumer := Checking(num, b))
    case Checking(num, b) => s.(consumer := Clearing(num, b, false))
    case Clearing(num, b, expected) =>
      if s.overflow == expected && !spurious then
        s.(overflow := false, reported := s.refused, consumer := Waiting,
           delivered := if b.Some? then s.delivered + [(b.value, expected)] else s.delivered)
      else
        s.(consumer := Clearing(num, b, s.overflow))
  }

  function Step(s: State, e: Event): State {
    match e
    case Produce(b) => if s.producer.Idle? then s.(producer := HasWrite(b, s.write)) else s
    case ProducerStep => if s.producer.Refused? then Refuses(s) else Produces(s)
    case ConsumerStep(spurious) => Consumes(s, spurious)
  }

  function Run(s: State, events: seq<Event>): State
    decreases |events|
  {
    if events == [] then s else Run(Step(s, events[0]), events[1..])
  }

  // ----- the invariant

  /** Blocks published to the reader. */
  function Published(s: State): nat {
    if s.producer.Stored? && |s.stored| > 0 then |s.stored| - 1 else |s.stored|
  }

  /** Blocks whose slot has been emptied again. */
  function Emptied(s: State): nat {
    if (s.consumer.Won? || s.consumer.Took?) && s.swaps > 0 then s.swaps - 1 else s.swaps
  }

  ghost predicate InSlot(s: State, k: nat)
    requires |s.slots| == s.size && k < |s.stored|
  {
    s.size > 0 && s.slots[k % s.size] == Some(s.stored[k])
  }

  /** The slots hold exactly the blocks stored and not yet emptied, each at its number modulo the
      size, less than a lap of them. */
  ghost predicate SlotsHold(s: State) {
    && |s.slots| == s.size
    && Emptied(s) <= |s.stored| <= Emptied(s) + s.size
    && (forall k :: Emptied(s) <= k < |s.stored| ==> InSlot(s, k))
    && (forall i :: 0 <= i < s.size && s.slots[i].Some? ==> Holder(s, i))
  }

  ghost predicate Holder(s: State, i: nat) {
    s.size > 0 && exists k: nat :: Emptied(s) <= k < |s.stored| && k % s.size == i
  }

  ghost predicate IndexesAgree(s: State)
    requires s.size > 0
  {
    && s.read == s.swaps % s.size && s.write == Published(s) % s.size
    && s.swaps <= Published(s) < s.swaps + s.size
  }

  ghost predicate ProducerOk(s: State)
    requires s.size > 0
  {
    match s.producer
    case Idle | Refused => true
    case HasWrite(_, w) => w == s.write
    case HasBoth(_, w, r) => w == s.write && r == s.seen % s.size && s.seen <= s.swaps && Published(s) < s.seen + s.size
    case Stored(w) => w == s.write && |s.stored| > 0 && Published(s) + 1 < s.swaps + s.size
  }

  ghost predicate ConsumerOk(s: State)
    requires s.size > 0
  {
    match s.consumer
    case Waiting => true
    case Sizing(r) => r == s.read
    case Chosen(num) => num > 0 && s.swaps < Published(s)
    case Loaded(num, r) => num > 0 && r == s.read && s.swaps < Published(s)
    case Looping(num, r) => num > 0 && r == s.read && s.swaps < Published(s)
    case Swapping(num, r) => num > 0 && r == s.read && s.swaps < Published(s)
    case Won(num, r) => num > 0 && 1 <= s.swaps && r == (s.swaps - 1) % s.size
    case Took(num, r, b) => num > 0 && 1 <= s.swaps <= |s.stored| && r == (s.swaps - 1) % s.size
         && b == Some(s.stored[s.swaps - 1])
    case Checking(num, b) => num > 0 && 1 <= s.swaps <= |s.stored| && b == Some(s.stored[s.swaps - 1])
    case Clearing(num, b, _) => num > 0 && 1 <= s.swaps <= |s.stored| && b == Some(s.stored[s.swaps - 1])
  }

  ghost predicate DeliveredOk(s: State) {
    && |s.delivered| == (if s.consumer.Checking? || s.consumer.Clearing? then Emptied(s) - 1
                         else Emptied(s)) <= |s.stored|
    && forall k :: 0 <= k < |s.delivered| ==> s.delivered[k].0 == s.stored[k]
  }

  ghost predicate MarkOk(s: State) {
    s.reported <= s.refused && (s.overflow <==> s.reported < s.refused)
  }

  ghost predicate Unused(s: State) {
    && s.stored == [] && s.swaps == 0 && s.read == 0 && s.write == 0
    && (s.consumer == Waiting || s.consumer == Sizing(0)) && !s.producer.Stored?
  }

  ghost predicate Inv(s: State) {
    && IsFifoSize(s.size) && SlotsHold(s) && DeliveredOk(s) && MarkOk(s)
    && (if s.size == 0 then Unused(s) else IndexesAgree(s) && ProducerOk(s) && ConsumerOk(s))
  }

  // ----- every step keeps it

  lemma InitInv(size: nat)
    requires IsFifoSize(size)
    ensures Inv(Init(size))
  {
    if size > 0 { DivModUnique(0, size, 0, 0); }
  }

  lemma NextIndex(k: nat, n: nat)
    requires n > 0
    ensures Masked(k % n + 1, n) == (k + 1) % n
  {
    ModPlus(k, 1, n);
  }

  lemma SameSlot(j: nat, k: nat, n: nat)
    requires n > 0 && j % n == k % n && j <= k < j + n
    ensures j == k
  {
    var q, r := DivMod(j, n);
    var q', r' := DivMod(k, n);
    if q' > q {
      MulMono(n, q + 1, q');
      Distribute(n, q, 1);
    } else {
      MulMono(n, q', q);
    }
  }

  /** Steps that leave slots and stored blocks alone. */
  lemma SlotsKept(s: State, s': State)
    requires SlotsHold(s)
    requires s'.slots == s.slots && s'.stored == s.stored && s'.size == s.size && Emptied(s') == Emptied(s)
    ensures SlotsHold(s')
  {
    forall k | Emptied(s') <= k < |s'.stored| ensures InSlot(s', k) {
      assert InSlot(s, k);
    }
    forall i | 0 <= i < s'.size && s'.slots[i].Some? ensures Holder(s', i) {
      assert Holder(s, i);
    }
  }

  lemma ProducesInv(s: State)
    requires Inv(s)
    ensures Inv(Produces(s))
  {
    if s.size == 0 {
      UnusedInv(s);
    } else if s.producer.HasBoth? {
      StoreInv(s);
    } else if s.producer.Stored? {
      PublishInv(s);
    } else if s.producer.HasWrite? {
      LoadReadInv(s);
    }
  }

  lemma UnusedInv(s: State)
    requires Inv(s) && s.size == 0
    ensures Inv(Produces(s))
  {
    SlotsKept(s, Produces(s));
    hide SlotsHold, IsFifoSize, Distance;
  }

  lemma LoadReadInv(s: State)
    requires Inv(s) && s.size > 0 && s.producer.HasWrite?
    ensures Inv(Produces(s))
  {
    SlotsKept(s, Produces(s));
    hide SlotsHold, IsFifoSize, Distance;
  }

  lemma PublishInv(s: State)
    requires Inv(s) && s.size > 0 && s.producer.Stored?
    ensures Inv(Produces(s))
  {
    var n := Published(s);
    NextIndex(n, s.size);
    SlotsKept(s, Produces(s));
    assert |s.stored| <= Emptied(s) + s.size;
    hide SlotsHold, IsFifoSize, Masked;
  }

  lemma StoreInv(s: State)
    requires Inv(s) && s.size > 0 && s.producer.HasBoth?
    ensures Inv(Produces(s))
  {
    var s' := Produces(s);
    DistanceIsDifference(Published(s), s.seen, s.size);
    if s'.producer.Stored? {
      StoreSlots(s);
    } else {
      SlotsKept(s, s');
    }
    hide SlotsHold, IsFifoSize, Distance, Masked;
  }

  lemma StoreSlots(s: State)
    requires SlotsHold(s) && s.size > 0 && s.producer.HasBoth?
    requires s.producer.w == |s.stored| % s.size && Produces(s).producer.Stored?
    requires |s.stored| < Emptied(s) + s.size
    ensures SlotsHold(Produces(s))
  {
    var s', n, w := Produces(s), |s.stored|, s.producer.w;
    hide Distance, Masked;
    forall k | Emptied(s') <= k < |s'.stored| ensures InSlot(s', k) {
      if k < n {
        assert InSlot(s, k);
        if k % s.size == n % s.size { SameSlot(k, n, s.size); }
      }
    }
    forall i | 0 <= i < s.size && s'.slots[i].Some? ensures Holder(s', i) {
      if i == w {
        assert n % s'.size == i;
      } else {
        assert Holder(s, i);
        var k: nat :| Emptied(s) <= k < |s.stored| && k % s.size == i;
        assert k % s'.size == i;
      }
    }
  }

  lemma RefusesInv(s: State)
    requires Inv(s) && s.producer.Refused?
    ensures Inv(Refuses(s))
  {
    SlotsKept(s, Refuses(s));
    hide SlotsHold, IsFifoSize;
  }

  lemma ConsumesInv(s: State, spurious: bool)
    requires Inv(s)
    ensures Inv(Consumes(s, spurious))
  {
    var s' := Consumes(s, spurious);
    if s.size == 0 {
      UnusedConsumes(s, spurious);
    } else if s.consumer.Took? {
      EmptyInv(s);
      hide Inv;
    } else if s'.consumer.Won? {
      SwapInv(s);
      hide Inv;
    } else if s.consumer.Won? {
      TakeInv(s, spurious);
      hide Inv;
    } else if s.consumer.Clearing? {
      ClearInv(s, spurious);
      hide Inv;
    } else {
      LookInv(s, spurious);
      hide Inv;
    }
  }

  lemma UnusedConsumes(s: State, spurious: bool)
    requires Inv(s) && s.size == 0
    ensures Inv(Consumes(s, spurious))
  {
    SlotsKept(s, Consumes(s, spurious));
    hide SlotsHold, IsFifoSize;
  }

  lemma TakeInv(s: State, spurious: bool)
    requires Inv(s) && s.size > 0 && s.consumer.Won?
    ensures Inv(Consumes(s, spurious))
  {
    assert InSlot(s, s.swaps - 1);
    SlotsKept(s, Consumes(s, spurious));
    hide SlotsHold, IsFifoSize;
  }

  lemma ClearInv(s: State, spurious: bool)
    requires Inv(s) && s.size > 0 && s.consumer.Clearing?
    ensures Inv(Consumes(s, spurious))
  {
    SlotsKept(s, Consumes(s, spurious));
    hide SlotsHold, IsFifoSize, Distance;
  }

  lemma IndexesDiffer(s: State)
    requires s.size > 0 && IndexesAgree(s) && s.swaps < Published(s)
    ensures s.read != s.write
  {
    if s.read == s.write { SameSlot(s.swaps, Published(s), s.size); }
  }

  /** Steps of the consumer that only load, compare or check. */
  lemma LookInv(s: State, spurious: bool)
    requires Inv(s) && s.size > 0 && !s.consumer.Won? && !s.consumer.Took? && !s.consumer.Clearing?
    requires !Consumes(s, spurious).consumer.Won?
    ensures Inv(Consumes(s, spurious))
  {
    DistanceIsDifference(Published(s), s.swaps, s.size);
    if s.consumer.Loaded? { IndexesDiffer(s); }
    SlotsKept(s, Consumes(s, spurious));
    LookKeepsRest(s, spurious);
    hide SlotsHold, IsFifoSize, Distance, Masked, IndexesAgree, ProducerOk, ConsumerOk, DeliveredOk;
  }

  lemma LookKeepsRest(s: State, spurious: bool)
    requires s.size > 0 && IndexesAgree(s) && ProducerOk(s) && ConsumerOk(s) && DeliveredOk(s)
    requires !s.consumer.Won? && !s.consumer.Took? && !s.consumer.Clearing? && !Consumes(s, spurious).consumer.Won?
    requires s.read <= WORD && Distance(s.write, s.read, s.size) == Published(s) - s.swaps
    requires s.consumer.Loaded? ==> s.read != s.write
    ensures var s' := Consumes(s, spurious);
            IndexesAgree(s') && ProducerOk(s') && ConsumerOk(s') && DeliveredOk(s')
  {
    hide Distance, Masked;
  }

  lemma SwapInv(s: State)
    requires Inv(s) && s.size > 0 && s.consumer.Swapping? && s.read == s.consumer.r
    ensures Inv(Consumes(s, false))
  {
    NextIndex(s.swaps, s.size);
    SlotsKept(s, Consumes(s, false));
    hide SlotsHold, IsFifoSize, Distance;
  }

  lemma EmptyInv(s: State)
    requires Inv(s) && s.size > 0 && s.consumer.Took?
    ensures Inv(Consumes(s, false)) && Consumes(s, true) == Consumes(s, false)
  {
    EmptySlots(s);
    hide SlotsHold, IsFifoSize;
  }

  lemma EmptySlots(s: State)
    requires SlotsHold(s) && s.size > 0 && s.consumer.Took? && 1 <= s.swaps <= |s.stored|
    requires s.consumer.r == (s.swaps - 1) % s.size
    ensures SlotsHold(Consumes(s, false))
  {
    var s', e := Consumes(s, false), s.swaps - 1;
    forall k | Emptied(s') <= k < |s'.stored| ensures InSlot(s', k) {
      assert InSlot(s, k);
      if e % s.size == k % s.size { SameSlot(e, k, s.size); }
    }
    forall i | 0 <= i < s.size && s'.slots[i].Some? ensures Holder(s', i) {
      assert Holder(s, i);
      var k: nat :| Emptied(s) <= k < |s.stored| && k % s.size == i;
      assert k % s'.size == i;
    }
  }

  lemma StepInv(s: State, e: Event)
    requires Inv(s)
    ensures Inv(Step(s, e))
  {
    hide Produces, Consumes, Refuses, Inv;
    match e
    case Produce(b) => BeginInv(s, b);
    case ProducerStep => if s.producer.Refused? { RefusesInv(s); } else { ProducesInv(s); }
    case ConsumerStep(spurious) => ConsumesInv(s, spurious);
  }

  lemma BeginInv(s: State, b: Block)
    requires Inv(s)
    ensures Inv(Step(s, Produce(b)))
  {
    SlotsKept(s, Step(s, Produce(b)));
    hide SlotsHold, IsFifoSize, Distance;
  }

  /** The invariant holds after every run from the empty queue. */
  lemma {:induction false} RunInv(s: State, events: seq<Event>)
    requires Inv(s)
    ensures Inv(Run(s, events))
    decreases |events|
  {
    hide Inv, Step;
    if events != [] {
      StepInv(s, events[0]);
      RunInv(Step(s, events[0]), events[1..]);
    }
  }

  // ----- what the invariant means for the application

  ghost predicate Reachable(s: State) {
    exists size: nat, events: seq<Event> :: IsRun(s, size, events)
  }

  ghost predicate IsRun(s: State, size: nat, events: seq<Event>) {
    IsFifoSize(size) && s == Run(Init(size), events)
  }

  lemma ReachableInv(s: State)
    requires Reachable(s)
    ensures Inv(s)
  {
    hide Inv;
    var size: nat, events: seq<Event> :| IsRun(s, size, events);
    InitInv(size);
    RunInv(Init(size), events);
  }

  /** In every interleaving: blocks come out in the order they were stored, each once, and every
      stored block that has not come out is still in its slot or in the reader's hands. */
  lemma InOrderAndComplete(s: State)
    requires Reachable(s)
    ensures |s.delivered| <= |s.stored|
    ensures forall k :: 0 <= k < |s.delivered| ==> s.delivered[k].0 == s.stored[k]
    ensures forall k :: |s.delivered| <= k < |s.stored| ==>
              (|s.slots| == s.size && InSlot(s, k))
              || (k == |s.delivered| && Held(s) == Some(s.stored[k]))
  {
    ReachableInv(s);
  }

  /** The block the reader has taken out of its slot and not yet returned. */
  function Held(s: State): Option<Block> {
    match s.consumer
    case Checking(_, b) => b
    case Clearing(_, b, _) => b
    case _ => None
  }

  /** A block is only ever stored into an empty slot: nothing unread, and nothing the reader is
      still looking at, is overwritten. */
  lemma StoresIntoEmptySlot(s: State)
    requires Reachable(s) && s.producer.HasBoth? && Produces(s).producer.Stored?
    ensures |s.slots| == s.size && s.producer.w < s.size && s.slots[s.producer.w] == None
  {
    ReachableInv(s);
    DistanceIsDifference(Published(s), s.seen, s.size);
    var i := s.producer.w;
    if s.slots[i].Some? {
      assert Holder(s, i);
      var k: nat :| Emptied(s) <= k < |s.stored| && k % s.size == i;
      SameSlot(k, |s.stored|, s.size);
      assert false;
    }
  }

  /** A block is refused exactly when one slot of the queue, as last seen by the producer, is left. */
  lemma RefusedIffFull(s: State)
    requires Reachable(s) && s.producer.HasBoth?
    ensures Produces(s).producer.Refused? <==> s.size == 0 || Published(s) - s.seen == s.size - 1
  {
    ReachableInv(s);
    if s.size > 0 { DistanceIsDifference(Published(s), s.seen, s.size); }
  }

  /** The assertion after the read loop never fires, and a block is always returned there. */
  lemma AssertionHolds(s: State)
    requires Reachable(s) && s.consumer.Checking?
    ensures !(s.consumer.b == None && s.consumer.num > 0)
    ensures s.consumer.b.Some? && s.consumer.num > 0
  {
    ReachableInv(s);
    hide SlotsHold, IsFifoSize, Distance;
  }

  /** A refusal is never forgotten: the flag stays up until some block is handed over with the
      overflow mark, and no block is marked without a refusal since the last mark. */
  lemma MarkedIffRefused(s: State, spurious: bool)
    requires Reachable(s)
    ensures s.overflow <==> s.reported < s.refused
    ensures var s' := Consumes(s, spurious);
            |s'.delivered| > |s.delivered| ==>
              && s'.reported == s.refused
              && (s'.delivered[|s.delivered|].1 <==> s.reported < s.refused)
  {
    ReachableInv(s);
    hide SlotsHold, IsFifoSize, Distance;
  }

  // ----- progress

  /** The consumer alone, with compare-and-swaps that succeed, for `n` steps. */
  ghost function Quiet(s: State, n: nat): State
    decreases n
  {
    if n == 0 then s else Quiet(Consumes(s, false), n - 1)
  }

  /** Steps made since the read began; a retry after a spurious failure starts again at 4. */
  function Progress(c: Consumer): nat {
    match c
    case Waiting => 0
    case Sizing(_) => 1
    case Chosen(_) => 2
    case Loaded(_, _) => 3
    case Looping(_, _) => 4
    case Swapping(_, _) => 5
    case Won(_, _) => 6
    case Took(_, _, _) => 7
    case Checking(_, _) => 8
    case Clearing(_, _, _) => 9
  }

  lemma QuietLook(s: State)
    requires Inv(s) && s.size > 0 && s.swaps < Published(s) && Progress(s.consumer) < 5
    ensures var s' := Consumes(s, false);
            Inv(s') && s' == s.(consumer := s'.consumer) && Progress(s'.consumer) == Progress(s.consumer) + 1
  {
    ConsumesInv(s, false);
    DistanceIsDifference(Published(s), s.swaps, s.size);
    IndexesDiffer(s);
    hide Distance, Masked, SlotsHold;
  }

  lemma QuietTake(s: State)
    requires Inv(s) && s.size > 0 && 5 <= Progress(s.consumer) < 9
    ensures var s' := Consumes(s, false);
            Inv(s') && Progress(s'.consumer) == Progress(s.consumer) + 1
            && s'.size == s.size && s'.stored == s.stored && s'.delivered == s.delivered
            && s'.overflow == s.overflow && (s'.consumer.Clearing? ==> !s'.consumer.expected)
  {
    ConsumesInv(s, false);
    hide Distance, Masked, SlotsHold;
  }

  /** The last step, or the one before it when the flag turns out to be up. */
  lemma QuietClear(s: State)
    requires Inv(s) && s.size > 0 && s.consumer.Clearing?
    ensures |s.delivered| < |s.stored|
    ensures var s' := if s.overflow == s.consumer.expected then Consumes(s, false)
            else Consumes(Consumes(s, false), false);
            |s'.delivered| == |s.delivered| + 1 && s'.delivered[|s.delivered|].0 == s.stored[|s.delivered|]
  {
    hide Distance, Masked, SlotsHold;
  }

  lemma {:induction false} QuietReaches(s: State, n: nat)
    requires Inv(s) && s.size > 0 && n == 9 - Progress(s.consumer)
    requires Progress(s.consumer) < 5 ==> s.swaps < Published(s)
    ensures var t := Quiet(s, n);
            && Inv(t) && t.consumer.Clearing? && t.size == s.size && t.stored == s.stored
            && t.delivered == s.delivered && t.overflow == s.overflow && (n > 0 ==> !t.consumer.expected)
    decreases n
  {
    hide Inv, Consumes;
    if n > 0 {
      var s' := Consumes(s, false);
      if Progress(s.consumer) < 5 {
        QuietLook(s);
        assert Published(s') == Published(s);
      } else {
        QuietTake(s);
      }
      QuietReaches(s', n - 1);
    }
  }

  lemma QuietSnoc(s: State, n: nat)
    ensures Quiet(s, n + 1) == Consumes(Quiet(s, n), false)
    decreases n
  {
    hide Consumes;
    if n > 0 { QuietSnoc(Consumes(s, false), n - 1); }
  }

  /** Undisturbed, the reader delivers the next block in ten steps, or in eleven when an overflow
      is to be reported, whenever one is published. */
  lemma ReadDeliversNext(s: State)
    requires Reachable(s) && s.consumer.Waiting? && |s.delivered| < Published(s)
    ensures var n := if s.overflow then 11 else 10;
            && |Quiet(s, n).delivered| == |s.delivered| + 1
            && Quiet(s, n).delivered[|s.delivered|].0 == s.stored[|s.delivered|]
  {
    ReachableInv(s);
    QuietReaches(s, 9);
    QuietClear(Quiet(s, 9));
    QuietSnoc(s, 9);
    QuietSnoc(s, 10);
    hide Quiet, Consumes, Inv;
  }
}
