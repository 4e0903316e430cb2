/** What the application reads from the output queue, compared with the stream that the output loop offers to it:
    which blocks follow each other, and what the overflow mark says. */
module OutputStream {
  import opened OutputFifo
  import R = ReceiverFlow

  /** A state of the queue with what has been offered to it, where the stored blocks stood in that, and how many
      refusals had been reported after each read. */
  datatype History = History(s: State, offered: seq<Block>, places: seq<nat>, reports: seq<nat>)

  function Next(h: History, e: Event): History {
    var s' := Step(h.s, e);
    History(s',
            if e.Produce? && h.s.producer.Idle? then h.offered + [e.b] else h.offered,
            if |s'.stored| > |h.s.stored| && |h.offered| > 0 then h.places + [|h.offered| - 1] else h.places,
            if |s'.delivered| > |h.s.delivered| then h.reports + [s'.reported] else h.reports)
  }

  function Start(size: nat): History { History(Init(size), [], [], []) }

  function After(size: nat, events: seq<Event>): History {
    if events == [] then Start(size) else Next(After(size, events[..|events| - 1]), events[|events| - 1])
  }

  // ----- what every run keeps

  /** The block that the producer holds has been offered but is not stored. */
  function InHand(p: Producer): Option<Block> {
    match p
    case HasWrite(b, _) => Some(b)
    case HasBoth(b, _, _) => Some(b)
    case _ => None
  }

  function Pending(p: Producer): nat { if p.HasWrite? || p.HasBoth? || p.Refused? then 1 else 0 }

  /** The stored blocks are the offered ones without those refused, in order. */
  ghost predicate Placed(h: History) {
    && |h.places| == |h.s.stored|
    && (forall k :: 0 <= k < |h.places| ==>
          && h.places[k] < |h.offered| && h.s.stored[k] == h.offered[h.places[k]]
          && (k > 0 ==> h.places[k - 1] < h.places[k]))
    && |h.offered| == |h.s.stored| + h.s.refused + Pending(h.s.producer)
    && (InHand(h.s.producer).Some? ==> |h.offered| > 0 && Some(h.offered[|h.offered| - 1]) == InHand(h.s.producer))
    && (Pending(h.s.producer) > 0 && |h.places| > 0 ==> h.places[|h.places| - 1] < |h.offered| - 1)
  }

  /** Between the number of stored blocks and the place of one are the refusals that came before it. */
  ghost predicate Bounded(places: seq<nat>, refused: nat) {
    forall k :: 0 <= k < |places| ==> k <= places[k] <= k + refused
  }

  /** A read is marked exactly if it reports something new, and then reports at least what came before its block. */
  ghost predicate ReadOk(reports: seq<nat>, delivered: seq<(Block, bool)>, places: seq<nat>, m: nat)
    requires m < |reports| == |delivered| <= |places|
  {
    && places[m] - m <= reports[m]
    && if m > 0 then reports[m - 1] <= reports[m] && (delivered[m].1 <==> reports[m - 1] < reports[m])
       else delivered[m].1 <==> 0 < reports[m]
  }

  ghost predicate ReadsOk(reports: seq<nat>, delivered: seq<(Block, bool)>, places: seq<nat>, reported: nat) {
    && |reports| == |delivered| <= |places|
    && (forall m :: 0 <= m < |reports| ==> ReadOk(reports, delivered, places, m))
    && reported == if |reports| > 0 then reports[|reports| - 1] else 0
  }

  ghost predicate Reported(h: History) {
    Bounded(h.places, h.s.refused) && ReadsOk(h.reports, h.s.delivered, h.places, h.s.reported)
  }

  lemma MoreRefused(places: seq<nat>, refused: nat, refused': nat)
    requires Bounded(places, refused) && refused <= refused'
    ensures Bounded(places, refused')
  {
  }

  lemma MoreStored(reports: seq<nat>, delivered: seq<(Block, bool)>, places: seq<nat>, reported: nat, place: nat)
    requires ReadsOk(reports, delivered, places, reported)
    ensures ReadsOk(reports, delivered, places + [place], reported)
  {
    forall m | 0 <= m < |reports| ensures ReadOk(reports, delivered, places + [place], m) {
      assert ReadOk(reports, delivered, places, m);
    }
  }

  lemma MoreRead(reports: seq<nat>, delivered: seq<(Block, bool)>, places: seq<nat>, reported: nat, d: (Block, bool),
                 r: nat)
    requires ReadsOk(reports, delivered, places, reported) && Bounded(places, r) && |reports| < |places|
    requires reported <= r && (d.1 <==> reported < r)
    ensures ReadsOk(reports + [r], delivered + [d], places, r)
  {
    var n := |reports|;
    forall m | 0 <= m < n + 1 ensures ReadOk(reports + [r], delivered + [d], places, m) {
      if m < n {
        assert ReadOk(reports, delivered, places, m);
      }
    }
  }

  ghost predicate Kept(h: History) { Inv(h.s) && Placed(h) && Reported(h) }

  lemma StartKept(size: nat)
    requires IsFifoSize(size)
    ensures Kept(Start(size))
  {
    InitInv(size);
  }

  /** How a step changes what was stored, refused and delivered. */
  lemma StepChanges(s: State, e: Event)
    requires Inv(s)
    ensures var s' := Step(s, e);
      && (s'.stored == s.stored
          || (s.producer.HasBoth? && s'.producer.Stored? && s'.stored == s.stored + [s.producer.b]))
      && (s'.stored == s.stored ==> s'.refused + Pending(s'.producer)
                                    == s.refused + Pending(s.producer) + if e.Produce? && s.producer.Idle? then 1
                                      else 0)
      && s'.refused == s.refused + (if e.ProducerStep? && s.producer.Refused? then 1 else 0)
      && (s'.delivered == s.delivered ==> s'.reported == s.reported)
      && (s'.delivered != s.delivered ==>
            && |s'.delivered| == |s.delivered| + 1 && s'.delivered[..|s.delivered|] == s.delivered
              && s'.stored == s.stored
            && s'.reported == s.refused && (s'.delivered[|s.delivered|].1 <==> s.reported < s.refused))
  {
    hide SlotsHold, IndexesAgree, ProducerOk, DeliveredOk, Unused, IsFifoSize, Distance, Masked;
    if e.ConsumerStep? && s.size == 0 {
      UnusedWaits(s);
    }
  }

  lemma UnusedWaits(s: State)
    requires Inv(s) && s.size == 0
    ensures s.consumer.Waiting? || s.consumer.Sizing?
  {
    hide SlotsHold, DeliveredOk, IsFifoSize;
  }

  /** What a step adds to the history. */
  lemma NextIs(h: History, e: Event)
    requires Inv(h.s)
    ensures var s', h' := Step(h.s, e), Next(h, e);
      && h'.s == s' && h'.offered == (if e.Produce? && h.s.producer.Idle? then h.offered + [e.b] else h.offered)
      && (s'.stored == h.s.stored ==> h'.places == h.places)
      && (s'.stored != h.s.stored && |h.offered| > 0 ==> h'.places == h.places + [|h.offered| - 1])
      && h'.reports == (if s'.delivered == h.s.delivered then h.reports else h.reports + [s'.reported])
  {
    StepChanges(h.s, e);
    hide Step, Inv;
  }

  lemma NextPlaced(h: History, e: Event)
    requires Kept(h)
    ensures Placed(Next(h, e))
  {
    StepChanges(h.s, e);
    HandOver(h.s, e);
    NextIs(h, e);
    var s', h' := Step(h.s, e), Next(h, e);
    if e.Produce? && h.s.producer.Idle? {
      hide Inv, Reported, Step, Next, Placed;
      PlacedOffer(h, h', e.b);
    } else if s'.stored != h.s.stored {
      OfferedBefore(h);
      hide Inv, Reported, Step, Next, Placed;
      PlacedStore(h, h', h.s.producer.b);
    } else {
      hide Inv, Reported, Step, Next, Placed;
      PlacedRest(h, h');
    }
  }

  lemma OfferedBefore(h: History)
    requires Placed(h) && InHand(h.s.producer).Some?
    ensures |h.offered| > 0
  {
  }

  lemma PlacedOffer(h: History, h': History, b: Block)
    requires Placed(h) && Pending(h.s.producer) == 0 && h'.offered == h.offered + [b] && h'.places == h.places
    requires h'.s.stored == h.s.stored && InHand(h'.s.producer) == Some(b)
    requires h'.s.refused + Pending(h'.s.producer) == h.s.refused + 1
    ensures Placed(h')
  {
    hide InHand, Pending;
  }

  lemma PlacedStore(h: History, h': History, b: Block)
    requires Placed(h) && InHand(h.s.producer) == Some(b) && Pending(h.s.producer) == 1 && |h.offered| > 0
    requires h'.offered == h.offered && h'.places == h.places + [|h.offered| - 1] && h'.s.stored == h.s.stored + [b]
    requires h'.s.refused == h.s.refused && InHand(h'.s.producer).None? && Pending(h'.s.producer) == 0
    ensures Placed(h')
  {
    hide InHand, Pending;
  }

  lemma PlacedRest(h: History, h': History)
    requires Placed(h) && h'.offered == h.offered && h'.places == h.places && h'.s.stored == h.s.stored
    requires h'.s.refused + Pending(h'.s.producer) == h.s.refused + Pending(h.s.producer)
    requires InHand(h'.s.producer).Some? ==> InHand(h'.s.producer) == InHand(h.s.producer)
    requires Pending(h'.s.producer) > 0 ==> Pending(h.s.producer) > 0
    ensures Placed(h')
  {
    hide InHand, Pending;
  }

  /** The block in hand stays the one offered until it is stored or refused. */
  lemma HandOver(s: State, e: Event)
    ensures var s' := Step(s, e);
      && (InHand(s'.producer).Some? ==>
            if e.Produce? && s.producer.Idle? then InHand(s'.producer) == Some(e.b)
              else InHand(s'.producer) == InHand(s.producer))
      && (Pending(s'.producer) > 0 ==> Pending(s.producer) > 0 || (e.Produce? && s.producer.Idle?))
  {
    hide Distance, Masked;
  }

  lemma NextReported(h: History, e: Event)
    requires Kept(h)
    ensures Reported(Next(h, e))
  {
    if Step(h.s, e).delivered != h.s.delivered {
      ReadReported(h, e);
    } else {
      StoreReported(h, e);
    }
  }

  lemma ReadReported(h: History, e: Event)
    requires Kept(h) && Step(h.s, e).delivered != h.s.delivered
    ensures Reported(Next(h, e))
  {
    StepChanges(h.s, e);
    NextIs(h, e);
    DeliveredCounts(h.s);
    StepInv(h.s, e);
    DeliveredCounts(Step(h.s, e));
    hide Inv, Step, Next, Bounded, ReadsOk, InHand, Pending;
    var s' := Step(h.s, e);
    ReportedRead(h, Next(h, e), s'.delivered[|h.s.delivered|], s'.reported);
  }

  lemma StoreReported(h: History, e: Event)
    requires Kept(h) && Step(h.s, e).delivered == h.s.delivered
    ensures Reported(Next(h, e))
  {
    var s' := Step(h.s, e);
    StepChanges(h.s, e);
    NextIs(h, e);
    PlaceOfNew(h, e);
    MoreRefused(h.places, h.s.refused, s'.refused);
    hide Inv, Step, Placed, Next, Bounded, ReadsOk, InHand, Pending;
    if s'.stored != h.s.stored {
      ReportedStore(h, Next(h, e), |h.offered| - 1);
    } else {
      ReportedStays(h, Next(h, e));
    }
  }

  lemma ReportedRead(h: History, h': History, d: (Block, bool), r: nat)
    requires Reported(h) && |h.s.delivered| < |h.places| && h.s.reported <= h.s.refused == r
    requires h'.places == h.places && Bounded(h.places, h'.s.refused) && Bounded(h.places, r)
    requires |h'.s.delivered| == |h.s.delivered| + 1 && h'.s.delivered[..|h.s.delivered|] == h.s.delivered
    requires h'.s.delivered[|h.s.delivered|] == d && (d.1 <==> h.s.reported < r)
    requires h'.reports == h.reports + [r] && h'.s.reported == r
    ensures Reported(h')
  {
    MoreRead(h.reports, h.s.delivered, h.places, h.s.reported, d, r);
    assert h'.s.delivered == h.s.delivered + [d];
    hide ReadsOk, Bounded;
  }

  lemma ReportedStays(h: History, h': History)
    requires Reported(h) && h'.places == h.places && Bounded(h'.places, h'.s.refused)
    requires h'.s.delivered == h.s.delivered && h'.reports == h.reports && h'.s.reported == h.s.reported
    ensures Reported(h')
  {
    hide ReadsOk, Bounded;
  }

  lemma ReportedStore(h: History, h': History, place: nat)
    requires Reported(h) && h'.places == h.places + [place] && Bounded(h'.places, h'.s.refused)
    requires h'.s.delivered == h.s.delivered && h'.reports == h.reports && h'.s.reported == h.s.reported
    ensures Reported(h')
  {
    MoreStored(h.reports, h.s.delivered, h.places, h.s.reported, place);
    hide ReadsOk, Bounded;
  }

  /** A block is stored at the place after as many blocks as were stored and refused before it. */
  lemma PlaceOfNew(h: History, e: Event)
    requires Kept(h)
    ensures |h.places| == |h.s.stored|
    ensures Step(h.s, e).stored != h.s.stored ==>
              && |h.offered| == |h.s.stored| + h.s.refused + 1
                && Bounded(h.places + [|h.offered| - 1], Step(h.s, e).refused)
  {
    StepChanges(h.s, e);
    hide Inv, Step, ReadsOk;
  }

  lemma DeliveredCounts(s: State)
    requires Inv(s)
    ensures |s.delivered| <= |s.stored| && s.reported <= s.refused
  {
    DeliveredBound(s);
  }

  lemma DeliveredBound(s: State)
    requires Inv(s)
    ensures |s.delivered| <= |s.stored| && s.reported <= s.refused
    ensures forall k :: 0 <= k < |s.delivered| ==> s.delivered[k].0 == s.stored[k]
  {
    hide SlotsHold, IndexesAgree, ProducerOk, ConsumerOk, Unused, IsFifoSize;
  }

  lemma {:induction false} AlwaysKept(size: nat, events: seq<Event>)
    requires IsFifoSize(size)
    ensures Kept(After(size, events))
    decreases |events|
  {
    hide Inv, Placed, Reported, Next, IsFifoSize;
    if events == [] {
      StartKept(size);
    } else {
      var h := After(size, events[..|events| - 1]);
      AlwaysKept(size, events[..|events| - 1]);
      NextPlaced(h, events[|events| - 1]);
      NextReported(h, events[|events| - 1]);
      NextInv(h, events[|events| - 1]);
    }
  }

  lemma NextInv(h: History, e: Event)
    requires Inv(h.s)
    ensures Inv(Next(h, e).s)
  {
    StepInv(h.s, e);
  }

  // ----- the application's question

  /** An unflagged block of the stream continues the one before it. */
  ghost predicate Continuous(bs: seq<Block>) {
    forall i :: 0 < i < |bs| && !bs[i].flagged ==> bs[i].seqNo == (bs[i - 1].seqNo + 1) % 65536
  }

  lemma {:induction false} RunsOn(bs: seq<Block>, i: nat, j: nat)
    requires Continuous(bs) && i < j < |bs| && bs[i].seqNo < 65536 && forall k :: i < k <= j ==> !bs[k].flagged
    ensures bs[j].seqNo == (bs[i].seqNo + (j - i)) % 65536
  {
    if i + 1 < j {
      RunsOn(bs, i, j - 1);
    }
  }

  /** Two blocks read one after the other, in any run: between them the queue has refused the blocks between their
      places in the stream. If none of these and not the second block is flagged, the numbers follow each other if and
      only if the refused ones are a multiple of 65536; so without a refusal they do. */
  lemma ReadsFollowIff(size: nat, events: seq<Event>, k: nat)
    requires IsFifoSize(size) && var h := After(size, events); k + 1 < |h.s.delivered| && Stream(h.offered)
    ensures Follow(After(size, events), k)
  {
    AlwaysKept(size, events);
    hide *;
    FollowOf(After(size, events), k);
  }

  /** Numbers of 16 bits, continued without a gap except at flags. */
  ghost predicate Stream(bs: seq<Block>) { Continuous(bs) && forall i :: 0 <= i < |bs| ==> bs[i].seqNo < 65536 }

  /** What can be said of the k-th read and the one after it. */
  ghost predicate Follow(h: History, k: nat) {
    && k + 1 < |h.s.delivered| <= |h.places| && h.places[k] < h.places[k + 1] < |h.offered|
    && h.s.delivered[k].0 == h.offered[h.places[k]] && h.s.delivered[k + 1].0 == h.offered[h.places[k + 1]]
    && (NoFlag(h.offered, h.places[k], h.places[k + 1]) ==>
          (h.s.delivered[k + 1].0.seqNo == (h.s.delivered[k].0.seqNo + 1) % 65536
           <==> (h.places[k + 1] - h.places[k] - 1) % 65536 == 0))
  }

  ghost predicate NoFlag(bs: seq<Block>, i: nat, j: nat)
    requires j < |bs|
  {
    forall n :: i < n <= j ==> !bs[n].flagged
  }

  lemma FollowOf(h: History, k: nat)
    requires Kept(h) && k + 1 < |h.s.delivered| && Stream(h.offered)
    ensures Follow(h, k)
  {
    DeliveredBound(h.s);
    hide Inv, Reported, Continuous;
    var i, j := h.places[k], h.places[k + 1];
    assert h.s.stored[k] == h.offered[i] && h.s.stored[k + 1] == h.offered[j] && i < j;
    hide Placed;
    if NoFlag(h.offered, i, j) {
      RunsOn(h.offered, i, j);
      Shift(h.offered[i].seqNo, j - i);
    }
  }

  lemma Shift(a: nat, d: nat)
    requires a < 65536 && d > 0
    ensures (a + d) % 65536 == (a + 1) % 65536 <==> (d - 1) % 65536 == 0
  {
    var q, r := (d - 1) / 65536, (d - 1) % 65536;
    assert a + d == (a + 1 + r) + 65536 * q;
    assert (a + d) % 65536 == (a + 1 + r) % 65536;
  }

  /** The mark does not say where the gap is: when blocks were refused before a block that has been read, it or one
      read before it was marked for them. */
  lemma MarkComes(size: nat, events: seq<Event>, k: nat) returns (m: nat)
    requires IsFifoSize(size) && var h := After(size, events); k < |h.s.delivered| && k < |h.places| && h.places[k] > k
    ensures MarkedFor(After(size, events), k, m)
  {
    AlwaysKept(size, events);
    hide *;
    m := FirstMark(After(size, events), k);
  }

  /** Read m carries the mark, and is the first to report as many refusals as came before the block of read k. */
  ghost predicate MarkedFor(h: History, k: nat, m: nat) {
    && m <= k < |h.s.delivered| == |h.reports| <= |h.places| && h.s.delivered[m].1
    && h.places[k] - k <= h.reports[m] && (m > 0 ==> h.reports[m - 1] < h.places[k] - k)
  }

  lemma FirstMark(h: History, k: nat) returns (m: nat)
    requires Kept(h) && k < |h.s.delivered| && k < |h.places| && h.places[k] > k
    ensures MarkedFor(h, k, m)
  {
    hide Inv, Placed;
    assert ReadOk(h.reports, h.s.delivered, h.places, k);
    m := FirstReport(h, k, h.places[k] - k);
  }

  lemma {:induction false} FirstReport(h: History, k: nat, r: nat) returns (m: nat)
    requires Reported(h) && k < |h.reports| && 0 < r <= h.reports[k]
    ensures m <= k && h.s.delivered[m].1 && r <= h.reports[m] && (m > 0 ==> h.reports[m - 1] < r)
  {
    assert ReadOk(h.reports, h.s.delivered, h.places, k);
    if k == 0 || h.reports[k - 1] < r {
      m := k;
    } else {
      m := FirstReport(h, k - 1, r);
    }
  }

  /** The blocks of a flow as they are offered to the queue: the two gap flags are one there. */
  function Offered(bs: seq<R.Block>): seq<Block> {
    seq(|bs|, i requires 0 <= i < |bs| => Block(bs[i].packet.seqNr, bs[i].discontinuity || bs[i].bufferStart))
  }

  lemma FlowOffersStream(bs: seq<R.Block>)
    requires R.Labelled(bs)
    ensures Stream(Offered(bs))
  {
  }

  /** The receiver's output loop in front of the queue: what the application reads of a labelled stream. */
  lemma ReadsOfFlow(bs: seq<R.Block>, size: nat, events: seq<Event>, k: nat)
    requires R.Labelled(bs) && IsFifoSize(size)
    requires var h := After(size, events); h.offered == Offered(bs) && k + 1 < |h.s.delivered|
    ensures Follow(After(size, events), k)
  {
    FlowOffersStream(bs);
    hide *;
    ReadsFollowIff(size, events, k);
  }

  // ----- a gap without any flag or mark

  lemma MoreEvents(size: nat, events: seq<Event>, e: Event)
    ensures After(size, events + [e]) == Next(After(size, events), e)
  {
    assert (events + [e])[..|events|] == events;
  }

  /** Three more steps of one thread. */
  lemma ThreeMore(size: nat, events: seq<Event>, a: Event, b: Event, c: Event)
    ensures After(size, events + [a] + [b] + [c]) == Next(Next(Next(After(size, events), a), b), c)
  {
    hide Next, After;
    MoreEvents(size, events, a);
    MoreEvents(size, events + [a], b);
    MoreEvents(size, events + [a] + [b], c);
  }

  /** Offering a block: three steps after the event store and publish it, or refuse it. */
  lemma Offering(size: nat, events: seq<Event>, b: Block) returns (more: seq<Event>)
    requires After(size, events).s.producer.Idle?
    ensures var h := After(size, events);
      After(size, more) == Next(Next(Next(Next(h, Produce(b)), ProducerStep), ProducerStep), ProducerStep)
  {
    hide Next, After;
    MoreEvents(size, events, Produce(b));
    ThreeMore(size, events + [Produce(b)], ProducerStep, ProducerStep, ProducerStep);
    more := events + [Produce(b)] + [ProducerStep] + [ProducerStep] + [ProducerStep];
  }

  function Consumed(h: History, n: nat): History {
    if n == 0 then h else Next(Consumed(h, n - 1), ConsumerStep(false))
  }

  lemma {:induction false} Reading(size: nat, events: seq<Event>, n: nat) returns (more: seq<Event>)
    ensures After(size, more) == Consumed(After(size, events), n)
  {
    hide Next, After;
    if n == 0 {
      more := events;
    } else {
      more := Reading(size, events, n - 1);
      MoreEvents(size, more, ConsumerStep(false));
      more := more + [ConsumerStep(false)];
    }
  }

  function A(): Block { Block(5, true) }
  function B(): Block { Block(6, false) }
  function C(): Block { Block(7, false) }

  /** A queue for one block, with A stored and B refused. */
  function AfterRefusal(): History {
    History(State(2, [Some(A()), None], 0, 1, true, Idle, Waiting, [A()], 0, 0, [], 1, 0), [A(), B()], [0], [])
  }

  /** A has been read, with the mark. */
  function AfterFirstRead(): History {
    History(State(2, [None, None], 1, 1, false, Idle, Waiting, [A()], 1, 0, [(A(), true)], 1, 1), [A(), B()], [0], [1])
  }

  /** C has been stored. */
  function AfterStoring(): History {
    History(State(2, [None, Some(C())], 1, 0, false, Idle, Waiting, [A(), C()], 1, 1, [(A(), true)], 1, 1),
            [A(), B(), C()], [0, 2], [1])
  }

  function AfterFirst(): History {
    History(State(2, [Some(A()), None], 0, 1, false, Idle, Waiting, [A()], 0, 0, [], 0, 0), [A()], [0], [])
  }

  lemma StoreFirst()
    ensures Next(Next(Next(Next(Start(2), Produce(A())), ProducerStep), ProducerStep), ProducerStep) == AfterFirst()
  {
    var h := Start(2);
    assert h.s.slots == [None, None];
    var h1 := h.(s := h.s.(producer := HasWrite(A(), 0)), offered := [A()]);
    var h2 := h1.(s := h1.s.(producer := HasBoth(A(), 0, 0)));
    var h3 := h2.(s := h2.s.(slots := [Some(A()), None], stored := [A()], producer := Stored(0)), places := [0]);
    assert Next(h, Produce(A())) == h1;
    assert Next(h1, ProducerStep) == h2;
    assert Next(h2, ProducerStep) == h3;
    assert Next(h3, ProducerStep) == AfterFirst();
  }

  lemma RefuseSecond()
    ensures Next(Next(Next(Next(AfterFirst(), Produce(B())), ProducerStep), ProducerStep), ProducerStep)
            == AfterRefusal()
  {
    var h := AfterFirst();
    var h1 := h.(s := h.s.(producer := HasWrite(B(), 1)), offered := [A(), B()]);
    var h2 := h1.(s := h1.s.(producer := HasBoth(B(), 1, 0)));
    var h3 := h2.(s := h2.s.(producer := Refused));
    assert Next(h, Produce(B())) == h1;
    assert Next(h1, ProducerStep) == h2;
    assert Next(h2, ProducerStep) == h3;
    assert Next(h3, ProducerStep) == AfterRefusal();
  }

  lemma StoreThird()
    ensures Next(Next(Next(Next(AfterFirstRead(), Produce(C())), ProducerStep), ProducerStep), ProducerStep)
            == AfterStoring()
  {
    var h := AfterFirstRead();
    var h1 := h.(s := h.s.(producer := HasWrite(C(), 1)), offered := [A(), B(), C()]);
    var h2 := h1.(s := h1.s.(producer := HasBoth(C(), 1, 1), seen := 1));
    var h3 := h2.(s := h2.s.(slots := [None, Some(C())], stored := [A(), C()], producer := Stored(1)),
                  places := [0, 2]);
    assert Next(h, Produce(C())) == h1;
    assert Next(h1, ProducerStep) == h2;
    assert Next(h2, ProducerStep) == h3;
    assert Next(h3, ProducerStep) == AfterStoring();
  }

  /** The reader's steps alone. */
  function Steps(s: State, n: nat): State {
    if n == 0 then s else Consumes(Steps(s, n - 1), false)
  }

  lemma StepsNext(s: State, n: nat, t: State, t': State)
    requires Steps(s, n) == t && Consumes(t, false) == t'
    ensures Steps(s, n + 1) == t'
  {
    hide Consumes;
  }

  lemma ConsumesGrows(s: State)
    ensures var s' := Consumes(s, false); s'.stored == s.stored && |s'.delivered| >= |s.delivered|
  {
    hide Distance, Masked;
  }

  /** As long as nothing is handed over, nothing else changes. */
  lemma {:induction false} QuietSteps(h: History, n: nat)
    requires |Steps(h.s, n).delivered| <= |h.s.delivered|
    ensures Consumed(h, n) == h.(s := Steps(h.s, n)) && |Steps(h.s, n).delivered| == |h.s.delivered|
    ensures Steps(h.s, n).stored == h.s.stored
  {
    if n > 0 {
      ConsumesGrows(Steps(h.s, n - 1));
      hide Consumes;
      QuietSteps(h, n - 1);
    }
  }

  /** The steps of a read up to the compare-and-swap, when one block is waiting in slot `r`. */
  lemma FiveSteps(s: State)
    requires s.size == 2 && s.consumer.Waiting? && s.read <= 1 && s.write == 1 - s.read
    ensures Steps(s, 5) == s.(consumer := Swapping(1, s.read))
  {
    var r := s.read;
    assert Distance(1 - r, r, 2) == 1;
    assert Steps(s, 0) == s;
    hide Distance, Masked, Steps;
    StepsNext(s, 0, s, s.(consumer := Sizing(r)));
    StepsNext(s, 1, s.(consumer := Sizing(r)), s.(consumer := Chosen(1)));
    StepsNext(s, 2, s.(consumer := Chosen(1)), s.(consumer := Loaded(1, r)));
    StepsNext(s, 3, s.(consumer := Loaded(1, r)), s.(consumer := Looping(1, r)));
    StepsNext(s, 4, s.(consumer := Looping(1, r)), s.(consumer := Swapping(1, r)));
  }

  /** What the state is when the block of slot `r` has been taken, before the overflow flag is checked. */
  function Taken(s: State, b: Block): State
    requires |s.slots| == 2 && s.read <= 1
  {
    s.(slots := s.slots[s.read := None], read := 1 - s.read, swaps := s.swaps + 1,
       consumer := Clearing(1, Some(b), false))
  }

  lemma WonStep(t: State, r: nat)
    requires t.consumer == Swapping(1, r) && t.read == r <= 1 && t.size == 2
    ensures Consumes(t, false) == t.(read := 1 - r, swaps := t.swaps + 1, consumer := Won(1, r))
  {
    assert Masked(r + 1, 2) == 1 - r;
  }

  lemma TookStep(t: State, r: nat)
    requires t.consumer == Won(1, r) && r < |t.slots|
    ensures Consumes(t, false) == t.(consumer := Took(1, r, t.slots[r]))
  {
    hide Distance, Masked;
  }

  lemma ClearedStep(t: State, r: nat, b: Option<Block>)
    requires t.consumer == Took(1, r, b) && r < |t.slots|
    ensures Consumes(t, false) == t.(slots := t.slots[r := None], consumer := Checking(1, b))
  {
    hide Distance, Masked;
  }

  lemma CheckedStep(t: State, b: Option<Block>)
    requires t.consumer == Checking(1, b)
    ensures Consumes(t, false) == t.(consumer := Clearing(1, b, false))
  {
    hide Distance, Masked;
  }

  /** The four steps that take the block out. */
  lemma TakeOut(s: State, n: nat, t: State, b: Block)
    requires Steps(s, n) == t && t.size == 2 && |t.slots| == 2 && t.read <= 1 && t.consumer == Swapping(1, t.read)
    requires t.slots[t.read] == Some(b)
    ensures Steps(s, n + 4) == Taken(t, b)
  {
    hide Steps, Consumes;
    var r := t.read;
    WonStep(t, r);
    var won := Consumes(t, false);
    StepsNext(s, n, t, won);
    TookStep(won, r);
    var took := Consumes(won, false);
    StepsNext(s, n + 1, won, took);
    ClearedStep(took, r, Some(b));
    var checking := Consumes(took, false);
    StepsNext(s, n + 2, took, checking);
    CheckedStep(checking, Some(b));
    StepsNext(s, n + 3, checking, Consumes(checking, false));
  }

  /** And from there to the check of the overflow flag. */
  lemma FourMore(s: State, b: Block)
    requires s.size == 2 && |s.slots| == 2 && s.consumer.Waiting? && s.read <= 1 && s.write == 1 - s.read
    requires s.slots[s.read] == Some(b)
    ensures Steps(s, 9) == Taken(s, b)
  {
    FiveSteps(s);
    hide *;
    var t := Steps(s, 5);
    TakenSame(s, t, b);
    TakeOut(s, 5, t, b);
  }

  /** Where the reader stood does not matter to what is then taken. */
  lemma TakenSame(s: State, t: State, b: Block)
    requires |s.slots| == 2 && s.read <= 1 && t == s.(consumer := Swapping(1, s.read))
    ensures t.size == s.size && t.slots == s.slots && t.read == s.read && t.consumer == Swapping(1, t.read)
    ensures Taken(t, b) == Taken(s, b)
  {
  }

  /** One block is read: with the mark, after one more look at the flag, if and only if the flag was set. */
  lemma ReadOne(h: History, b: Block)
    requires h.s.size == 2 && |h.s.slots| == 2 && h.s.consumer.Waiting? && h.s.read <= 1 && h.s.write == 1 - h.s.read
    requires h.s.slots[h.s.read] == Some(b)
    ensures Consumed(h, if h.s.overflow then 11 else 10)
         == h.(s := Taken(h.s, b).(overflow := false, reported := h.s.refused, consumer := Waiting,
                                   delivered := h.s.delivered + [(b, h.s.overflow)]),
               reports := h.reports + [h.s.refused])
  {
    FourMore(h.s, b);
    var t := Taken(h.s, b);
    QuietSteps(h, 9);
    if h.s.overflow {
      var t' := t.(consumer := Clearing(1, Some(b), true));
      StepsNext(h.s, 9, t, t');
      QuietSteps(h, 10);
      HandedOver(h.(s := t'), b);
    } else {
      HandedOver(h.(s := t), b);
    }
  }

  lemma HandedOver(h: History, b: Block)
    requires h.s.consumer == Clearing(1, Some(b), h.s.overflow)
    ensures Next(h, ConsumerStep(false))
         == h.(s := h.s.(overflow := false, reported := h.s.refused, consumer := Waiting,
                         delivered := h.s.delivered + [(b, h.s.overflow)]),
               reports := h.reports + [h.s.refused])
  {
  }

  lemma ReadFirst(h: History)
    requires h == AfterRefusal()
    ensures Consumed(h, 11) == AfterFirstRead()
  {
    hide Consumed;
    ReadOne(h, A());
    assert [Some(A()), None][0 := None] == [None, None];
  }

  lemma ReadSecond(h: History)
    requires h == AfterStoring()
    ensures Consumed(h, 10).offered == [A(), B(), C()]
    ensures Consumed(h, 10).s.delivered == [(A(), true), (C(), false)]
  {
    hide Consumed;
    ReadOne(h, C());
  }

  /** The mark is on the first of two blocks, the gap is after it: block 7 is read after block 5 without a flag or a
      mark of its own. */
  lemma UnmarkedGap() returns (events: seq<Event>)
    ensures var h := After(2, events);
      Stream(h.offered) && h.s.delivered == [(Block(5, true), true), (Block(7, false), false)]
  {
    events := [];
    hide Next, Consumed;
    assert After(2, events) == Start(2);
    events := Offering(2, events, A());
    StoreFirst();
    events := Offering(2, events, B());
    RefuseSecond();
    events := Reading(2, events, 11);
    ReadFirst(AfterRefusal());
    events := Offering(2, events, C());
    StoreThird();
    events := Reading(2, events, 10);
    ReadSecond(AfterStoring());
  }
}
