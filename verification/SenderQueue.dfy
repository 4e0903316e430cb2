/** The sender's ring of packets: storing, sending, cleaning, and finding a packet for retransmission. */
module SenderQueue {
  import opened Arith

  /** `RIST_SERVER_QUEUE_BUFFERS`. */
  const QUEUE_MAX := 524288
  const UINT64 := 0x1_0000_0000_0000_0000
  const CLOCK := 4294967
  /** `max_dataperloop`, and the packets that one clean-up may delete. */
  const MAX_DATA := 100
  const MAX_DELETE := 9

  type Seq16 = n: nat | n < 65536

  datatype Option<T> = None | Some(value: T)

  /** `rist_buffer`, as far as the sender's queue uses it. */
  datatype Packet = Packet(seqRtp: Seq16, size: nat, time: nat)

  function Sub64(a: nat, b: nat): nat { (a - b) % UINT64 }

  /** The age in milliseconds. */
  function Age(p: Packet, now: nat): nat { Sub64(now, p.time) / CLOCK }

  /** A packet is younger than `ms` milliseconds, of 4294967 ticks each, exactly if that much time has not passed. */
  lemma AgeIs(p: Packet, now: nat, ms: nat)
    requires p.time <= now < 0x1_0000_0000_0000_0000
    ensures Age(p, now) < ms <==> now - p.time < 4294967 * ms
  {
    var q, r := DivMod(now - p.time, CLOCK);
    if q < ms {
      MulMono(CLOCK, q + 1, ms);
    } else {
      MulMono(CLOCK, ms, q);
    }
  }

  // ----- the ring as a window on the log of all packets

  /** The slot of the k-th packet ever stored. */
  function SlotOf(k: nat): nat { (k + 1) % QUEUE_MAX }

  /** How far slot `i` is behind the slot of packet `d`. */
  function Offset(d: nat, i: nat): nat { (i - 1 - d) % QUEUE_MAX }

  /** What slot `i` holds when the first `d` packets of the log have been deleted. */
  function Content(log: seq<Packet>, d: nat, i: nat): Option<Packet> {
    var k := d + Offset(d, i);
    if k < |log| then Some(log[k]) else None
  }

  ghost predicate Window(q: seq<Option<Packet>>, log: seq<Packet>, d: nat) {
    |q| == QUEUE_MAX && forall i :: 0 <= i < QUEUE_MAX ==> q[i] == Content(log, d, i)
  }

  lemma OffsetOfSlot(d: nat, k: nat)
    requires d <= k < d + QUEUE_MAX
    ensures Offset(d, SlotOf(k)) == k - d
  {
  }

  lemma SlotOfOffset(d: nat, i: nat)
    requires i < QUEUE_MAX
    ensures SlotOf(d + Offset(d, i)) == i
  {
  }

  lemma OffsetStep(d: nat, i: nat)
    requires i < QUEUE_MAX
    ensures Offset(d + 1, i) == if Offset(d, i) == 0 then QUEUE_MAX - 1 else Offset(d, i) - 1
  {
  }

  /** The slots of the stored packets. */
  lemma StoredAt(q: seq<Option<Packet>>, log: seq<Packet>, d: nat, k: nat)
    requires Window(q, log, d) && d <= k < |log| && k - d < QUEUE_MAX
    ensures q[SlotOf(k)] == Some(log[k])
  {
    hide SlotOf, Offset;
    OffsetOfSlot(d, k);
    SlotBound(k);
  }

  lemma SlotBound(k: nat)
    ensures SlotOf(k) < QUEUE_MAX && SlotOf(k + 1) == (SlotOf(k) + 1) % QUEUE_MAX
  {
  }

  lemma WindowStore(q: seq<Option<Packet>>, log: seq<Packet>, d: nat, p: Packet)
    requires Window(q, log, d) && d <= |log| < d + QUEUE_MAX
    ensures SlotOf(|log|) < QUEUE_MAX && Window(q[SlotOf(|log|) := Some(p)], log + [p], d)
    ensures q[SlotOf(|log|)] == None
  {
    hide SlotOf, Offset;
    SlotBound(|log|);
    OffsetOfSlot(d, |log|);
    var q' := q[SlotOf(|log|) := Some(p)];
    forall i | 0 <= i < QUEUE_MAX ensures q'[i] == Content(log + [p], d, i) {
      SlotOfOffset(d, i);
    }
  }

  lemma WindowDelete(q: seq<Option<Packet>>, log: seq<Packet>, d: nat)
    requires Window(q, log, d) && d < |log| < d + QUEUE_MAX
    ensures SlotOf(d) < QUEUE_MAX && Window(q[SlotOf(d) := None], log, d + 1)
  {
    hide SlotOf, Offset;
    SlotBound(d);
    OffsetOfSlot(d, d);
    var q' := q[SlotOf(d) := None];
    forall i | 0 <= i < QUEUE_MAX ensures q'[i] == Content(log, d + 1, i) {
      SlotOfOffset(d, i);
      OffsetStep(d, i);
    }
  }

  // ----- bytes

  function Total(ps: seq<Packet>): nat {
    if ps == [] then 0 else ps[0].size + Total(ps[1..])
  }

  lemma {:induction false} TotalAppend(ps: seq<Packet>, p: Packet)
    ensures Total(ps + [p]) == Total(ps) + p.size
  {
    if ps != [] {
      assert (ps + [p])[1..] == ps[1..] + [p];
      TotalAppend(ps[1..], p);
    }
  }

  // ----- the index of sent packets

  /** The last of the first `r` packets with this number, or -1. */
  function LastSent(log: seq<Packet>, r: nat, s: Seq16): (u: int)
    requires r <= |log|
    ensures -1 <= u < r
  {
    if r == 0 then -1 else if log[r - 1].seqRtp == s then r - 1 else LastSent(log, r - 1, s)
  }

  /** LastSent is what a search through the log for the latest packet with the number finds. */
  lemma {:induction false} LastSentIsSearch(log: seq<Packet>, r: nat, s: Seq16)
    requires r <= |log|
    ensures var u := LastSent(log, r, s);
      -1 <= u < r && (u >= 0 ==> log[u].seqRtp == s) && forall k :: u < k < r ==> log[k].seqRtp != s
  {
    if r > 0 && log[r - 1].seqRtp != s {
      LastSentIsSearch(log, r - 1, s);
    }
  }

  lemma {:induction false} LastSentPrefix(log: seq<Packet>, p: Packet, r: nat, s: Seq16)
    requires r <= |log|
    ensures LastSent(log + [p], r, s) == LastSent(log, r, s)
  {
    if r > 0 {
      LastSentPrefix(log, p, r - 1, s);
    }
  }

  function IndexOf(log: seq<Packet>, r: nat, s: Seq16): nat
    requires r <= |log|
  {
    var u := LastSent(log, r, s);
    if u >= 0 then SlotOf(u) else 0
  }

  ghost predicate Indexed(index: seq<nat>, log: seq<Packet>, r: nat) {
    |index| == 65536 && r <= |log| && forall s: Seq16 :: index[s] == IndexOf(log, r, s)
  }

  lemma IndexedStore(index: seq<nat>, log: seq<Packet>, r: nat, p: Packet)
    requires Indexed(index, log, r)
    ensures Indexed(index, log + [p], r)
  {
    forall s: Seq16 ensures index[s] == IndexOf(log + [p], r, s) {
      LastSentPrefix(log, p, r, s);
    }
  }

  lemma IndexedSend(index: seq<nat>, log: seq<Packet>, r: nat)
    requires Indexed(index, log, r) && r < |log|
    ensures Indexed(index[log[r].seqRtp := SlotOf(r)], log, r + 1)
  {
  }

  lemma SameSlot(a: nat, b: nat)
    requires a <= b < a + QUEUE_MAX
    ensures SlotOf(a) == SlotOf(b) <==> a == b
  {
  }

  lemma NextRead(sent: nat)
    ensures (sent % QUEUE_MAX + 1) % QUEUE_MAX == SlotOf(sent) == (sent + 1) % QUEUE_MAX < QUEUE_MAX
  {
  }

  // ----- the class

  /** Everything deleted was old enough at `now`. */
  ghost predicate DeletedOld(log: seq<Packet>, d: nat, now: nat, minTime: nat) {
    d <= |log| && forall k :: 0 <= k < d ==> log[k].time <= now && Age(log[k], now) >= minTime
  }

  ghost predicate TimesUpTo(log: seq<Packet>, now: nat) {
    now < UINT64 && forall k :: 0 <= k < |log| ==> log[k].time <= now
  }

  lemma AgeGrows(log: seq<Packet>, d: nat, now: nat, later: nat, minTime: nat)
    requires DeletedOld(log, d, now, minTime) && now <= later < UINT64
    ensures DeletedOld(log, d, later, minTime)
  {
    hide Age;
    forall k | 0 <= k < d ensures log[k].time <= later && Age(log[k], later) >= minTime {
      OlderLater(log[k], now, later);
    }
  }

  lemma DeletedPrefix(log: seq<Packet>, d: nat, p: Packet, now: nat, minTime: nat)
    requires DeletedOld(log, d, now, minTime)
    ensures DeletedOld(log + [p], d, now, minTime)
  {
    hide Age;
  }

  lemma OlderLater(p: Packet, now: nat, later: nat)
    requires p.time <= now <= later < UINT64
    ensures Age(p, now) <= Age(p, later)
  {
    assert Sub64(now, p.time) == now - p.time && Sub64(later, p.time) == later - p.time;
  }

  /** The readings of the clock during one call. */
  ghost predicate Monotone(clock: nat -> nat, from: nat) {
    (forall i :: 0 <= i ==> from <= clock(i) < UINT64) && forall i, j :: 0 <= i <= j ==> clock(i) <= clock(j)
  }

  ghost predicate OldWhenRead(log: seq<Packet>, before: nat, after: nat, clock: nat -> nat, minTime: nat) {
    after <= |log| && forall i :: before <= i < after ==> Age(log[i], clock(i - before)) >= minTime
  }

  lemma OneMoreOld(log: seq<Packet>, before: nat, after: nat, clock: nat -> nat, minTime: nat)
    requires before <= after < |log| && OldWhenRead(log, before, after, clock, minTime)
             && Age(log[after], clock(after - before)) >= minTime
    ensures OldWhenRead(log, before, after + 1, clock, minTime)
  {
    hide Age;
  }

  /** At most nine packets were deleted, each old enough when it was looked at, and no fewer than that
      unless nothing is left or the oldest one is too young. */
  ghost predicate Cleaned(log: seq<Packet>, before: nat, after: nat, clock: nat -> nat, minTime: nat) {
    && before <= after <= |log| && after - before <= MAX_DELETE
    && OldWhenRead(log, before, after, clock, minTime)
    && (after - before < MAX_DELETE ==> after == |log| || Age(log[after], clock(after - before)) < minTime)
  }

  class Sender {
    const queue: array<Option<Packet>>
    var writeIndex: nat
    var readIndex: nat
    var deleteIndex: nat
    var bytesize: nat
    const seqIndex: array<nat>
    const minTime: nat
    /** All packets ever stored; the first `sent` of them have been sent, the first `deleted` deleted. */
    ghost var log: seq<Packet>
    ghost var sent: nat
    ghost var deleted: nat
    ghost var lastNow: nat

    /** Fewer packets are stored than there are slots. */
    ghost predicate Valid()
      reads this, queue, seqIndex
    {
      Sound() && |log| - deleted < QUEUE_MAX
    }

    /** Every slot holds a packet, so that the indices look like those of an empty ring. */
    ghost predicate Wrapped()
      reads this, queue, seqIndex
    {
      Sound() && |log| - deleted == QUEUE_MAX
    }

    ghost predicate Sound()
      reads this, queue, seqIndex
    {
      && queue.Length == QUEUE_MAX && seqIndex.Length == 65536
      && deleted <= sent <= |log| && |log| - deleted <= QUEUE_MAX
      && writeIndex == SlotOf(|log|) && readIndex == sent % QUEUE_MAX && deleteIndex == SlotOf(deleted)
      && Window(queue[..], log, deleted)
      && bytesize == Total(log[deleted..])
      && Indexed(seqIndex[..], log, sent)
      && TimesUpTo(log, lastNow) && DeletedOld(log, deleted, lastNow, minTime)
    }

    constructor (minTime: nat)
      ensures Valid() && log == [] && sent == deleted == bytesize == lastNow == 0 && fresh(queue) && fresh(seqIndex)
    {
      this.minTime := minTime;
      queue := new Option<Packet>[QUEUE_MAX](_ => None);
      seqIndex := new nat[65536](_ => 0);
      writeIndex, readIndex, deleteIndex, bytesize := 1, 0, 1, 0;
      log, sent, deleted, lastNow := [], 0, 0, 0;
    }

    /** `rist_sender_enqueue`: nothing checks for a full queue. The packet that fills the last slot closes the
        ring, and the one after that replaces the oldest packet, whose bytes stay in the count. */
    method Enqueue(p: Packet)
      requires Sound() && lastNow <= p.time < UINT64
      modifies this, queue
      ensures log == old(log) + [p] && sent == old(sent) && deleted == old(deleted)
              && bytesize == old(bytesize) + p.size
      ensures lastNow == p.time
      ensures !old(Wrapped()) ==> Sound() && (Valid() <==> |old(log)| - old(deleted) < QUEUE_MAX - 1)
      ensures old(Wrapped()) ==>
                && old(queue[SlotOf(deleted)]) == Some(old(log[deleted]))
                && queue[..] == old(queue[..])[old(SlotOf(deleted)) := Some(p)]
    {
      hide Window, Content, Indexed, SlotOf, Total, DeletedOld;
      if |log| - deleted < QUEUE_MAX {
        WindowStore(queue[..], log, deleted, p);
        SlotBound(|log|);
        TotalAppend(log[deleted..], p);
        IndexedStore(seqIndex[..], log, sent, p);
        AgeGrows(log, deleted, lastNow, p.time, minTime);
        DeletedPrefix(log, deleted, p, p.time, minTime);
        assert (log + [p])[deleted..] == log[deleted..] + [p];
      } else {
        IndicesMeet(this);
        SlotBound(deleted);
        StoredAt(queue[..], log, deleted, deleted);
      }
      queue[writeIndex] := Some(p);
      bytesize := bytesize + p.size;
      writeIndex := (writeIndex + 1) % QUEUE_MAX;
      log, lastNow := log + [p], p.time;
    }

    /** `sender_send_data`: the packets sent, in order. The branch for an empty slot is never taken. When the
        ring has closed and none of its packets has been sent, nothing is. */
    method SendData(maxcount: nat) returns (out: seq<Packet>)
      requires Sound()
      modifies `readIndex, `sent, seqIndex
      ensures Sound() && old(sent) <= sent && out == log[old(sent)..sent]
      ensures sent == if |log| - old(sent) == QUEUE_MAX then old(sent)
                      else if |log| < old(sent) + maxcount + 1 then |log| else old(sent) + maxcount + 1
    {
      hide Window, Content, SlotOf, Total, DeletedOld, Indexed, TimesUpTo;
      out := [];
      var counter := 0;
      while counter <= maxcount
        invariant Sound() && old(sent) <= sent && counter <= maxcount + 1
        invariant sent == old(sent) + counter && out == log[old(sent)..sent]
        invariant counter == 0 || |log| - old(sent) < QUEUE_MAX
      {
        counter := counter + 1;
        NextRead(sent);
        if |log| - sent == QUEUE_MAX {
          IndicesMeet(this);
        } else {
          SameSlot(sent, |log|);
        }
        var idx := (readIndex + 1) % QUEUE_MAX;
        if idx == writeIndex {
          return;
        }
        StoredAt(queue[..], log, deleted, sent);
        readIndex := idx;
        if queue[idx].None? {
          assert false;
        } else {
          out := out + [queue[idx].value];
          assert log[old(sent)..sent + 1] == log[old(sent)..sent] + [log[sent]];
          ghost var index := seqIndex[..];
          IndexedSend(index, log, sent);
          seqIndex[queue[idx].value.seqRtp] := idx;
          assert seqIndex[..] == index[log[sent].seqRtp := SlotOf(sent)];
          sent := sent + 1;
        }
      }
    }

    /** `rist_clean_sender_enqueue`: at most nine packets that are old enough are deleted, and none when the
        ring has closed. */
    method Clean(clock: nat -> nat)
      requires Sound() && (Wrapped() || sent == |log| || deleted + MAX_DELETE <= sent) && Monotone(clock, lastNow)
      modifies queue, `bytesize, `deleteIndex, `deleted, `lastNow
      ensures Sound() && if old(Wrapped()) then deleted == old(deleted)
              else Cleaned(log, old(deleted), deleted, clock, minTime)
      ensures lastNow == if deleted == old(deleted) then old(lastNow) else clock(deleted - old(deleted) - 1)
    {
      OrderOf(this);
      assert OldWhenRead(log, deleted, deleted, clock, minTime);
      hide Sound, Age, OldWhenRead;
      var count := 0;
      while count < MAX_DELETE
        invariant Sound() && 0 <= count <= MAX_DELETE && deleted == old(deleted) + count <= |log|
        invariant old(Wrapped()) ==> count == 0
        invariant OldWhenRead(log, old(deleted), deleted, clock, minTime)
        invariant if count == 0 then lastNow == old(lastNow) else lastNow == clock(count - 1)
        invariant old(Wrapped()) || sent == |log| || old(deleted) + MAX_DELETE <= sent
      {
        var stop := CleanOne(clock(count));
        OrderOf(this);
        if stop {
          return;
        }
        OneMoreOld(log, old(deleted), deleted - 1, clock, minTime);
        count := count + 1;
      }
    }

    /** Deletes the oldest packet if it is old enough. The branch for an empty slot is never taken. */
    method CleanOne(now: nat) returns (stop: bool)
      requires Sound() && (|log| - deleted == QUEUE_MAX || sent == |log| || deleted < sent) && lastNow <= now < UINT64
      modifies queue, `bytesize, `deleteIndex, `deleted, `lastNow
      ensures Sound() && deleted == old(deleted) + (if stop then 0 else 1) && lastNow == if stop then old(lastNow)
              else now
      ensures stop <==>
                || old(deleted) == |log| || |log| - old(deleted) == QUEUE_MAX
                || Age(log[old(deleted)], now) < minTime
    {
      hide Window, Content, SlotOf, Total, DeletedOld, Indexed, TimesUpTo, Age;
      stop := true;
      if |log| - deleted == QUEUE_MAX {
        IndicesMeet(this);
      } else {
        SameSlot(deleted, |log|);
      }
      if writeIndex == deleteIndex {
        return;
      }
      StoredAt(queue[..], log, deleted, deleted);
      SlotBound(deleted);
      if queue[deleteIndex].None? {
        assert false;
      } else {
        var b := queue[deleteIndex].value;
        if Age(b, now) < minTime {
          return;
        }
        DeleteFirst(now, b);
        stop := false;
      }
    }

    method DeleteFirst(now: nat, b: Packet)
      requires Valid() && deleted < sent && b == log[deleted] && lastNow <= now < UINT64 && Age(b, now) >= minTime
      modifies queue, `bytesize, `deleteIndex, `deleted, `lastNow
      ensures Sound() && deleted == old(deleted) + 1 && lastNow == now
    {
      hide Window, Content, SlotOf, Indexed;
      SlotBound(deleted);
      WindowDelete(queue[..], log, deleted);
      AgeGrows(log, deleted, lastNow, now, minTime);
      assert log[deleted..][0] == b && log[deleted..][1..] == log[deleted + 1..];
      bytesize := bytesize - b.size;
      queue[deleteIndex] := None;
      deleteIndex := (deleteIndex + 1) % QUEUE_MAX;
      deleted, lastNow := deleted + 1, now;
    }

    /** One locked turn of the sender's loop. */
    method Pass(clock: nat -> nat) returns (out: seq<Packet>)
      requires Sound() && Monotone(clock, lastNow)
      modifies `readIndex, `sent, seqIndex, queue, `bytesize, `deleteIndex, `deleted, `lastNow
      ensures Sound() && old(sent) <= sent && out == log[old(sent)..sent] && (old(Valid()) ==> Valid())
      ensures old(Wrapped()) ==> deleted == old(deleted) && (old(sent) == old(deleted) ==> sent == old(sent))
      ensures old(Valid()) && old(bytesize) > 0 ==>
                && sent == (if |log| <= old(sent) + MAX_DATA then |log| else old(sent) + MAX_DATA + 1)
                && Cleaned(log, old(deleted), deleted, clock, minTime)
      ensures old(bytesize) == 0 ==> sent == old(sent) && deleted == old(deleted)
    {
      OrderOf(this);
      hide Sound, OldWhenRead, Age;
      out := [];
      if bytesize > 0 {
        out := SendData(MAX_DATA);
        Clean(clock);
      }
    }

    /** The index look-up of `rist_retry_dequeue`, with its two checks of the slot found. */
    function Find(s: Seq16): Option<Packet>
      reads this, queue, seqIndex
      requires Valid()
    {
      var idx := seqIndex[s];
      IndexInRange(seqIndex[..], log, sent, s);
      if queue[idx].None? then None
      else if queue[idx].value.seqRtp != s then None
      else queue[idx]
    }
  }

  lemma OrderOf(f: Sender)
    requires f.Sound()
    ensures f.deleted <= f.sent <= |f.log| <= f.deleted + QUEUE_MAX
  {
  }

  /** With every slot in use the write index has caught up with the delete index. */
  lemma IndicesMeet(f: Sender)
    requires f.Wrapped()
    ensures f.writeIndex == f.deleteIndex && SlotOf(|f.log|) == SlotOf(f.deleted)
  {
  }

  /** Such a state is reached by storing as many packets as there are slots before the first pass: from then on
      no pass sends or deletes anything, whatever the clock, although the ring is full. */
  method Overfill(p: Packet, minTime: nat, clock: nat -> nat) returns (f: Sender, out: seq<Packet>)
    requires p.time < UINT64 && p.size > 0 && Monotone(clock, p.time)
    ensures f.Wrapped() && f.sent == f.deleted == 0 && f.writeIndex == f.deleteIndex && f.bytesize > 0 && out == []
  {
    f := new Sender(minTime);
    for i := 0 to QUEUE_MAX
      invariant f.Sound() && fresh(f) && fresh(f.queue) && fresh(f.seqIndex)
      invariant |f.log| == i && f.sent == f.deleted == 0 && f.lastNow <= p.time && (i > 0 ==> f.bytesize > 0)
    {
      f.Enqueue(p);
    }
    IndicesMeet(f);
    out := f.Pass(clock);
    IndicesMeet(f);
  }

  lemma IndexInRange(index: seq<nat>, log: seq<Packet>, r: nat, s: Seq16)
    requires Indexed(index, log, r)
    ensures index[s] < QUEUE_MAX
  {
  }

  /** A request resolves only to a packet with its number that is still stored; the last one sent with
      the number is found whenever it is stored. */
  lemma FindAgrees(f: Sender, s: Seq16)
    requires f.Valid()
    ensures f.Find(s).Some? ==>
              exists k :: f.deleted <= k < |f.log| && f.log[k] == f.Find(s).value && f.log[k].seqRtp == s
    ensures var u := LastSent(f.log, f.sent, s); u >= f.deleted ==> f.Find(s) == Some(f.log[u])
  {
    hide SlotOf, Total, DeletedOld, TimesUpTo;
    var u := LastSent(f.log, f.sent, s);
    LastSentIsSearch(f.log, f.sent, s);
    var idx := f.seqIndex[s];
    assert f.seqIndex[..][s] == IndexOf(f.log, f.sent, s);
    IndexInRange(f.seqIndex[..], f.log, f.sent, s);
    assert f.queue[..][idx] == Content(f.log, f.deleted, idx);
    if u >= f.deleted {
      StoredAt(f.queue[..], f.log, f.deleted, u);
    }
  }

  /** The last packet sent with a number, if it is younger than the recovery time, is what a request
      for the number finds. */
  lemma YoungIsFound(f: Sender, s: Seq16, now: nat)
    requires f.Valid() && f.lastNow <= now < UINT64
    requires var u := LastSent(f.log, f.sent, s); u >= 0 && Age(f.log[u], now) < f.minTime
    ensures f.Find(s) == Some(f.log[LastSent(f.log, f.sent, s)])
  {
    var u := LastSent(f.log, f.sent, s);
    AgeGrows(f.log, f.deleted, f.lastNow, now, f.minTime);
    FindAgrees(f, s);
  }
}
