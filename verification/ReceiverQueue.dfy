/** The receiver's ring of packets, indexed by sequence number. */
module ReceiverQueue {

  /** `receiver_queue_max` of the short-sequence profiles: one slot for every 16-bit sequence number. */
  const QUEUE_MAX := 65536
  const UINT64 := 0x1_0000_0000_0000_0000

  type Seq16 = n: nat | n < 65536

  datatype Option<T> = None | Some(value: T)

  /** `rist_buffer`, as far as the receiver uses it. */
  datatype Packet = Packet(seqNr: Seq16, size: nat, sourceTime: nat, time: nat, packetTime: nat, targetOutputTime: nat)

  /** Unsigned 64-bit subtraction. */
  function Sub64(a: nat, b: nat): nat { (a - b) % UINT64 }

  type Ring = s: seq<Option<Packet>> | |s| == QUEUE_MAX witness seq(QUEUE_MAX, _ => None)

  function SizeOf(slot: Option<Packet>): nat { if slot.Some? then slot.value.size else 0 }

  /** The byte sum of the stored packets. */
  function Bytes(q: seq<Option<Packet>>): nat {
    if q == [] then 0 else Bytes(q[..|q| - 1]) + SizeOf(q[|q| - 1])
  }

  /** How many packets are stored. */
  function Count(q: seq<Option<Packet>>): nat {
    if q == [] then 0 else Count(q[..|q| - 1]) + if q[|q| - 1].Some? then 1 else 0
  }

  lemma {:induction false} BytesUpdate(q: seq<Option<Packet>>, i: nat, slot: Option<Packet>)
    requires i < |q|
    ensures Bytes(q[i := slot]) + SizeOf(q[i]) == Bytes(q) + SizeOf(slot)
  {
    var j := |q| - 1;
    if i == j {
      assert q[i := slot][..j] == q[..j];
    } else {
      assert q[i := slot][..j] == q[..j][i := slot];
      BytesUpdate(q[..j], i, slot);
    }
  }

  lemma {:induction false} CountUpdate(q: seq<Option<Packet>>, i: nat)
    requires i < |q| && q[i].Some?
    ensures Count(q[i := None]) + 1 == Count(q)
  {
    var j := |q| - 1;
    if i == j {
      assert q[i := None][..j] == q[..j];
    } else {
      assert q[i := None][..j] == q[..j][i := None];
      CountUpdate(q[..j], i);
    }
  }

  predicate AllEmpty(q: seq<Option<Packet>>) {
    forall i :: 0 <= i < |q| ==> q[i].None?
  }

  /** No stored packet is empty. */
  predicate NoneZero(q: seq<Option<Packet>>) {
    forall i :: 0 <= i < |q| ==> q[i].Some? ==> q[i].value.size > 0
  }

  lemma {:induction false} BytesOfEmpty(q: seq<Option<Packet>>)
    requires AllEmpty(q)
    ensures Bytes(q) == 0
  {
    if q != [] {
      BytesOfEmpty(q[..|q| - 1]);
    }
  }

  /** With no zero-length packet, a byte sum of zero means that nothing is stored. */
  lemma {:induction false} EmptyOfNoBytes(q: seq<Option<Packet>>)
    requires NoneZero(q) && Bytes(q) == 0
    ensures AllEmpty(q)
  {
    if q != [] {
      EmptyOfNoBytes(q[..|q| - 1]);
    }
  }

  lemma {:induction false} BytesAtLeast(q: seq<Option<Packet>>, i: nat)
    requires i < |q|
    ensures SizeOf(q[i]) <= Bytes(q)
  {
    if i < |q| - 1 {
      BytesAtLeast(q[..|q| - 1], i);
    }
  }

  lemma {:induction false} SomeBytes(q: seq<Option<Packet>>) returns (i: nat)
    requires Bytes(q) > 0
    ensures i < |q| && SizeOf(q[i]) > 0
  {
    var j := |q| - 1;
    if SizeOf(q[j]) > 0 {
      i := j;
    } else {
      i := SomeBytes(q[..j]);
    }
  }

  /** Every packet sits in the slot of its number. */
  predicate InPlace(q: seq<Option<Packet>>) {
    forall i :: 0 <= i < |q| ==> q[i].Some? ==> q[i].value.seqNr == i
  }

  function Next(i: Seq16): Seq16 { (i + 1) % 65536 }

  function Previous(i: Seq16): Seq16 { (i - 1) % 65536 }

  /** How far `i` is ahead of `from` on the ring. */
  function Ahead(from: Seq16, i: Seq16): nat { (i - from) % 65536 }
}
