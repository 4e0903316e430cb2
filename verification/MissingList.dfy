/** The receiver's list of missing sequence numbers: how gaps are queued, how each pass over the
    list sends, postpones or drops retransmission requests, and how they are grouped. */
module MissingList {
  import opened ReceiverQueue
  import Arith

  const CLOCK := 4294967
  const MAX_NACKS := 200

  datatype Congestion = Off | Normal | Aggressive

  /** The settings of a peer, fixed for its life. */
  datatype Config = Config(maxRetries: nat, rttMin: nat, rttMax: nat, nacksDisabled: bool, congestion: Congestion)

  /** What a peer measures, which changes over time. */
  datatype PeerState = PeerState(eightTimesRtt: nat, recoveryTicks: nat, bloat: bool, missingCounterMax: nat)

  /** `rist_missing_buffer` without its link. */
  datatype Record = Record(seqNr: Seq16, nextNack: nat, insertionTime: nat, nackCount: nat, peer: nat)

  // ----- one entry in one pass

  datatype Fate = Removed(reason: nat) | Kept(record: Record, nacked: bool)

  function ClampedRtt(c: Config, p: PeerState): nat {
    var rtt := p.eightTimesRtt / 8;
    if rtt < c.rttMin then c.rttMin else if rtt > c.rttMax then c.rttMax else rtt
  }

  /** 1.1 times the round trip, in clock ticks. */
  function RetryDelay(rtt: nat): nat { rtt * 1100 * CLOCK / 1000 }

  /** In numbers: 1.1 times a round trip of `rtt` milliseconds, each of 4294967 ticks. */
  lemma RetryDelayIs(rtt: nat)
    ensures RetryDelay(rtt) == 11 * 4294967 * rtt / 10
  {
    assert rtt * 1100 * CLOCK == 100 * (11 * 4294967 * rtt);
  }

  /** And the round trip: an eighth of the sum that the peer keeps, but within its two limits. */
  lemma ClampedRttIs(c: Config, p: PeerState)
    requires c.rttMin <= c.rttMax
    ensures var rtt := ClampedRtt(c, p);
      && c.rttMin <= rtt <= c.rttMax
      && (c.rttMin < rtt ==> 8 * rtt <= p.eightTimesRtt) && (rtt < c.rttMax ==> p.eightTimesRtt < 8 * rtt + 8)
  {
  }

  /** `rist_process_nack`. */
  function ProcessNack(r: Record, c: Config, p: PeerState, now: nat): Fate {
    if r.nackCount >= c.maxRetries then Removed(8)
    else if 10 * Sub64(now, r.insertionTime) > 11 * p.recoveryTicks then Removed(9)
    else if now >= r.nextNack then
      Kept(r.(nextNack := now + RetryDelay(ClampedRtt(c, p)), nackCount := r.nackCount + 1), true)
    else Kept(r, false)
  }

  /** What one pass does with an entry, given the number in its ring slot. */
  function FateOf(r: Record, slot: Option<Seq16>, c: Config, p: PeerState, now: nat): Fate {
    if c.nacksDisabled then Removed(10)
    else if slot.Some? then Removed(if slot.value == r.seqNr then 3 else 4)
    else if p.bloat then
      if c.congestion == Aggressive then Removed(5)
      else if c.congestion == Normal && r.nackCount > 4 then Removed(6)
      else Kept(r, false)
    else ProcessNack(r, c, p, now)
  }

  // ----- the requests sent for one entry over its life

  /** What a pass finds when it reaches the entry. */
  datatype Look = Look(now: nat, slot: Option<Seq16>, peer: PeerState)

  datatype Sent = Sent(time: nat, rtt: nat, recoveryTicks: nat)

  function Requests(r: Record, c: Config, looks: seq<Look>): seq<Sent>
    decreases |looks|
  {
    if looks == [] then []
    else
      var l := looks[0];
      match FateOf(r, l.slot, c, l.peer, l.now)
      case Removed(_) => []
      case Kept(next, nacked) =>
        (if nacked then [Sent(l.now, ClampedRtt(c, l.peer), l.peer.recoveryTicks)] else [])
          + Requests(next, c, looks[1..])
  }

  ghost predicate Monotone(looks: seq<Look>, from: nat) {
    forall i :: 0 <= i < |looks| ==> from <= looks[i].now < UINT64 && (i > 0 ==> looks[i - 1].now <= looks[i].now)
  }

  /** Every request is within the age limit; consecutive ones are 1.1 round trips apart. */
  ghost predicate Spaced(s: seq<Sent>, insertionTime: nat) {
    && (forall i :: 0 <= i < |s| ==>
         insertionTime <= s[i].time
         && 10 * (s[i].time - insertionTime) <= 11 * s[i].recoveryTicks)
    && (forall i :: 1 <= i < |s| ==> s[i].time >= s[i - 1].time + 11 * 4294967 * s[i - 1].rtt / 10)
  }

  lemma KeptFate(r: Record, slot: Option<Seq16>, c: Config, p: PeerState, now: nat)
    requires r.insertionTime <= now < UINT64 && FateOf(r, slot, c, p, now).Kept?
    ensures var f := FateOf(r, slot, c, p, now);
      && f.record.insertionTime == r.insertionTime
      && (!f.nacked ==> f.record == r)
      && (f.nacked ==>
          && f.record.nackCount == r.nackCount + 1 <= c.maxRetries && now >= r.nextNack
          && f.record.nextNack == now + RetryDelay(ClampedRtt(c, p))
          && 10 * (now - r.insertionTime) <= 11 * p.recoveryTicks)
  {
    hide RetryDelay, ClampedRtt;
  }

  /** The NACK budget of one entry, over any number of passes under a monotone clock. */
  lemma {:induction false} Budget(r: Record, c: Config, looks: seq<Look>)
    requires Monotone(looks, r.insertionTime)
    decreases |looks|
    ensures var s := Requests(r, c, looks);
      (s != [] ==> |s| + r.nackCount <= c.maxRetries && s[0].time >= r.nextNack) && Spaced(s, r.insertionTime)
  {
    hide RetryDelay, ClampedRtt, FateOf;
    if looks != [] {
      var l := looks[0];
      var fate := FateOf(r, l.slot, c, l.peer, l.now);
      if fate.Kept? {
        KeptFate(r, l.slot, c, l.peer, l.now);
        LaterLooks(looks, r.insertionTime);
        Budget(fate.record, c, looks[1..]);
        var rest := Requests(fate.record, c, looks[1..]);
        if fate.nacked {
          PrependSpaced(Sent(l.now, ClampedRtt(c, l.peer), l.peer.recoveryTicks), rest, r.insertionTime);
        } else {
          assert Requests(r, c, looks) == [] + rest == rest;
        }
      }
    }
  }

  lemma LaterLooks(looks: seq<Look>, from: nat)
    requires looks != [] && Monotone(looks, from)
    ensures Monotone(looks[1..], from)
  {
    forall i | 1 < i < |looks| ensures looks[i - 1].now <= looks[i].now {
    }
  }

  lemma PrependSpaced(first: Sent, rest: seq<Sent>, t: nat)
    requires Spaced(rest, t) && t <= first.time && 10 * (first.time - t) <= 11 * first.recoveryTicks
    requires rest != [] ==> rest[0].time >= first.time + RetryDelay(first.rtt)
    ensures Spaced([first] + rest, t)
  {
    RetryDelayIs(first.rtt);
    hide RetryDelay;
  }

  /** `rist_receiver_missing`: the entry for a number found missing at `now`. */
  function NewRecord(nackTime: nat, seqNr: Seq16, rtt: nat, peer: nat, now: nat, recoveryTicks: nat): (r: Record)
    ensures r.insertionTime <= now && r.nackCount == 0 && r.seqNr == seqNr && r.nextNack == now + 4294967 * rtt
    ensures recoveryTicks <= now < UINT64 ==> now <= r.insertionTime + recoveryTicks
    ensures recoveryTicks <= now < UINT64 && nackTime <= now <= nackTime + recoveryTicks ==> r.insertionTime == nackTime
  {
    var t := if nackTime > now then now else nackTime;
    Record(seqNr, now + rtt * CLOCK, if t < Sub64(now, recoveryTicks) then now else t, 0, peer)
  }

  /** From the moment a number is queued: no request before the reorder wait, none when too old,
      spaced by the round trip, and at most `maxRetries` of them. */
  lemma BudgetOfNewRecord(nackTime: nat, seqNr: Seq16, rtt: nat, peer: nat, now: nat, recoveryTicks: nat, c: Config,
                          looks: seq<Look>)
    requires Monotone(looks, now)
    ensures var r := NewRecord(nackTime, seqNr, rtt, peer, now, recoveryTicks);
            var s := Requests(r, c, looks);
      |s| <= c.maxRetries && Spaced(s, r.insertionTime) && forall i :: 0 <= i < |s| ==> s[i].time >= now + rtt * CLOCK
  {
    hide RetryDelay, ClampedRtt, Spaced;
    var r := NewRecord(nackTime, seqNr, rtt, peer, now, recoveryTicks);
    Budget(r, c, looks);
    var s := Requests(r, c, looks);
    forall i | 0 <= i < |s| ensures s[i].time >= now + rtt * CLOCK {
      Later(s, i, r.insertionTime);
    }
  }

  lemma {:induction false} Later(s: seq<Sent>, i: nat, t: nat)
    requires i < |s| && Spaced(s, t)
    ensures s[i].time >= s[0].time
  {
    hide RetryDelay;
    if i > 0 {
      Later(s, i - 1, t);
    }
  }

  // ----- a pass over the list

  /** What the pass consults: the clock at each entry, the ring, and the peers. */
  datatype Env = Env(clock: nat -> nat, ring: seq<Option<Packet>>, configs: nat -> Config, peers: nat -> PeerState)

  function SlotNr(ring: seq<Option<Packet>>, nr: Seq16): Option<Seq16>
    requires |ring| == QUEUE_MAX
  {
    if ring[nr].Some? then Some(ring[nr].value.seqNr) else None
  }

  function FateAt(env: Env, r: Record, j: nat): Fate
    requires |env.ring| == QUEUE_MAX
  {
    FateOf(r, SlotNr(env.ring, r.seqNr), env.configs(r.peer), env.peers(r.peer), env.clock(j))
  }

  /** The entries that stay. */
  function Survivors(env: Env, rs: seq<Record>): seq<Record>
    requires |env.ring| == QUEUE_MAX
  {
    if rs == [] then []
    else
      var j := |rs| - 1;
      Survivors(env, rs[..j]) + Stays(FateAt(env, rs[j], j))
  }

  /** The numbers requested, in order. */
  function Requested(env: Env, rs: seq<Record>): seq<Seq16>
    requires |env.ring| == QUEUE_MAX
  {
    if rs == [] then []
    else
      var j := |rs| - 1;
      Requested(env, rs[..j]) + Asks(FateAt(env, rs[j], j), rs[j])
  }

  /** How many entries have been requested at least once. */
  function Nacked(rs: seq<Record>): nat {
    if rs == [] then 0 else Nacked(rs[..|rs| - 1]) + Weight(rs[|rs| - 1])
  }

  function Weight(r: Record): nat { if r.nackCount > 0 then 1 else 0 }

  function Concat(groups: seq<seq<Seq16>>): seq<Seq16> {
    if groups == [] then [] else Concat(groups[..|groups| - 1]) + groups[|groups| - 1]
  }

  function Stays(f: Fate): seq<Record> {
    match f case Removed(_) => [] case Kept(r, _) => [r]
  }

  function Asks(f: Fate, r: Record): seq<Seq16> {
    match f case Removed(_) => [] case Kept(_, nacked) => if nacked then [r.seqNr] else []
  }

  lemma FateAtIs(env: Env, r: Record, j: nat)
    requires |env.ring| == QUEUE_MAX
    ensures FateAt(env, r, j)
            == FateOf(r, SlotNr(env.ring, r.seqNr), env.configs(r.peer), env.peers(r.peer), env.clock(j))
  {
  }

  lemma PassStart(env: Env, rs: seq<Record>)
    requires |env.ring| == QUEUE_MAX
    ensures Survivors(env, rs[..0]) == [] && Requested(env, rs[..0]) == [] && Concat([]) == []
  {
  }

  /** What one more entry adds to the outcome of a pass. */
  lemma PassStep(env: Env, rs: seq<Record>, j: nat)
    requires |env.ring| == QUEUE_MAX && j < |rs|
    ensures Survivors(env, rs[..j + 1])
         == Survivors(env, rs[..j]) + Stays(FateAt(env, rs[j], j))
    ensures Requested(env, rs[..j + 1])
         == Requested(env, rs[..j]) + Asks(FateAt(env, rs[j], j), rs[j])
  {
    hide FateAt;
    assert rs[..j + 1][..j] == rs[..j];
  }

  // ----- one entry over many passes

  /** The entries added since the last pass, and the next pass. */
  datatype Pass = Pass(added: seq<Record>, env: Env)

  ghost predicate Rings(passes: seq<Pass>) {
    forall i :: 0 <= i < |passes| ==> |passes[i].env.ring| == QUEUE_MAX
  }

  /** An entry that stays moves up by as many places as entries before it go, and its request, if any,
      comes after theirs. */
  lemma {:induction false} EntryInPass(env: Env, rs: seq<Record>, j: nat)
    requires |env.ring| == QUEUE_MAX && j < |rs|
    ensures var fate, k := FateAt(env, rs[j], j), |Survivors(env, rs[..j])|;
      && (fate.Kept? ==> k < |Survivors(env, rs)| && Survivors(env, rs)[k] == fate.record)
      && Requested(env, rs[..j]) + Asks(fate, rs[j]) <= Requested(env, rs)
  {
    EntryStays(env, rs, j, |rs|);
    EntryAsks(env, rs, j, |rs|);
    assert rs[..|rs|] == rs;
    hide *;
  }

  lemma {:induction false} EntryStays(env: Env, rs: seq<Record>, j: nat, n: nat)
    requires |env.ring| == QUEUE_MAX && j < n <= |rs|
    ensures var fate, k := FateAt(env, rs[j], j), |Survivors(env, rs[..j])|;
      fate.Kept? ==> k < |Survivors(env, rs[..n])| && Survivors(env, rs[..n])[k] == fate.record
  {
    PassStep(env, rs, n - 1);
    hide FateAt, Survivors, Requested, Asks;
    if j < n - 1 {
      hide Stays;
      EntryStays(env, rs, j, n - 1);
    }
  }

  lemma {:induction false} RequestsGrow(env: Env, rs: seq<Record>, i: nat, n: nat)
    requires |env.ring| == QUEUE_MAX && i <= n <= |rs|
    ensures Requested(env, rs[..i]) <= Requested(env, rs[..n])
  {
    if i < n {
      PassStep(env, rs, n - 1);
      RequestsGrow(env, rs, i, n - 1);
      hide *;
      PrefixLonger(Requested(env, rs[..i]), Requested(env, rs[..n - 1]),
                   Asks(FateAt(env, rs[n - 1], n - 1), rs[n - 1]));
    }
  }

  lemma EntryAsks(env: Env, rs: seq<Record>, j: nat, n: nat)
    requires |env.ring| == QUEUE_MAX && j < n <= |rs|
    ensures Requested(env, rs[..j]) + Asks(FateAt(env, rs[j], j), rs[j]) <= Requested(env, rs[..n])
  {
    PassStep(env, rs, j);
    RequestsGrow(env, rs, j + 1, n);
    hide *;
  }

  lemma PrefixLonger(a: seq<Seq16>, b: seq<Seq16>, c: seq<Seq16>)
    requires a <= b
    ensures a <= b + c
  {
  }

  /** The requests for entry `j` of the list `rs` in a run of passes. */
  function EntryRequests(rs: seq<Record>, j: nat, passes: seq<Pass>): seq<Sent>
    requires j < |rs| && Rings(passes)
    decreases |passes|
  {
    if passes == [] then []
    else
      var env, all := passes[0].env, rs + passes[0].added;
      EntryInPass(env, all, j);
      match FateAt(env, all[j], j)
      case Removed(_) => []
      case Kept(r, nacked) =>
        var p := env.peers(r.peer);
        (if nacked then [Sent(env.clock(j), ClampedRtt(env.configs(r.peer), p), p.recoveryTicks)] else [])
        + EntryRequests(Survivors(env, all), |Survivors(env, all[..j])|, passes[1..])
  }

  /** The clock does not run backwards, within a pass or from one to the next. */
  ghost predicate Clocked(passes: seq<Pass>, from: nat) {
    && (forall i, k: nat :: 0 <= i < |passes| ==> from <= passes[i].env.clock(k) < UINT64)
    && (forall i, i', k: nat, k': nat :: 0 <= i < i' < |passes| ==> passes[i].env.clock(k) <= passes[i'].env.clock(k'))
  }

  ghost predicate SameConfig(passes: seq<Pass>, peer: nat, c: Config) {
    forall i :: 0 <= i < |passes| ==> passes[i].env.configs(peer) == c
  }

  lemma LaterPasses(passes: seq<Pass>, from: nat, j: nat)
    requires passes != [] && Clocked(passes, from)
    ensures from <= passes[0].env.clock(j) < UINT64 && Clocked(passes[1..], passes[0].env.clock(j))
  {
  }

  lemma FirstLook(look: Look, rest: seq<Look>, from: nat)
    requires from <= look.now < UINT64 && Monotone(rest, look.now)
    ensures Monotone([look] + rest, from)
  {
  }

  lemma RequestsFrom(r: Record, c: Config, look: Look, rest: seq<Look>)
    ensures var f := FateOf(r, look.slot, c, look.peer, look.now);
      Requests(r, c, [look] + rest)
      == if f.Removed? then []
         else
           (if f.nacked then [Sent(look.now, ClampedRtt(c, look.peer), look.peer.recoveryTicks)] else [])
           + Requests(f.record, c, rest)
  {
    assert ([look] + rest)[1..] == rest;
  }

  /** What the passes of a run find when they reach the entry, as long as it stays. */
  function LooksOf(rs: seq<Record>, j: nat, passes: seq<Pass>): seq<Look>
    requires j < |rs| && Rings(passes)
    decreases |passes|
  {
    if passes == [] then []
    else
      var env, all := passes[0].env, rs + passes[0].added;
      EntryInPass(env, all, j);
      [Look(env.clock(j), SlotNr(env.ring, rs[j].seqNr), env.peers(rs[j].peer))]
      + if FateAt(env, all[j], j).Removed? then []
        else LooksOf(Survivors(env, all), |Survivors(env, all[..j])|, passes[1..])
  }

  lemma {:induction false} EntryLooks(rs: seq<Record>, j: nat, passes: seq<Pass>, c: Config, from: nat)
    requires j < |rs| && Rings(passes) && Clocked(passes, from) && SameConfig(passes, rs[j].peer, c)
    ensures Monotone(LooksOf(rs, j, passes), from)
    ensures EntryRequests(rs, j, passes) == Requests(rs[j], c, LooksOf(rs, j, passes))
    decreases |passes|
  {
    hide RetryDelay, ClampedRtt, Survivors, FateOf, FateAt, Clocked, Monotone, SlotNr;
    if passes == [] {
      EmptyMonotone(from);
    } else {
      var env, all, r := passes[0].env, rs + passes[0].added, rs[j];
      var look := Look(env.clock(j), SlotNr(env.ring, r.seqNr), env.peers(r.peer));
      EntryInPass(env, all, j);
      FateAtIs(env, r, j);
      LaterPasses(passes, from, j);
      EmptyMonotone(look.now);
      var rest: seq<Look> := [];
      SamePeer(r, look.slot, c, look.peer, look.now);
      if FateAt(env, r, j).Kept? {
        rest := LooksOf(Survivors(env, all), |Survivors(env, all[..j])|, passes[1..]);
        EntryLooks(Survivors(env, all), |Survivors(env, all[..j])|, passes[1..], c, look.now);
      }
      FirstLook(look, rest, from);
      RequestsFrom(r, c, look, rest);
    }
  }

  lemma EmptyMonotone(from: nat)
    ensures Monotone([], from)
  {
  }

  lemma SamePeer(r: Record, slot: Option<Seq16>, c: Config, p: PeerState, now: nat)
    ensures var f := FateOf(r, slot, c, p, now); f.Kept? ==> f.record.peer == r.peer
  {
  }

  /** The NACK budget over a whole run: from the moment a number is queued it is requested at most
      `maxRetries` times, first no earlier than the reorder wait, never when too old, and then at least
      1.1 round trips apart, whatever else is queued and removed meanwhile. */
  lemma BudgetOverPasses(rs: seq<Record>, j: nat, passes: seq<Pass>, c: Config, nackTime: nat, rtt: nat, now: nat,
                         recoveryTicks: nat)
    requires j < |rs| && rs[j] == NewRecord(nackTime, rs[j].seqNr, rtt, rs[j].peer, now, recoveryTicks)
    requires Rings(passes) && Clocked(passes, now) && SameConfig(passes, rs[j].peer, c)
    ensures var s := EntryRequests(rs, j, passes);
      |s| <= c.maxRetries && Spaced(s, rs[j].insertionTime) && forall i :: 0 <= i < |s| ==>
        s[i].time >= now + rtt * CLOCK
  {
    hide Spaced, Requests, EntryRequests, LooksOf, NewRecord;
    EntryLooks(rs, j, passes, c, now);
    BudgetOfNewRecord(nackTime, rs[j].seqNr, rtt, rs[j].peer, now, recoveryTicks, c, LooksOf(rs, j, passes));
  }

  // ----- groups of requests

  /** Groups that fit the buffer with room to spare, none of them empty. */
  ghost predicate Small(groups: seq<seq<Seq16>>) {
    forall g :: g in groups ==> 0 < |g| < MAX_NACKS
  }

  /** The groups handed over so far, and the numbers that wait in the buffer. */
  datatype Grouping = Grouping(sent: seq<seq<Seq16>>, held: seq<Seq16>)

  /** The entries for which the pass comes to `rist_process_nack`. */
  predicate Reaches(slot: Option<Seq16>, c: Config, p: PeerState) {
    !c.nacksDisabled && slot.None? && !p.bloat
  }

  predicate ReachesAt(env: Env, r: Record)
    requires |env.ring| == QUEUE_MAX
  {
    Reaches(SlotNr(env.ring, r.seqNr), env.configs(r.peer), env.peers(r.peer))
  }

  function Flushed(g: Grouping, canSend: bool): Grouping {
    if canSend && g.held != [] then Grouping(g.sent + [g.held], []) else g
  }

  /** A buffer one short of its size goes out; a full one, which only a flow without peers reaches, is emptied. */
  function Room(g: Grouping, canSend: bool): Grouping {
    if |g.held| == MAX_NACKS - 1 then Flushed(g, canSend)
    else if |g.held| >= MAX_NACKS then Grouping(g.sent, [])
    else g
  }

  function Noted(g: Grouping, canSend: bool, reaches: bool, asked: seq<Seq16>): Grouping {
    var room := if reaches then Room(g, canSend) else g;
    Grouping(room.sent, room.held + asked)
  }

  /** The grouping after a pass over all of `rs`. */
  function Grouped(env: Env, rs: seq<Record>, canSend: bool, g: Grouping): Grouping
    requires |env.ring| == QUEUE_MAX
  {
    if rs == [] then g
    else
      var j := |rs| - 1;
      Noted(Grouped(env, rs[..j], canSend, g), canSend, ReachesAt(env, rs[j]), Asks(FateAt(env, rs[j], j), rs[j]))
  }

  /** The groups that a pass sends, and what it leaves in the buffer. */
  function PassGroups(env: Env, rs: seq<Record>, canSend: bool, held: seq<Seq16>): Grouping
    requires |env.ring| == QUEUE_MAX
  {
    Flushed(Grouped(env, rs, canSend, Grouping([], held)), canSend)
  }

  lemma GroupedStep(env: Env, rs: seq<Record>, j: nat, canSend: bool, g: Grouping)
    requires |env.ring| == QUEUE_MAX && j < |rs|
    ensures Grouped(env, rs[..j + 1], canSend, g)
         == Noted(Grouped(env, rs[..j], canSend, g), canSend, ReachesAt(env, rs[j]), Asks(FateAt(env, rs[j], j), rs[j]))
    ensures Grouped(env, rs[..0], canSend, g) == g
  {
    hide FateAt, ReachesAt, Noted;
    assert rs[..j + 1][..j] == rs[..j];
  }

  /** What has been sent before does not matter for what is sent next. */
  lemma NotedAfter(sent: seq<seq<Seq16>>, held: seq<Seq16>, canSend: bool, reaches: bool, asked: seq<Seq16>)
    ensures var n := Noted(Grouping([], held), canSend, reaches, asked);
      Noted(Grouping(sent, held), canSend, reaches, asked) == Grouping(sent + n.sent, n.held)
  {
    assert sent + [] == sent && [] + [held] == [held];
  }

  /** A number is asked for only where the pass comes to `rist_process_nack`. */
  lemma AsksOne(env: Env, r: Record, j: nat)
    requires |env.ring| == QUEUE_MAX
    ensures var asked := Asks(FateAt(env, r, j), r); |asked| <= 1 && (asked != [] ==> ReachesAt(env, r))
  {
    hide RetryDelay, ClampedRtt, SlotNr;
  }

  lemma ConcatSnoc(groups: seq<seq<Seq16>>, group: seq<Seq16>)
    ensures Concat(groups + [group]) == Concat(groups) + group
  {
    assert (groups + [group])[..|groups|] == groups;
  }

  /** With a peer in the flow a flush loses nothing. */
  lemma FlushedKeeps(g: Grouping)
    requires Small(g.sent) && |g.held| < MAX_NACKS
    ensures var f := Flushed(g, true);
      Concat(f.sent) + f.held == Concat(g.sent) + g.held && Small(f.sent) && f.held == []
  {
    ConcatSnoc(g.sent, g.held);
    hide Concat;
  }

  lemma RoomKeeps(g: Grouping)
    requires Small(g.sent) && |g.held| < MAX_NACKS
    ensures var r := Room(g, true);
      Concat(r.sent) + r.held == Concat(g.sent) + g.held && Small(r.sent) && |r.held| < MAX_NACKS - 1
  {
    FlushedKeeps(g);
    hide Concat, Small, Flushed;
  }

  lemma NotedKeeps(g: Grouping, reaches: bool, asked: seq<Seq16>)
    requires Small(g.sent) && |g.held| < MAX_NACKS && |asked| <= 1 && (asked != [] ==> reaches)
    ensures var n := Noted(g, true, reaches, asked);
      Concat(n.sent) + n.held == Concat(g.sent) + g.held + asked && Small(n.sent) && |n.held| < MAX_NACKS
  {
    RoomKeeps(g);
    hide Concat, Small, Room;
    var room := if reaches then Room(g, true) else g;
    assert Concat(room.sent) + (room.held + asked) == (Concat(room.sent) + room.held) + asked;
  }

  /** With a peer in the flow the groups of a pass are what waited in the buffer and then exactly the numbers
      that the pass requests, in order, none of the groups empty or full. */
  lemma {:induction false} GroupsHoldRequests(env: Env, rs: seq<Record>, held: seq<Seq16>)
    requires |env.ring| == QUEUE_MAX && |held| < MAX_NACKS
    ensures var g, f := Grouped(env, rs, true, Grouping([], held)), PassGroups(env, rs, true, held);
      && Concat(g.sent) + g.held == held + Requested(env, rs) && Small(g.sent) && |g.held| < MAX_NACKS
      && Concat(f.sent) == held + Requested(env, rs) && Small(f.sent) && f.held == []
  {
    hide FateAt, ReachesAt, Asks, Noted, Flushed;
    assert Small([]);
    hide Small;
    if rs == [] {
      assert held + Requested(env, rs) == Concat([]) + held;
    } else {
      var j := |rs| - 1;
      var asked := Asks(FateAt(env, rs[j], j), rs[j]);
      GroupsHoldRequests(env, rs[..j], held);
      AsksOne(env, rs[j], j);
      NotedKeeps(Grouped(env, rs[..j], true, Grouping([], held)), ReachesAt(env, rs[j]), asked);
      assert held + Requested(env, rs[..j]) + asked == held + (Requested(env, rs[..j]) + asked);
    }
    FlushedKeeps(Grouped(env, rs, true, Grouping([], held)));
  }

  /** The buffer holds the last of `all`, as many as are left over when full buffers are thrown away. */
  ghost predicate LastOf(g: Grouping, all: seq<Seq16>) {
    && g.sent == [] && |g.held| <= MAX_NACKS && |g.held| <= |all|
    && g.held == all[|all| - |g.held|..] && |g.held| % MAX_NACKS == |all| % MAX_NACKS
  }

  /** Without a peer no group goes out and the buffer is emptied whenever it is full, so all but the last
      numbers are lost, although their entries count as requested. */
  lemma {:induction false} NothingSent(env: Env, rs: seq<Record>, held: seq<Seq16>)
    requires |env.ring| == QUEUE_MAX && |held| <= MAX_NACKS
    ensures LastOf(PassGroups(env, rs, false, held), held + Requested(env, rs))
  {
    if rs == [] {
      assert held + Requested(env, rs) == held;
    } else {
      var j := |rs| - 1;
      var before, asked := Requested(env, rs[..j]), Asks(FateAt(env, rs[j], j), rs[j]);
      AsksOne(env, rs[j], j);
      NothingSent(env, rs[..j], held);
      assert Requested(env, rs) == before + asked;
      assert held + (before + asked) == (held + before) + asked;
      hide FateAt, ReachesAt, Asks, LastOf, Noted, Requested;
      Lengthened(held + before, Grouped(env, rs[..j], false, Grouping([], held)), ReachesAt(env, rs[j]), asked);
    }
  }

  lemma Lengthened(all: seq<Seq16>, g: Grouping, reaches: bool, asked: seq<Seq16>)
    requires LastOf(g, all) && |asked| <= 1 && (asked != [] ==> reaches)
    ensures LastOf(Noted(g, false, reaches, asked), all + asked)
  {
    var room := if reaches && |g.held| >= MAX_NACKS then [] else g.held;
    assert Noted(g, false, reaches, asked) == Grouping([], room + asked);
    SameRest(|all|, |g.held|, |room|, |asked|);
    assert room == all[|all| - |room|..];
    assert (all + asked)[|all| - |room|..] == all[|all| - |room|..] + asked;
  }

  lemma SameRest(n: nat, k: nat, room: nat, more: nat)
    requires k <= MAX_NACKS && k % MAX_NACKS == n % MAX_NACKS && more <= 1
    requires room == k || (k == MAX_NACKS && room == 0)
    ensures (room + more) % MAX_NACKS == (n + more) % MAX_NACKS
  {
    Arith.ModPlus(n, more, MAX_NACKS);
    Arith.ModPlus(room, more, MAX_NACKS);
  }

  // ----- gaps

  function SeqAfter(from: Seq16, i: nat): Seq16 { (from + i) % 65536 }

  function Distance(from: Seq16, to: Seq16): nat { (to - from) % 65536 }

  /** The numbers queued when `to` arrives after `from`. */
  function GapLength(from: Seq16, to: Seq16): nat {
    var d := Distance(from, to);
    if d > 32768 then 0 else if d == 0 then 65535 else d - 1
  }

  /** The i-th interpolated time in a gap. */
  function NackTime(last: nat, step: nat, i: nat): nat {
    if i == 0 then last else (NackTime(last, step, i - 1) + step) % UINT64
  }

  datatype Gap = Gap(from: Seq16, last: nat, step: nat, rtt: nat, peer: nat, recoveryTicks: nat, clock: nat -> nat)

  /** No new entries while the link has collapsed or too many numbers are outstanding. */
  predicate Blocked(p: PeerState, missingCounter: nat) {
    p.bloat || missingCounter > p.missingCounterMax
  }

  function GapOf(ring: seq<Option<Packet>>, from: Seq16, current: Seq16, rtt: nat, peer: nat, recoveryTicks: nat,
                 clock: nat -> nat): Gap
    requires |ring| == QUEUE_MAX && ring[current].Some?
  {
    var last := if ring[from].None? then clock(0) else ring[from].value.packetTime;
    Gap(from, last, StepOf(Sub64(ring[current].value.packetTime, last), Distance(from, current)), rtt, peer,
        recoveryTicks, clock)
  }

  /** The time between two numbers of a gap. */
  function StepOf(time: nat, missing: nat): nat { time / (missing + 1) }

  /** The times of a gap rise in equal steps, modulo 2^64. */
  lemma {:induction false} NackTimeIs(last: nat, step: nat, i: nat)
    requires last < UINT64
    ensures NackTime(last, step, i) == (last + i * step) % UINT64
  {
    if i > 0 {
      NackTimeIs(last, step, i - 1);
      assert last + i * step == last + (i - 1) * step + step;
      Arith.ModPlus(last + (i - 1) * step, step, UINT64);
    }
  }

  lemma NackTimeStart(g: Gap)
    ensures NackTime(g.last, g.step, 0) == g.last
  {
  }

  /** The walk from `from` has not reached `to` before the end of the gap. */
  lemma GapStep(from: Seq16, to: Seq16, counter: nat)
    requires Distance(from, to) <= 32768 && 1 <= counter <= GapLength(from, to) + 1 && SeqAfter(from, counter) != to
    ensures counter <= GapLength(from, to) < QUEUE_MAX
  {
  }

  lemma GapEnd(from: Seq16, to: Seq16, counter: nat)
    requires Distance(from, to) <= 32768 && 1 <= counter <= GapLength(from, to) + 1 && SeqAfter(from, counter) == to
    ensures counter == GapLength(from, to) + 1
  {
  }

  function GapRecord(g: Gap, i: nat): Record {
    NewRecord(NackTime(g.last, g.step, i), SeqAfter(g.from, i), g.rtt, g.peer, g.clock(i), g.recoveryTicks)
  }

  lemma NextRecord(g: Gap, i: nat)
    requires i > 0
    ensures var t := (NackTime(g.last, g.step, i - 1) + g.step) % UINT64;
      NackTime(g.last, g.step, i) == t && GapRecord(g, i)
        == NewRecord(t, SeqAfter(g.from, i), g.rtt, g.peer, g.clock(i), g.recoveryTicks)
  {
  }

  lemma TooWide(from: Seq16, to: Seq16)
    requires Distance(from, to) > 32768
    ensures GapLength(from, to) == 0
  {
  }

  /** The first `n` entries for a gap. */
  function GapRecords(g: Gap, n: nat): (rs: seq<Record>)
    ensures |rs| == n
  {
    if n == 0 then [] else GapRecords(g, n - 1) + [GapRecord(g, n)]
  }

  lemma {:induction false} GapRecordAt(g: Gap, n: nat, i: nat)
    requires i < n
    ensures GapRecords(g, n)[i] == GapRecord(g, i + 1)
  {
    hide GapRecord;
    if i < n - 1 {
      GapRecordAt(g, n - 1, i);
    }
  }

  lemma GapAt(g: Gap, n: nat, i: nat)
    requires i < n <= 65535
    ensures Distance(g.from, GapRecords(g, n)[i].seqNr) == i + 1 && GapRecords(g, n)[i].nackCount == 0
  {
    GapRecordAt(g, n, i);
    AfterDistance(g.from, i + 1);
    hide SeqAfter, NackTime, Distance, GapRecords;
  }

  /** The numbers queued for a gap ascend from `from`, once each, and have not been requested yet. */
  lemma GapInOrder(g: Gap, to: Seq16)
    ensures var rs := GapRecords(g, GapLength(g.from, to));
      forall i :: 0 <= i < |rs| ==> Distance(g.from, rs[i].seqNr) == i + 1 && rs[i].nackCount == 0
  {
    var n := GapLength(g.from, to);
    assert n <= 65535;
    hide *;
    var rs := GapRecords(g, n);
    forall i | 0 <= i < |rs| ensures Distance(g.from, rs[i].seqNr) == i + 1 && rs[i].nackCount == 0 {
      GapAt(g, n, i);
    }
  }

  /** The numbers strictly between `from` and `to` are in the list, and no others. */
  ghost predicate JustTheGap(rs: seq<Record>, from: Seq16, to: Seq16) {
    forall x: Seq16 :: 0 < Distance(from, x) < Distance(from, to) <==> HasNumber(rs, x)
  }

  /** Exactly the gap is queued if and only if it is 1 to 32768 wide: a wider one is left out, and when
      the last number found comes again all the other numbers are queued. */
  lemma GapExact(g: Gap, to: Seq16)
    ensures JustTheGap(GapRecords(g, GapLength(g.from, to)), g.from, to) <==> 1 <= Distance(g.from, to) <= 32768
  {
    var rs, d := GapRecords(g, GapLength(g.from, to)), Distance(g.from, to);
    var next := SeqAfter(g.from, 1);
    AfterDistance(g.from, 1);
    hide GapRecords, SeqAfter, Distance;
    if 1 <= d <= 32768 {
      forall x: Seq16 ensures 0 < Distance(g.from, x) < d <==> HasNumber(rs, x) {
        GapHas(g, to, x);
      }
    } else if d == 0 {
      GapHas(g, to, next);
    } else {
      assert !HasNumber(rs, next);
    }
  }

  /** A number is queued exactly if it is no further away than the gap is long. */
  lemma GapHas(g: Gap, to: Seq16, x: Seq16)
    ensures var n := GapLength(g.from, to); HasNumber(GapRecords(g, n), x) <==> 0 < Distance(g.from, x) <= n
  {
    var n := GapLength(g.from, to);
    assert n <= 65535;
    var rs := GapRecords(g, n);
    hide GapRecords, SeqAfter, Distance, GapLength;
    if 0 < Distance(g.from, x) <= n {
      var i := Distance(g.from, x) - 1;
      GapAt(g, n, i);
      SameDistance(g.from, x, rs[i].seqNr);
    } else if HasNumber(rs, x) {
      var i :| 0 <= i < |rs| && rs[i].seqNr == x;
      GapAt(g, n, i);
      assert false;
    }
  }

  lemma AfterDistance(from: Seq16, i: nat)
    requires i < 65536
    ensures Distance(from, SeqAfter(from, i)) == i
  {
  }

  ghost predicate HasNumber(rs: seq<Record>, x: Seq16) {
    exists i :: 0 <= i < |rs| && rs[i].seqNr == x
  }

  lemma SameDistance(from: Seq16, x: Seq16, y: Seq16)
    requires Distance(from, x) == Distance(from, y)
    ensures x == y
  {
  }

  lemma {:induction false} NackedUpdate(rs: seq<Record>, k: nat, r: Record)
    requires k < |rs|
    ensures Nacked(rs[k := r]) + Weight(rs[k]) == Nacked(rs) + Weight(r)
  {
    var j := |rs| - 1;
    if k == j {
      assert rs[k := r][..j] == rs[..j];
    } else {
      assert rs[k := r][..j] == rs[..j][k := r];
      NackedUpdate(rs[..j], k, r);
    }
  }

  lemma NackedAppend(rs: seq<Record>, r: Record)
    ensures Nacked(rs + [r]) == Nacked(rs) + Weight(r)
  {
    assert (rs + [r])[..|rs|] == rs;
  }

  lemma {:induction false} NackedRemove(rs: seq<Record>, k: nat)
    requires k < |rs|
    ensures Nacked(Without(rs, k)) + Weight(rs[k]) == Nacked(rs)
  {
    var j := |rs| - 1;
    if k == j {
      assert rs[..k] + rs[k + 1..] == rs[..j];
    } else {
      assert (rs[..k] + rs[k + 1..])[..j - 1] == rs[..j][..k] + rs[..j][k + 1..];
      NackedRemove(rs[..j], k);
    }
  }

  // ----- the linked list

  class Entry {
    var seqNr: Seq16
    var nextNack: nat
    var insertionTime: nat
    var nackCount: nat
    var peer: nat
    var next: Entry?

    ghost function Value(): Record
      reads this
    {
      Record(seqNr, nextNack, insertionTime, nackCount, peer)
    }

    constructor (r: Record)
      ensures Value() == r && next == null
    {
      seqNr, nextNack, insertionTime, nackCount, peer := r.seqNr, r.nextNack, r.insertionTime, r.nackCount, r.peer;
      next := null;
    }
  }

  ghost predicate Distinct(spine: seq<Entry>) {
    forall i, j :: 0 <= i < j < |spine| ==> spine[i] != spine[j]
  }

  ghost function At(spine: seq<Entry>, i: nat): Entry? {
    if i < |spine| then spine[i] else null
  }

  /** The entry before position `i`, if any. */
  ghost function Before(spine: seq<Entry>, i: nat): Entry? {
    if 0 < i <= |spine| then spine[i - 1] else null
  }

  ghost predicate Node(e: Entry, r: Record, next: Entry?)
    reads e
  {
    e.Value() == r && e.next == next
  }

  /** The entries hold the records and are linked in order. */
  ghost predicate Chained(spine: seq<Entry>, rs: seq<Record>)
    reads spine
  {
    |rs| == |spine| && forall i :: 0 <= i < |spine| ==> Node(spine[i], rs[i], At(spine, i + 1))
  }

  lemma OthersDiffer(spine: seq<Entry>, k: nat)
    requires Distinct(spine) && k < |spine|
    ensures forall i :: 0 <= i < |spine| && i != k ==> spine[i] != spine[k]
  {
  }

  function Without<T>(s: seq<T>, k: nat): (r: seq<T>)
    requires k < |s|
    ensures |r| == |s| - 1
  {
    s[..k] + s[k + 1..]
  }

  lemma WithoutEnds(before: seq<Entry>, k: nat)
    requires k < |before| && Distinct(before)
    ensures var after := Without(before, k);
      && Distinct(after)
      && (after != [] ==> after[|after| - 1] == if k == |before| - 1 then before[k - 1] else before[|before| - 1])
      && At(after, 0) == (if k == 0 then At(before, 1) else before[0])
      && At(before, 0) == before[0] && (At(before, k + 1) == null <==> k == |before| - 1)
  {
  }

  lemma NextIs(spine: seq<Entry>, rs: seq<Record>, k: nat)
    requires Chained(spine, rs) && k < |spine|
    ensures |rs| == |spine|
    ensures spine[k].next == At(spine, k + 1) && Before(spine, k + 1) == spine[k]
    ensures At(Without(spine, k), k) == At(spine, k + 1) && Before(Without(spine, k), k) == Before(spine, k)
  {
    assert Node(spine[k], rs[k], At(spine, k + 1));
  }

  /** The entry at position `k` is gone, or updated and passed. */
  ghost predicate Settled(rs: seq<Record>, rs': seq<Record>, k: nat, k': nat, fate: Fate)
    requires k < |rs|
  {
    match fate
    case Removed(_) => rs' == Without(rs, k) && k' == k
    case Kept(r, _) => rs' == rs[k := r] && k' == k + 1
  }

  lemma SettledGone(rs: seq<Record>, k: nat, fate: Fate)
    requires k < |rs| && fate.Removed?
    ensures Settled(rs, Without(rs, k), k, k, fate)
  {
  }

  lemma SettledStays(rs: seq<Record>, k: nat, fate: Fate)
    requires k < |rs| && fate.Kept?
    ensures Settled(rs, rs[k := fate.record], k, k + 1, fate)
  {
  }

  lemma SettledParts(rs: seq<Record>, rs': seq<Record>, k: nat, k': nat, fate: Fate)
    requires k < |rs| && Settled(rs, rs', k, k', fate)
    ensures k' <= |rs'| && |rs'| - k' == |rs| - k - 1 && rs'[..k'] == rs[..k] + Stays(fate) && rs'[k'..] == rs[k + 1..]
  {
  }

  lemma PassedStep(env: Env, rs: seq<Record>, j: nat, cs: seq<Record>, cs': seq<Record>, k: nat, k': nat)
    requires |env.ring| == QUEUE_MAX && j < |rs| && k < |cs|
    requires cs[..k] == Survivors(env, rs[..j]) && cs[k..] == rs[j..] && Settled(cs, cs', k, k', FateAt(env, rs[j], j))
    ensures k' <= |cs'| && |cs'| - k' == |rs| - (j + 1)
    ensures cs'[..k'] == Survivors(env, rs[..j + 1]) && cs'[k'..] == rs[j + 1..]
    ensures Requested(env, rs[..j + 1]) == Requested(env, rs[..j]) + Asks(FateAt(env, rs[j], j), rs[j])
  {
    hide FateAt, Survivors, Requested, Settled, Stays, Asks;
    PassStep(env, rs, j);
    SettledParts(cs, cs', k, k', FateAt(env, rs[j], j));
    assert rs[j..][1..] == rs[j + 1..] && cs[k..][1..] == cs[k + 1..];
  }

  lemma WithoutAt(before: seq<Entry>, rs: seq<Record>, k: nat, i: nat)
    requires k < |before| == |rs| && i < |before| - 1
    ensures var after, j := Without(before, k), if i < k then i else i + 1;
      && after[i] == before[j] && Without(rs, k)[i] == rs[j]
      && At(after, i + 1) == At(before, if i < k - 1 then i + 1 else i + 2)
  {
  }

  lemma AppendAt(spine: seq<Entry>, m: Entry, i: nat)
    requires i <= |spine|
    ensures At(spine + [m], i + 1) == if i < |spine| - 1 then At(spine, i + 1) else if i == |spine| - 1 then m else null
  {
  }

  lemma AppendDistinct(spine: seq<Entry>, m: Entry)
    requires Distinct(spine) && m !in spine
    ensures Distinct(spine + [m]) && At(spine + [m], 0) == if spine == [] then m else At(spine, 0)
    ensures At(spine, 0) == null <==> spine == []
  {
  }

  class List {
    var missing: Entry?
    var missingTail: Entry?
    var missingCounter: nat
    ghost var spine: seq<Entry>
    ghost var contents: seq<Record>
    ghost var repr: set<Entry>
    /** The temporary buffer for grouping requests. */
    const nacks: array<Seq16>
    var nacksCounter: nat

    ghost predicate Valid()
      reads `missing, `missingTail, `missingCounter, `spine, `contents, `repr, repr
    {
      && (forall i :: 0 <= i < |spine| ==> spine[i] in repr)
      && Distinct(spine) && Chained(spine, contents)
      && missing == At(spine, 0)
      && (spine != [] ==> missingTail == spine[|spine| - 1])
      && missingCounter == Nacked(contents)
    }

    constructor ()
      ensures Valid() && contents == [] && repr == {} && fresh(nacks) && nacks.Length == MAX_NACKS && nacksCounter == 0
    {
      missing, missingTail, missingCounter, spine, contents, repr := null, null, 0, [], [], {};
      nacks, nacksCounter := new Seq16[MAX_NACKS], 0;
    }

    /** The insertion at the end of the queue. */
    method Append(r: Record)
      requires Valid() && r.nackCount == 0
      modifies `missing, `missingTail, `spine, `contents, `repr, repr
      ensures Valid() && contents == old(contents) + [r]
      ensures fresh(repr - old(repr))
    {
      hide Distinct, At, Nacked;
      ghost var before, rs, n := spine, contents, |spine|;
      var m := new Entry(r);
      AppendDistinct(before, m);
      NackedAppend(rs, r);
      if missing == null {
        missing, missingTail := m, m;
      } else {
        OthersDiffer(before, n - 1);
        missingTail.next := m;
        missingTail := m;
      }
      spine, contents, repr := before + [m], rs + [r], repr + {m};
      forall i | 0 <= i <= n ensures Node(spine[i], contents[i], At(spine, i + 1)) {
        AppendAt(before, m, i);
      }
    }

    /** `rist_flush_missing_flow_queue`. */
    method Flush()
      requires Valid()
      modifies `missing, `missingCounter, `spine, `contents
      ensures Valid() && contents == []
    {
      var current := missing;
      ghost var k := 0;
      while current != null
        invariant Valid() && k <= |spine| && current == At(spine, k)
        decreases |spine| - k
      {
        NextOf(this, k);
        current := current.next;
        k := k + 1;
      }
      missing, missingCounter, spine, contents := null, 0, [], [];
    }

    /** Unlinks the entry `mb` at position `k`; the counter loses it if it had been requested. */
    method Unlink(previous: Entry?, mb: Entry, ghost k: nat)
      requires Valid() && k < |spine| && mb == spine[k] && previous == Before(spine, k)
      modifies this`missing, this`missingTail, this`missingCounter, this`spine, this`contents, previous
      ensures Valid() && |contents| == |spine| && spine == Without(old(spine), k)
              && contents == Without(old(contents), k)
    {
      hide Distinct, At, Nacked, Without;
      ghost var before, rs := spine, contents;
      NackedRemove(rs, k);
      WithoutEnds(before, k);
      var next := mb.next;
      if next == null {
        missingTail := previous;
      }
      if previous == null {
        missing := next;
      } else {
        OthersDiffer(before, k - 1);
        previous.next := next;
      }
      if mb.nackCount != 0 {
        missingCounter := missingCounter - 1;
      }
      spine, contents := Without(before, k), Without(rs, k);
      forall i | 0 <= i < |spine| ensures Node(spine[i], contents[i], At(spine, i + 1)) && spine[i] in repr {
        WithoutAt(before, rs, k, i);
      }
    }

    /** Writes back an entry that stays; the first request counts it. */
    method Update(mb: Entry, r: Record, ghost k: nat)
      requires Valid() && k < |spine| && mb == spine[k]
      requires r.seqNr == mb.seqNr && r.insertionTime == mb.insertionTime && r.peer == mb.peer
               && r.nackCount >= mb.nackCount
      modifies this`missingCounter, this`contents, mb
      ensures Valid() && contents == old(contents)[k := r]
    {
      hide Distinct, At, Nacked;
      NackedUpdate(contents, k, r);
      OthersDiffer(spine, k);
      if mb.nackCount == 0 && r.nackCount > 0 {
        missingCounter := missingCounter + 1;
      }
      mb.nextNack, mb.nackCount := r.nextNack, r.nackCount;
      contents := contents[k := r];
    }

    /** `receiver_mark_missing`: queues the numbers between the last one found and the one that came. */
    method MarkMissing(ring: array<Option<Packet>>, from: Seq16, current: Seq16, rtt: nat, peer: nat, p: PeerState,
                       recoveryTicks: nat, clock: nat -> nat)
      requires Valid() && ring.Length == QUEUE_MAX && ring[current].Some?
      modifies `missing, `missingTail, `spine, `contents, `repr, repr
      ensures Valid()
      ensures fresh(repr - old(repr))
      ensures contents == old(contents) + if Blocked(p, old(missingCounter)) then []
                else GapRecords(GapOf(ring[..], from, current, rtt, peer, recoveryTicks, clock),
                                GapLength(from, current))
    {
      hide NackTime, NewRecord, Valid, GapLength, Distance, SeqAfter, GapRecord;
      var packetTimeLast := if ring[from].None? then clock(0) else ring[from].value.packetTime;
      var missingCount := Distance(from, current);
      if missingCount > 32768 {
        TooWide(from, current);
        return;
      }
      var step := StepOf(Sub64(ring[current].value.packetTime, packetTimeLast), missingCount);
      ghost var g := GapOf(ring[..], from, current, rtt, peer, recoveryTicks, clock);
      var counter, nackTime, missingSeq := 1, packetTimeLast, SeqAfter(from, 1);
      NackTimeStart(g);
      while missingSeq != current
        invariant Valid() && missingCounter == old(missingCounter)
        invariant fresh(repr - old(repr))
        invariant 1 <= counter <= GapLength(from, current) + 1 && missingSeq == SeqAfter(from, counter)
        invariant nackTime == NackTime(g.last, g.step, counter - 1)
        invariant contents == old(contents) + GapRecords(g, counter - 1)
        invariant counter > 1 ==> !Blocked(p, old(missingCounter))
        decreases GapLength(from, current) + 1 - counter
      {
        nackTime := (nackTime + step) % UINT64;
        if p.bloat || missingCounter > p.missingCounterMax {
          return;
        }
        GapStep(from, current, counter);
        NextRecord(g, counter);
        Append(NewRecord(nackTime, missingSeq, rtt, peer, clock(counter), recoveryTicks));
        assert contents == old(contents) + GapRecords(g, counter);
        if counter == QUEUE_MAX {
          return;
        }
        counter := counter + 1;
        missingSeq := SeqAfter(from, counter);
      }
      GapEnd(from, current, counter);
    }

    /** `send_nack_group`; without a peer in the flow nothing is sent and the group stays. */
    method SendNackGroup(canSend: bool) returns (groups: seq<seq<Seq16>>)
      requires nacks.Length == MAX_NACKS && nacksCounter <= MAX_NACKS
      modifies this`nacksCounter
      ensures nacksCounter == if canSend then 0 else old(nacksCounter)
      ensures groups == if canSend && old(nacksCounter) > 0 then [nacks[..old(nacksCounter)]] else []
    {
      groups := [];
      if nacksCounter == 0 {
        return;
      }
      if canSend {
        groups := [nacks[..nacksCounter]];
        nacksCounter := 0;
      }
    }

    /** The grouping in front of `rist_process_nack`: makes room for one more number. All sequence numbers of
        this model have the same upper half, so it never changes. */
    method MakeRoom(canSend: bool, msbChanged: bool) returns (groups: seq<seq<Seq16>>)
      requires nacks.Length == MAX_NACKS && nacksCounter <= MAX_NACKS
      modifies this`nacksCounter
      ensures nacksCounter <= old(nacksCounter)
      ensures Grouping(groups, nacks[..nacksCounter])
           == var g := Grouping([], old(nacks[..nacksCounter]));
              if msbChanged then Flushed(g, canSend) else Room(g, canSend)
    {
      groups := [];
      if msbChanged {
        groups := SendNackGroup(canSend);
      } else if nacksCounter == MAX_NACKS - 1 {
        groups := SendNackGroup(canSend);
      } else if nacksCounter >= MAX_NACKS {
        nacksCounter := 0;
      }
    }

    /** `rist_process_nack`: what happens to the entry, with the request noted in the group. */
    method ProcessEntry(mb: Entry, c: Config, p: PeerState, now: nat, ghost k: nat) returns (reason: nat)
      requires Valid() && k < |spine| && mb == spine[k] && nacks.Length == MAX_NACKS && nacksCounter < MAX_NACKS
      modifies this`missingCounter, this`contents, this`nacksCounter, nacks, mb
      ensures Valid() && nacksCounter <= old(nacksCounter) + 1
      ensures var fate := ProcessNack(old(contents)[k], c, p, now);
        && (fate.Removed? ==> reason == fate.reason != 0 && contents == old(contents))
        && (fate.Kept? ==> reason == 0 && contents == old(contents)[k := fate.record])
        && nacks[..nacksCounter] == old(nacks[..nacksCounter]) + (if fate.Kept? && fate.nacked then [mb.seqNr] else [])
      ensures mb.seqNr == old(mb.seqNr)
    {
      hide Nacked, Distinct, At;
      reason := 0;
      if mb.nackCount >= c.maxRetries {
        return 8;
      }
      if 10 * Sub64(now, mb.insertionTime) > 11 * p.recoveryTicks {
        return 9;
      }
      if now >= mb.nextNack {
        var rtt := p.eightTimesRtt / 8;
        if rtt < c.rttMin {
          rtt := c.rttMin;
        } else if rtt > c.rttMax {
          rtt := c.rttMax;
        }
        Update(mb, Record(mb.seqNr, now + RetryDelay(rtt), mb.insertionTime, mb.nackCount + 1, mb.peer), k);
        nacks[nacksCounter] := mb.seqNr;
        nacksCounter := nacksCounter + 1;
      }
    }

    /** The request for an entry that is still missing: room in the buffer, then `rist_process_nack`. */
    method Request(mb: Entry, c: Config, p: PeerState, now: nat, canSend: bool, msbChanged: bool, ghost k: nat)
      returns (groups: seq<seq<Seq16>>, reason: nat)
      requires Valid() && k < |spine| && k < |contents| && mb == spine[k] && !msbChanged
      requires nacks.Length == MAX_NACKS && nacksCounter <= MAX_NACKS
      modifies this`missingCounter, this`contents, this`nacksCounter, nacks, mb
      ensures Valid() && nacksCounter <= MAX_NACKS
      ensures var fate := ProcessNack(old(contents[k]), c, p, now);
        && (if reason != 0 then fate == Removed(reason) && contents == old(contents)
            else fate.Kept? && contents == old(contents)[k := fate.record])
        && Grouping(groups, nacks[..nacksCounter])
           == Noted(Grouping([], old(nacks[..nacksCounter])), canSend, true, Asks(fate, old(contents[k])))
    {
      ghost var fate, g := ProcessNack(contents[k], c, p, now), Grouping([], nacks[..nacksCounter]);
      RoomLess(g, canSend);
      SeqOf(this, k);
      AsksIs(fate, contents[k]);
      hide *;
      groups := MakeRoom(canSend, msbChanged);
      NotedIs(g, Grouping(groups, nacks[..nacksCounter]), canSend, Asks(fate, contents[k]));
      reason := ProcessEntry(mb, c, p, now, k);
    }

    /** The decision about one entry, before it is unlinked or kept. */
    method Decide(ring: array<Option<Packet>>, mb: Entry, c: Config, p: PeerState, now: nat, canSend: bool,
                  seqMsb: nat, ghost k: nat)
      returns (groups: seq<seq<Seq16>>, reason: nat)
      requires Valid() && k < |spine| && k < |contents| && mb == spine[k] && ring.Length == QUEUE_MAX && seqMsb == 0
      requires nacks.Length == MAX_NACKS && nacksCounter <= MAX_NACKS
      modifies this`missingCounter, this`contents, this`nacksCounter, nacks, mb
      ensures Valid() && nacksCounter <= MAX_NACKS
      ensures var r := old(contents)[k]; var slot := SlotNr(ring[..], r.seqNr); var fate := FateOf(r, slot, c, p, now);
        && (if reason != 0 then fate == Removed(reason) && contents == old(contents)
            else fate.Kept? && contents == old(contents)[k := fate.record])
        && Grouping(groups, nacks[..nacksCounter])
           == Noted(Grouping([], old(nacks[..nacksCounter])), canSend, Reaches(slot, c, p), Asks(fate, r))
    {
      NextOf(this, k);
      SeqOf(this, k);
      ghost var r := contents[k];
      FateUnreached(r, SlotNr(ring[..], r.seqNr), c, p, now, nacks[..nacksCounter], canSend);
      assert contents[k := r] == contents;
      hide Valid, At, Before, ProcessNack, FateOf, Asks, Noted;
      groups, reason := [], 0;
      if c.nacksDisabled {
        reason := 10;
      } else if ring[mb.seqNr].Some? {
        reason := if ring[mb.seqNr].value.seqNr == mb.seqNr then 3 else 4;
      } else if p.bloat {
        if c.congestion == Aggressive {
          reason := 5;
        } else if c.congestion == Normal {
          if mb.nackCount > 4 {
            reason := 6;
          }
        }
      } else {
        groups, reason := Request(mb, c, p, now, canSend, seqMsb != mb.seqNr / 65536, k);
      }
    }

    /** One turn of the loop: decides, then unlinks the entry or moves past it. */
    method Visit(ring: array<Option<Packet>>, previous: Entry?, mb: Entry, c: Config, p: PeerState, now: nat,
                 canSend: bool, seqMsb: nat, ghost k: nat, ghost cs: seq<Record>, ghost fate: Fate, ghost g: Grouping)
      returns (groups: seq<seq<Seq16>>, before: Entry?, next: Entry?, ghost k': nat)
      requires Valid() && k < |spine| && mb == spine[k] && previous == Before(spine, k)
      requires ring.Length == QUEUE_MAX && seqMsb == 0 && nacks.Length == MAX_NACKS && nacksCounter <= MAX_NACKS
      requires contents == cs && k < |cs| && fate == FateOf(cs[k], SlotNr(ring[..], cs[k].seqNr), c, p, now)
      requires g == Noted(Grouping([], nacks[..nacksCounter]), canSend, Reaches(SlotNr(ring[..], cs[k].seqNr), c, p),
                          Asks(fate, cs[k]))
      modifies this, repr, nacks
      ensures Valid() && repr == old(repr) && |contents| == |spine|
      ensures next == At(spine, k') && before == Before(spine, k') && Settled(cs, contents, k, k', fate)
      ensures nacksCounter <= MAX_NACKS && Grouping(groups, nacks[..nacksCounter]) == g
    {
      NextOf(this, k);
      hide *;
      var reason;
      groups, reason := Decide(ring, mb, c, p, now, canSend, seqMsb, k);
      before, next, k' := MoveOn(previous, mb, reason != 0, k, cs, fate);
    }

    /** Unlinks the entry, or moves past it. */
    method MoveOn(previous: Entry?, mb: Entry, gone: bool, ghost k: nat, ghost cs: seq<Record>, ghost fate: Fate)
      returns (before: Entry?, next: Entry?, ghost k': nat)
      requires Valid() && k < |spine| && mb == spine[k] && previous == Before(spine, k) && k < |cs|
      requires if gone then fate.Removed? && contents == cs else fate.Kept? && contents == cs[k := fate.record]
      modifies this`missing, this`missingTail, this`missingCounter, this`spine, this`contents, previous
      ensures Valid() && |contents| == |spine| && next == At(spine, k') && before == Before(spine, k')
      ensures Settled(cs, contents, k, k', fate)
    {
      NextOf(this, k);
      hide *;
      before, next, k' := previous, mb.next, k;
      if gone {
        Unlink(previous, mb, k);
        SettledGone(cs, k, fate);
      } else {
        before := mb;
        k' := k + 1;
        SettledStays(cs, k, fate);
      }
    }

    /** After `j` of the old entries: `k` of them stay in front, the rest is untouched. */
    ghost predicate Passed(env: Env, rs: seq<Record>, j: nat, k: nat)
      reads `missing, `missingTail, `missingCounter, `spine, `contents, `repr, repr
      requires |env.ring| == QUEUE_MAX
    {
      && Valid() && k <= |contents| == |spine| && j <= |rs| && |contents| - k == |rs| - j
      && contents[..k] == Survivors(env, rs[..j]) && contents[k..] == rs[j..]
    }

    /** The groups sent and the buffer are `g`. */
    ghost predicate Groups(groups: seq<seq<Seq16>>, g: Grouping)
      reads `nacksCounter, nacks
    {
      nacks.Length == MAX_NACKS && nacksCounter <= MAX_NACKS && Grouping(groups, nacks[..nacksCounter]) == g
    }

    method Advance(ring: array<Option<Packet>>, previous: Entry?, mb: Entry, clock: nat -> nat, configs: nat -> Config,
                   peers: nat -> PeerState, canSend: bool, seqMsb: nat, groups: seq<seq<Seq16>>, j: nat, ghost env: Env,
                   ghost rs: seq<Record>, ghost k: nat, ghost g: Grouping)
      returns (groups': seq<seq<Seq16>>, before: Entry?, next: Entry?, ghost k': nat)
      requires ring.Length == QUEUE_MAX && seqMsb == 0
      requires env == Env(clock, ring[..], configs, peers) && Passed(env, rs, j, k)
      requires Groups(groups, Grouped(env, rs[..j], canSend, g))
      requires mb == At(spine, k) && previous == Before(spine, k)
      modifies this, repr, nacks
      ensures repr == old(repr) && j < |rs|
      ensures next == At(spine, k') && before == Before(spine, k')
      ensures Passed(env, rs, j + 1, k')
      ensures Groups(groups', Grouped(env, rs[..j + 1], canSend, g))
    {
      AtPosition(this, k);
      hide Valid, At, Before, FateOf, FateAt, Survivors, Grouped, Noted, Stays, Asks, Settled, SlotNr, Reaches;
      ghost var cs, fate, held := contents, FateAt(env, rs[j], j), nacks[..nacksCounter];
      FateAtIs(env, rs[j], j);
      assert contents[k..][0] == rs[j..][0];
      ghost var noted := Noted(Grouping([], held), canSend, ReachesAt(env, rs[j]), Asks(fate, rs[j]));
      var sent;
      sent, before, next, k' :=
        Visit(ring, previous, mb, configs(mb.peer), peers(mb.peer), clock(j), canSend, seqMsb, k, cs, fate, noted);
      PassedStep(env, rs, j, cs, contents, k, k');
      groups' := groups + sent;
      GroupedStep(env, rs, j, canSend, g);
      NotedAfter(groups, held, canSend, ReachesAt(env, rs[j]), Asks(fate, rs[j]));
    }

    method RunPass(ring: array<Option<Packet>>, clock: nat -> nat, configs: nat -> Config, peers: nat -> PeerState,
                   canSend: bool, ghost env: Env, ghost g: Grouping)
      returns (groups: seq<seq<Seq16>>)
      requires Valid() && ring.Length == QUEUE_MAX && Groups([], g)
      requires env == Env(clock, ring[..], configs, peers)
      modifies this, repr, nacks
      ensures Valid() && repr == old(repr) && contents == Survivors(env, old(contents))
      ensures Groups(groups, Grouped(env, old(contents), canSend, g))
    {
      hide *;
      groups := [];
      ghost var rs := contents;
      PassedStart(this, env, canSend, g);
      var mb := missing;
      var previous: Entry? := null;
      var seqMsb := if mb != null then mb.seqNr / 65536 else 0;
      var j := 0;
      ghost var k: nat := 0;
      while mb != null
        invariant repr == old(repr) && mb == At(spine, k) && previous == Before(spine, k)
        invariant j <= |rs| && Passed(env, rs, j, k)
        invariant Groups(groups, Grouped(env, rs[..j], canSend, g))
        decreases |rs| - j
      {
        groups, previous, mb, k :=
          Advance(ring, previous, mb, clock, configs, peers, canSend, seqMsb, groups, j, env, rs, k, g);
        j := j + 1;
      }
      PassedEnd(this, env, rs, j, k);
      assert rs[..j] == rs;
    }

    /** `receiver_nack_output`: one pass over the whole list, and the rest of the buffer as the last group. Without
        a peer in the flow no group is sent. */
    method NackOutput(ring: array<Option<Packet>>, clock: nat -> nat, configs: nat -> Config, peers: nat -> PeerState,
                      authenticated: bool, canSend: bool)
      returns (groups: seq<seq<Seq16>>)
      requires Valid() && ring.Length == QUEUE_MAX && nacks.Length == MAX_NACKS && nacksCounter <= MAX_NACKS
      modifies this, repr, nacks
      ensures Valid() && repr == old(repr) && nacksCounter <= MAX_NACKS
      ensures !authenticated ==>
                contents == old(contents) && groups == [] && nacks[..nacksCounter] == old(nacks[..nacksCounter])
      ensures authenticated ==>
                var env := Env(clock, ring[..], configs, peers);
                && contents == Survivors(env, old(contents))
                && Groups(groups, PassGroups(env, old(contents), canSend, old(nacks[..nacksCounter])))
    {
      groups := [];
      if !authenticated {
        return;
      }
      hide *;
      ghost var env := Env(clock, ring[..], configs, peers);
      ghost var g := Grouping([], nacks[..nacksCounter]);
      StartGroups(this);
      ghost var rs := contents;
      groups := RunPass(ring, clock, configs, peers, canSend, env, g);
      LastGroup(this, env, rs, canSend, g, groups);
      var last := SendNackGroup(canSend);
      groups := groups + last;
    }
  }

  lemma PassedStart(list: List, env: Env, canSend: bool, g: Grouping)
    requires list.Valid() && |env.ring| == QUEUE_MAX
    ensures list.Passed(env, list.contents, 0, 0) && list.missing == At(list.spine, 0) && Before(list.spine, 0) == null
    ensures Grouped(env, list.contents[..0], canSend, g) == g
  {
    AtPosition(list, 0);
    PassStart(env, list.contents);
  }

  lemma StartGroups(list: List)
    requires list.nacks.Length == MAX_NACKS && list.nacksCounter <= MAX_NACKS
    ensures list.Groups([], Grouping([], list.nacks[..list.nacksCounter]))
  {
  }

  /** What is left of the buffer after the pass goes out last, unless the flow has no peer. */
  lemma LastGroup(list: List, env: Env, rs: seq<Record>, canSend: bool, g: Grouping, groups: seq<seq<Seq16>>)
    requires |env.ring| == QUEUE_MAX && list.Groups(groups, Grouped(env, rs, canSend, g)) && g.sent == []
    ensures list.nacks.Length == MAX_NACKS && list.nacksCounter <= MAX_NACKS
    ensures var n, all := list.nacksCounter, list.nacks[..list.nacksCounter];
      PassGroups(env, rs, canSend, g.held)
      == Grouping(groups + if canSend && n > 0 then [all] else [], if canSend then [] else all)
  {
    hide Grouped;
    assert g == Grouping([], g.held);
    assert groups + [] == groups;
  }

  lemma PassedEnd(list: List, env: Env, rs: seq<Record>, j: nat, k: nat)
    requires |env.ring| == QUEUE_MAX && list.Passed(env, rs, j, k) && At(list.spine, k) == null
    ensures list.Valid() && j == |rs| && list.contents == Survivors(env, rs)
  {
    AtPosition(list, k);
    assert list.contents[..k] == list.contents && rs[..j] == rs;
  }

  /** The tail pointer of a non-empty list is its last entry, and the counter is the number of entries
      requested at least once. */
  lemma TailAndCounter(list: List)
    requires list.Valid()
    ensures list.missing == null <==> list.contents == []
    ensures list.contents != [] ==>
              var tail := list.missingTail;
              tail != null && tail.next == null && tail.Value() == list.contents[|list.contents| - 1]
    ensures list.missingCounter == |set i | 0 <= i < |list.contents| && list.contents[i].nackCount > 0|
  {
    AtPosition(list, 0);
    NackedIsCount(list.contents);
    if list.contents != [] {
      AtPosition(list, |list.spine| - 1);
      NextIs(list.spine, list.contents, |list.spine| - 1);
    }
  }

  lemma {:induction false} NackedIsCount(rs: seq<Record>)
    ensures Nacked(rs) == |set i | 0 <= i < |rs| && rs[i].nackCount > 0|
  {
    if rs != [] {
      var j := |rs| - 1;
      NackedIsCount(rs[..j]);
      var before := set i | 0 <= i < |rs[..j]| && rs[..j][i].nackCount > 0;
      var all := set i | 0 <= i < |rs| && rs[i].nackCount > 0;
      assert all == before + if rs[j].nackCount > 0 then {j} else {};
    }
  }

  /** An entry for which the pass does not come to `rist_process_nack`: nothing is asked, and the groups stay. */
  lemma FateUnreached(r: Record, slot: Option<Seq16>, c: Config, p: PeerState, now: nat, held: seq<Seq16>,
                      canSend: bool)
    ensures var fate := FateOf(r, slot, c, p, now);
      if Reaches(slot, c, p) then fate == ProcessNack(r, c, p, now)
      else
        && fate == (if c.nacksDisabled then Removed(10)
                    else if slot.Some? then Removed(if slot.value == r.seqNr then 3 else 4)
                    else if c.congestion == Aggressive then Removed(5)
                    else if c.congestion == Normal && r.nackCount > 4 then Removed(6)
                    else Kept(r, false))
        && Noted(Grouping([], held), canSend, false, Asks(fate, r)) == Grouping([], held)
  {
    hide ProcessNack;
    assert held + [] == held;
  }

  lemma SeqOf(list: List, k: nat)
    requires list.Valid() && k < |list.spine| && k < |list.contents|
    ensures list.spine[k].Value() == list.contents[k] && list.spine[k].seqNr / 65536 == 0
  {
    assert Node(list.spine[k], list.contents[k], At(list.spine, k + 1));
  }

  lemma NextOf(list: List, k: nat)
    requires list.Valid() && k < |list.spine|
    ensures list.spine[k].next == At(list.spine, k + 1) && |list.contents| == |list.spine|
    ensures Before(list.spine, k) != null ==> Before(list.spine, k) in list.repr
    ensures Before(list.spine, k + 1) == list.spine[k]
    ensures At(Without(list.spine, k), k) == At(list.spine, k + 1)
            && Before(Without(list.spine, k), k) == Before(list.spine, k)
  {
    NextIs(list.spine, list.contents, k);
  }

  lemma RoomLess(g: Grouping, canSend: bool)
    requires |g.held| <= MAX_NACKS
    ensures |Room(g, canSend).held| < MAX_NACKS
  {
  }

  lemma AsksIs(fate: Fate, r: Record)
    ensures Asks(fate, r) == if fate.Kept? && fate.nacked then [r.seqNr] else []
  {
  }

  lemma NotedIs(g: Grouping, room: Grouping, canSend: bool, asked: seq<Seq16>)
    requires room == Room(g, canSend)
    ensures Noted(g, canSend, true, asked) == Grouping(room.sent, room.held + asked)
  {
    hide Room;
  }

  lemma AtPosition(list: List, k: nat)
    requires list.Valid() && k <= |list.spine|
    ensures |list.contents| == |list.spine|
    ensures At(list.spine, k) == null <==> k == |list.spine|
    ensures k < |list.spine| ==>
              At(list.spine, k) == list.spine[k] && list.spine[k] in list.repr
                && list.spine[k].Value() == list.contents[k]
  {
    if k < |list.spine| {
      assert Node(list.spine[k], list.contents[k], At(list.spine, k + 1));
    }
  }
}
