/** The weighted election of a peer for each packet. */
module Scheduler {

  datatype Option<T> = None | Some(value: T)

  function Sum(s: seq<nat>): nat {
    if s == [] then 0 else Sum(s[..|s| - 1]) + s[|s| - 1]
  }

  /** The first peer with the largest remaining count, among the first `n`. */
  function Elect(counts: seq<nat>, n: nat): (e: Option<nat>)
    requires n <= |counts|
    ensures e.Some? ==> e.value < n
  {
    if n == 0 then None
    else
      var e := Elect(counts, n - 1);
      if counts[n - 1] > Best(counts, e) then Some(n - 1) else e
  }

  function Best(counts: seq<nat>, e: Option<nat>): nat
    requires e.Some? ==> e.value < |counts|
  {
    if e.Some? then counts[e.value] else 0
  }

  /** The elected peer has the largest count; no peer is elected exactly if every count is zero. */
  lemma {:induction false} ElectIsMax(counts: seq<nat>, n: nat)
    requires n <= |counts|
    ensures forall i :: 0 <= i < n ==> counts[i] <= Best(counts, Elect(counts, n))
    ensures Elect(counts, n).Some? ==> Best(counts, Elect(counts, n)) > 0
    ensures Elect(counts, n).Some? ==> forall i :: 0 <= i < Elect(counts, n).value ==>
            counts[i] < Best(counts, Elect(counts, n))
  {
    if n > 0 {
      ElectIsMax(counts, n - 1);
    }
  }

  datatype Counters = Counters(counts: seq<nat>, weightCounter: int)

  function Refill(weights: seq<nat>): Counters { Counters(weights, Sum(weights)) }

  /** What one packet does to the counters. */
  function Step(c: Counters, weights: seq<nat>): Counters
    requires |c.counts| == |weights|
  {
    var e := Elect(c.counts, |c.counts|);
    var c' := if e.Some? then Spend(c, e.value) else c;
    if Sum(weights) > 0 && (c'.weightCounter == 0 || e.None?) then Refill(weights) else c'
  }

  function Spent(c: Counters, e: Option<nat>): Counters
    requires e.Some? ==> e.value < |c.counts|
  {
    if e.Some? then Spend(c, e.value) else c
  }

  lemma SpentCases(c: Counters, e: Option<nat>)
    requires e.Some? ==> e.value < |c.counts| && c.counts[e.value] > 0
    ensures Spent(c, e) == if e.Some? then Counters(c.counts[e.value := c.counts[e.value] - 1], c.weightCounter - 1)
            else c
  {
  }

  lemma StepCases(c: Counters, weights: seq<nat>)
    requires |c.counts| == |weights|
    ensures var e := Elect(c.counts, |c.counts|);
      Step(c, weights) == if Sum(weights) > 0 && (Spent(c, e).weightCounter == 0 || e.None?) then
        Counters(weights, Sum(weights)) else Spent(c, e)
  {
    hide Elect, Sum;
  }

  function Spend(c: Counters, i: nat): Counters
    requires i < |c.counts|
  {
    Counters(c.counts[i := if c.counts[i] > 0 then c.counts[i] - 1 else 0], c.weightCounter - 1)
  }

  lemma {:induction false} SumUpdate(s: seq<nat>, i: nat, x: nat)
    requires i < |s|
    ensures Sum(s[i := x]) + s[i] == Sum(s) + x
  {
    var j := |s| - 1;
    if i == j {
      assert s[i := x][..j] == s[..j];
    } else {
      assert s[i := x][..j] == s[..j][i := x];
      SumUpdate(s[..j], i, x);
    }
  }

  lemma {:induction false} SumZero(s: seq<nat>)
    ensures Sum(s) == 0 <==> forall i :: 0 <= i < |s| ==> s[i] == 0
  {
    if s != [] {
      var j := |s| - 1;
      SumZero(s[..j]);
      assert forall i :: 0 <= i < j ==> s[..j][i] == s[i];
    }
  }

  /** The counter of the run is the sum of the peers' counts. */
  ghost predicate Balanced(c: Counters, weights: seq<nat>) {
    |c.counts| == |weights| && c.weightCounter == Sum(c.counts) > 0
  }

  lemma StepBalanced(c: Counters, weights: seq<nat>)
    requires Balanced(c, weights) && Sum(weights) > 0
    ensures Balanced(Step(c, weights), weights) && Elect(c.counts, |c.counts|).Some?
  {
    ElectIsMax(c.counts, |c.counts|);
    SumZero(c.counts);
    var e := Elect(c.counts, |c.counts|);
    if e.Some? {
      SumUpdate(c.counts, e.value, c.counts[e.value] - 1);
    }
  }

  // ----- a run of packets

  /** How often peer `i` is elected in a run of `n` packets. */
  function Elected(c: Counters, weights: seq<nat>, n: nat, i: nat): nat
    requires |c.counts| == |weights|
    decreases n
  {
    if n == 0 then 0
    else (if Elect(c.counts, |c.counts|) == Some(i) then 1 else 0) + Elected(Step(c, weights), weights, n - 1, i)
  }

  function After(c: Counters, weights: seq<nat>, n: nat): (c': Counters)
    requires |c.counts| == |weights|
    ensures |c'.counts| == |weights|
    decreases n
  {
    if n == 0 then c else After(Step(c, weights), weights, n - 1)
  }

  /** From a balanced state, the packets that remain until the next refill elect every peer exactly as
      often as its count says. */
  lemma {:induction false} RestOfRound(c: Counters, weights: seq<nat>, i: nat)
    requires Balanced(c, weights) && Sum(weights) > 0 && i < |weights|
    ensures Elected(c, weights, Sum(c.counts), i) == c.counts[i]
    ensures After(c, weights, Sum(c.counts)) == Refill(weights)
    decreases Sum(c.counts)
  {
    var e := Elect(c.counts, |c.counts|);
    var n := Sum(c.counts);
    StepBalanced(c, weights);
    ElectIsMax(c.counts, |c.counts|);
    var spent := Spend(c, e.value);
    SumUpdate(c.counts, e.value, c.counts[e.value] - 1);
    SpendTurn(c, weights, i);
    if n == 1 {
      SumZero(spent.counts);
      assert spent.counts[i] == 0;
    } else {
      RestOfRound(spent, weights, i);
    }
  }

  lemma SpendTurn(c: Counters, weights: seq<nat>, i: nat)
    requires Balanced(c, weights) && Sum(weights) > 0 && i < |weights|
    ensures Elect(c.counts, |c.counts|).Some?
    ensures var e, n := Elect(c.counts, |c.counts|), Sum(c.counts);
            var next := if n == 1 then Refill(weights) else Spend(c, e.value);
      && Step(c, weights) == next
      && Elected(c, weights, n, i) == (if e.value == i then 1 else 0) + Elected(next, weights, n - 1, i)
      && After(c, weights, n) == After(next, weights, n - 1)
      && (n == 1 ==> Elected(next, weights, 0, i) == 0 && After(next, weights, 0) == next)
  {
    StepBalanced(c, weights);
    hide Elect, Balanced, Sum;
  }

  /** Over a whole number of rounds from a refill, every peer gets its share exactly. */
  lemma {:induction false} Fair(weights: seq<nat>, rounds: nat, i: nat)
    requires Sum(weights) > 0 && i < |weights|
    ensures Elected(Refill(weights), weights, rounds * Sum(weights), i) == rounds * weights[i]
    ensures After(Refill(weights), weights, rounds * Sum(weights)) == Refill(weights)
    decreases rounds
  {
    var c, n := Refill(weights), Sum(weights);
    if rounds == 0 {
      assert Elected(c, weights, 0, i) == 0 && After(c, weights, 0) == c;
    } else {
      RestOfRound(c, weights, i);
      Fair(weights, rounds - 1, i);
      Rounds(rounds, n);
      Rounds(rounds, weights[i]);
      Concatenate(c, weights, n, (rounds - 1) * n, i);
    }
  }

  lemma Rounds(r: nat, n: nat)
    requires r > 0
    ensures r * n == n + (r - 1) * n && (r - 1) * n >= 0
  {
  }

  lemma {:induction false} Concatenate(c: Counters, weights: seq<nat>, m: nat, n: nat, i: nat)
    requires |c.counts| == |weights|
    ensures Elected(c, weights, m + n, i) == Elected(c, weights, m, i) + Elected(After(c, weights, m), weights, n, i)
    ensures After(c, weights, m + n) == After(After(c, weights, m), weights, n)
    decreases m
  {
    if m > 0 {
      Concatenate(Step(c, weights), weights, m - 1, n, i);
      assert m - 1 + n == m + n - 1;
    } else {
      assert Elected(c, weights, 0, i) == 0 && After(c, weights, 0) == c;
    }
  }

  /** Before the first refill no count is positive: the first packet elects nobody, and only then are
      the counters filled. */
  lemma FirstPacketElectsNobody(weights: seq<nat>, weightCounter: int)
    requires Sum(weights) > 0
    ensures var c := Counters(seq(|weights|, _ => 0), weightCounter);
      Elect(c.counts, |c.counts|) == None && Step(c, weights) == Refill(weights)
  {
    var c := Counters(seq(|weights|, _ => 0), weightCounter);
    ElectIsMax(c.counts, |c.counts|);
  }

  // ----- the code

  class Peer {
    const weight: nat
    var wCount: nat

    constructor (weight: nat)
      ensures this.weight == weight && wCount == 0
    {
      this.weight, wCount := weight, 0;
    }
  }

  ghost function Counts(peers: seq<Peer>): (c: seq<nat>)
    reads peers
    ensures |c| == |peers|
  {
    seq(|peers|, i requires 0 <= i < |peers| reads peers => peers[i].wCount)
  }

  function Weights(peers: seq<Peer>): (w: seq<nat>)
    ensures |w| == |peers|
  {
    seq(|peers|, i requires 0 <= i < |peers| => peers[i].weight)
  }

  /** The peers of weight zero, in order. */
  function ZeroWeight(weights: seq<nat>, n: nat): seq<nat>
    requires n <= |weights|
  {
    if n == 0 then [] else ZeroWeight(weights, n - 1) + if weights[n - 1] == 0 then [n - 1] else []
  }

  lemma StateIs(s: Sender)
    ensures s.State() == Counters(Counts(s.peers), s.weightCounter)
    ensures s.Valid() ==> s.totalWeight == Sum(Weights(s.peers))
  {
  }

  class Sender {
    const peers: seq<Peer>
    var weightCounter: int
    const totalWeight: nat

    ghost predicate Valid()
      reads this, peers
    {
      && (forall i, j :: 0 <= i < j < |peers| ==> peers[i] != peers[j])
      && totalWeight == Sum(Weights(peers))
      && (forall i :: 0 <= i < |peers| && peers[i].weight == 0 ==> peers[i].wCount == 0)
    }

    ghost function State(): Counters
      reads this, peers
    {
      Counters(Counts(peers), weightCounter)
    }

    /** `rist_sender_send_data_balanced` with every peer alive: the indices of the peers the packet goes to. */
    method SendBalanced() returns (out: seq<nat>)
      requires Valid()
      modifies `weightCounter, peers
      ensures Valid() && State() == Step(old(State()), Weights(peers))
      ensures var e := Elect(old(Counts(peers)), |peers|);
        out == ZeroWeight(Weights(peers), |peers|) + if e.Some? then [e.value] else []
    {
      ghost var before, ws := Counters(Counts(peers), weightCounter), Weights(peers);
      var selected;
      out, selected := Consider();
      StateIs(this);
      StepCases(before, ws);
      hide *;
      out := Serve(out, selected);
      if totalWeight > 0 && (weightCounter == 0 || selected.None?) {
        weightCounter := totalWeight;
        RefillPeers();
      }
      StateIs(this);
    }

    /** The elected peer gets the packet and loses a count. */
    method Serve(zeroes: seq<nat>, selected: Option<nat>) returns (out: seq<nat>)
      requires Valid() && (selected.Some? ==> selected.value < |peers| && peers[selected.value].wCount > 0)
      modifies `weightCounter, peers
      ensures Valid() && |Counts(peers)| == |peers|
      ensures Counters(Counts(peers), weightCounter) == Spent(old(Counters(Counts(peers), weightCounter)), selected)
      ensures out == zeroes + if selected.Some? then [selected.value] else []
    {
      out := zeroes;
      ghost var before := Counters(Counts(peers), weightCounter);
      SpentCases(before, selected);
      hide Spent;
      if selected.Some? {
        out := out + [selected.value];
        weightCounter := weightCounter - 1;
        Take(selected.value);
      }
    }

    /** The loop over the peers: weight zero gets the packet at once, the others are considered. */
    method Consider() returns (out: seq<nat>, selected: Option<nat>)
      requires Valid()
      ensures out == ZeroWeight(Weights(peers), |peers|) && selected == Elect(Counts(peers), |peers|)
      ensures selected.Some? ==> peers[selected.value].wCount > 0
    {
      out, selected := [], None;
      var maxRemainder := 0;
      for i := 0 to |peers|
        invariant out == ZeroWeight(Weights(peers), i)
        invariant selected == Elect(Counts(peers), i) && maxRemainder == Best(Counts(peers), selected)
      {
        if peers[i].weight == 0 {
          out := out + [i];
        } else if peers[i].wCount > maxRemainder {
          maxRemainder := peers[i].wCount;
          selected := Some(i);
        }
      }
      ElectIsMax(Counts(peers), |peers|);
    }

    method Take(i: nat)
      requires Valid() && i < |peers| && peers[i].wCount > 0
      modifies peers
      ensures Valid() && Counts(peers) == old(Counts(peers))[i := old(peers[i].wCount) - 1]
              && old(Counts(peers))[i] == old(peers[i].wCount)
    {
      hide Sum, Weights;
      peers[i].wCount := peers[i].wCount - 1;
    }

    method RefillPeers()
      requires Valid()
      modifies peers
      ensures Valid() && Counts(peers) == Weights(peers)
    {
      hide Sum;
      for i := 0 to |peers|
        invariant forall k :: 0 <= k < i ==> peers[k].wCount == peers[k].weight
      {
        peers[i].wCount := peers[i].weight;
      }
    }
  }
}
