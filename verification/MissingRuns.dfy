/** When a missing number is requested: at which looks, and at least how often in a run of passes. */
module MissingRuns {
  import opened MissingList
  import opened ReceiverQueue

  /** The entry after some looks, as long as it is in the list. */
  function After(r: Record, c: Config, looks: seq<Look>): Option<Record> {
    if looks == [] then Some(r)
    else
      var before := After(r, c, looks[..|looks| - 1]);
      if before.None? then None else NextOf(before.value, c, looks[|looks| - 1])
  }

  function NextOf(r: Record, c: Config, l: Look): Option<Record> {
    var f := FateOf(r, l.slot, c, l.peer, l.now);
    if f.Kept? then Some(f.record) else None
  }

  /** The request that one look makes. */
  function SentAt(r: Record, c: Config, l: Look): seq<Sent> {
    var f := FateOf(r, l.slot, c, l.peer, l.now);
    if f.Kept? && f.nacked then [Sent(l.now, ClampedRtt(c, l.peer), l.peer.recoveryTicks)] else []
  }

  lemma {:induction false} AfterMore(r: Record, c: Config, l: Look, rest: seq<Look>)
    ensures var next := NextOf(r, c, l);
      After(r, c, [l] + rest) == if next.None? then None else After(next.value, c, rest)
    decreases |rest|
  {
    hide NextOf;
    var looks := [l] + rest;
    if rest == [] {
      assert looks[..0] == [] && looks[0] == l;
    } else {
      assert looks[..|looks| - 1] == [l] + rest[..|rest| - 1];
      AfterMore(r, c, l, rest[..|rest| - 1]);
    }
  }

  /** The requests of one look come after those of the looks before it. */
  lemma {:induction false} RequestsMore(r: Record, c: Config, looks: seq<Look>, l: Look)
    ensures var before := After(r, c, looks);
      Requests(r, c, looks + [l]) == Requests(r, c, looks) + if before.None? then [] else SentAt(before.value, c, l)
    decreases |looks|
  {
    hide FateOf, ClampedRtt;
    if looks == [] {
      assert [] + [l] == [l] && [l][1..] == [];
      assert Requests(r, c, [l]) == SentAt(r, c, l);
    } else {
      var first, rest := looks[0], looks[1..];
      assert looks == [first] + rest && looks + [l] == [first] + (rest + [l]);
      AfterMore(r, c, first, rest);
      RequestsFrom(r, c, first, rest);
      RequestsFrom(r, c, first, rest + [l]);
      var f := FateOf(r, first.slot, c, first.peer, first.now);
      if f.Kept? {
        RequestsMore(f.record, c, rest, l);
      }
    }
  }

  /** What an entry that is in the list remembers of its requests. */
  ghost predicate Remembers(r: Record, s: seq<Sent>, cur: Record) {
    && cur.seqNr == r.seqNr && cur.insertionTime == r.insertionTime && cur.nackCount == r.nackCount + |s|
    && cur.nextNack == if s == [] then r.nextNack else s[|s| - 1].time + 11 * 4294967 * s[|s| - 1].rtt / 10
  }

  lemma {:induction false} AfterRemembers(r: Record, c: Config, looks: seq<Look>)
    requires Monotone(looks, r.insertionTime) && After(r, c, looks).Some?
    ensures Remembers(r, Requests(r, c, looks), After(r, c, looks).value)
    decreases |looks|
  {
    hide FateOf, ClampedRtt, RetryDelay, Requests;
    if looks == [] {
      NoRequests(r, c);
    } else {
      var fewer, l := looks[..|looks| - 1], looks[|looks| - 1];
      assert looks == fewer + [l];
      AfterRemembers(r, c, fewer);
      RequestsMore(r, c, fewer, l);
      var cur := After(r, c, fewer).value;
      KeptFate(cur, l.slot, c, l.peer, l.now);
      SameNumber(cur, c, l);
      RetryDelayIs(ClampedRtt(c, l.peer));
    }
  }

  lemma NoRequests(r: Record, c: Config)
    ensures Requests(r, c, []) == []
  {
  }

  lemma SameNumber(r: Record, c: Config, l: Look)
    ensures var next := NextOf(r, c, l); next.Some? ==> next.value.seqNr == r.seqNr
  {
  }

  // ----- the looks at which a request is made

  /** Requests are enabled, the slot is empty, and the entry is within the age limit of 1.1 times the buffer. */
  predicate Keeps(l: Look, c: Config, insertionTime: nat) {
    && !c.nacksDisabled && l.slot.None?
    && insertionTime <= l.now && 10 * (l.now - insertionTime) <= 11 * l.peer.recoveryTicks
    && (l.peer.bloat ==> c.congestion == Off)
  }

  /** And the link has not collapsed. */
  predicate Usable(l: Look, c: Config, insertionTime: nat) { Keeps(l, c, insertionTime) && !l.peer.bloat }

  /** The time has come: the reorder wait is over, or 1.1 round trips have passed since the last request. */
  ghost predicate Ready(r: Record, s: seq<Sent>, now: nat) {
    if s == [] then now >= r.nextNack else now >= s[|s| - 1].time + 11 * 4294967 * s[|s| - 1].rtt / 10
  }

  /** An entry looked at with an empty slot, requests enabled, no collapsed link, retries left and within the age
      limit is requested at that look if and only if the time has come. */
  lemma AskedIff(r: Record, c: Config, looks: seq<Look>, l: Look)
    requires Monotone(looks + [l], r.insertionTime) && After(r, c, looks).Some? && Usable(l, c, r.insertionTime)
    requires r.nackCount + |Requests(r, c, looks)| < c.maxRetries
    ensures var s := Requests(r, c, looks);
      && After(r, c, looks + [l]).Some?
      && Requests(r, c, looks + [l])
         == if Ready(r, s, l.now) then s + [Sent(l.now, ClampedRtt(c, l.peer), l.peer.recoveryTicks)] else s
  {
    assert (looks + [l])[..|looks|] == looks && (looks + [l])[|looks|] == l;
    EarlierLooks(looks, [l], r.insertionTime);
    AfterRemembers(r, c, looks);
    RequestsMore(r, c, looks, l);
    UsableFate(After(r, c, looks).value, c, l);
    hide FateOf, ClampedRtt, RetryDelay, Requests, Usable;
  }

  lemma UsableFate(r: Record, c: Config, l: Look)
    requires Usable(l, c, r.insertionTime) && l.now < UINT64 && r.nackCount < c.maxRetries
    ensures var f := FateOf(r, l.slot, c, l.peer, l.now); f.Kept? && (f.nacked <==> l.now >= r.nextNack)
  {
    hide ClampedRtt, RetryDelay;
  }

  lemma EarlierLooks(looks: seq<Look>, more: seq<Look>, from: nat)
    requires Monotone(looks + more, from)
    ensures Monotone(looks, from)
  {
    var all := looks + more;
    forall i | 0 <= i < |looks| ensures from <= looks[i].now < UINT64 && (i > 0 ==> looks[i - 1].now <= looks[i].now) {
      assert all[i] == looks[i] && (i > 0 ==> all[i - 1] == looks[i - 1]);
    }
  }

  /** A look that keeps the entry removes it only when its retries are used up. */
  lemma KeptUnlessUsed(r: Record, c: Config, l: Look)
    requires Keeps(l, c, r.insertionTime) && l.now < UINT64 && r.nackCount < c.maxRetries
    ensures NextOf(r, c, l).Some?
  {
  }

  // ----- how many requests are made

  function Least(a: nat, b: nat): nat { if a < b then a else b }

  /** The looks at the places `at` suit requests: the first comes after the reorder wait, and each other one at least
      `d` after the one before it. No look up to the last of them removes the entry, and `d` is at least 1.1 round
      trips. */
  ghost predicate Suited(r: Record, c: Config, looks: seq<Look>, at: seq<nat>, d: nat) {
    && (forall t :: 0 <= t < |at| ==> at[t] < |looks| && Usable(looks[at[t]], c, r.insertionTime))
    && (forall t, i :: 0 <= t < |at| && 0 <= i <= at[t] < |looks| ==>
          Keeps(looks[i], c, r.insertionTime) && 11 * 4294967 * ClampedRtt(c, looks[i].peer) / 10 <= d)
    && (at != [] ==> at[0] < |looks| && looks[at[0]].now >= r.nextNack)
    && (forall t :: 1 <= t < |at| ==>
          at[t - 1] < at[t] < |looks| && looks[at[t]].now >= looks[at[t - 1]].now + d)
  }

  /** Requests made by the time `t`, each with a wait of at most `d`. */
  ghost predicate Made(s: seq<Sent>, t: nat, d: nat) {
    forall i :: 0 <= i < |s| ==> s[i].time <= t && 11 * 4294967 * s[i].rtt / 10 <= d
  }

  lemma {:induction false} RequestsMade(r: Record, c: Config, looks: seq<Look>, t: nat, d: nat)
    requires forall i :: 0 <= i < |looks| ==> looks[i].now <= t && 11 * 4294967 * ClampedRtt(c, looks[i].peer) / 10 <= d
    ensures Made(Requests(r, c, looks), t, d)
    decreases |looks|
  {
    hide FateOf, ClampedRtt, Requests;
    if looks == [] {
      NoRequests(r, c);
    } else {
      var fewer, l := looks[..|looks| - 1], looks[|looks| - 1];
      assert looks == fewer + [l];
      RequestsMade(r, c, fewer, t, d);
      RequestsMore(r, c, fewer, l);
    }
  }

  /** An entry that no look removed for another reason is gone only when its retries are used up. */
  lemma {:induction false} GoneIsUsed(r: Record, c: Config, looks: seq<Look>)
    requires Monotone(looks, r.insertionTime) && r.nackCount <= c.maxRetries
    requires forall i :: 0 <= i < |looks| ==> Keeps(looks[i], c, r.insertionTime)
    requires After(r, c, looks).None?
    ensures r.nackCount + |Requests(r, c, looks)| >= c.maxRetries
    decreases |looks|
  {
    hide FateOf, ClampedRtt, Requests, Keeps;
    var fewer, l := looks[..|looks| - 1], looks[|looks| - 1];
    assert looks == fewer + [l];
    EarlierLooks(fewer, [l], r.insertionTime);
    RequestsMore(r, c, fewer, l);
    if After(r, c, fewer).None? {
      GoneIsUsed(r, c, fewer);
    } else {
      AfterRemembers(r, c, fewer);
      var cur := After(r, c, fewer).value;
      if cur.nackCount < c.maxRetries {
        KeptUnlessUsed(cur, c, l);
      }
    }
  }

  lemma {:induction false} RequestsLonger(r: Record, c: Config, looks: seq<Look>, i: nat, n: nat)
    requires i <= n <= |looks|
    ensures Requests(r, c, looks[..i]) <= Requests(r, c, looks[..n])
    decreases n
  {
    hide FateOf, ClampedRtt, Requests, SentAt, After;
    if i < n {
      assert looks[..n] == looks[..n - 1] + [looks[n - 1]];
      RequestsMore(r, c, looks[..n - 1], looks[n - 1]);
      RequestsLonger(r, c, looks, i, n - 1);
    }
  }

  lemma {:induction false} InOrder(looks: seq<Look>, from: nat, i: nat, k: nat)
    requires Monotone(looks, from) && i <= k < |looks|
    ensures looks[i].now <= looks[k].now
  {
    if i < k {
      InOrder(looks, from, i, k - 1);
    }
  }

  /** Up to the chosen look, each request has been made by its time. */
  lemma MadeBefore(r: Record, c: Config, looks: seq<Look>, at: seq<nat>, d: nat, t: nat)
    requires Monotone(looks, r.insertionTime) && Suited(r, c, looks, at, d) && t < |at|
    ensures Made(Requests(r, c, looks[..at[t] + 1]), looks[at[t]].now, d)
  {
    forall i | 0 <= i <= at[t]
      ensures looks[i].now <= looks[at[t]].now && 11 * 4294967 * ClampedRtt(c, looks[i].peer) / 10 <= d {
      InOrder(looks, r.insertionTime, i, at[t]);
    }
    hide ClampedRtt, Requests;
    RequestsMade(r, c, looks[..at[t] + 1], looks[at[t]].now, d);
  }

  /** A suitable look makes a request, unless one has been made since the requests `before` or none are left. */
  lemma OneMore(r: Record, c: Config, looks: seq<Look>, l: Look, before: seq<Sent>, t: nat, d: nat)
    requires Monotone(looks + [l], r.insertionTime) && r.nackCount <= c.maxRetries
    requires forall i :: 0 <= i < |looks| ==> Keeps(looks[i], c, r.insertionTime)
    requires Usable(l, c, r.insertionTime) && before <= Requests(r, c, looks)
    requires if before == [] then l.now >= r.nextNack else Made(before, t, d) && l.now >= t + d
    ensures |Requests(r, c, looks + [l])| >= Least(|before| + 1, c.maxRetries - r.nackCount)
  {
    hide ClampedRtt, Requests, After, Keeps, Usable;
    var s := Requests(r, c, looks);
    RequestsMore(r, c, looks, l);
    EarlierLooks(looks, [l], r.insertionTime);
    if r.nackCount + |s| < c.maxRetries && s == before {
      if After(r, c, looks).None? {
        GoneIsUsed(r, c, looks);
      }
      assert s != [] ==> s[|s| - 1].time <= t && 11 * 4294967 * s[|s| - 1].rtt / 10 <= d;
      AskedIff(r, c, looks, l);
    }
  }

  /** One more suitable look means one more request, until the retries are used up. */
  lemma {:induction false} RequestsAtLeast(r: Record, c: Config, looks: seq<Look>, at: seq<nat>, d: nat, t: nat)
    requires Monotone(looks, r.insertionTime) && Suited(r, c, looks, at, d) && r.nackCount < c.maxRetries && t < |at|
    ensures |Requests(r, c, looks[..at[t] + 1])| >= Least(t + 1, c.maxRetries - r.nackCount)
  {
    SuitedAt(r, c, looks, at, d, t);
    CutAt(looks, r.insertionTime, at[t]);
    hide *;
    var m, before := at[t], [];
    var since := 0;
    if t > 0 {
      RequestsAtLeast(r, c, looks, at, d, t - 1);
      RequestsLonger(r, c, looks, at[t - 1] + 1, m);
      MadeBefore(r, c, looks, at, d, t - 1);
      before, since := Requests(r, c, looks[..at[t - 1] + 1]), looks[at[t - 1]].now;
    }
    OneMore(r, c, looks[..m], looks[m], before, since, d);
    LeastMore(|before|, t, c.maxRetries - r.nackCount);
  }

  lemma LeastMore(n: nat, t: nat, most: nat)
    requires n >= Least(t, most)
    ensures Least(n + 1, most) >= Least(t + 1, most)
  {
  }

  lemma CutAt(looks: seq<Look>, from: nat, m: nat)
    requires Monotone(looks, from) && m < |looks|
    ensures looks[..m + 1] == looks[..m] + [looks[m]] && Monotone(looks[..m] + [looks[m]], from)
  {
    assert looks[..m + 1] + looks[m + 1..] == looks;
    EarlierLooks(looks[..m + 1], looks[m + 1..], from);
  }

  lemma SuitedAt(r: Record, c: Config, looks: seq<Look>, at: seq<nat>, d: nat, t: nat)
    requires Suited(r, c, looks, at, d) && t < |at|
    ensures at[t] < |looks| && Usable(looks[at[t]], c, r.insertionTime)
    ensures forall i :: 0 <= i < at[t] ==> Keeps(looks[i], c, r.insertionTime)
    ensures if t == 0 then looks[at[t]].now >= r.nextNack
            else at[t - 1] < at[t] && looks[at[t]].now >= looks[at[t - 1]].now + d
  {
    hide ClampedRtt, Keeps, Usable;
  }

  /** With enough suitable looks an entry is requested exactly as often as it may be. */
  lemma EnoughLooks(r: Record, c: Config, looks: seq<Look>, at: seq<nat>, d: nat)
    requires Monotone(looks, r.insertionTime) && Suited(r, c, looks, at, d) && r.nackCount <= c.maxRetries
    ensures var n := r.nackCount + |Requests(r, c, looks)|;
      n <= c.maxRetries && n >= Least(r.nackCount + |at|, c.maxRetries)
      && (r.nackCount + |at| >= c.maxRetries ==> n == c.maxRetries)
  {
    hide ClampedRtt, Requests, Suited;
    Budget(r, c, looks);
    if at != [] && r.nackCount < c.maxRetries {
      LastPlace(r, c, looks, at, d);
      RequestsAtLeast(r, c, looks, at, d, |at| - 1);
      RequestsLonger(r, c, looks, at[|at| - 1] + 1, |looks|);
      assert looks[..|looks|] == looks;
    }
  }

  lemma LastPlace(r: Record, c: Config, looks: seq<Look>, at: seq<nat>, d: nat)
    requires Suited(r, c, looks, at, d) && at != []
    ensures at[|at| - 1] < |looks|
  {
  }

  // ----- runs of passes

  /** There is a look for every pass until one removes the entry, and it finds the ring and the peer of its pass. */
  lemma {:induction false} LooksAre(rs: seq<Record>, j: nat, passes: seq<Pass>, c: Config, k: nat)
    requires j < |rs| && Rings(passes) && SameConfig(passes, rs[j].peer, c)
    ensures var looks := LooksOf(rs, j, passes);
      && |looks| <= |passes| && (|looks| < |passes| ==> After(rs[j], c, looks).None?)
      && (k < |looks| ==>
            && looks[k].slot == SlotNr(passes[k].env.ring, rs[j].seqNr)
              && looks[k].peer == passes[k].env.peers(rs[j].peer)
            && exists p: nat :: looks[k].now == passes[k].env.clock(p))
    decreases |passes|
  {
    hide FateOf, FateAt, Survivors, SlotNr;
    if passes != [] {
      var env, all, r := passes[0].env, rs + passes[0].added, rs[j];
      var look := Look(env.clock(j), SlotNr(env.ring, r.seqNr), env.peers(r.peer));
      EntryInPass(env, all, j);
      FateAtIs(env, r, j);
      var rest: seq<Look> := [];
      SamePeer(r, look.slot, c, look.peer, look.now);
      SameNumber(r, c, look);
      if FateAt(env, r, j).Kept? {
        rest := LooksOf(Survivors(env, all), |Survivors(env, all[..j])|, passes[1..]);
        LooksAre(Survivors(env, all), |Survivors(env, all[..j])|, passes[1..], c, if k == 0 then 0 else k - 1);
      }
      AfterMore(r, c, look, rest);
    }
  }

  /** The pass finds the slot empty, requests enabled, and the entry within the age limit. */
  ghost predicate PassKeeps(pass: Pass, r: Record, c: Config)
    requires |pass.env.ring| == QUEUE_MAX
  {
    var p := pass.env.peers(r.peer);
    && !c.nacksDisabled && pass.env.ring[r.seqNr].None? && (p.bloat ==> c.congestion == Off)
    && forall k: nat :: r.insertionTime <= pass.env.clock(k)
                        && 10 * (pass.env.clock(k) - r.insertionTime) <= 11 * p.recoveryTicks
  }

  ghost predicate Apart(earlier: Env, later: Env, d: nat) {
    forall k: nat, k': nat :: later.clock(k) >= earlier.clock(k') + d
  }

  /** The same as `Suited`, for the passes at the places `at`: the link has not collapsed, the first comes after the
      reorder wait, each other one at least `d` after the one before it, and `d` is at least 1.1 of the round trips
      measured. */
  ghost predicate SuitedPasses(r: Record, c: Config, passes: seq<Pass>, at: seq<nat>, d: nat)
    requires Rings(passes)
  {
    && (forall t :: 0 <= t < |at| ==> at[t] < |passes| && !passes[at[t]].env.peers(r.peer).bloat)
    && (forall t, i :: 0 <= t < |at| && 0 <= i <= at[t] < |passes| ==>
          PassKeeps(passes[i], r, c) && 11 * 4294967 * ClampedRtt(c, passes[i].env.peers(r.peer)) / 10 <= d)
    && (at != [] ==> at[0] < |passes| && forall k: nat :: passes[at[0]].env.clock(k) >= r.nextNack)
    && (forall t :: 1 <= t < |at| ==>
          at[t - 1] < at[t] < |passes| && Apart(passes[at[t - 1]].env, passes[at[t]].env, d))
  }

  lemma LookKeeps(pass: Pass, r: Record, c: Config, l: Look, p: nat)
    requires |pass.env.ring| == QUEUE_MAX && PassKeeps(pass, r, c)
    requires l == Look(pass.env.clock(p), SlotNr(pass.env.ring, r.seqNr), pass.env.peers(r.peer))
    ensures Keeps(l, c, r.insertionTime) && (!pass.env.peers(r.peer).bloat ==> Usable(l, c, r.insertionTime))
  {
  }

  lemma LookIs(rs: seq<Record>, j: nat, passes: seq<Pass>, c: Config, k: nat)
    requires j < |rs| && Rings(passes) && SameConfig(passes, rs[j].peer, c) && k < |LooksOf(rs, j, passes)|
    ensures var looks := LooksOf(rs, j, passes);
      && k < |passes| && looks[k].slot == SlotNr(passes[k].env.ring, rs[j].seqNr)
      && looks[k].peer == passes[k].env.peers(rs[j].peer) && exists p: nat :: looks[k].now == passes[k].env.clock(p)
  {
    LooksAre(rs, j, passes, c, k);
  }

  lemma {:induction false} Ascending(at: seq<nat>, n: nat, t: nat)
    requires t < |at| && forall i :: 1 <= i < |at| ==> at[i - 1] < at[i] < n
    ensures at[t] <= at[|at| - 1]
    decreases |at| - t
  {
    if t < |at| - 1 {
      Ascending(at, n, t + 1);
    }
  }

  lemma KeptLook(rs: seq<Record>, j: nat, passes: seq<Pass>, c: Config, k: nat)
    requires j < |rs| && Rings(passes) && SameConfig(passes, rs[j].peer, c) && k < |LooksOf(rs, j, passes)|
    requires k < |passes| ==> PassKeeps(passes[k], rs[j], c)
    ensures var look := LooksOf(rs, j, passes)[k];
      && k < |passes| && look.peer == passes[k].env.peers(rs[j].peer) && Keeps(look, c, rs[j].insertionTime)
      && (!look.peer.bloat ==> Usable(look, c, rs[j].insertionTime))
  {
    LookIs(rs, j, passes, c, k);
    var looks := LooksOf(rs, j, passes);
    var p: nat :| looks[k].now == passes[k].env.clock(p);
    LookKeeps(passes[k], rs[j], c, looks[k], p);
    hide LooksOf, PassKeeps, Keeps, SlotNr;
  }

  lemma ApartLooks(rs: seq<Record>, j: nat, passes: seq<Pass>, c: Config, i: nat, k: nat, d: nat)
    requires j < |rs| && Rings(passes) && SameConfig(passes, rs[j].peer, c)
    requires i < |LooksOf(rs, j, passes)| && k < |LooksOf(rs, j, passes)|
    requires i < |passes| && k < |passes| && Apart(passes[i].env, passes[k].env, d)
    ensures LooksOf(rs, j, passes)[k].now >= LooksOf(rs, j, passes)[i].now + d
  {
    LookIs(rs, j, passes, c, i);
    LookIs(rs, j, passes, c, k);
    hide LooksOf, SlotNr;
  }

  /** What `SuitedPasses` says, place by place. */
  lemma SuitedParts(r: Record, c: Config, passes: seq<Pass>, at: seq<nat>, d: nat, t: nat, i: nat)
    requires Rings(passes) && SuitedPasses(r, c, passes, at, d) && t < |at| && i <= at[t]
    ensures i <= at[t] <= at[|at| - 1] < |passes| && !passes[at[t]].env.peers(r.peer).bloat
    ensures PassKeeps(passes[i], r, c) && 11 * 4294967 * ClampedRtt(c, passes[i].env.peers(r.peer)) / 10 <= d
    ensures t > 0 ==> at[t - 1] < at[t] && Apart(passes[at[t - 1]].env, passes[at[t]].env, d)
    ensures forall k: nat :: passes[at[0]].env.clock(k) >= r.nextNack
  {
    hide ClampedRtt, PassKeeps, Apart;
    Ascending(at, |passes|, t);
  }

  lemma LooksSuited(rs: seq<Record>, j: nat, passes: seq<Pass>, c: Config, at: seq<nat>, d: nat)
    requires j < |rs| && Rings(passes) && SameConfig(passes, rs[j].peer, c) && SuitedPasses(rs[j], c, passes, at, d)
    requires at != [] && at[|at| - 1] < |LooksOf(rs, j, passes)|
    ensures Suited(rs[j], c, LooksOf(rs, j, passes), at, d)
  {
    var r, looks := rs[j], LooksOf(rs, j, passes);
    hide LooksOf, ClampedRtt, PassKeeps, SuitedPasses, SameConfig, Apart, Keeps, Usable, SlotNr;
    forall t, i | 0 <= t < |at| && 0 <= i <= at[t]
      ensures at[t] < |looks| && Keeps(looks[i], c, r.insertionTime)
      ensures 11 * 4294967 * ClampedRtt(c, looks[i].peer) / 10 <= d {
      SuitedParts(r, c, passes, at, d, t, i);
      KeptLook(rs, j, passes, c, i);
    }
    forall t | 0 <= t < |at| ensures at[t] < |looks| && Usable(looks[at[t]], c, r.insertionTime) {
      SuitedParts(r, c, passes, at, d, t, at[t]);
      KeptLook(rs, j, passes, c, at[t]);
    }
    forall t | 1 <= t < |at|
      ensures at[t - 1] < at[t] < |looks| && looks[at[t]].now >= looks[at[t - 1]].now + d {
      SuitedParts(r, c, passes, at, d, t, at[t]);
      ApartLooks(rs, j, passes, c, at[t - 1], at[t], d);
    }
    SuitedParts(r, c, passes, at, d, 0, at[0]);
    LookIs(rs, j, passes, c, at[0]);
  }

  /** From the moment a number is queued, through any run of passes: with `m` passes that suit, it is requested at
      least `m` times or as often as it may be; with at least `maxRetries` of them, exactly `maxRetries` times. */
  lemma {:induction false} RequestedOverPasses(rs: seq<Record>, j: nat, passes: seq<Pass>, c: Config, nackTime: nat,
                                               rtt: nat, now: nat, recoveryTicks: nat, at: seq<nat>, d: nat)
    requires j < |rs| && rs[j] == NewRecord(nackTime, rs[j].seqNr, rtt, rs[j].peer, now, recoveryTicks)
    requires Rings(passes) && Clocked(passes, now) && SameConfig(passes, rs[j].peer, c)
    requires SuitedPasses(rs[j], c, passes, at, d)
    ensures rs[j].nextNack == now + 4294967 * rtt
    ensures var n := |EntryRequests(rs, j, passes)|;
      Least(|at|, c.maxRetries) <= n <= c.maxRetries && (|at| >= c.maxRetries ==> n == c.maxRetries)
  {
    var r, looks := rs[j], LooksOf(rs, j, passes);
    assert r.nackCount == 0 && r.insertionTime <= now;
    EntryLooks(rs, j, passes, c, now);
    hide Suited, Requests, EntryRequests, LooksOf, SameConfig, Clocked;
    Budget(r, c, looks);
    if at != [] {
      LooksAre(rs, j, passes, c, 0);
      if at[|at| - 1] < |looks| {
        LooksSuited(rs, j, passes, c, at, d);
        EnoughLooks(r, c, looks, at, d);
      } else {
        forall i | 0 <= i < |looks| ensures Keeps(looks[i], c, r.insertionTime) {
          LookIs(rs, j, passes, c, i);
          var p: nat :| looks[i].now == passes[i].env.clock(p);
          LookKeeps(passes[i], r, c, looks[i], p);
        }
        GoneIsUsed(r, c, looks);
      }
    }
  }
}
