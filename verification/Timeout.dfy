/** What a run of the timeout loop does, by the ages of the commands that are in flight: who is queued
    again and in which order, and when the peer is given up. */
module Timeouts {
  import opened Numbers
  import opened Clock
  import opened Fragments
  import opened Pod

  /** The command has been in flight for as long as its timeout or longer. */
  predicate Late(c: Outgoing, now: uint32) {
    c.timeout <= TimeDifference(now, c.sentTime)
  }

  /** The commands that are still in time, in order. */
  function InTime(s: seq<Outgoing>, now: uint32): seq<Outgoing> {
    if s == [] then [] else (if Late(s[0], now) then [] else [s[0]]) + InTime(s[1..], now)
  }

  /** The commands that are late, in order. */
  function Overdue(s: seq<Outgoing>, now: uint32): seq<Outgoing> {
    if s == [] then [] else (if Late(s[0], now) then [s[0]] else []) + Overdue(s[1..], now)
  }

  /** The commands as they are queued again: the last one first, each with twice its timeout in 32 bits. */
  function Again(s: seq<Outgoing>): seq<Outgoing> {
    if s == [] then [] else Again(s[1..]) + [s[0].(timeout := 2 * s[0].timeout % 0x1_0000_0000)]
  }

  function Payload(s: seq<Outgoing>): nat {
    if s == [] then 0 else Length(s[0].body) + Payload(s[1..])
  }

  /** The time at which the oldest of these commands was sent, or `since` when that is older; 0 is none. */
  function Oldest(since: uint32, s: seq<Outgoing>): uint32
    decreases |s|
  {
    if s == [] then since
    else Oldest(if since == 0 || TimeLess(s[0].sentTime, since) then s[0].sentTime else since, s[1..])
  }

  /** Late commands have come, the oldest at `since`, and with `c` the peer has been silent for too long. */
  predicate TooLong(c: Outgoing, since: uint32, now: uint32, limits: Limits) {
    && since != 0
    && (|| TimeDifference(now, since) >= limits.maximum
        || (c.timeoutLimit <= c.timeout && TimeDifference(now, since) >= limits.minimum))
  }

  /** The command at `k` is the one at which the peer is given up. */
  ghost predicate Fatal(s: seq<Outgoing>, k: nat, since: uint32, now: uint32, limits: Limits) {
    k < |s| && Late(s[k], now) && TooLong(s[k], Oldest(since, Overdue(s[..k + 1], now)), now, limits)
  }

  /** The position of the first such command, or the end of the list. */
  ghost predicate EndsAt(s: seq<Outgoing>, k: nat, since: uint32, now: uint32, limits: Limits) {
    && k <= |s|
    && (k < |s| ==> Fatal(s, k, since, now, limits))
    && forall j: nat :: j < k ==> !Fatal(s, j, since, now, limits)
  }

  /** What the loop makes of the commands up to `k`. */
  ghost predicate Sorted(s: Expiring, r: Expiring, k: nat, now: uint32) {
    && s.next + k <= |s.pod.sent|
    && var rest := s.pod.sent[s.next..];
    && r.pod.sent == s.pod.sent[..s.next] + InTime(rest[..k], now) + rest[k..]
    && r.pod.outgoing == Again(Overdue(rest[..k], now)) + s.pod.outgoing
    && r.lost == s.lost + |Overdue(rest[..k], now)|
    && r.pod.inTransit == s.pod.inTransit - Payload(Overdue(rest[..k], now))
  }

  // --- one command more ---

  lemma TakeOneMore(s: seq<Outgoing>, k: nat, now: uint32)
    requires k < |s|
    ensures InTime(s[..k + 1], now) == (if Late(s[0], now) then [] else [s[0]]) + InTime(s[1..][..k], now)
    ensures Overdue(s[..k + 1], now) == (if Late(s[0], now) then [s[0]] else []) + Overdue(s[1..][..k], now)
  {
    assert s[..k + 1][1..] == s[1..][..k];
  }

  lemma FatalShifts(s: seq<Outgoing>, k: nat, since: uint32, now: uint32, limits: Limits)
    requires s != []
    ensures Fatal(s, k + 1, since, now, limits) <==>
            Fatal(s[1..], k, if Late(s[0], now) then Oldest(since, [s[0]]) else since, now, limits)
  {
    if k + 1 < |s| {
      TakeOneMore(s, k + 1, now);
      var rest := Overdue(s[1..][..k + 1], now);
      if Late(s[0], now) {
        assert ([s[0]] + rest)[1..] == rest && [s[0]][1..] == [];
      } else {
        assert [] + rest == rest;
      }
    }
  }

  lemma FirstIsFatal(s: seq<Outgoing>, since: uint32, now: uint32, limits: Limits)
    requires s != []
    ensures Fatal(s, 0, since, now, limits) <==>
            Late(s[0], now) && TooLong(s[0], Oldest(since, [s[0]]), now, limits)
  {
    assert s[..1] == [s[0]] && [s[0]][1..] == [];
    assert Overdue([s[0]], now) == if Late(s[0], now) then [s[0]] else [];
  }

  lemma EndShifts(s: seq<Outgoing>, k: nat, since: uint32, now: uint32, limits: Limits)
    requires s != [] && !Fatal(s, 0, since, now, limits)
    requires EndsAt(s[1..], k, if Late(s[0], now) then Oldest(since, [s[0]]) else since, now, limits)
    ensures EndsAt(s, k + 1, since, now, limits)
  {
    FatalShifts(s, k, since, now, limits);
    forall j: nat | j < k + 1
      ensures !Fatal(s, j, since, now, limits)
    {
      if j > 0 { FatalShifts(s, j - 1, since, now, limits); }
    }
  }

  // --- one turn of the loop ---

  lemma TurnKeeps(s: Expiring, now: uint32, limits: Limits)
    requires !s.disconnect && s.next < |s.pod.sent| && !Late(s.pod.sent[s.next], now)
    ensures ExpireOne(s, now, limits) == s.(next := s.next + 1)
  {
  }

  lemma TurnGivesUp(s: Expiring, now: uint32, limits: Limits)
    requires !s.disconnect && s.next < |s.pod.sent|
    requires Fatal(s.pod.sent[s.next..], 0, s.pod.earliestTimeout, now, limits)
    ensures var r := ExpireOne(s, now, limits);
            && r.disconnect && r.lost == s.lost
            && r.pod == s.pod.(earliestTimeout := Oldest(s.pod.earliestTimeout, [s.pod.sent[s.next]]))
  {
    FirstIsFatal(s.pod.sent[s.next..], s.pod.earliestTimeout, now, limits);
    assert [s.pod.sent[s.next]][1..] == [];
  }

  lemma TurnQueuesAgain(s: Expiring, now: uint32, limits: Limits)
    requires !s.disconnect && s.next < |s.pod.sent| && Late(s.pod.sent[s.next], now)
    requires !Fatal(s.pod.sent[s.next..], 0, s.pod.earliestTimeout, now, limits)
    ensures var c, r := s.pod.sent[s.next], ExpireOne(s, now, limits);
            && !r.disconnect && r.next == s.next && r.lost == s.lost + 1
            && r.pod.sent == Without(s.pod.sent, s.next)
            && r.pod.outgoing == Again([c]) + s.pod.outgoing
            && r.pod.inTransit == s.pod.inTransit - Length(c.body)
            && r.pod.earliestTimeout == Oldest(s.pod.earliestTimeout, [c])
  {
    FirstIsFatal(s.pod.sent[s.next..], s.pod.earliestTimeout, now, limits);
    var c := s.pod.sent[s.next];
    assert [c][1..] == [] && Again([c]) == [c.(timeout := 2 * c.timeout % 0x1_0000_0000)];
  }

  // --- the loop ---

  lemma NothingLeft(s: Expiring, now: uint32)
    requires s.next == |s.pod.sent|
    ensures Sorted(s, s, 0, now)
  {
    assert s.pod.sent[s.next..][..0] == [];
    assert s.pod.sent[..s.next] + [] + s.pod.sent[s.next..][0..] == s.pod.sent;
  }

  lemma SortedFrom(s: Expiring, t: Expiring, r: Expiring, k: nat, now: uint32)
    requires s.next < |s.pod.sent| && !Late(s.pod.sent[s.next], now)
    requires t == s.(next := s.next + 1) && Sorted(t, r, k, now)
    ensures Sorted(s, r, k + 1, now)
  {
    var c, rest := s.pod.sent[s.next], s.pod.sent[s.next..];
    assert rest[1..] == t.pod.sent[t.next..];
    TakeOneMore(rest, k, now);
    assert rest[k + 1..] == rest[1..][k..];
    assert [] + Overdue(rest[1..][..k], now) == Overdue(rest[1..][..k], now);
    assert s.pod.sent[..s.next + 1] == s.pod.sent[..s.next] + [c];
  }

  lemma SortedAgain(s: Expiring, t: Expiring, r: Expiring, k: nat, now: uint32)
    requires s.next < |s.pod.sent| && Late(s.pod.sent[s.next], now) && Sorted(t, r, k, now)
    requires var c := s.pod.sent[s.next];
             && t.next == s.next && t.lost == s.lost + 1 && t.pod.sent == Without(s.pod.sent, s.next)
             && t.pod.outgoing == Again([c]) + s.pod.outgoing && t.pod.inTransit == s.pod.inTransit - Length(c.body)
    ensures Sorted(s, r, k + 1, now)
  {
    var c, rest := s.pod.sent[s.next], s.pod.sent[s.next..];
    assert rest[1..] == t.pod.sent[t.next..];
    TakeOneMore(rest, k, now);
    assert rest[k + 1..] == rest[1..][k..];
    assert t.pod.sent[..t.next] == s.pod.sent[..s.next];
    var late := Overdue(rest[1..][..k], now);
    assert [c] + late != [] && ([c] + late)[1..] == late && [c][1..] == [];
    assert Again([c] + late) == Again(late) + Again([c]);
  }

  lemma OldestShifts(s: seq<Outgoing>, k: nat, since: uint32, now: uint32)
    requires s != [] && k < |s|
    ensures var later := if Late(s[0], now) then Oldest(since, [s[0]]) else since;
            Oldest(since, Overdue(if k + 1 < |s| then s[..k + 2] else s, now)) ==
            Oldest(later, Overdue(if k < |s[1..]| then s[1..][..k + 1] else s[1..], now))
  {
    var tail := if k < |s[1..]| then s[1..][..k + 1] else s[1..];
    assert (if k + 1 < |s| then s[..k + 2] else s)[1..] == tail;
    var late := Overdue(tail, now);
    if Late(s[0], now) {
      assert ([s[0]] + late)[1..] == late && [s[0]][1..] == [];
    } else {
      assert [] + late == late;
    }
  }

  /** What the loop does from `s` on: it ends with `r`, at the command `k` places on. */
  ghost predicate Ends(s: Expiring, r: Expiring, k: nat, now: uint32, limits: Limits) {
    && s.next <= |s.pod.sent|
    && var rest := s.pod.sent[s.next..];
    && EndsAt(rest, k, s.pod.earliestTimeout, now, limits)
    && Sorted(s, r, k, now)
    && (r.disconnect <==> k < |rest|)
    && r.pod.earliestTimeout ==
         Oldest(s.pod.earliestTimeout, Overdue(if k < |rest| then rest[..k + 1] else rest, now))
  }

  lemma EndsWithList(s: Expiring, now: uint32, limits: Limits)
    requires !s.disconnect && s.next == |s.pod.sent|
    ensures Ends(s, s, 0, now, limits)
  {
    NothingLeft(s, now);
  }

  lemma EndsHere(s: Expiring, now: uint32, limits: Limits)
    requires !s.disconnect && s.next < |s.pod.sent| && Fatal(s.pod.sent[s.next..], 0, s.pod.earliestTimeout, now, limits)
    ensures Ends(s, ExpireOne(s, now, limits), 0, now, limits)
  {
    var rest := s.pod.sent[s.next..];
    TurnGivesUp(s, now, limits);
    assert rest[..0] == [] && rest[..1] == [rest[0]] && [rest[0]][1..] == [];
    assert Overdue([rest[0]], now) == [rest[0]];
    assert s.pod.sent[..s.next] + [] + rest[0..] == s.pod.sent;
  }

  lemma EndsLater(s: Expiring, r: Expiring, k: nat, now: uint32, limits: Limits)
    requires !s.disconnect && s.next < |s.pod.sent| && !Fatal(s.pod.sent[s.next..], 0, s.pod.earliestTimeout, now, limits)
    requires Ends(ExpireOne(s, now, limits), r, k, now, limits)
    ensures Ends(s, r, k + 1, now, limits)
  {
    var t, rest := ExpireOne(s, now, limits), s.pod.sent[s.next..];
    if Late(rest[0], now) { TurnQueuesAgain(s, now, limits); } else { TurnKeeps(s, now, limits); }
    assert rest[1..] == t.pod.sent[t.next..];
    EndShifts(rest, k, s.pod.earliestTimeout, now, limits);
    if Late(rest[0], now) { SortedAgain(s, t, r, k, now); } else { SortedFrom(s, t, r, k, now); }
    OldestShifts(rest, k, s.pod.earliestTimeout, now);
  }

  /** The loop from any point on. */
  lemma {:induction false} LoopEnds(s: Expiring, now: uint32, limits: Limits) returns (k: nat)
    requires !s.disconnect && s.next <= |s.pod.sent|
    ensures Ends(s, ExpireRest(s, now, limits), k, now, limits)
    decreases |s.pod.sent| - s.next
  {
    if s.next == |s.pod.sent| {
      k := 0;
      EndsWithList(s, now, limits);
    } else if Fatal(s.pod.sent[s.next..], 0, s.pod.earliestTimeout, now, limits) {
      k := 0;
      EndsHere(s, now, limits);
      TurnGivesUp(s, now, limits);
    } else {
      var t := ExpireOne(s, now, limits);
      GoesOn(s, now, limits);
      k := LoopEnds(t, now, limits);
      EndsLater(s, ExpireRest(t, now, limits), k, now, limits);
      k := k + 1;
    }
  }

  lemma GoesOn(s: Expiring, now: uint32, limits: Limits)
    requires !s.disconnect && s.next < |s.pod.sent| && !Fatal(s.pod.sent[s.next..], 0, s.pod.earliestTimeout, now, limits)
    ensures !ExpireOne(s, now, limits).disconnect
  {
    if Late(s.pod.sent[s.next], now) { TurnQueuesAgain(s, now, limits); } else { TurnKeeps(s, now, limits); }
  }

  /** What the timeouts do: up to the command at which the peer is given up, or to the end of the list,
      the commands in time stay in order, and the late ones are queued again in front of what waits. */
  lemma TimeoutSorts(p: State, now: uint32, limits: Limits) returns (k: nat)
    ensures EndsAt(p.sent, k, p.earliestTimeout, now, limits)
    ensures var r := Timeout(p, now, limits);
            && (r.disconnect <==> k < |p.sent|)
            && r.pod.sent == InTime(p.sent[..k], now) + p.sent[k..]
            && r.pod.outgoing == Again(Overdue(p.sent[..k], now)) + p.outgoing
            && r.lost == |Overdue(p.sent[..k], now)|
            && r.pod.inTransit == p.inTransit - Payload(Overdue(p.sent[..k], now))
            && r.pod.earliestTimeout ==
                 Oldest(p.earliestTimeout, Overdue(if k < |p.sent| then p.sent[..k + 1] else p.sent, now))
  {
    assert p.sent[0..] == p.sent;
    k := LoopEnds(Expiring(p, 0, 0, false), now, limits);
    assert p.sent[..0] + InTime(p.sent[..k], now) == InTime(p.sent[..k], now);
  }

  /** The peer is given up exactly when some late command is fatal. When it is not, all late commands are
      queued again, and all others stay. */
  lemma TimeoutWithoutEnd(p: State, now: uint32, limits: Limits)
    ensures var r := Timeout(p, now, limits);
            && (r.disconnect <==> exists k: nat :: Fatal(p.sent, k, p.earliestTimeout, now, limits))
            && (!r.disconnect ==>
                  && r.pod.sent == InTime(p.sent, now)
                  && r.pod.outgoing == Again(Overdue(p.sent, now)) + p.outgoing
                  && r.lost == |Overdue(p.sent, now)|
                  && r.pod.inTransit == p.inTransit - Payload(Overdue(p.sent, now)))
  {
    var k := TimeoutSorts(p, now, limits);
    if k == |p.sent| {
      assert p.sent[..k] == p.sent && p.sent[k..] == [];
      assert InTime(p.sent, now) + [] == InTime(p.sent, now);
    }
  }

  // --- in true times ---

  /** `at` gives the true times at which the commands were sent, all within a day of `now`. */
  ghost predicate TrueTimes(s: seq<Outgoing>, at: seq<nat>, now: nat) {
    |at| == |s| && forall i :: 0 <= i < |s| ==> s[i].sentTime == Low32(at[i]) && at[i] <= now < at[i] + DAY
  }

  /** In true times a command is late when it has been in flight for its timeout. */
  lemma LateIsOld(s: seq<Outgoing>, at: seq<nat>, now: nat, i: nat)
    requires TrueTimes(s, at, now) && i < |s|
    ensures Late(s[i], Low32(now)) <==> now - at[i] >= s[i].timeout
  {
    ClockIsTrue(now, at[i]);
  }

  /** In true times, none of which reads as 0, the oldest is the least of all. */
  lemma {:induction false} OldestIsLeast(since: uint32, began: nat, s: seq<Outgoing>, at: seq<nat>, now: nat) returns (least: nat)
    requires TrueTimes(s, at, now) && since != 0 && since == Low32(began) && began <= now < began + DAY
    requires forall i :: 0 <= i < |s| ==> s[i].sentTime != 0
    ensures Oldest(since, s) == Low32(least) != 0 && least <= began && (least == began || least in at)
    ensures forall i :: 0 <= i < |at| ==> least <= at[i]
    ensures least <= now < least + DAY && TimeDifference(Low32(now), Oldest(since, s)) == now - least
    decreases |s|
  {
    if s == [] {
      least := began;
      ClockIsTrue(now, began);
    } else {
      ClockIsTrue(at[0], began);
      var earlier := if at[0] < began then at[0] else began;
      least := OldestIsLeast(Low32(earlier), earlier, s[1..], at[1..], now);
      forall i | 0 <= i < |at|
        ensures least <= at[i]
      {
        if i > 0 { assert at[1..][i - 1] == at[i]; }
      }
    }
  }

  /** The same when nothing has been late before. */
  lemma OldestOfLate(s: seq<Outgoing>, at: seq<nat>, now: nat) returns (least: nat)
    requires TrueTimes(s, at, now) && s != [] && forall i :: 0 <= i < |s| ==> s[i].sentTime != 0
    ensures Oldest(0, s) == Low32(least) != 0 && least in at && forall i :: 0 <= i < |at| ==> least <= at[i]
    ensures TimeDifference(Low32(now), Oldest(0, s)) == now - least
  {
    least := OldestIsLeast(s[0].sentTime, at[0], s[1..], at[1..], now);
    forall i | 0 <= i < |at|
      ensures least <= at[i]
    {
      if i > 0 { assert at[1..][i - 1] == at[i]; }
    }
  }

  // --- the timeout of a command over its life ---

  /** A command has a timeout exactly when it has been sent. */
  ghost predicate Timed(p: State) {
    && (forall i :: 0 <= i < |p.outgoing| ==> (p.outgoing[i].timeout == 0 <==> p.outgoing[i].attempts == 0))
    && (forall i :: 0 <= i < |p.sent| ==> p.sent[i].timeout != 0 && p.sent[i].attempts > 0)
  }

  lemma SetupKeepsTimed(p: State, channel: nat, body: Body)
    requires Timed(p)
    ensures Timed(Setup(p, channel, body))
  {
  }

  /** The first sending gives a command its timeout and the limit of that, later ones leave both. */
  lemma TransmitKeepsTimed(p: State, i: nat, env: Env)
    requires Timed(p) && WellFormed(p) && i < |p.outgoing| && env.firstTimeout != 0
    ensures Timed(Transmit(p, i, env))
    ensures var c, q := p.outgoing[i], Transmit(p, i, env);
            && q.sent[..|p.sent|] == p.sent && |q.sent| == |p.sent| + 1
            && q.sent[|p.sent|] == Outgoing(c.channel, c.serial, c.body, c.attempts + 1, env.time,
                                            if c.attempts == 0 then env.firstTimeout else c.timeout,
                                            if c.attempts == 0 then env.firstLimit else c.timeoutLimit)
  {
    var q := Transmit(p, i, env);
    forall k | 0 <= k < |q.outgoing|
      ensures q.outgoing[k].timeout == 0 <==> q.outgoing[k].attempts == 0
    {
      assert q.outgoing[k] == p.outgoing[if k < i then k else k + 1];
    }
  }

  lemma {:induction false} LoadKeepsTimed(s: Loading, env: Env)
    requires Timed(s.pod) && WellFormed(s.pod) && s.next <= |s.pod.outgoing| && env.firstTimeout != 0
    ensures Timed(LoadRest(s, env).pod)
    decreases if s.stopped then 0 else |s.pod.outgoing| - s.next
  {
    if !s.stopped && s.next < |s.pod.outgoing| {
      TransmitKeepsTimed(s.pod, s.next, env);
      var t := LoadOne(s, env);
      assert t.pod == s.pod || t.pod == Transmit(s.pod, s.next, env);
      if !t.stopped { LoadKeepsTimed(t, env); }
    }
  }

  /** Doubling keeps that, but for a timeout of 2^31 milliseconds, which becomes 0 in 32 bits: the command
      would be given a first timeout again. */
  lemma RequeueKeepsTimedIff(p: State, i: nat)
    requires Timed(p) && i < |p.sent|
    ensures Timed(Requeue(p, i)) <==> p.sent[i].timeout != 0x8000_0000
  {
    var q := Requeue(p, i);
    assert q.outgoing[0].timeout == 2 * p.sent[i].timeout % 0x1_0000_0000;
    forall k | 0 <= k < |q.sent|
      ensures q.sent[k].timeout != 0 && q.sent[k].attempts > 0
    {
      assert q.sent[k] == p.sent[if k < i then k else k + 1];
    }
  }
}
