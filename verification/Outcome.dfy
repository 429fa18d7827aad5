/** What the application gets to see: after every handler, which event of the peer polling reports first,
    or that it reports none; and that in every run segments come only from peers that have come. */
module Outcomes {
  import opened PeerStates
  import opened Lifecycle

  // --- what polling brings ---

  /** Within `n` polls an event of the peer is reported, and the first one is `e`. */
  ghost predicate FirstIs(h: Host, i: nat, n: nat, e: Event)
    decreases n
  {
    && n > 0 && Good(h)
    && if About(NextEvent(h).1, i) then NextEvent(h).1 == e else FirstIs(NextEvent(h).0, i, n - 1, e)
  }

  /** Polling reports this event of the peer before any other of it. */
  ghost predicate Brings(h: Host, i: nat, e: Event) {
    exists n :: FirstIs(h, i, n, e)
  }

  /** `n` polls report no event of the peer. */
  ghost predicate QuietFor(h: Host, i: nat, n: nat)
    decreases n
  {
    n > 0 ==> Good(h) && !About(NextEvent(h).1, i) && QuietFor(NextEvent(h).0, i, n - 1)
  }

  /** However often the host is polled, no event of the peer is reported. */
  ghost predicate BringsNothing(h: Host, i: nat) {
    forall n :: QuietFor(h, i, n)
  }

  lemma {:induction false} OnlyOneIsFirst(h: Host, i: nat, n: nat, m: nat, e: Event, f: Event)
    requires FirstIs(h, i, n, e) && FirstIs(h, i, m, f)
    ensures e == f && About(e, i)
    decreases n
  {
    if !About(NextEvent(h).1, i) { OnlyOneIsFirst(NextEvent(h).0, i, n - 1, m - 1, e, f); }
  }

  lemma {:induction false} QuietHasNone(h: Host, i: nat, n: nat, e: Event)
    requires FirstIs(h, i, n, e)
    ensures !QuietFor(h, i, n)
    decreases n
  {
    if !About(NextEvent(h).1, i) { QuietHasNone(NextEvent(h).0, i, n - 1, e); }
  }

  /** What polling brings is one event or none. */
  lemma BringsOne(h: Host, i: nat, e: Event)
    requires Brings(h, i, e)
    ensures !BringsNothing(h, i) && forall f :: Brings(h, i, f) ==> f == e
  {
    var n :| FirstIs(h, i, n, e);
    QuietHasNone(h, i, n, e);
    forall f | Brings(h, i, f)
      ensures f == e
    {
      var m :| FirstIs(h, i, m, f);
      OnlyOneIsFirst(h, i, n, m, e, f);
    }
  }

  lemma {:induction false} DueComes(h: Host, i: nat, p: nat) returns (n: nat)
    requires Good(h) && i < |h.guests| && Owes(h.guests[i])
    requires p < |h.queue| && h.queue[p] == i && forall k :: 0 <= k < p ==> h.queue[k] != i
    ensures FirstIs(h, i, n, Due(h.guests[i], i)) && n <= p + 1
    decreases p
  {
    var q := PollBringsNearer(h, i, p);
    PollSettles(h);
    var r := NextEvent(h);
    if r.1 == Due(h.guests[i], i) {
      n := 1;
    } else {
      var m := DueComes(r.0, i, q);
      n := m + 1;
    }
  }

  lemma {:induction false} IdleStays(h: Host, i: nat)
    requires Good(h) && i < |h.guests| && !Owes(h.guests[i])
    ensures var r := NextEvent(h);
            && !About(r.1, i) && |r.0.guests| == |h.guests|
            && r.0.guests[i] == h.guests[i].(needsDispatch := r.0.guests[i].needsDispatch)
    decreases |h.queue|
  {
    if h.queue != [] {
      if Owes(h.guests[h.queue[0]]) {
        EventLeavesOthers(h, i);
      } else {
        TakenKeepsGood(h);
        SkipIsTaken(h);
        IdleStays(Taken(h), i);
      }
    }
  }

  lemma {:induction false} IdleIsQuiet(h: Host, i: nat, n: nat)
    requires Good(h) && i < |h.guests| && !Owes(h.guests[i])
    ensures QuietFor(h, i, n)
    decreases n
  {
    if n > 0 {
      IdleStays(h, i);
      PollSettles(h);
      IdleIsQuiet(NextEvent(h).0, i, n - 1);
    }
  }

  /** In a good host polling brings what the peer owes, and nothing when it owes nothing. */
  lemma WhatIsOwedComes(h: Host, i: nat)
    requires Good(h) && i < |h.guests|
    ensures if Owes(h.guests[i]) then Brings(h, i, Due(h.guests[i], i)) else BringsNothing(h, i)
    ensures forall e :: Brings(h, i, e) <==> Owes(h.guests[i]) && e == Due(h.guests[i], i)
  {
    if Owes(h.guests[i]) {
      assert Queued(h, i);
      var p := FirstPlace(h.queue, i);
      var n := DueComes(h, i, p);
      BringsOne(h, i, Due(h.guests[i], i));
    } else {
      forall n
        ensures QuietFor(h, i, n)
      {
        IdleIsQuiet(h, i, n);
      }
      forall e
        ensures !Brings(h, i, e)
      {
        if Brings(h, i, e) { BringsOne(h, i, e); }
      }
    }
  }

  ghost predicate QueuesAtEnd(h: Host, r: Host, i: nat) {
    r.queue == h.queue || r.queue == h.queue + [i]
  }

  lemma DispatchQueuesAtEnd(h: Host, i: nat, s: PeerState, withEvent: bool)
    requires i < |h.guests|
    ensures QueuesAtEnd(h, DispatchState(h, i, s), i) && QueuesAtEnd(h, NotifyConnect(h, i, withEvent), i)
    ensures QueuesAtEnd(h, Disconnect(h, i), i) && QueuesAtEnd(h, NotifyDisconnect(h, i, withEvent), i)
  {
  }

  lemma HandleDisconnectQueuesAtEnd(h: Host, i: nat, acknowledge: bool)
    requires i < |h.guests|
    ensures QueuesAtEnd(h, HandleDisconnect(h, i, acknowledge), i)
  {
    DispatchQueuesAtEnd(ResetQueues(h, i), i, Zombie, false);
  }

  lemma HandleVerifyQueuesAtEnd(h: Host, i: nat, accepted: bool, limited: bool, withEvent: bool)
    requires i < |h.guests|
    ensures QueuesAtEnd(h, HandleVerifyConnect(h, i, accepted, limited, withEvent), i)
  {
    DispatchQueuesAtEnd(Set(h, i, h.guests[i].(limited := limited)), i, Zombie, withEvent);
    DispatchQueuesAtEnd(h, i, Zombie, withEvent);
  }

  lemma HandleAcknowledgeQueuesAtEnd(h: Host, i: nat, removed: Removed, drained: bool, withEvent: bool)
    requires i < |h.guests|
    ensures QueuesAtEnd(h, HandleAcknowledge(h, i, removed, drained, withEvent), i)
  {
    DispatchQueuesAtEnd(h, i, Zombie, withEvent);
  }

  /** Peers are served in the order in which they were queued: a handler puts its peer at the end, if
      anywhere, and a peer at place `p` has its event after at most `p + 1` polls. */
  lemma HandlersQueueAtTheEnd(h: Host, step: Step)
    requires Enabled(h, step) && !step.Poll?
    ensures QueuesAtEnd(h, Next(h, step), step.i)
  {
    DispatchQueuesAtEnd(h, step.i, Zombie, false);
    match step {
      case VerifyArrives(i, accepted, limited, withEvent) => HandleVerifyQueuesAtEnd(h, i, accepted, limited, withEvent);
      case AckArrives(i, removed, drained, withEvent) => HandleAcknowledgeQueuesAtEnd(h, i, removed, drained, withEvent);
      case DisconnectArrives(i, acknowledge) => HandleDisconnectQueuesAtEnd(h, i, acknowledge);
      case _ =>
    }
  }

  lemma ServedInTurn(h: Host, i: nat, p: nat) returns (n: nat)
    requires Good(h) && i < |h.guests| && Owes(h.guests[i]) && p < |h.queue| && h.queue[p] == i
    ensures FirstIs(h, i, n, Due(h.guests[i], i)) && n <= p + 1
  {
    var q := FirstPlace(h.queue, i);
    n := DueComes(h, i, q);
  }

  // --- the handlers, by what polling brings afterwards ---

  /** The host stays good, and polling brings of the peer this event, or nothing when there is none. */
  ghost predicate Yields(r: Host, i: nat, e: Event) {
    && Good(r) && i < |r.guests|
    && if e == None then BringsNothing(r, i) else Brings(r, i, e) && forall f :: Brings(r, i, f) ==> f == e
  }

  lemma StepYields(h: Host, step: Step, r: Host)
    requires Good(h) && Enabled(h, step) && !step.Poll? && r == Next(h, step) && step.i < |r.guests|
    ensures Yields(r, step.i, Due(r.guests[step.i], step.i))
  {
    HandlerKeepsGood(h, step);
    WhatIsOwedComes(r, step.i);
  }

  lemma ReplyChanges(h: Host, i: nat, accepted: bool, limited: bool, withEvent: bool)
    requires i < |h.guests| && h.guests[i].state == Connecting && h.guests[i].dispatched == 0
    ensures var r := HandleVerifyConnect(h, i, accepted, limited, withEvent);
            && |r.guests| == |h.guests|
            && r.guests[i].state == (if !accepted then Zombie else if withEvent then Connected else ConnectionSucceeded)
            && r.guests[i].dispatched == 0 && (accepted ==> r.guests[i].limited == limited && r.recalculate)
  {
  }

  /** The reply to our CONNECT. Without an event at hand polling reports that the peer has come when the reply
      was accepted, and that it has left when it was refused; with one the peer is connected at once exactly
      when it was accepted. In any other state the reply changes nothing. */
  lemma ReplyOutcome(h: Host, i: nat, accepted: bool, limited: bool, withEvent: bool)
    requires Good(h) && i < |h.guests|
    ensures var r := HandleVerifyConnect(h, i, accepted, limited, withEvent);
            if h.guests[i].state != Connecting then r == h
            else
              && Yields(r, i, if !accepted then Left(i) else if withEvent then None else Came(i))
              && (r.guests[i].state == Connected <==> accepted && withEvent)
              && (accepted ==> r.guests[i].limited == limited && r.recalculate)
  {
    assert Queued(h, i);
    if h.guests[i].state == Connecting {
      ReplyChanges(h, i, accepted, limited, withEvent);
      StepYields(h, VerifyArrives(i, accepted, limited, withEvent), HandleVerifyConnect(h, i, accepted, limited, withEvent));
    }
  }

  lemma AcknowledgeChanges(h: Host, i: nat, removed: Removed, drained: bool, withEvent: bool)
    requires i < |h.guests| && Orderly(h.guests[i])
    ensures var s, r := h.guests[i].state, HandleAcknowledge(h, i, removed, drained, withEvent);
            && |r.guests| == |h.guests|
            && if s == AcknowledgingConnect && removed == VerifyConnect then
                 r.guests[i].state == (if withEvent then Connected else ConnectionPending) && r.guests[i].dispatched == 0
                 && r.recalculate
               else if s == Disconnecting && removed == DisconnectCommand then
                 if withEvent then r.guests[i] == Fresh() else r.guests[i].state == Zombie
               else if s == DisconnectLater && drained then
                 r.guests[i].state == Disconnecting && r.guests[i].dispatched == 0 && r.connected == h.connected - 1
               else r == h
  {
  }

  /** An acknowledgement. The one of our VERIFY_CONNECT brings the peer, the one of our DISCONNECT lets it go,
      and the last one that a peer disconnecting later waits for starts the disconnection. */
  lemma AcknowledgeOutcome(h: Host, i: nat, removed: Removed, drained: bool, withEvent: bool)
    requires Good(h) && i < |h.guests|
    ensures var s, r := h.guests[i].state, HandleAcknowledge(h, i, removed, drained, withEvent);
            if s == AcknowledgingConnect && removed == VerifyConnect then
              Yields(r, i, if withEvent then None else Came(i)) && (r.guests[i].state == Connected <==> withEvent)
            else if s == Disconnecting && removed == DisconnectCommand then
              Yields(r, i, if withEvent then None else Left(i)) && (withEvent ==> r.guests[i] == Fresh())
            else if s == DisconnectLater && drained then
              && Yields(r, i, None) && r.guests[i].state == Disconnecting && r.guests[i].dispatched == 0
              && r.connected == h.connected - 1
            else r == h
  {
    assert Queued(h, i);
    AcknowledgeChanges(h, i, removed, drained, withEvent);
    StepYields(h, AckArrives(i, removed, drained, withEvent), HandleAcknowledge(h, i, removed, drained, withEvent));
  }

  /** The state in which a DISCONNECT of the peer leaves it here. */
  function DisconnectedState(s: PeerState, acknowledge: bool): PeerState {
    match s
    case AcknowledgingConnect => Disconnected
    case ConnectionPending => Disconnected
    case Connecting => Zombie
    case ConnectionSucceeded => Zombie
    case Disconnecting => Zombie
    case Connected => if acknowledge then AcknowledgingDisconnect else Zombie
    case DisconnectLater => if acknowledge then AcknowledgingDisconnect else Zombie
    case _ => s
  }

  lemma DisconnectedChanges(h: Host, i: nat, acknowledge: bool)
    requires i < |h.guests|
    ensures var s, r := h.guests[i].state, HandleDisconnect(h, i, acknowledge);
            && |r.guests| == |h.guests| && r.guests[i].state == DisconnectedState(s, acknowledge)
            && r.connected == h.connected - (if Counted(s) then 1 else 0)
            && if s in {Disconnected, Zombie, AcknowledgingDisconnect} then r == h else r.guests[i].dispatched == 0
  {
  }

  lemma DisconnectedYields(h: Host, i: nat, acknowledge: bool, r: Host)
    requires Good(h) && i < |h.guests| == |r.guests| && r == HandleDisconnect(h, i, acknowledge)
    requires r.guests[i].state == DisconnectedState(h.guests[i].state, acknowledge)
    ensures match r.guests[i].state
            case Zombie => Yields(r, i, Left(i))
            case AcknowledgingDisconnect => Yields(r, i, None) && Yields(AcknowledgeDisconnect(r, i), i, Left(i))
            case _ => Yields(r, i, None)
  {
    StepYields(h, DisconnectArrives(i, acknowledge), r);
    if r.guests[i].state == AcknowledgingDisconnect { StepYields(r, DisconnectAckSent(i), AcknowledgeDisconnect(r, i)); }
  }

  /** A DISCONNECT of the peer, by the state in which it finds the peer here: nothing that is not reported
      yet comes any more, and that the peer has left is reported unless it had not come and need not have. */
  lemma DisconnectedOutcome(h: Host, i: nat, acknowledge: bool)
    requires Good(h) && i < |h.guests|
    ensures var s, r := h.guests[i].state, HandleDisconnect(h, i, acknowledge);
            && r.connected == h.connected - (if Counted(s) then 1 else 0)
            && if s in {Disconnected, Zombie, AcknowledgingDisconnect} then r == h
               else if s in {AcknowledgingConnect, ConnectionPending} then Yields(r, i, None)
               else if s in {Connected, DisconnectLater} && acknowledge then
                 Yields(r, i, None) && Yields(AcknowledgeDisconnect(r, i), i, Left(i))
               else Yields(r, i, Left(i))
  {
    DisconnectedChanges(h, i, acknowledge);
    DisconnectedYields(h, i, acknowledge, HandleDisconnect(h, i, acknowledge));
  }

  lemma LocalDisconnectChanges(h: Host, i: nat)
    requires i < |h.guests|
    ensures var s, r := h.guests[i].state, Disconnect(h, i);
            && |r.guests| == |h.guests|
            && r.connected == h.connected - (if Counted(s) then 1 else 0)
            && if s in {Disconnecting, Disconnected, AcknowledgingDisconnect, Zombie} then r == h
               else if Counted(s) then
                 r.guests[i] == h.guests[i].(state := Disconnecting, needsDispatch := false, dispatched := 0)
               else r.guests[i] == Fresh()
  {
  }

  /** A disconnection asked for here: a connected peer leaves the counters and waits for the
      acknowledgement, one that was not connected yet is reset; nothing more of it is reported before. */
  lemma LocalDisconnectOutcome(h: Host, i: nat)
    requires Good(h) && i < |h.guests|
    ensures var s, r := h.guests[i].state, Disconnect(h, i);
            && r.connected == h.connected - (if Counted(s) then 1 else 0)
            && if s in {Disconnecting, Disconnected, AcknowledgingDisconnect, Zombie} then r == h
               else Yields(r, i, None) && r.guests[i].state == if Counted(s) then Disconnecting else Disconnected
  {
    LocalDisconnectChanges(h, i);
    StepYields(h, AskToDisconnect(i), Disconnect(h, i));
  }

  /** Disconnecting later waits exactly when the peer is connected and something waits, and is disconnecting
      otherwise; disconnecting at once resets the peer in any state. Neither is reported. */
  lemma OtherDisconnectsOutcome(h: Host, i: nat, waiting: bool)
    requires Good(h) && i < |h.guests|
    ensures var s, l, n := h.guests[i].state, DisconnectAfterward(h, i, waiting), DisconnectAtOnce(h, i);
            && (if Counted(s) && waiting
                then Yields(l, i, None) && l == h.(guests := h.guests[i := h.guests[i].(state := DisconnectLater)])
                else l == Disconnect(h, i))
            && Yields(n, i, None) && n.guests[i].state == Disconnected
            && n.connected == h.connected - (if Counted(s) then 1 else 0)
  {
    StepYields(h, AskToDisconnectLater(i, waiting), DisconnectAfterward(h, i, waiting));
    StepYields(h, AskToDisconnectNow(i), DisconnectAtOnce(h, i));
  }

  /** Connecting: neither side reports anything before the handshake is over. */
  lemma ConnectOutcome(h: Host, i: nat, limited: bool)
    requires Good(h) && i < |h.guests| && h.guests[i].state == Disconnected
    ensures Yields(Connect(h, i), i, None) && Connect(h, i).guests[i].state == Connecting
    ensures var r := HandleConnect(h, i, limited);
            Yields(r, i, None) && r.guests[i].state == AcknowledgingConnect && r.guests[i].limited == limited
  {
    StepYields(h, AskToConnect(i), Connect(h, i));
    StepYields(h, ConnectArrives(i, limited), HandleConnect(h, i, limited));
  }

  // --- when the bandwidth is shared out anew ---

  /** The step makes the allocator tell the peers their limits again: a handshake is completed, one is broken
      off, or polling reports that a peer has left. */
  predicate CallsForShares(h: Host, step: Step)
    requires Enabled(h, step)
  {
    match step
    case VerifyArrives(i, accepted, _, _) => h.guests[i].state == Connecting && accepted
    case AckArrives(i, removed, _, _) => h.guests[i].state == AcknowledgingConnect && removed == VerifyConnect
    case DisconnectArrives(i, _) => h.guests[i].state == ConnectionPending
    case Poll => NextEvent(h).1.Left?
    case _ => false
  }

  lemma {:induction false} PollRecalculatesIff(h: Host)
    requires Enabled(h, Poll)
    ensures NextEvent(h).0.recalculate <==> h.recalculate || NextEvent(h).1.Left?
    decreases |h.queue|
  {
    if h.queue != [] && !Owes(h.guests[h.queue[0]]) {
      assert NextEvent(h) == NextEvent(Taken(h));
      PollRecalculatesIff(Taken(h));
    }
  }

  lemma DisconnectedRecalculatesIff(h: Host, i: nat, acknowledge: bool)
    requires i < |h.guests|
    ensures HandleDisconnect(h, i, acknowledge).recalculate <==> h.recalculate || h.guests[i].state == ConnectionPending
  {
  }

  lemma VerifyRecalculatesIff(h: Host, i: nat, accepted: bool, limited: bool, withEvent: bool)
    requires i < |h.guests|
    ensures HandleVerifyConnect(h, i, accepted, limited, withEvent).recalculate <==>
            h.recalculate || (h.guests[i].state == Connecting && accepted)
  {
  }

  lemma AckRecalculatesIff(h: Host, i: nat, removed: Removed, drained: bool, withEvent: bool)
    requires i < |h.guests|
    ensures HandleAcknowledge(h, i, removed, drained, withEvent).recalculate <==>
            h.recalculate || (h.guests[i].state == AcknowledgingConnect && removed == VerifyConnect)
  {
  }

  lemma RecalculateIff(h: Host, step: Step)
    requires Enabled(h, step)
    ensures Next(h, step).recalculate <==> h.recalculate || CallsForShares(h, step)
  {
    match step {
      case Poll => PollRecalculatesIff(h);
      case DisconnectArrives(i, acknowledge) => DisconnectedRecalculatesIff(h, i, acknowledge);
      case VerifyArrives(i, accepted, limited, withEvent) => VerifyRecalculatesIff(h, i, accepted, limited, withEvent);
      case AckArrives(i, removed, drained, withEvent) => AckRecalculatesIff(h, i, removed, drained, withEvent);
      case _ =>
    }
  }

  // --- whole runs ---

  /** The event that a step reports: polling any, a handler that is given an event object its own. */
  function Reported(h: Host, step: Step): Event
    requires Enabled(h, step)
  {
    match step
    case Poll => NextEvent(h).1
    case VerifyArrives(i, accepted, _, withEvent) =>
      if h.guests[i].state == Connecting && accepted && withEvent then Came(i) else None
    case AckArrives(i, removed, _, withEvent) =>
      if h.guests[i].state == AcknowledgingConnect && removed == VerifyConnect && withEvent then Came(i)
      else if h.guests[i].state == Disconnecting && removed == DisconnectCommand && withEvent then Left(i)
      else None
    case _ => None
  }

  /** A segment of the peer is reported only when it has come and has not left since; `here` says whether it
      has at the beginning. */
  ghost predicate DataInTurn(h: Host, i: nat, steps: seq<Step>, here: bool)
    requires Possible(h, steps)
    decreases |steps|
  {
    steps != [] ==>
      var e := Reported(h, steps[0]);
      && (e == Data(i) ==> here)
      && DataInTurn(Next(h, steps[0]), i, steps[1..], e == Came(i) || (here && e != Left(i)))
  }

  /** A peer is connected afterwards only when it was and has not left, or when it has come. */
  ghost predicate Joins(h: Host, r: Host, i: nat, e: Event) {
    && i < |h.guests| == |r.guests| && (e == Data(i) ==> h.guests[i].state == Connected)
    && (r.guests[i].state == Connected ==> e == Came(i) || (h.guests[i].state == Connected && e != Left(i)))
  }

  lemma PollJoins(h: Host, i: nat)
    requires Good(h) && i < |h.guests|
    ensures Joins(h, NextEvent(h).0, i, NextEvent(h).1)
  {
    PollSettles(h);
    if Owes(h.guests[i]) {
      assert Queued(h, i);
      var p := FirstPlace(h.queue, i);
      var q := PollBringsNearer(h, i, p);
    } else {
      IdleStays(h, i);
    }
  }

  lemma VerifyJoins(h: Host, i: nat, j: nat, accepted: bool, limited: bool, withEvent: bool)
    requires i < |h.guests| && j < |h.guests|
    ensures Joins(h, HandleVerifyConnect(h, j, accepted, limited, withEvent), i,
                  if h.guests[j].state == Connecting && accepted && withEvent then Came(j) else None)
  {
  }

  lemma DisconnectJoins(h: Host, i: nat, j: nat)
    requires i < |h.guests| && j < |h.guests|
    ensures Joins(h, Disconnect(h, j), i, None) && Joins(h, DispatchState(h, j, Zombie), i, None)
    ensures Joins(h, DisconnectAtOnce(h, j), i, None)
  {
  }

  lemma AckJoins(h: Host, i: nat, j: nat, removed: Removed, drained: bool, withEvent: bool)
    requires i < |h.guests| && j < |h.guests|
    ensures Joins(h, HandleAcknowledge(h, j, removed, drained, withEvent), i,
                  Reported(h.(queue := []), AckArrives(j, removed, drained, withEvent)))
  {
    DisconnectJoins(h, i, j);
  }

  lemma DisconnectedJoins(h: Host, i: nat, j: nat, acknowledge: bool)
    requires i < |h.guests| && j < |h.guests|
    ensures Joins(h, HandleDisconnect(h, j, acknowledge), i, None)
  {
    DisconnectedChanges(h, j, acknowledge);
    if i != j { OthersStay(h, i, j, acknowledge); }
  }

  lemma OthersStay(h: Host, i: nat, j: nat, acknowledge: bool)
    requires i < |h.guests| && j < |h.guests| && i != j
    ensures |HandleDisconnect(h, j, acknowledge).guests| == |h.guests|
    ensures HandleDisconnect(h, j, acknowledge).guests[i] == h.guests[i]
  {
  }

  lemma HandlerJoins(h: Host, i: nat, step: Step)
    requires Enabled(h, step) && !step.Poll? && i < |h.guests|
    ensures Joins(h, Next(h, step), i, Reported(h, step)) && Reported(h, step) != Data(i)
  {
    DisconnectJoins(h, i, step.i);
    match step {
      case VerifyArrives(j, a, b, c) => VerifyJoins(h, i, j, a, b, c);
      case AckArrives(j, removed, drained, withEvent) => AckJoins(h, i, j, removed, drained, withEvent);
      case DisconnectArrives(j, a) => DisconnectedJoins(h, i, j, a);
      case _ =>
    }
  }

  lemma {:induction false} RunKeepsDataInTurn(h: Host, i: nat, steps: seq<Step>, here: bool)
    requires Good(h) && Possible(h, steps) && i < |h.guests| && (h.guests[i].state == Connected ==> here)
    ensures DataInTurn(h, i, steps, here)
    decreases |steps|
  {
    if steps != [] {
      var e := Reported(h, steps[0]);
      if steps[0].Poll? { PollJoins(h, i); } else { HandlerJoins(h, i, steps[0]); }
      StepKeepsGood(h, steps[0]);
      RunKeepsDataInTurn(Next(h, steps[0]), i, steps[1..], e == Came(i) || (here && e != Left(i)));
    }
  }

  /** In every run a segment of a peer is reported only after the peer has come, and not after it has left. */
  lemma DataOnlyFromPeersThatCame(n: nat, i: nat, steps: seq<Step>)
    requires Possible(InitialHost(n), steps) && i < n
    ensures DataInTurn(InitialHost(n), i, steps, false)
  {
    NobodyIsCounted(InitialHost(n).guests);
    RunKeepsDataInTurn(InitialHost(n), i, steps, false);
  }
}
