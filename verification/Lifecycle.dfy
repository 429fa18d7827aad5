/** The life of the peers of a host: their states, the counters of the dispatch hub and the queue of
    the peers that owe the application an event. */
module Lifecycle {
  import opened PeerStates

  /** What the hub knows of a peer. `dispatched` is the number of received segments that wait for the
      application, `limited` says that the incoming bandwidth is not 0. */
  datatype Guest = Guest(state: PeerState, needsDispatch: bool, dispatched: nat, limited: bool)

  datatype Host = Host(guests: seq<Guest>, queue: seq<nat>, connected: int, limited: int, recalculate: bool)

  function Fresh(): Guest {
    Guest(Disconnected, false, 0, false)
  }

  function InitialHost(n: nat): Host {
    Host(seq(n, _ => Fresh()), [], 0, 0, false)
  }

  function Set(h: Host, i: nat, g: Guest): Host
    requires i < |h.guests|
  {
    h.(guests := h.guests[i := g])
  }

  // --- the dispatch hub ---

  function Merge(h: Host, i: nat): Host
    requires i < |h.guests|
  {
    if Counted(h.guests[i].state) then h
    else h.(connected := h.connected + 1, limited := if h.guests[i].limited then h.limited + 1 else h.limited)
  }

  function Purge(h: Host, i: nat): Host
    requires i < |h.guests|
  {
    if Counted(h.guests[i].state)
    then h.(connected := h.connected - 1, limited := if h.guests[i].limited then h.limited - 1 else h.limited)
    else h
  }

  function ChangeState(h: Host, i: nat, s: PeerState): (r: Host)
    requires i < |h.guests|
    ensures |r.guests| == |h.guests|
  {
    Set(if Counted(s) then Merge(h, i) else Purge(h, i), i, h.guests[i].(state := s))
  }

  function DispatchState(h: Host, i: nat, s: PeerState): (r: Host)
    requires i < |h.guests|
    ensures |r.guests| == |h.guests|
  {
    var c := ChangeState(h, i, s);
    if c.guests[i].needsDispatch then c
    else Set(c, i, c.guests[i].(needsDispatch := true)).(queue := c.queue + [i])
  }

  function ResetQueues(h: Host, i: nat): Host
    requires i < |h.guests|
  {
    Set(h, i, h.guests[i].(needsDispatch := false, dispatched := 0))
  }

  /** `Peer::Reset`, which knows nothing of the hub. */
  function ResetPeer(h: Host, i: nat): Host
    requires i < |h.guests|
  {
    Set(h, i, Fresh())
  }

  function NotifyConnect(h: Host, i: nat, withEvent: bool): Host
    requires i < |h.guests|
  {
    var r := h.(recalculate := true);
    if withEvent then ChangeState(r, i, Connected)
    else DispatchState(r, i, if h.guests[i].state == Connecting then ConnectionSucceeded else ConnectionPending)
  }

  /** The order of the enumeration, as far as it is compared. */
  predicate Early(s: PeerState) {
    s == Disconnected || s == AcknowledgingConnect || s == ConnectionPending
  }

  function NotifyDisconnect(h: Host, i: nat, withEvent: bool): Host
    requires i < |h.guests|
  {
    var r := if h.guests[i].state == ConnectionPending then h.(recalculate := true) else h;
    if Early(h.guests[i].state) then ResetPeer(r, i)
    else if withEvent then ResetPeer(r, i)
    else DispatchState(r, i, Zombie)
  }

  // --- the handlers ---

  datatype Removed = VerifyConnect | DisconnectCommand | Other

  /** `HandleAcknowledge`, given which command was acknowledged and whether any is left. */
  function HandleAcknowledge(h: Host, i: nat, removed: Removed, drained: bool, withEvent: bool): Host
    requires i < |h.guests|
  {
    var s := h.guests[i].state;
    if s == AcknowledgingConnect && removed == VerifyConnect then NotifyConnect(h, i, withEvent)
    else if s == Disconnecting && removed == DisconnectCommand then NotifyDisconnect(h, i, withEvent)
    else if s == DisconnectLater && drained then Disconnect(h, i)
    else h
  }

  function HandleConnect(h: Host, i: nat, limited: bool): Host
    requires i < |h.guests|
  {
    if h.guests[i].state != Disconnected then h
    else Set(h, i, h.guests[i].(state := AcknowledgingConnect, limited := limited))
  }

  /** `Peer::Setup`, for a peer that `AvailablePeer` has found. */
  function Connect(h: Host, i: nat): Host
    requires i < |h.guests|
  {
    if h.guests[i].state != Disconnected then h else Set(h, i, h.guests[i].(state := Connecting))
  }

  function HandleVerifyConnect(h: Host, i: nat, accepted: bool, limited: bool, withEvent: bool): Host
    requires i < |h.guests|
  {
    if h.guests[i].state != Connecting then h
    else if !accepted then DispatchState(h, i, Zombie)
    else NotifyConnect(Set(h, i, h.guests[i].(limited := limited)), i, withEvent)
  }

  function HandleDisconnect(h: Host, i: nat, acknowledge: bool): Host
    requires i < |h.guests|
  {
    var s := h.guests[i].state;
    if s == Disconnected || s == Zombie || s == AcknowledgingDisconnect then h
    else
      var r := ResetQueues(h, i);
      if s == ConnectionSucceeded || s == Disconnecting || s == Connecting then DispatchState(r, i, Zombie)
      else if !Counted(s) then ResetPeer(if s == ConnectionPending then r.(recalculate := true) else r, i)
      else if acknowledge then ChangeState(r, i, AcknowledgingDisconnect)
      else DispatchState(r, i, Zombie)
  }

  /** `DispatchIncomingReliableCommands` when `count` segments have become deliverable. */
  function Deliver(h: Host, i: nat, count: nat): Host
    requires i < |h.guests|
  {
    var g := h.guests[i];
    if !Counted(g.state) || count == 0 then h
    else if g.needsDispatch then Set(h, i, g.(dispatched := g.dispatched + count))
    else Set(h, i, g.(dispatched := g.dispatched + count, needsDispatch := true)).(queue := h.queue + [i])
  }

  /** Sending the acknowledgement of a DISCONNECT: `SendAcknowledgements`. */
  function AcknowledgeDisconnect(h: Host, i: nat): Host
    requires i < |h.guests|
  {
    DispatchState(h, i, Zombie)
  }

  // --- disconnection ---

  function Disconnect(h: Host, i: nat): Host
    requires i < |h.guests|
  {
    var s := h.guests[i].state;
    if s == Disconnecting || s == Disconnected || s == AcknowledgingDisconnect || s == Zombie then h
    else
      var r := ResetQueues(h, i);
      if Counted(s) then Set(Purge(r, i), i, r.guests[i].(state := Disconnecting))
      else ResetPeer(r, i)
  }

  /** `DisconnectLater`, given whether any command waits or is unacknowledged. */
  function DisconnectAfterward(h: Host, i: nat, waiting: bool): Host
    requires i < |h.guests|
  {
    if Counted(h.guests[i].state) && waiting then Set(h, i, h.guests[i].(state := DisconnectLater))
    else Disconnect(h, i)
  }

  /** `DisconnectNow`, corrected: the peer leaves the counters before it is reset. */
  function DisconnectAtOnce(h: Host, i: nat): Host
    requires i < |h.guests|
  {
    if h.guests[i].state == Disconnected then h else ResetPeer(Purge(h, i), i)
  }

  /** As written: the peer is reset without leaving the counters. */
  function DisconnectAtOnceAsWritten(h: Host, i: nat): Host
    requires i < |h.guests|
  {
    if h.guests[i].state == Disconnected then h else ResetPeer(h, i)
  }

  /** Corrected: a peer that is disconnecting later and has nothing left to send is disconnected. */
  function AfterLoading(h: Host, i: nat, waiting: bool, sent: bool): Host
    requires i < |h.guests|
  {
    if h.guests[i].state == DisconnectLater && !waiting && !sent then Disconnect(h, i) else h
  }

  /** As written: a peer that is disconnecting later and still waits for acknowledgements is taken out
      of the counters and stays as it is. */
  function AfterLoadingAsWritten(h: Host, i: nat, waiting: bool, sent: bool): Host
    requires i < |h.guests|
  {
    if h.guests[i].state == DisconnectLater && !waiting && sent then Purge(h, i) else h
  }

  // --- events ---

  datatype Event = None | Came(peer: nat) | Left(peer: nat) | Data(peer: nat)

  /** `DispatchIncomingCommands`: the queue is emptied until a peer owes an event. */
  function NextEvent(h: Host): (r: (Host, Event))
    requires forall k :: 0 <= k < |h.queue| ==> h.queue[k] < |h.guests|
    decreases |h.queue|
  {
    if h.queue == [] then (h, None)
    else
      var i := h.queue[0];
      var g := h.guests[i].(needsDispatch := false);
      var r := Set(h, i, g).(queue := h.queue[1..]);
      match g.state
      case ConnectionPending => (ChangeState(r, i, Connected), Came(i))
      case ConnectionSucceeded => (ChangeState(r, i, Connected), Came(i))
      case Zombie => (ResetPeer(r.(recalculate := true), i), Left(i))
      case Connected =>
        if g.dispatched == 0 then NextEvent(r)
        else if g.dispatched == 1 then (Set(r, i, g.(dispatched := 0)), Data(i))
        else (Set(r, i, g.(dispatched := g.dispatched - 1, needsDispatch := true)).(queue := r.queue + [i]), Data(i))
      case _ => NextEvent(r)
  }

  // --- the invariant ---

  function Tally(gs: seq<Guest>, f: Guest -> bool): nat {
    if gs == [] then 0 else (if f(gs[0]) then 1 else 0) + Tally(gs[1..], f)
  }

  lemma {:induction false} TallySet(gs: seq<Guest>, i: nat, g: Guest, f: Guest -> bool)
    requires i < |gs|
    ensures Tally(gs[i := g], f) == Tally(gs, f) - (if f(gs[i]) then 1 else 0) + (if f(g) then 1 else 0)
  {
    if i == 0 {
      assert gs[0 := g][1..] == gs[1..];
    } else {
      TallySet(gs[1..], i - 1, g, f);
      assert gs[i := g][1..] == gs[1..][i - 1 := g];
    }
  }

  function IsConnected(): Guest -> bool {
    (g: Guest) => Counted(g.state)
  }

  function IsLimited(): Guest -> bool {
    (g: Guest) => Counted(g.state) && g.limited
  }

  /** The counters are the true counts. */
  ghost predicate Exact(h: Host) {
    h.connected == Tally(h.guests, IsConnected()) && h.limited == Tally(h.guests, IsLimited())
  }

  /** The peer owes the application an event. */
  predicate Owes(g: Guest) {
    || g.state == Zombie || g.state == ConnectionPending || g.state == ConnectionSucceeded
    || (g.state == Connected && g.dispatched > 0)
  }

  /** Nothing is received before the peer is connected. */
  predicate Orderly(g: Guest) {
    g.state in {Disconnected, Connecting, AcknowledgingConnect, ConnectionPending, ConnectionSucceeded} ==> g.dispatched == 0
  }

  /** Whoever owes an event, or is marked as queued, is in the queue. */
  ghost predicate Queued(h: Host, i: nat)
    requires i < |h.guests|
  {
    Orderly(h.guests[i]) && (Owes(h.guests[i]) || h.guests[i].needsDispatch ==> i in h.queue)
  }

  ghost predicate NoLostEvent(h: Host) {
    && (forall k :: 0 <= k < |h.queue| ==> h.queue[k] < |h.guests|)
    && forall i :: 0 <= i < |h.guests| ==> Queued(h, i)
  }

  ghost predicate Good(h: Host) {
    Exact(h) && NoLostEvent(h)
  }

  // --- what every operation keeps ---

  function One(b: bool): nat {
    if b then 1 else 0
  }

  /** Every other peer stays in the queue, and no other joins it. */
  ghost predicate QueueKept(q: seq<nat>, r: seq<nat>, i: nat) {
    && (forall j :: j in q && j != i ==> j in r)
    && (forall j :: j in r ==> j in q || j == i)
  }

  lemma AppendKeepsQueue(q: seq<nat>, i: nat)
    ensures QueueKept(q, q + [i], i) && i in q + [i]
  {
  }

  lemma FrontKeepsQueue(q: seq<nat>)
    requires q != []
    ensures QueueKept(q, q[1..], q[0]) && QueueKept(q, q[1..] + [q[0]], q[0]) && q[0] in q[1..] + [q[0]]
  {
  }

  /** Only the peer at `i` changes, the counters follow its change, and every other peer stays in the
      queue. */
  ghost predicate Local(h: Host, r: Host, i: nat)
    requires i < |h.guests|
  {
    && |r.guests| == |h.guests|
    && (forall j :: 0 <= j < |h.guests| && j != i ==> r.guests[j] == h.guests[j])
    && QueueKept(h.queue, r.queue, i)
    && r.connected - h.connected == One(Counted(r.guests[i].state)) - One(Counted(h.guests[i].state))
    && r.limited - h.limited == One(Counted(r.guests[i].state) && r.guests[i].limited)
                                - One(Counted(h.guests[i].state) && h.guests[i].limited)
  }

  /** A local change after which the changed peer is still accounted for. */
  ghost predicate Accounted(h: Host, r: Host, i: nat)
    requires i < |h.guests|
  {
    && Local(h, r, i)
    && Orderly(r.guests[i])
    && (Owes(r.guests[i]) || r.guests[i].needsDispatch ==> i in r.queue)
  }

  lemma AccountedKeepsGood(h: Host, r: Host, i: nat)
    requires Good(h) && i < |h.guests| && Accounted(h, r, i)
    ensures Good(r)
  {
    assert r.guests == h.guests[i := r.guests[i]];
    TallySet(h.guests, i, r.guests[i], IsConnected());
    TallySet(h.guests, i, r.guests[i], IsLimited());
    forall k | 0 <= k < |r.queue|
      ensures r.queue[k] < |r.guests|
    {
      assert r.queue[k] in r.queue;
    }
    forall j | 0 <= j < |r.guests|
      ensures Queued(r, j)
    {
      assert Queued(h, j);
    }
  }

  lemma DispatchIsAccounted(h: Host, i: nat, s: PeerState)
    requires i < |h.guests| && Queued(h, i) && Orderly(h.guests[i].(state := s))
    ensures Accounted(h, DispatchState(h, i, s), i)
  {
    AppendKeepsQueue(h.queue, i);
  }

  lemma ConnectIsAccounted(h: Host, i: nat, withEvent: bool)
    requires i < |h.guests| && Queued(h, i) && h.guests[i].state in {Connecting, AcknowledgingConnect}
    ensures Accounted(h, NotifyConnect(h, i, withEvent), i)
  {
  }

  lemma VerifyIsAccounted(h: Host, i: nat, accepted: bool, limited: bool, withEvent: bool)
    requires i < |h.guests| && Queued(h, i)
    ensures Accounted(h, HandleVerifyConnect(h, i, accepted, limited, withEvent), i)
  {
    if h.guests[i].state == Connecting {
      if accepted {
        ConnectIsAccounted(Set(h, i, h.guests[i].(limited := limited)), i, withEvent);
      } else {
        DispatchIsAccounted(h, i, Zombie);
      }
    }
  }

  lemma DisconnectIsAccounted(h: Host, i: nat)
    requires i < |h.guests| && Queued(h, i)
    ensures Accounted(h, Disconnect(h, i), i)
  {
  }

  lemma AckIsAccounted(h: Host, i: nat, removed: Removed, drained: bool, withEvent: bool)
    requires i < |h.guests| && Queued(h, i)
    ensures Accounted(h, HandleAcknowledge(h, i, removed, drained, withEvent), i)
  {
    var s := h.guests[i].state;
    if s == AcknowledgingConnect {
      ConnectIsAccounted(h, i, withEvent);
    } else if s == Disconnecting {
      DispatchIsAccounted(h, i, Zombie);
    } else if s == DisconnectLater {
      DisconnectIsAccounted(h, i);
    }
  }

  /** Clearing the queues first does not change what the counters see. */
  lemma ClearedIsAccounted(h: Host, r: Host, i: nat)
    requires i < |h.guests| && Accounted(ResetQueues(h, i), r, i)
    ensures Accounted(h, r, i)
  {
  }

  lemma ClearedIsQueued(h: Host, i: nat)
    requires i < |h.guests| && Queued(h, i)
    ensures Queued(ResetQueues(h, i), i)
  {
  }

  lemma ResetIsAccounted(h: Host, i: nat, recalculate: bool)
    requires i < |h.guests| && !Counted(h.guests[i].state)
    ensures Accounted(h, ResetPeer(h.(recalculate := recalculate), i), i)
  {
  }

  lemma ChangeIsAccounted(h: Host, i: nat)
    requires i < |h.guests| && !h.guests[i].needsDispatch
    ensures Accounted(h, ChangeState(h, i, AcknowledgingDisconnect), i)
  {
  }

  lemma HandleDisconnectIsAccounted(h: Host, i: nat, acknowledge: bool)
    requires i < |h.guests| && Queued(h, i)
    ensures Accounted(h, HandleDisconnect(h, i, acknowledge), i)
  {
    var s, r := h.guests[i].state, ResetQueues(h, i);
    if s != Disconnected && s != Zombie && s != AcknowledgingDisconnect {
      ClearedIsQueued(h, i);
      DispatchIsAccounted(r, i, Zombie);
      ChangeIsAccounted(r, i);
      if !Counted(s) { ResetIsAccounted(r, i, s == ConnectionPending || r.recalculate); }
      ClearedIsAccounted(h, HandleDisconnect(h, i, acknowledge), i);
    }
  }

  datatype Step =
    | AskToConnect(i: nat)
    | ConnectArrives(i: nat, limited: bool)
    | VerifyArrives(i: nat, accepted: bool, limited: bool, withEvent: bool)
    | AckArrives(i: nat, removed: Removed, drained: bool, withEvent: bool)
    | DisconnectArrives(i: nat, acknowledge: bool)
    | SegmentsArrive(i: nat, count: nat)
    | DisconnectAckSent(i: nat)
    | AskToDisconnect(i: nat)
    | AskToDisconnectLater(i: nat, waiting: bool)
    | AskToDisconnectNow(i: nat)
    | Loaded(i: nat, waiting: bool, sent: bool)
    | Poll

  predicate Enabled(h: Host, step: Step) {
    && (forall k :: 0 <= k < |h.queue| ==> h.queue[k] < |h.guests|)
    && (step.Poll? || step.i < |h.guests|)
  }

  function Next(h: Host, step: Step): Host
    requires Enabled(h, step)
  {
    match step
    case AskToConnect(i) => Connect(h, i)
    case ConnectArrives(i, limited) => HandleConnect(h, i, limited)
    case VerifyArrives(i, accepted, limited, withEvent) => HandleVerifyConnect(h, i, accepted, limited, withEvent)
    case AckArrives(i, removed, drained, withEvent) => HandleAcknowledge(h, i, removed, drained, withEvent)
    case DisconnectArrives(i, acknowledge) => HandleDisconnect(h, i, acknowledge)
    case SegmentsArrive(i, count) => Deliver(h, i, count)
    case DisconnectAckSent(i) => AcknowledgeDisconnect(h, i)
    case AskToDisconnect(i) => Disconnect(h, i)
    case AskToDisconnectLater(i, waiting) => DisconnectAfterward(h, i, waiting)
    case AskToDisconnectNow(i) => DisconnectAtOnce(h, i)
    case Loaded(i, waiting, sent) => AfterLoading(h, i, waiting, sent)
    case Poll => NextEvent(h).0
  }

  lemma ArrivalIsAccounted(h: Host, i: nat, limited: bool)
    requires i < |h.guests| && Queued(h, i)
    ensures Accounted(h, Connect(h, i), i)
    ensures Accounted(h, HandleConnect(h, i, limited), i)
  {
  }

  lemma DepartureIsAccounted(h: Host, i: nat)
    requires i < |h.guests| && Queued(h, i)
    ensures Accounted(h, DisconnectAtOnce(h, i), i)
  {
  }

  lemma DeliveryIsAccounted(h: Host, i: nat, count: nat)
    requires i < |h.guests| && Queued(h, i)
    ensures Accounted(h, Deliver(h, i, count), i)
  {
  }

  lemma LeaveIsAccounted(h: Host, i: nat, waiting: bool, sent: bool)
    requires i < |h.guests| && Queued(h, i)
    ensures Accounted(h, DisconnectAfterward(h, i, waiting), i)
    ensures Accounted(h, AfterLoading(h, i, waiting, sent), i)
  {
    DisconnectIsAccounted(h, i);
  }

  lemma HandlerKeepsGood(h: Host, step: Step)
    requires Good(h) && Enabled(h, step) && !step.Poll?
    ensures Good(Next(h, step))
  {
    assert Queued(h, step.i);
    match step {
      case VerifyArrives(i, accepted, limited, withEvent) => VerifyIsAccounted(h, i, accepted, limited, withEvent);
      case AckArrives(i, removed, drained, withEvent) => AckIsAccounted(h, i, removed, drained, withEvent);
      case DisconnectArrives(i, acknowledge) => HandleDisconnectIsAccounted(h, i, acknowledge);
      case DisconnectAckSent(i) => DispatchIsAccounted(h, i, Zombie);
      case AskToDisconnect(i) => DisconnectIsAccounted(h, i);
      case AskToDisconnectLater(i, waiting) => LeaveIsAccounted(h, i, waiting, false);
      case Loaded(i, waiting, sent) => LeaveIsAccounted(h, i, waiting, sent);
      case AskToConnect(i) => ArrivalIsAccounted(h, i, false);
      case ConnectArrives(i, limited) => ArrivalIsAccounted(h, i, limited);
      case SegmentsArrive(i, count) => DeliveryIsAccounted(h, i, count);
      case AskToDisconnectNow(i) => DepartureIsAccounted(h, i);
    }
    AccountedKeepsGood(h, Next(h, step), step.i);
  }

  // --- polling ---

  /** The host after the front of the queue was taken. */
  function Taken(h: Host): Host
    requires h.queue != [] && h.queue[0] < |h.guests|
  {
    Set(h, h.queue[0], h.guests[h.queue[0]].(needsDispatch := false)).(queue := h.queue[1..])
  }

  lemma TakenKeepsGood(h: Host)
    requires Good(h) && h.queue != [] && !Owes(h.guests[h.queue[0]])
    ensures Good(Taken(h))
  {
    assert Queued(h, h.queue[0]);
    FrontKeepsQueue(h.queue);
    AccountedKeepsGood(h, Taken(h), h.queue[0]);
  }

  /** The first peer of the queue that owes an event gets it, and owes one less. */
  lemma EventKeepsGood(h: Host)
    requires Good(h) && h.queue != [] && Owes(h.guests[h.queue[0]])
    ensures Good(NextEvent(h).0)
  {
    EventIsAccounted(h);
    AccountedKeepsGood(h, NextEvent(h).0, h.queue[0]);
  }

  lemma EventIsAccounted(h: Host)
    requires Good(h) && h.queue != [] && Owes(h.guests[h.queue[0]])
    ensures Accounted(h, NextEvent(h).0, h.queue[0])
  {
    var i := h.queue[0];
    assert Queued(h, i);
    FrontKeepsQueue(h.queue);
    var g, t := Taken(h).guests[i], Taken(h);
    if g.state == Connected {
      DataIsAccounted(h, i, g);
      if g.dispatched == 1 {
        assert NextEvent(h).0 == Set(t, i, g.(dispatched := 0));
      } else {
        assert NextEvent(h).0 == Set(t, i, g.(dispatched := g.dispatched - 1, needsDispatch := true)).(queue := t.queue + [i]);
      }
    } else if g.state == Zombie {
      LeavingIsAccounted(h, i);
      assert NextEvent(h).0 == ResetPeer(t.(recalculate := true), i);
    } else {
      ComingIsAccounted(h, i);
      assert NextEvent(h).0 == ChangeState(t, i, Connected);
    }
  }

  lemma DataIsAccounted(h: Host, i: nat, g: Guest)
    requires h.queue != [] && i == h.queue[0] < |h.guests| && QueueKept(h.queue, h.queue[1..], i)
    requires QueueKept(h.queue, h.queue[1..] + [i], i)
    requires g == h.guests[i].(needsDispatch := false) && g.state == Connected && g.dispatched > 0
    ensures g.dispatched == 1 ==> Accounted(h, Set(Taken(h), i, g.(dispatched := 0)), i)
    ensures Accounted(
              h, Set(Taken(h), i, g.(dispatched := g.dispatched - 1, needsDispatch := true)).(queue := h.queue[1..] + [i]), i)
  {
  }

  lemma LeavingIsAccounted(h: Host, i: nat)
    requires h.queue != [] && i == h.queue[0] < |h.guests| && QueueKept(h.queue, h.queue[1..], i)
    requires h.guests[i].state == Zombie
    ensures Accounted(h, ResetPeer(Taken(h).(recalculate := true), i), i)
  {
  }

  lemma ComingIsAccounted(h: Host, i: nat)
    requires h.queue != [] && i == h.queue[0] < |h.guests| && QueueKept(h.queue, h.queue[1..], i)
    requires h.guests[i].state in {ConnectionPending, ConnectionSucceeded} && Orderly(h.guests[i])
    ensures Accounted(h, ChangeState(Taken(h), i, Connected), i)
  {
  }

  /** The event that settles what a peer owes. */
  ghost predicate Settles(h: Host, r: Host, e: Event) {
    match e
    case None => r.queue == [] && forall i :: 0 <= i < |h.guests| ==> !Owes(h.guests[i])
    case Came(i) => i < |h.guests| == |r.guests| && h.guests[i].state in {ConnectionPending, ConnectionSucceeded}
                    && r.guests[i].state == Connected
    case Left(i) => i < |h.guests| == |r.guests| && h.guests[i].state == Zombie && r.guests[i] == Fresh()
    case Data(i) => i < |h.guests| == |r.guests| && h.guests[i].state == Connected == r.guests[i].state
                    && r.guests[i].dispatched + 1 == h.guests[i].dispatched
  }

  lemma EventSettles(h: Host)
    requires Good(h) && h.queue != [] && Owes(h.guests[h.queue[0]])
    ensures Settles(h, NextEvent(h).0, NextEvent(h).1)
  {
    assert Queued(h, h.queue[0]);
  }

  lemma EmptyQueueOwesNothing(h: Host)
    requires NoLostEvent(h) && h.queue == []
    ensures forall i :: 0 <= i < |h.guests| ==> !Owes(h.guests[i])
  {
    forall i | 0 <= i < |h.guests|
      ensures !Owes(h.guests[i])
    {
      assert Queued(h, i);
    }
  }

  lemma TakenSettlesTheSame(h: Host, r: Host, e: Event)
    requires h.queue != [] && h.queue[0] < |h.guests| && Settles(Taken(h), r, e)
    ensures Settles(h, r, e)
  {
    forall i | 0 <= i < |h.guests|
      ensures Taken(h).guests[i] == h.guests[i].(needsDispatch := Taken(h).guests[i].needsDispatch)
    {
    }
  }

  lemma SkipIsTaken(h: Host)
    requires NoLostEvent(h) && h.queue != [] && !Owes(h.guests[h.queue[0]])
    requires NoLostEvent(Taken(h))
    ensures NextEvent(h) == NextEvent(Taken(h))
  {
  }

  /** Polling keeps the host good; it reports nothing only when no peer owes anything, and what it
      reports is owed and settled. */
  lemma {:induction false} PollSettles(h: Host)
    requires Good(h)
    ensures Good(NextEvent(h).0) && Settles(h, NextEvent(h).0, NextEvent(h).1)
    decreases |h.queue|
  {
    if h.queue == [] {
      EmptyQueueOwesNothing(h);
    } else if Owes(h.guests[h.queue[0]]) {
      EventKeepsGood(h);
      EventSettles(h);
    } else {
      TakenKeepsGood(h);
      SkipIsTaken(h);
      PollSettles(Taken(h));
      TakenSettlesTheSame(h, NextEvent(h).0, NextEvent(h).1);
    }
  }

  /** An event comes exactly when some peer owes one. */
  lemma PollReportsIffOwed(h: Host)
    requires Good(h)
    ensures NextEvent(h).1 != None <==> exists i :: 0 <= i < |h.guests| && Owes(h.guests[i])
  {
    PollSettles(h);
    var e := NextEvent(h).1;
    if e != None { assert Owes(h.guests[e.peer]); }
  }

  // --- whole runs ---

  lemma StepKeepsGood(h: Host, step: Step)
    requires Good(h) && Enabled(h, step)
    ensures Good(Next(h, step))
  {
    if step.Poll? { PollSettles(h); } else { HandlerKeepsGood(h, step); }
  }

  ghost predicate Possible(h: Host, steps: seq<Step>)
    decreases |steps|
  {
    steps == [] || (Enabled(h, steps[0]) && Possible(Next(h, steps[0]), steps[1..]))
  }

  ghost function After(h: Host, steps: seq<Step>): Host
    requires Possible(h, steps)
    decreases |steps|
  {
    if steps == [] then h else After(Next(h, steps[0]), steps[1..])
  }

  lemma {:induction false} RunKeepsGood(h: Host, steps: seq<Step>)
    requires Good(h) && Possible(h, steps)
    ensures Good(After(h, steps))
    decreases |steps|
  {
    if steps != [] {
      StepKeepsGood(h, steps[0]);
      RunKeepsGood(Next(h, steps[0]), steps[1..]);
    }
  }

  lemma {:induction false} NobodyIsCounted(gs: seq<Guest>)
    requires forall i :: 0 <= i < |gs| ==> gs[i] == Fresh()
    ensures Tally(gs, IsConnected()) == 0 && Tally(gs, IsLimited()) == 0
  {
    if gs != [] { NobodyIsCounted(gs[1..]); }
  }

  /** In every run the counters are the true counts, and no event is lost: polling reports an event
      exactly when some peer owes one. */
  lemma NoEventIsLost(n: nat, steps: seq<Step>)
    requires Possible(InitialHost(n), steps)
    ensures var h := After(InitialHost(n), steps);
            && Good(h)
            && (NextEvent(h).1 != None <==> exists i :: 0 <= i < |h.guests| && Owes(h.guests[i]))
  {
    NobodyIsCounted(InitialHost(n).guests);
    RunKeepsGood(InitialHost(n), steps);
    PollReportsIffOwed(After(InitialHost(n), steps));
  }

  // --- the departures of the text ---

  /** Resetting a peer at once breaks the counters exactly when the peer is counted. */
  lemma DisconnectNowKeepsCountersIff(h: Host, i: nat)
    requires Exact(h) && i < |h.guests|
    ensures Exact(DisconnectAtOnceAsWritten(h, i)) <==> !Counted(h.guests[i].state)
  {
    TallySet(h.guests, i, Fresh(), IsConnected());
    TallySet(h.guests, i, Fresh(), IsLimited());
  }

  /** Leaving the counters without leaving the state breaks them exactly when the branch is taken. */
  lemma PurgeAfterLoadingKeepsCountersIff(h: Host, i: nat, waiting: bool, sent: bool)
    requires Exact(h) && i < |h.guests|
    ensures Exact(AfterLoadingAsWritten(h, i, waiting, sent)) <==>
            !(h.guests[i].state == DisconnectLater && !waiting && sent)
  {
  }

  // --- what is received while disconnecting later ---

  /** The event that a step reports. */
  function EventOf(h: Host, step: Step): Event
    requires Enabled(h, step)
  {
    if step.Poll? then NextEvent(h).1 else None
  }

  /** In no state of the run is the queue of received segments of the peer empty: nothing has reset it. */
  ghost predicate NeverCleared(h: Host, i: nat, steps: seq<Step>)
    requires Possible(h, steps)
    decreases |steps|
  {
    && i < |h.guests| && h.guests[i].dispatched > 0
    && (steps != [] ==> NeverCleared(Next(h, steps[0]), i, steps[1..]))
  }

  /** Some poll of the run reports a segment of the peer. */
  ghost predicate Reports(h: Host, i: nat, steps: seq<Step>)
    requires Possible(h, steps)
    decreases |steps|
  {
    steps != [] && (EventOf(h, steps[0]) == Data(i) || Reports(Next(h, steps[0]), i, steps[1..]))
  }

  /** The peer has taken in segments that polling passes over. */
  predicate Stranded(g: Guest, held: nat) {
    (g.state == DisconnectLater || g.state == Zombie) && g.dispatched >= held > 0
  }

  /** After the change the peer still holds what it held, or its queues have been reset. */
  ghost predicate KeptOrCleared(h: Host, r: Host, i: nat, held: nat)
    requires i < |h.guests|
  {
    |r.guests| == |h.guests| && (r.guests[i].dispatched > 0 ==> Stranded(r.guests[i], held))
  }

  lemma DepartureKeepsOrClears(h: Host, i: nat, j: nat, held: nat)
    requires i < |h.guests| && j < |h.guests| && Stranded(h.guests[i], held)
    ensures KeptOrCleared(h, Disconnect(h, j), i, held)
    ensures KeptOrCleared(h, DisconnectAtOnce(h, j), i, held)
    ensures KeptOrCleared(h, DispatchState(h, j, Zombie), i, held)
  {
  }

  lemma VerifyKeepsOrClears(h: Host, i: nat, j: nat, held: nat, accepted: bool, limited: bool, withEvent: bool)
    requires i < |h.guests| && j < |h.guests| && Stranded(h.guests[i], held)
    ensures KeptOrCleared(h, HandleVerifyConnect(h, j, accepted, limited, withEvent), i, held)
  {
    if h.guests[j].state == Connecting { DepartureKeepsOrClears(h, i, j, held); }
  }

  lemma CommandKeepsOrClears(h: Host, i: nat, j: nat, held: nat, acknowledge: bool)
    requires i < |h.guests| && j < |h.guests| && Stranded(h.guests[i], held)
    ensures KeptOrCleared(h, HandleDisconnect(h, j, acknowledge), i, held)
  {
    var r := ResetQueues(h, j);
    assert DispatchState(r, j, Zombie).guests == r.guests[j := DispatchState(r, j, Zombie).guests[j]];
    assert i == j ==> DispatchState(r, j, Zombie).guests[i].dispatched == 0;
  }

  lemma SegmentsKeepOrClear(h: Host, i: nat, j: nat, held: nat, count: nat)
    requires i < |h.guests| && j < |h.guests| && Stranded(h.guests[i], held)
    ensures KeptOrCleared(h, Deliver(h, j, count), i, held)
  {
  }

  lemma AckKeepsOrClears(h: Host, i: nat, j: nat, held: nat, removed: Removed, drained: bool, withEvent: bool)
    requires i < |h.guests| && j < |h.guests| && Stranded(h.guests[i], held)
    ensures KeptOrCleared(h, HandleAcknowledge(h, j, removed, drained, withEvent), i, held)
  {
    if h.guests[j].state == DisconnectLater { DepartureKeepsOrClears(h, i, j, held); }
  }

  lemma HandlerKeepsStranded(h: Host, i: nat, step: Step, held: nat)
    requires Enabled(h, step) && !step.Poll? && i < |h.guests| && Stranded(h.guests[i], held)
    ensures KeptOrCleared(h, Next(h, step), i, held)
  {
    DepartureKeepsOrClears(h, i, step.i, held);
    match step {
      case VerifyArrives(j, a, b, c) => VerifyKeepsOrClears(h, i, j, held, a, b, c);
      case AckArrives(j, removed, drained, withEvent) => AckKeepsOrClears(h, i, j, held, removed, drained, withEvent);
      case DisconnectArrives(j, a) => CommandKeepsOrClears(h, i, j, held, a);
      case SegmentsArrive(j, count) => SegmentsKeepOrClear(h, i, j, held, count);
      case _ =>
    }
  }

  lemma {:induction false} PollKeepsStranded(h: Host, i: nat, held: nat)
    requires Enabled(h, Poll) && i < |h.guests| && Stranded(h.guests[i], held)
    ensures var r := NextEvent(h);
            && r.1 != Data(i) && |r.0.guests| == |h.guests|
            && (r.0.guests[i].dispatched > 0 ==> Stranded(r.0.guests[i], held))
    decreases |h.queue|
  {
    if h.queue != [] && !Owes(h.guests[h.queue[0]]) {
      assert NextEvent(h) == NextEvent(Taken(h));
      PollKeepsStranded(Taken(h), i, held);
    }
  }

  /** What a peer that is disconnecting later holds is never reported: no run reports a segment of it
      before its queues are reset, and until then it keeps all that it holds. */
  lemma {:induction false} DisconnectLaterIsNeverReported(h: Host, i: nat, steps: seq<Step>, held: nat)
    requires Possible(h, steps) && NeverCleared(h, i, steps) && Stranded(h.guests[i], held)
    ensures !Reports(h, i, steps)
    ensures i < |After(h, steps).guests| && Stranded(After(h, steps).guests[i], held)
    decreases |steps|
  {
    if steps != [] {
      if steps[0].Poll? {
        PollKeepsStranded(h, i, held);
      } else {
        HandlerKeepsStranded(h, i, steps[0], held);
      }
      DisconnectLaterIsNeverReported(Next(h, steps[0]), i, steps[1..], held);
    }
  }

  /** So segments that become deliverable are owed to the application exactly when the peer is connected
      and not disconnecting later. */
  lemma DeliveredIsOwedIff(h: Host, i: nat, count: nat)
    requires i < |h.guests| && Counted(h.guests[i].state) && count > 0
    ensures Owes(Deliver(h, i, count).guests[i]) <==> h.guests[i].state == Connected
  {
  }

  // --- what is owed comes ---

  function Polls(n: nat): (steps: seq<Step>)
    ensures |steps| == n && forall k :: 0 <= k < n ==> steps[k] == Poll
  {
    seq(n, _ => Poll)
  }

  lemma {:induction false} PollsArePossible(h: Host, n: nat)
    requires Good(h)
    ensures Possible(h, Polls(n))
    decreases n
  {
    if n > 0 {
      PollSettles(h);
      assert Polls(n)[1..] == Polls(n - 1);
      PollsArePossible(NextEvent(h).0, n - 1);
    }
  }

  /** The event that settles what a peer owes. */
  function Due(g: Guest, i: nat): Event {
    match g.state
    case Zombie => Left(i)
    case ConnectionPending => Came(i)
    case ConnectionSucceeded => Came(i)
    case Connected => if g.dispatched > 0 then Data(i) else None
    case _ => None
  }

  predicate About(e: Event, i: nat) {
    e == Came(i) || e == Left(i) || e == Data(i)
  }

  /** One poll brings a peer that owes an event that event, or nearer to the front. */
  lemma {:induction false} PollBringsNearer(h: Host, i: nat, p: nat) returns (q: nat)
    requires Good(h) && i < |h.guests| && Owes(h.guests[i])
    requires p < |h.queue| && h.queue[p] == i && forall k :: 0 <= k < p ==> h.queue[k] != i
    ensures var r := NextEvent(h);
            || r.1 == Due(h.guests[i], i)
            || (&& !About(r.1, i) && |r.0.guests| == |h.guests| && r.0.guests[i] == h.guests[i]
                && q < p && q < |r.0.queue| && r.0.queue[q] == i && forall k :: 0 <= k < q ==> r.0.queue[k] != i)
    decreases p
  {
    var r := NextEvent(h);
    q := 0;
    if p > 0 {
      var t := Taken(h);
      assert t.guests[i] == h.guests[i];
      if Owes(h.guests[h.queue[0]]) {
        EventLeavesOthers(h, i);
        q := p - 1;
        assert r.0.queue[q] == i;
      } else {
        TakenKeepsGood(h);
        SkipIsTaken(h);
        q := PollBringsNearer(t, i, p - 1);
      }
    }
  }

  lemma EventLeavesOthers(h: Host, i: nat)
    requires Good(h) && i < |h.guests| && h.queue != [] && h.queue[0] != i && Owes(h.guests[h.queue[0]])
    ensures var r := NextEvent(h).0;
            && |r.guests| == |h.guests| && r.guests[i] == h.guests[i]
            && h.queue[1..] <= r.queue
  {
    assert Queued(h, h.queue[0]);
  }

  /** A segment that a connected peer holds is reported after some number of polls. */
  lemma {:induction false} OwedIsReported(h: Host, i: nat, p: nat) returns (n: nat)
    requires Good(h) && i < |h.guests| && h.guests[i].state == Connected && h.guests[i].dispatched > 0
    requires p < |h.queue| && h.queue[p] == i && forall k :: 0 <= k < p ==> h.queue[k] != i
    ensures Possible(h, Polls(n)) && Reports(h, i, Polls(n))
    decreases p
  {
    var q := PollBringsNearer(h, i, p);
    PollSettles(h);
    var r := NextEvent(h);
    if r.1 == Data(i) {
      n := 1;
      PollsArePossible(h, 1);
      assert Polls(1)[0] == Poll;
    } else {
      var m := OwedIsReported(r.0, i, q);
      n := m + 1;
      assert Polls(n)[1..] == Polls(m) && Polls(n)[0] == Poll;
    }
  }

  lemma FirstPlace(queue: seq<nat>, i: nat) returns (p: nat)
    requires i in queue
    ensures p < |queue| && queue[p] == i && forall k :: 0 <= k < p ==> queue[k] != i
  {
    p := 0;
    while queue[p] != i
      invariant p < |queue| && i in queue[p..] && forall k :: 0 <= k < p ==> queue[k] != i
      decreases |queue| - p
    {
      p := p + 1;
    }
  }

  lemma {:induction false} PollsKeepStranded(h: Host, i: nat, n: nat)
    requires Good(h) && i < |h.guests| && h.guests[i].state == DisconnectLater && h.guests[i].dispatched > 0
    ensures Possible(h, Polls(n)) && !Reports(h, i, Polls(n))
    decreases n
  {
    PollsArePossible(h, n);
    if n > 0 {
      PollLeavesLater(h, i);
      PollSettles(h);
      assert Polls(n)[1..] == Polls(n - 1);
      PollsKeepStranded(NextEvent(h).0, i, n - 1);
    }
  }

  lemma {:induction false} PollLeavesLater(h: Host, i: nat)
    requires Good(h) && i < |h.guests| && h.guests[i].state == DisconnectLater && h.guests[i].dispatched > 0
    ensures var r := NextEvent(h);
            && r.1 != Data(i) && |r.0.guests| == |h.guests|
            && r.0.guests[i].state == DisconnectLater && r.0.guests[i].dispatched > 0
    decreases |h.queue|
  {
    if h.queue != [] && !Owes(h.guests[h.queue[0]]) {
      TakenKeepsGood(h);
      SkipIsTaken(h);
      PollLeavesLater(Taken(h), i);
    }
  }

  /** After segments have become deliverable, polling reports one in the end exactly when the peer is
      connected and not disconnecting later. */
  lemma DeliveredIsReportedIff(h: Host, i: nat, count: nat)
    requires Good(h) && i < |h.guests| && Counted(h.guests[i].state) && count > 0
    ensures Good(Deliver(h, i, count))
    ensures forall n :: Possible(Deliver(h, i, count), Polls(n))
    ensures (exists n :: Reports(Deliver(h, i, count), i, Polls(n))) <==> h.guests[i].state == Connected
  {
    var r := Deliver(h, i, count);
    HandlerKeepsGood(h, SegmentsArrive(i, count));
    forall n
      ensures Possible(r, Polls(n))
    {
      PollsArePossible(r, n);
    }
    if h.guests[i].state == Connected {
      assert Queued(r, i);
      var p := FirstPlace(r.queue, i);
      var n := OwedIsReported(r, i, p);
    } else {
      forall n
        ensures !Reports(r, i, Polls(n))
      {
        PollsKeepStranded(r, i, n);
      }
    }
  }
}
