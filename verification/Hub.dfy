/** The dispatch hub and the handlers that move peers between states, in place: every method does to
    the objects what its function of `Lifecycle` does to the host. */
module Hubs {
  import opened PeerStates
  import opened PeerNets
  import opened Lifecycle

  class Peer {
    const index: nat
    const net: PeerNet
    var needsDispatch: bool
    var dispatched: seq<seq<bv8>>

    constructor (index: nat)
      ensures this.index == index && fresh(net) && !needsDispatch && dispatched == []
      ensures net.state == Disconnected && net.incomingBandwidth == 0
    {
      this.index := index;
      net := new PeerNet();
      needsDispatch, dispatched := false, [];
    }

    function View(): Guest
      reads this, net
    {
      Guest(net.state, needsDispatch, |dispatched|, net.incomingBandwidth != 0)
    }
  }

  class DispatchHub {
    const peers: seq<Peer>
    var queue: seq<Peer>
    var connectedPeers: int
    var limitedPeers: int
    var recalculate: bool
    ghost var model: Host

    /** The peers are different objects, each with a network side of its own. */
    ghost predicate Apart() {
      && (forall i :: 0 <= i < |peers| ==> peers[i].index == i)
      && (forall i, j :: 0 <= i < j < |peers| ==> peers[i].net != peers[j].net)
    }

    ghost predicate Valid()
      reads this, peers, set p | p in peers :: p.net
    {
      && Apart()
      && |model.guests| == |peers| && |model.queue| == |queue|
      && (forall i :: 0 <= i < |peers| ==> model.guests[i] == peers[i].View())
      && (forall k :: 0 <= k < |queue| ==> model.queue[k] < |peers| && queue[k] == peers[model.queue[k]])
      && model.connected == connectedPeers && model.limited == limitedPeers && model.recalculate == recalculate
    }

    ghost predicate Has(peer: Peer) {
      peer.index < |peers| && peers[peer.index] == peer
    }

    constructor (peers: seq<Peer>)
      requires forall i :: 0 <= i < |peers| ==> peers[i].index == i && peers[i].View() == Fresh()
      requires forall i, j :: 0 <= i < j < |peers| ==> peers[i].net != peers[j].net
      ensures this.peers == peers && Valid() && model == InitialHost(|peers|)
    {
      this.peers := peers;
      queue, connectedPeers, limitedPeers, recalculate := [], 0, 0, false;
      model := InitialHost(|peers|);
    }

    method MergePeer(peer: Peer)
      requires Valid() && Has(peer)
      modifies this`connectedPeers, this`limitedPeers, this`model
      ensures Valid() && model == Merge(old(model), peer.index)
    {
      if peer.net.state != Connected && peer.net.state != PeerState.DisconnectLater {
        if peer.net.incomingBandwidth != 0 { limitedPeers := limitedPeers + 1; }
        connectedPeers := connectedPeers + 1;
      }
      model := Merge(model, peer.index);
    }

    method PurgePeer(peer: Peer)
      requires Valid() && Has(peer)
      modifies this`connectedPeers, this`limitedPeers, this`model
      ensures Valid() && model == Purge(old(model), peer.index)
    {
      if peer.net.state == Connected || peer.net.state == PeerState.DisconnectLater {
        if peer.net.incomingBandwidth != 0 { limitedPeers := limitedPeers - 1; }
        connectedPeers := connectedPeers - 1;
      }
      model := Purge(model, peer.index);
    }

    method ChangeState(peer: Peer, s: PeerState)
      requires Valid() && Has(peer)
      modifies this`connectedPeers, this`limitedPeers, this`model, peer.net`state
      ensures Valid() && model == Lifecycle.ChangeState(old(model), peer.index, s)
    {
      if s == Connected || s == PeerState.DisconnectLater { MergePeer(peer); } else { PurgePeer(peer); }
      peer.net.state := s;
      model := Set(model, peer.index, model.guests[peer.index].(state := s));
    }

    method DispatchState(peer: Peer, s: PeerState)
      requires Valid() && Has(peer)
      modifies this, peer`needsDispatch, peer.net`state
      ensures Valid() && model == Lifecycle.DispatchState(old(model), peer.index, s)
    {
      ChangeState(peer, s);
      if !peer.needsDispatch {
        peer.needsDispatch := true;
        queue := queue + [peer];
      }
      model := Lifecycle.DispatchState(old(model), peer.index, s);
    }

    method NotifyConnect(peer: Peer, withEvent: bool)
      requires Valid() && Has(peer)
      modifies this, peer`needsDispatch, peer.net`state
      ensures Valid() && model == Lifecycle.NotifyConnect(old(model), peer.index, withEvent)
    {
      recalculate := true;
      model := model.(recalculate := true);
      if withEvent {
        ChangeState(peer, Connected);
      } else {
        DispatchState(peer, if peer.net.state == Connecting then ConnectionSucceeded else ConnectionPending);
      }
    }

    /** `Peer::ResetPeerQueues`. */
    method ResetPeerQueues(peer: Peer)
      requires Valid() && Has(peer)
      modifies this`model, peer
      ensures Valid() && model == ResetQueues(old(model), peer.index)
    {
      peer.needsDispatch := false;
      peer.dispatched := [];
      model := ResetQueues(model, peer.index);
    }

    /** `Peer::Reset`. */
    method Reset(peer: Peer)
      requires Valid() && Has(peer)
      modifies this`model, peer, peer.net
      ensures Valid() && model == Lifecycle.ResetPeer(old(model), peer.index)
    {
      peer.net.state := Disconnected;
      peer.net.incomingBandwidth, peer.net.outgoingBandwidth := 0, 0;
      peer.net.incomingEpoch, peer.net.outgoingEpoch := 0, 0;
      peer.net.throttle, peer.net.throttleLimit, peer.net.throttleCounter := 32, 32, 0;
      peer.needsDispatch := false;
      peer.dispatched := [];
      model := Lifecycle.ResetPeer(model, peer.index);
    }

    method NotifyDisconnect(peer: Peer, withEvent: bool)
      requires Valid() && Has(peer)
      modifies this, peer, peer.net
      ensures Valid() && model == Lifecycle.NotifyDisconnect(old(model), peer.index, withEvent)
    {
      if peer.net.state == ConnectionPending {
        recalculate := true;
        model := model.(recalculate := true);
      }
      if Early(peer.net.state) {
        Reset(peer);
      } else if withEvent {
        Reset(peer);
      } else {
        DispatchState(peer, Zombie);
      }
    }

    method HandleVerifyConnect(peer: Peer, accepted: bool, incomingBandwidth: nat, withEvent: bool)
      requires Valid() && Has(peer) && incomingBandwidth < 0x1_0000_0000
      modifies this, peer`needsDispatch, peer.net
      ensures Valid()
      ensures model == Lifecycle.HandleVerifyConnect(old(model), peer.index, accepted, incomingBandwidth != 0, withEvent)
    {
      if peer.net.state != Connecting { return; }
      if !accepted {
        DispatchState(peer, Zombie);
        return;
      }
      peer.net.incomingBandwidth := incomingBandwidth;
      model := Set(model, peer.index, model.guests[peer.index].(limited := incomingBandwidth != 0));
      NotifyConnect(peer, withEvent);
    }

    method HandleDisconnect(peer: Peer, acknowledge: bool)
      requires Valid() && Has(peer)
      modifies this, peer, peer.net
      ensures Valid() && model == Lifecycle.HandleDisconnect(old(model), peer.index, acknowledge)
    {
      var s := peer.net.state;
      if s == Disconnected || s == Zombie || s == AcknowledgingDisconnect { return; }
      ResetPeerQueues(peer);
      if s == ConnectionSucceeded || s == Disconnecting || s == Connecting {
        DispatchState(peer, Zombie);
      } else if s != Connected && s != PeerState.DisconnectLater {
        if s == ConnectionPending {
          recalculate := true;
          model := model.(recalculate := true);
        }
        Reset(peer);
      } else if acknowledge {
        ChangeState(peer, AcknowledgingDisconnect);
      } else {
        DispatchState(peer, Zombie);
      }
    }

    /** `PeerPod::Disconnect`. */
    method Disconnect(peer: Peer)
      requires Valid() && Has(peer)
      modifies this, peer, peer.net
      ensures Valid() && model == Lifecycle.Disconnect(old(model), peer.index)
    {
      var s := peer.net.state;
      if s == Disconnecting || s == Disconnected || s == AcknowledgingDisconnect || s == Zombie { return; }
      ResetPeerQueues(peer);
      if s == Connected || s == PeerState.DisconnectLater {
        PurgePeer(peer);
        peer.net.state := Disconnecting;
        model := Set(model, peer.index, model.guests[peer.index].(state := Disconnecting));
      } else {
        Reset(peer);
      }
    }

    method HandleAcknowledge(peer: Peer, removed: Removed, drained: bool, withEvent: bool)
      requires Valid() && Has(peer)
      modifies this, peer, peer.net
      ensures Valid() && model == Lifecycle.HandleAcknowledge(old(model), peer.index, removed, drained, withEvent)
    {
      var s := peer.net.state;
      if s == AcknowledgingConnect {
        if removed == VerifyConnect { NotifyConnect(peer, withEvent); }
      } else if s == Disconnecting {
        if removed == DisconnectCommand { NotifyDisconnect(peer, withEvent); }
      } else if s == PeerState.DisconnectLater {
        if drained { Disconnect(peer); }
      }
    }

    /** `DispatchIncomingReliableCommands`, given the segments that have become deliverable. A new batch
        goes in front of what is still waiting, as `PushIncomingCommandsToDispatchQueue` has it. */
    method Deliver(peer: Peer, segments: seq<seq<bv8>>)
      requires Valid() && Has(peer) && Counted(peer.net.state)
      modifies this, peer
      ensures Valid() && model == Lifecycle.Deliver(old(model), peer.index, |segments|)
      ensures peer.dispatched == segments + old(peer.dispatched)
    {
      if segments == [] { return; }
      peer.dispatched := segments + peer.dispatched;
      if !peer.needsDispatch {
        queue := queue + [peer];
        peer.needsDispatch := true;
      }
      model := Lifecycle.Deliver(model, peer.index, |segments|);
    }

    /** `PeerPod::DisconnectLater`, given whether any command waits or is unacknowledged. */
    method DisconnectLater(peer: Peer, waiting: bool)
      requires Valid() && Has(peer)
      modifies this, peer, peer.net
      ensures Valid() && model == DisconnectAfterward(old(model), peer.index, waiting)
    {
      if (peer.net.state == Connected || peer.net.state == PeerState.DisconnectLater) && waiting {
        peer.net.state := PeerState.DisconnectLater;
        model := Set(model, peer.index, model.guests[peer.index].(state := PeerState.DisconnectLater));
      } else {
        Disconnect(peer);
      }
    }

    /** `PeerPod::DisconnectNow`, with the peer purged first. */
    method DisconnectNow(peer: Peer)
      requires Valid() && Has(peer)
      modifies this, peer, peer.net
      ensures Valid() && model == DisconnectAtOnce(old(model), peer.index)
    {
      if peer.net.state == Disconnected { return; }
      ResetPeer(peer);
    }

    method Dequeue() returns (peer: Peer)
      requires Valid() && queue != []
      modifies this`queue, this`model, queue[0]
      ensures Valid() && Has(peer) && peer == old(queue[0]) && peer.index == old(model).queue[0]
      ensures model == Taken(old(model)) && peer.dispatched == old(queue[0].dispatched)
    {
      peer := queue[0];
      queue := queue[1..];
      peer.needsDispatch := false;
      model := Taken(model);
    }

    /** `RUdpProtocol::ResetPeer`. */
    method ResetPeer(peer: Peer)
      requires Valid() && Has(peer)
      modifies this, peer, peer.net
      ensures Valid() && model == Lifecycle.ResetPeer(Purge(old(model), peer.index), peer.index)
    {
      PurgePeer(peer);
      Reset(peer);
    }

    /** `Peer::Receive`, and queueing the peer again when more is waiting. */
    method Receive(peer: Peer) returns (segment: seq<bv8>)
      requires Valid() && Has(peer) && peer.dispatched != []
      modifies this`queue, this`model, peer
      ensures Valid() && segment == old(peer.dispatched[0]) && peer.dispatched == old(peer.dispatched[1..])
      ensures var r := Set(old(model), peer.index, peer.View());
              if peer.dispatched == [] then model == r && peer.needsDispatch == old(peer.needsDispatch)
              else model == r.(queue := old(model).queue + [peer.index]) && peer.needsDispatch
    {
      segment := peer.dispatched[0];
      peer.dispatched := peer.dispatched[1..];
      if peer.dispatched != [] {
        peer.needsDispatch := true;
        queue := queue + [peer];
        model := model.(queue := model.queue + [peer.index]);
      }
      model := Set(model, peer.index, peer.View());
    }

    /** One turn of the loop below: the front of the queue is taken and may owe an event. */
    method Dispatch() returns (e: Event)
      requires Valid() && queue != [] && NoLostEvent(model)
      modifies this, queue[0], queue[0].net
      ensures Valid()
      ensures Owes(old(model).guests[old(model).queue[0]]) ==> (model, e) == NextEvent(old(model))
      ensures !Owes(old(model).guests[old(model).queue[0]]) ==> e == None && model == Taken(old(model))
    {
      e := None;
      var peer := Dequeue();
      var s := peer.net.state;
      if s == ConnectionPending || s == ConnectionSucceeded {
        ChangeState(peer, Connected);
        e := Came(peer.index);
      } else if s == Zombie {
        recalculate := true;
        model := model.(recalculate := true);
        ResetPeer(peer);
        e := Left(peer.index);
      } else if s == Connected && peer.dispatched != [] {
        var segment := Receive(peer);
        e := Data(peer.index);
      }
    }

    /** The loop takes peers from the queue until one owes an event. */
    method DispatchIncomingCommands() returns (e: Event)
      requires Valid() && Good(model)
      modifies this, peers, set p | p in peers :: p.net
      ensures Valid() && (model, e) == NextEvent(old(model))
      ensures Good(model) && Settles(old(model), model, e)
    {
      PollSettles(model);
      e := None;
      while queue != [] && e == None
        invariant Valid()
        invariant if e == None then Good(model) && NextEvent(model) == NextEvent(old(model))
                  else (model, e) == NextEvent(old(model))
        decreases e == None, |queue|
      {
        if !Owes(model.guests[model.queue[0]]) {
          TakenKeepsGood(model);
          SkipIsTaken(model);
        }
        e := Dispatch();
      }
    }
  }
}
