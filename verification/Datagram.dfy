/** The datagram under construction: its slots, its size against the MTU, and that the waiting list
    is never stuck when nothing is in flight. */
module Datagram {
  import opened Numbers
  import opened Fragments
  import opened Pod
  import opened Books

  const ACKNOWLEDGE_SIZE := 8

  /** The chamber as the sending loop resets it for a peer: slot 0 is for the header. */
  function EmptyChamber(): Chamber {
    Chamber(0, 1, PROTOCOL_HEADER_SIZE, false)
  }

  /** The datagram respects the MTU, and every command has taken at most two buffer slots. */
  predicate Bounded(ch: Chamber, mtu: nat) {
    && ch.size <= mtu
    && ch.commands <= CHAMBER_COMMANDS
    && ch.buffers <= 1 + 2 * ch.commands
  }

  /** As long as a command slot is free, there is a buffer slot for the command and one for its
      payload: the tests on buffer slots never decide. */
  lemma PayloadSlotIsThere(ch: Chamber, mtu: nat)
    requires Bounded(ch, mtu) && ch.commands < CHAMBER_COMMANDS
    ensures ch.buffers + 1 < CHAMBER_BUFFERS
    ensures TakeSlots(ch).buffers == ch.buffers + 1 < CHAMBER_BUFFERS
  {
  }

  lemma LoadOneKeepsBound(s: Loading, env: Env)
    requires !s.stopped && s.next < |s.pod.outgoing| && WellFormed(s.pod) && Bounded(s.chamber, env.mtu)
    ensures Bounded(LoadOne(s, env).chamber, env.mtu)
  {
  }

  lemma {:induction false} LoadRestKeepsBound(s: Loading, env: Env)
    requires s.next <= |s.pod.outgoing| && WellFormed(s.pod) && Bounded(s.chamber, env.mtu)
    ensures Bounded(LoadRest(s, env).chamber, env.mtu)
    decreases if s.stopped then 0 else |s.pod.outgoing| - s.next
  {
    if !s.stopped && s.next < |s.pod.outgoing| {
      LoadOneKeepsBound(s, env);
      var t := LoadOne(s, env);
      if !t.stopped { LoadRestKeepsBound(t, env); }
    }
  }

  // --- acknowledgements: SendAcknowledgements ---

  datatype AckLoad = AckLoad(chamber: Chamber, sent: seq<uint16>, lost: seq<uint16>, rest: seq<uint16>)

  /** Each turn takes the slots and pops the acknowledgement before it tests for space, so the one
      that does not fit is gone. */
  function LoadAcks(ch: Chamber, acks: seq<uint16>, mtu: nat): AckLoad
    decreases |acks|
  {
    if acks == [] then AckLoad(ch, [], [], [])
    else if ch.commands >= CHAMBER_COMMANDS || ch.buffers >= CHAMBER_BUFFERS || mtu < ch.size + ACKNOWLEDGE_SIZE then
      AckLoad(TakeSlots(ch).(continueSending := true), [], [acks[0]], acks[1..])
    else
      var r := LoadAcks(TakeSlots(ch).(size := ch.size + ACKNOWLEDGE_SIZE), acks[1..], mtu);
      r.(sent := [acks[0]] + r.sent)
  }

  /** Acknowledgements leave in order; at most one is lost, when another round is asked for, and none
      is left behind without one being lost. */
  lemma {:induction false} AcksAreSentInOrder(ch: Chamber, acks: seq<uint16>, mtu: nat)
    requires Bounded(ch, mtu) && !ch.continueSending
    ensures var r := LoadAcks(ch, acks, mtu);
            && acks == r.sent + r.lost + r.rest
            && |r.lost| <= 1
            && (r.lost != [] <==> r.chamber.continueSending)
            && (r.lost == [] ==> r.rest == [])
            && Bounded(r.chamber, mtu)
    decreases |acks|
  {
    if acks != [] && !(ch.commands >= CHAMBER_COMMANDS || mtu < ch.size + ACKNOWLEDGE_SIZE) {
      PayloadSlotIsThere(ch, mtu);
      AcksAreSentInOrder(TakeSlots(ch).(size := ch.size + ACKNOWLEDGE_SIZE), acks[1..], mtu);
    }
  }

  /** None is lost exactly when all of them fit. */
  lemma {:induction false} AckIsLostIffFull(ch: Chamber, acks: seq<uint16>, mtu: nat)
    requires Bounded(ch, mtu)
    ensures LoadAcks(ch, acks, mtu).lost == [] <==>
            ch.commands + |acks| <= CHAMBER_COMMANDS && ch.size + ACKNOWLEDGE_SIZE * |acks| <= mtu
    decreases |acks|
  {
    if acks != [] && !(ch.commands >= CHAMBER_COMMANDS || mtu < ch.size + ACKNOWLEDGE_SIZE) {
      PayloadSlotIsThere(ch, mtu);
      AckIsLostIffFull(TakeSlots(ch).(size := ch.size + ACKNOWLEDGE_SIZE), acks[1..], mtu);
    }
  }

  // --- progress ---

  /** A command that `Send` or the control paths queue, against the MTU in force. */
  predicate Small(b: Body, mtu: nat) {
    PROTOCOL_HEADER_SIZE + CommandSize(b) + Length(b) <= mtu
  }

  /** Every command of a message fits into an empty datagram, also with the largest fragment. */
  lemma CommandsOfMessagesAreSmall(m: Message, first: nat, i: nat, mtu: nat)
    requires MINIMUM_MTU <= mtu && m.limit <= mtu - PROTOCOL_HEADER_SIZE - SEND_FRAGMENT_SIZE && i < Count(m)
    ensures Small(BodyOf(m, first, i), mtu)
  {
    if |m.data| > m.limit { PieceBounds(m, i); }
  }

  lemma NothingFlies(p: State, channel: nat, w: nat)
    requires Sound(p) && channel < |p.lanes| && w < WINDOWS
    requires p.sent == [] && p.outgoing != [] && p.outgoing[0].attempts == 0
    ensures p.lanes[channel].windows[w] == 0 && !p.lanes[channel].used[w]
  {
    assert p.lanes[channel].windows[w] == Total(p, FlyingIn(channel, w));
    if Sum(p.outgoing, FlyingIn(channel, w)) > 0 {
      var i := SumWitness(p.outgoing, FlyingIn(channel, w));
      assert false;
    }
  }

  lemma HeadDoesNotWrap(p: State)
    requires Sound(p) && p.sent == [] && p.outgoing != [] && p.outgoing[0].channel < |p.lanes|
    ensures !WindowWraps(p.lanes[p.outgoing[0].channel], p.outgoing[0])
  {
    var c := p.outgoing[0];
    if c.attempts == 0 {
      forall w: nat | w < WINDOWS
        ensures p.lanes[c.channel].windows[w] == 0 && !p.lanes[c.channel].used[w]
      {
        NothingFlies(p, c.channel, w);
      }
    }
  }

  lemma LoadedStays(s: Loading, env: Env)
    requires s.next <= |s.pod.outgoing| && WellFormed(s.pod)
    ensures s.loaded <= LoadRest(s, env).loaded
    decreases if s.stopped then 0 else |s.pod.outgoing| - s.next
  {
    if !s.stopped && s.next < |s.pod.outgoing| {
      var t := LoadOne(s, env);
      if !t.stopped { LoadedStays(t, env); }
    }
  }

  /** Progress: when no command is waiting for an acknowledgement, neither the data window nor the
      sequence windows block the head of the waiting list, and an empty datagram takes it. */
  lemma HeadIsLoaded(p: State, env: Env)
    requires Sound(p) && p.sent == [] && p.outgoing != [] && Small(p.outgoing[0].body, env.mtu)
    ensures var l := Load(p, EmptyChamber(), env).loaded; l != [] && l[0] == Stamped(p.outgoing[0], env)
  {
    var s, c := StartLoading(p, EmptyChamber()), p.outgoing[0];
    if c.channel < |p.lanes| { HeadDoesNotWrap(p); }
    assert p.inTransit == 0;
    var t := LoadOne(s, env);
    assert t.loaded == [Stamped(c, env)];
    LoadedStays(t, env);
  }
}
