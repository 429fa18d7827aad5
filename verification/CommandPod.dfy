/** `CommandPod` and `Chamber`, in place: every loop does to the lists, the counters and the channels
    what its function of `Pod` does to the sending half as a value. */
module CommandPods {
  import opened Numbers
  import opened Clock
  import opened Fragments
  import opened Pod
  import opened Channels
  import opened PeerStates
  import opened PeerNets
  import Turns
  import Chambers = Datagram

  class Datagram {
    var commands: nat
    var buffers: nat
    var size: nat
    var continueSending: bool

    constructor ()
      ensures View() == Chamber(0, 1, PROTOCOL_HEADER_SIZE, false)
    {
      commands, buffers, size, continueSending := 0, 1, PROTOCOL_HEADER_SIZE, false;
    }

    function View(): Chamber
      reads this
    {
      Chamber(commands, buffers, size, continueSending)
    }

    /** The chamber as it is emptied for a peer; whether sending continues is shared by all peers. */
    method Reset()
      modifies this`commands, this`buffers, this`size
      ensures View() == Chambers.EmptyChamber().(continueSending := continueSending)
    {
      commands, buffers, size := 0, 1, PROTOCOL_HEADER_SIZE;
    }

    /** `SendAcknowledgements`: the loop pops an acknowledgement before it tests for space. */
    method SendAcknowledgements(acks: seq<uint16>, mtu: nat) returns (gone: seq<uint16>, lost: seq<uint16>, rest: seq<uint16>)
      modifies this
      ensures Chambers.AckLoad(View(), gone, lost, rest) == Chambers.LoadAcks(old(View()), acks, mtu)
    {
      gone, lost, rest := [], [], acks;
      ghost var all := Chambers.LoadAcks(View(), acks, mtu);
      while rest != []
        invariant lost == []
        invariant var r := Chambers.LoadAcks(View(), rest, mtu);
                  all == Chambers.AckLoad(r.chamber, gone + r.sent, r.lost, r.rest)
        decreases |rest|
      {
        ghost var r := Chambers.LoadAcks(View(), rest, mtu);
        var command, buffer := TakeSlots();
        var ack := rest[0];
        rest := rest[1..];
        if !command || !buffer || mtu < size + Chambers.ACKNOWLEDGE_SIZE {
          continueSending := true;
          lost := [ack];
          assert gone + [] == gone;
          return;
        }
        size := size + Chambers.ACKNOWLEDGE_SIZE;
        assert gone + ([ack] + r.sent[1..]) == (gone + [ack]) + r.sent[1..];
        gone := gone + [ack];
      }
      assert gone + [] == gone;
    }

    method EmptyCommandBuffer() returns (found: bool)
      modifies this`commands
      ensures found == (old(commands) < CHAMBER_COMMANDS) && commands == old(commands) + if found then 1 else 0
    {
      found := commands < CHAMBER_COMMANDS;
      if found { commands := commands + 1; }
    }

    method EmptyDataBuffer() returns (found: bool)
      modifies this`buffers
      ensures found == (old(buffers) < CHAMBER_BUFFERS) && buffers == old(buffers) + if found then 1 else 0
    {
      found := buffers < CHAMBER_BUFFERS;
      if found { buffers := buffers + 1; }
    }

    /** Each turn of the loading loop begins with both. */
    method TakeSlots() returns (command: bool, buffer: bool)
      modifies this`commands, this`buffers
      ensures View() == Pod.TakeSlots(old(View()))
      ensures command == (old(commands) < CHAMBER_COMMANDS) && buffer == (old(buffers) < CHAMBER_BUFFERS)
    {
      command := EmptyCommandBuffer();
      buffer := EmptyDataBuffer();
    }

    /** The slots are given as found or not; `last` says that the buffer slot is the last one. */
    method SendingContinues(command: bool, buffer: bool, last: bool, mtu: nat, commandSize: nat, hasPayload: bool, length: nat)
      returns (full: bool)
      ensures full == (|| !command || !buffer || last || mtu < size + commandSize
                       || (hasPayload && mtu < size + commandSize + length))
    {
      if !command { return true; }
      if !buffer || last { return true; }
      if mtu < size + commandSize { return true; }
      if !hasPayload { return false; }
      full := mtu < size + commandSize + length;
    }
  }

  /** Different channels, each with counters of its own. */
  ghost predicate Separate(channels: seq<Channel>) {
    && (forall i, j :: 0 <= i < j < |channels| ==> channels[i] != channels[j] && channels[i].windows != channels[j].windows)
  }

  class CommandPod {
    var outgoing: seq<Outgoing>
    var sent: seq<Outgoing>
    var controlSerial: nat
    var inTransit: int
    var nextTimeout: uint32
    var earliestTimeout: uint32
    var outgoingUnreliable: seq<Turns.Loose>
    var sentUnreliable: seq<Turns.Loose>
    ghost var model: State

    constructor (channels: seq<Channel>)
      requires Separate(channels)
      requires forall i :: 0 <= i < |channels| ==> channels[i].WellFormed() && channels[i].Lane() == FreshLane()
      ensures Valid(channels) && model == State([], [], seq(|channels|, _ => FreshLane()), 0, 0, 0, 0)
      ensures outgoingUnreliable == [] && sentUnreliable == []
    {
      outgoing, sent, controlSerial, inTransit, nextTimeout, earliestTimeout := [], [], 0, 0, 0, 0;
      outgoingUnreliable, sentUnreliable := [], [];
      model := State([], [], seq(|channels|, _ => FreshLane()), 0, 0, 0, 0);
    }

    ghost predicate Valid(channels: seq<Channel>)
      reads this, channels, set c | c in channels :: c.windows
    {
      && Separate(channels)
      && model.outgoing == outgoing && model.sent == sent && model.controlSerial == controlSerial
      && model.inTransit == inTransit && model.nextTimeout == nextTimeout && model.earliestTimeout == earliestTimeout
      && |model.lanes| == |channels|
      && (forall i :: 0 <= i < |channels| ==> channels[i].WellFormed() && channels[i].Lane() == model.lanes[i])
    }

    /** `SetupOutgoingCommand` for a command that is to be acknowledged. */
    method SetupOutgoingCommand(channel: nat, body: Body, channels: seq<Channel>)
      requires Valid(channels)
      modifies this`outgoing, this`controlSerial, this`model, channels`serial
      ensures Valid(channels) && model == Setup(old(model), channel, body)
    {
      var serial;
      if channel < |channels| {
        channels[channel].IncrementOutgoingReliableSequenceNumber();
        serial := channels[channel].serial;
      } else {
        controlSerial := controlSerial + 1;
        serial := controlSerial;
      }
      outgoing := outgoing + [Outgoing(channel, serial, body, 0, 0, 0, 0)];
      model := Setup(model, channel, body);
    }

    method UseWindow(c: Outgoing, channels: seq<Channel>)
      requires Valid(channels)
      modifies this`model, channels`used, set c | c in channels :: c.windows
      ensures Valid(channels)
      ensures model == if c.channel < |model.lanes| && c.attempts < 1
                       then old(model).(lanes := old(model).lanes[c.channel :=
                              Pod.UseWindow(old(model).lanes[c.channel], Number(c) / WINDOW_SIZE)])
                       else old(model)
    {
      if c.channel < |channels| && c.attempts < 1 {
        channels[c.channel].UseWindow(Number(c) / WINDOW_SIZE);
        model := model.(lanes := model.lanes[c.channel := Pod.UseWindow(model.lanes[c.channel], Number(c) / WINDOW_SIZE)]);
      }
    }

    /** The part of the loading loop that sends the command at `i`. */
    method Send(i: nat, env: Env, channels: seq<Channel>)
      requires Valid(channels) && i < |outgoing|
      modifies this`outgoing, this`sent, this`inTransit, this`nextTimeout, this`model,
               channels`used, set c | c in channels :: c.windows
      ensures Valid(channels) && model == Transmit(old(model), i, env)
    {
      var c := outgoing[i];
      UseWindow(c, channels);
      var d := c.(attempts := c.attempts + 1);
      if d.timeout == 0 {
        d := d.(timeout := env.firstTimeout, timeoutLimit := env.firstLimit);
      }
      if sent != [] { nextTimeout := Add32(env.time, d.timeout); }
      d := d.(sentTime := env.time);
      inTransit := inTransit + Length(c.body);
      sent := sent + [d];
      outgoing := outgoing[..i] + outgoing[i + 1..];
      assert d == Stamped(c, env) && outgoing == Without(model.outgoing, i);
      model := Transmit(old(model), i, env);
    }

    /** The tests of the sequence windows and of the data window. */
    method Skips(c: Outgoing, channels: seq<Channel>, env: Env, wrapped: bool, exceeded: bool)
      returns (skip: bool, nowWrapped: bool, nowExceeded: bool)
      requires Valid(channels)
      ensures nowWrapped == (wrapped || (c.channel < |model.lanes| && WindowWraps(model.lanes[c.channel], c)))
      ensures c.channel < |model.lanes| && nowWrapped ==> skip && nowExceeded == exceeded
      ensures !(c.channel < |model.lanes| && nowWrapped) ==>
                && nowExceeded == (exceeded || (!c.body.Control? && WindowExceeds(model.inTransit, env, c.body)))
                && skip == (!c.body.Control? && nowExceeded)
    {
      skip, nowWrapped, nowExceeded := false, wrapped, exceeded;
      if c.channel < |channels| {
        if !nowWrapped && WindowWraps(channels[c.channel].Lane(), c) { nowWrapped := true; }
        if nowWrapped { return true, nowWrapped, nowExceeded; }
      }
      if !c.body.Control? {
        if !nowExceeded && WindowExceeds(inTransit, env, c.body) { nowExceeded := true; }
        skip := nowExceeded;
      }
    }

    /** The test for space, and the loading; `ch` is the chamber before the slots were taken. */
    method LoadCommand(next: nat, datagram: Datagram, env: Env, channels: seq<Channel>, command: bool, buffer: bool,
                       ghost ch: Chamber)
      returns (full: bool)
      requires Valid(channels) && next < |outgoing| && datagram.View() == Pod.TakeSlots(ch)
      requires command == (ch.commands < CHAMBER_COMMANDS) && buffer == (ch.buffers < CHAMBER_BUFFERS)
      modifies this`outgoing, this`sent, this`inTransit, this`nextTimeout, this`model, datagram,
               channels`used, set c | c in channels :: c.windows
      ensures Valid(channels) && full == DoesNotFit(ch, env.mtu, old(outgoing[next]).body)
      ensures full ==> model == old(model) && datagram.View() == Pod.TakeSlots(ch).(continueSending := true)
      ensures !full ==> model == Transmit(old(model), next, env)
      ensures var b := old(outgoing[next]).body;
              !full ==> datagram.View() == Pod.TakeSlots(ch).(
                          buffers := Pod.TakeSlots(ch).buffers + (if b.Control? then 0 else 1),
                          size := ch.size + CommandSize(b) + Length(b))
    {
      var b := outgoing[next].body;
      full := datagram.SendingContinues(command, buffer, datagram.buffers == CHAMBER_BUFFERS, env.mtu, CommandSize(b),
                                        !b.Control?, Length(b));
      if full {
        datagram.continueSending := true;
        return;
      }
      Send(next, env, channels);
      datagram.size := datagram.size + CommandSize(b);
      if !b.Control? {
        var payload := datagram.EmptyDataBuffer();
        datagram.size := datagram.size + Length(b);
      }
    }

    /** One turn of the loading loop. */
    method LoadTurn(datagram: Datagram, env: Env, channels: seq<Channel>, ghost s: Loading, next: nat, wrapped: bool, exceeded: bool)
      returns (after: nat, nowWrapped: bool, nowExceeded: bool, skip: bool, full: bool)
      requires Valid(channels) && next < |outgoing|
      requires s.pod == model && s.chamber == datagram.View() && s.next == next && !s.stopped
      requires s.wrapped == wrapped && s.exceeded == exceeded
      modifies this`outgoing, this`sent, this`inTransit, this`nextTimeout, this`model, datagram,
               channels`used, set c | c in channels :: c.windows
      ensures Valid(channels)
      ensures var t := LoadOne(s, env);
              && t.pod == model && t.chamber == datagram.View() && t.next == after && t.stopped == full
              && t.wrapped == nowWrapped && t.exceeded == nowExceeded
              && t.canPing == (s.canPing && skip)
              && t.loaded == if skip || full then s.loaded else s.loaded + [Stamped(old(outgoing[next]), env)]
    {
      var c := outgoing[next];
      after, full := next, false;
      var command, buffer := datagram.TakeSlots();
      skip, nowWrapped, nowExceeded := Skips(c, channels, env, wrapped, exceeded);
      if skip {
        after := next + 1;
      } else {
        full := LoadCommand(next, datagram, env, channels, command, buffer, s.chamber);
      }
    }

    method LoadReliableCommandsIntoChamber(datagram: Datagram, env: Env, channels: seq<Channel>)
      returns (canPing: bool, loaded: seq<Outgoing>)
      requires Valid(channels)
      modifies this`outgoing, this`sent, this`inTransit, this`nextTimeout, this`model, datagram,
               channels`used, set c | c in channels :: c.windows
      ensures Valid(channels)
      ensures var r := Load(old(model), old(datagram.View()), env);
              model == r.pod && datagram.View() == r.chamber && canPing == r.canPing && loaded == r.loaded
    {
      var next, wrapped, exceeded, full := 0, false, false, false;
      canPing, loaded := true, [];
      ghost var s := StartLoading(model, datagram.View());
      while next < |outgoing| && !full
        invariant Valid(channels) && next <= |outgoing|
        invariant s.pod == model && s.chamber == datagram.View() && s.next == next && s.stopped == full
        invariant s.wrapped == wrapped && s.exceeded == exceeded && s.canPing == canPing && s.loaded == loaded
        invariant LoadRest(s, env) == Load(old(model), old(datagram.View()), env)
        decreases !full, |outgoing| - next
      {
        var c, skip := outgoing[next], false;
        ghost var t := LoadOne(s, env);
        next, wrapped, exceeded, skip, full := LoadTurn(datagram, env, channels, s, next, wrapped, exceeded);
        if !skip { canPing := false; }
        if !skip && !full { loaded := loaded + [Stamped(c, env)]; }
        s := t;
      }
    }

    // --- unreliable commands ---

    /** The inner loop: past the other fragments of a segment that is held back. */
    method SkipSegment(next: nat, c: Turns.Loose) returns (after: nat)
      requires next <= |outgoingUnreliable|
      ensures after == Turns.SkipGroup(outgoingUnreliable, next, c.reliable, c.unreliable)
    {
      after := next;
      while after < |outgoingUnreliable|
        invariant next <= after <= |outgoingUnreliable|
        invariant Turns.SkipGroup(outgoingUnreliable, after, c.reliable, c.unreliable) ==
                  Turns.SkipGroup(outgoingUnreliable, next, c.reliable, c.unreliable)
      {
        var d := outgoingUnreliable[after];
        if d.reliable != c.reliable || d.unreliable != c.unreliable { break; }
        after := after + 1;
      }
    }

    /** Loading one unreliable command. */
    method LoadLoose(next: nat, c: Turns.Loose, datagram: Datagram)
      requires next < |outgoingUnreliable| && outgoingUnreliable[next] == c
      modifies this`outgoingUnreliable, this`sentUnreliable, datagram`size, datagram`buffers
      ensures outgoingUnreliable == Turns.Drop(old(outgoingUnreliable), next)
      ensures sentUnreliable == if c.hasPayload then old(sentUnreliable) + [c] else old(sentUnreliable)
      ensures var ch := old(datagram.View());
              datagram.View() == ch.(buffers := if c.hasPayload && ch.buffers < CHAMBER_BUFFERS then ch.buffers + 1 else ch.buffers,
                                     size := ch.size + c.commandSize + if c.hasPayload then c.length else 0)
    {
      datagram.size := datagram.size + c.commandSize;
      if c.hasPayload {
        var payload := datagram.EmptyDataBuffer();
        datagram.size := datagram.size + c.length;
        sentUnreliable := sentUnreliable + [c];
      }
      outgoingUnreliable := outgoingUnreliable[..next] + outgoingUnreliable[next + 1..];
    }

    /** One turn of the loop. */
    method LooseTurn(datagram: Datagram, net: PeerNet, mtu: nat, ghost s: Turns.LooseLoading, next: nat) returns (after: nat, full: bool)
      requires next < |outgoingUnreliable| && !s.stopped && s.next == next && s.waiting == outgoingUnreliable
      requires s.sent == sentUnreliable && s.counter == net.throttleCounter && s.chamber == datagram.View()
      modifies this`outgoingUnreliable, this`sentUnreliable, datagram, net`throttleCounter
      ensures var t := Turns.LoadLooseOne(s, mtu, net.throttle);
              && t.waiting == outgoingUnreliable && t.next == after && t.sent == sentUnreliable
              && t.counter == net.throttleCounter && t.chamber == datagram.View() && t.stopped == full
    {
      var c := outgoingUnreliable[next];
      after := next;
      var command, buffer := datagram.TakeSlots();
      full := datagram.SendingContinues(command, buffer, datagram.buffers == CHAMBER_BUFFERS, mtu, c.commandSize, c.hasPayload, c.length);
      if full {
        datagram.continueSending := true;
        return;
      }
      if c.hasPayload && c.offset == 0 {
        net.UpdateSegmentThrottleCounter();
        if net.throttleCounter > net.throttle {
          after := SkipSegment(next + 1, c);
          return;
        }
      }
      LoadLoose(next, c, datagram);
    }

    /** The result tells whether a peer that is disconnecting later has nothing left to wait for. */
    method LoadUnreliableCommandsIntoChamber(datagram: Datagram, net: PeerNet, mtu: nat) returns (canDisconnect: bool)
      modifies this`outgoingUnreliable, this`sentUnreliable, datagram, net`throttleCounter
      ensures var r := Turns.LoadLooseRest(Turns.LooseLoading(old(outgoingUnreliable), 0, old(sentUnreliable), old(net.throttleCounter),
                                                              old(datagram.View()), false, []), mtu, net.throttle);
              && outgoingUnreliable == r.waiting && sentUnreliable == r.sent
              && net.throttleCounter == r.counter && datagram.View() == r.chamber
      ensures canDisconnect == (net.state == DisconnectLater && outgoing == [] && outgoingUnreliable == [] && sent == [])
    {
      var next, full := 0, false;
      ghost var s := Turns.LooseLoading(outgoingUnreliable, 0, sentUnreliable, net.throttleCounter, datagram.View(), false, []);
      ghost var all := Turns.LoadLooseRest(s, mtu, net.throttle);
      while next < |outgoingUnreliable| && !full
        invariant next <= |outgoingUnreliable| && s.next == next && s.stopped == full
        invariant s.waiting == outgoingUnreliable && s.sent == sentUnreliable
        invariant s.counter == net.throttleCounter && s.chamber == datagram.View()
        invariant Turns.LoadLooseRest(s, mtu, net.throttle) == all
        decreases !full, |outgoingUnreliable| - next
      {
        ghost var t := Turns.LoadLooseOne(s, mtu, net.throttle);
        next, full := LooseTurn(datagram, net, mtu, s, next);
        s := t;
      }
      canDisconnect := net.state == DisconnectLater && outgoing == [] && outgoingUnreliable == [] && sent == [];
    }

    // --- timeouts ---

    /** The part of the timeout loop that moves the command at `i` back to the waiting list. */
    method MoveBack(i: nat, channels: seq<Channel>)
      requires Valid(channels) && i < |sent|
      modifies this`outgoing, this`sent, this`inTransit, this`nextTimeout, this`model
      ensures Valid(channels) && model == Requeue(old(model), i)
    {
      var c := sent[i];
      inTransit := inTransit - Length(c.body);
      c := c.(timeout := Add32(c.timeout, c.timeout));
      outgoing := [c] + outgoing;
      sent := sent[..i] + sent[i + 1..];
      if i == 0 && sent != [] { nextTimeout := Add32(sent[0].sentTime, sent[0].timeout); }
      model := Requeue(model, i);
    }

    /** One turn of the timeout loop. */
    method TimeoutTurn(i: nat, now: uint32, limits: Limits, channels: seq<Channel>) returns (disconnect: bool, moved: bool)
      requires Valid(channels) && i < |sent|
      modifies this`outgoing, this`sent, this`inTransit, this`nextTimeout, this`earliestTimeout, this`model
      ensures Valid(channels)
      ensures forall lost: nat :: ExpireOne(Expiring(old(model), i, lost, false), now, limits) ==
                Expiring(model, if disconnect || moved then i else i + 1, if moved then lost + 1 else lost, disconnect)
    {
      disconnect, moved := false, false;
      var c := sent[i];
      if TimeDifference(now, c.sentTime) < c.timeout { return; }
      if earliestTimeout == 0 || TimeLess(c.sentTime, earliestTimeout) { earliestTimeout := c.sentTime; }
      model := model.(earliestTimeout := earliestTimeout);
      var tooLong := TimeDifference(now, earliestTimeout) >= limits.maximum;
      var tooOften := c.timeout >= c.timeoutLimit;
      var longEnough := TimeDifference(now, earliestTimeout) >= limits.minimum;
      if earliestTimeout != 0 && (tooLong || (tooOften && longEnough)) { return true, false; }
      MoveBack(i, channels);
      moved := true;
    }

    method Timeout(now: uint32, limits: Limits, channels: seq<Channel>) returns (disconnect: bool, lost: nat)
      requires Valid(channels)
      modifies this`outgoing, this`sent, this`inTransit, this`nextTimeout, this`earliestTimeout, this`model
      ensures Valid(channels)
      ensures var r := Pod.Timeout(old(model), now, limits);
              model == r.pod && disconnect == r.disconnect && lost == r.lost
    {
      var i := 0;
      disconnect, lost := false, 0;
      while i < |sent| && !disconnect
        invariant Valid(channels) && (disconnect || i <= |sent|)
        invariant ExpireRest(Expiring(model, i, lost, disconnect), now, limits) == Pod.Timeout(old(model), now, limits)
        decreases !disconnect, |sent| - i
      {
        ghost var s := Expiring(model, i, lost, false);
        var moved;
        disconnect, moved := TimeoutTurn(i, now, limits, channels);
        if moved { lost := lost + 1; } else if !disconnect { i := i + 1; }
        assert ExpireOne(s, now, limits) == Expiring(model, i, lost, disconnect);
      }
    }

    // --- acknowledgements ---

    method FindSentCommand(n: uint16, channel: nat) returns (i: nat)
      ensures i == FindSent(sent, n, channel)
    {
      i := 0;
      while i < |sent| && !Named(sent[i], n, channel)
        invariant i <= |sent|
        invariant FindSent(sent, n, channel) == i + FindSent(sent[i..], n, channel)
      {
        assert sent[i..][1..] == sent[i + 1..];
        i := i + 1;
      }
    }

    method FindRequeuedCommand(n: uint16, channel: nat) returns (i: nat)
      ensures i == FindRequeued(outgoing, n, channel)
    {
      i := 0;
      while i < |outgoing| && outgoing[i].attempts > 0 && !Named(outgoing[i], n, channel)
        invariant i <= |outgoing|
        invariant FindRequeued(outgoing, n, channel) == i + FindRequeued(outgoing[i..], n, channel)
      {
        assert outgoing[i..][1..] == outgoing[i + 1..];
        i := i + 1;
      }
      if i < |outgoing| && outgoing[i].attempts < 1 { i := |outgoing|; }
    }

    method Release(n: uint16, channel: nat, channels: seq<Channel>)
      requires Valid(channels)
      modifies this`model, channels`used, set c | c in channels :: c.windows
      ensures Valid(channels) && model == Pod.Release(old(model), n, channel)
    {
      if channel < |channels| { channels[channel].ReleaseWindow(n / WINDOW_SIZE); }
      model := Pod.Release(model, n, channel);
    }

    method EraseSent(i: nat, channels: seq<Channel>)
      requires Valid(channels) && i < |sent|
      modifies this
      ensures Valid(channels)
      ensures model == Retime(old(model).(sent := Without(old(sent), i), inTransit := old(inTransit) - Length(old(sent)[i].body)))
    {
      model := Retime(model.(sent := Without(sent, i), inTransit := inTransit - Length(sent[i].body)));
      inTransit := inTransit - Length(sent[i].body);
      sent := sent[..i] + sent[i + 1..];
      if sent != [] { nextTimeout := Add32(sent[0].sentTime, sent[0].timeout); }
    }

    method EraseRequeued(j: nat, channels: seq<Channel>)
      requires Valid(channels) && j < |outgoing|
      modifies this
      ensures Valid(channels) && model == Retime(old(model).(outgoing := Without(old(outgoing), j)))
    {
      model := Retime(model.(outgoing := Without(outgoing, j)));
      outgoing := outgoing[..j] + outgoing[j + 1..];
      if sent != [] { nextTimeout := Add32(sent[0].sentTime, sent[0].timeout); }
    }

    method RemoveSentReliableCommand(n: uint16, channel: nat, channels: seq<Channel>) returns (removed: Removal)
      requires Valid(channels)
      modifies this, channels`used, set c | c in channels :: c.windows
      ensures Valid(channels) && (model, removed) == Acknowledge(old(model), n, channel)
    {
      var i := FindSentCommand(n, channel);
      if i < |sent| {
        removed := Removed(sent[i]);
        Release(n, channel, channels);
        EraseSent(i, channels);
      } else {
        var j := FindRequeuedCommand(n, channel);
        if j == |outgoing| { return Nothing; }
        removed := Removed(outgoing[j]);
        Release(n, channel, channels);
        EraseRequeued(j, channels);
      }
    }

    // --- one turn of the sending loop ---

    /** The ping, when it is due and nothing else is under way. */
    method PingIfIdle(canPing: bool, datagram: Datagram, o: Turns.Occasion, channels: seq<Channel>, ghost l: Loading)
      returns (pinged: bool)
      requires Valid(channels) && model == l.pod && datagram.View() == l.chamber && canPing == l.canPing
      modifies this`outgoing, this`sent, this`inTransit, this`nextTimeout, this`model, this`controlSerial, datagram,
               channels`serial, channels`used, set c | c in channels :: c.windows
      ensures Valid(channels) && pinged == Turns.PingsNow(l, o)
      ensures model == Turns.AfterPing(l, o).pod && datagram.View() == Turns.AfterPing(l, o).chamber
    {
      pinged := canPing && sent == [] && o.pingDue && o.env.mtu >= datagram.size + Turns.PING_SIZE;
      if pinged {
        SetupOutgoingCommand(Turns.NO_CHANNEL, Control(Turns.PING_SIZE), channels);
        var again, loaded := LoadReliableCommandsIntoChamber(datagram, o.env, channels);
      }
    }

    /** The timeouts, when they are to be looked at and the next one has come. */
    method TimeoutIfDue(o: Turns.Occasion, channels: seq<Channel>) returns (givenUp: bool)
      requires Valid(channels)
      modifies this`outgoing, this`sent, this`inTransit, this`nextTimeout, this`earliestTimeout, this`model
      ensures Valid(channels)
      ensures var e := Turns.AfterTimeouts(old(model), o); model == e.pod && givenUp == e.disconnect
    {
      givenUp := false;
      if o.checkTimeouts && sent != [] && !TimeLess(o.env.time, nextTimeout) {
        var lost;
        givenUp, lost := Timeout(o.env.time, o.limits, channels);
      }
    }

    /** The reliable commands that wait, and then the ping. */
    method LoadReliableAndPing(datagram: Datagram, o: Turns.Occasion, channels: seq<Channel>) returns (pinged: bool)
      requires Valid(channels)
      modifies this`outgoing, this`sent, this`inTransit, this`nextTimeout, this`model, this`controlSerial, datagram,
               channels`serial, channels`used, set c | c in channels :: c.windows
      ensures Valid(channels)
      ensures var l := Turns.AfterReliable(old(model), old(datagram.View()), o.env);
              && pinged == Turns.PingsNow(l, o)
              && model == Turns.AfterPing(l, o).pod && datagram.View() == Turns.AfterPing(l, o).chamber
    {
      var canPing := true;
      ghost var l := Turns.AfterReliable(model, datagram.View(), o.env);
      if outgoing != [] {
        var loaded;
        canPing, loaded := LoadReliableCommandsIntoChamber(datagram, o.env, channels);
      }
      pinged := PingIfIdle(canPing, datagram, o, channels, l);
    }

    /** One turn for this peer: acknowledgements, timeouts, reliable commands, the ping, unreliable ones. */
    method TakeTurn(datagram: Datagram, acks: seq<uint16>, net: PeerNet, o: Turns.Occasion, channels: seq<Channel>)
      returns (gone: seq<uint16>, rest: seq<uint16>, pinged: bool, givenUp: bool)
      requires Valid(channels) && o.throttle == net.throttle && sentUnreliable == []
      modifies this, datagram, net`throttleCounter, channels`serial, channels`used, set c | c in channels :: c.windows
      ensures var t := Turns.TakeTurn(old(model), old(outgoingUnreliable), old(net.throttleCounter), acks,
                                      old(datagram.continueSending), o);
              && Valid(channels) && model == t.pod && datagram.View() == t.chamber
              && gone == t.acks.sent && rest == t.acks.rest
              && pinged == t.pinged && givenUp == t.givenUp
              && outgoingUnreliable == t.loose.waiting && sentUnreliable == t.loose.sent && net.throttleCounter == t.loose.counter
    {
      pinged := false;
      datagram.Reset();
      var dropped;
      gone, dropped, rest := datagram.SendAcknowledgements(acks, o.env.mtu);
      givenUp := TimeoutIfDue(o, channels);
      if givenUp { return; }
      pinged := LoadReliableAndPing(datagram, o, channels);
      var canDisconnect := LoadUnreliableCommandsIntoChamber(datagram, net, o.env.mtu);
    }
  }
}
