/** The data side of a peer, in place: sending a segment, taking a command in, and queueing its
    acknowledgement. */
module Peers {
  import opened Numbers
  import opened PeerStates
  import opened Fragments
  import opened Inbox
  import opened Receiver
  import opened Delivery
  import opened Channels
  import opened CommandPods
  import Pod

  const CHECKSUM_SIZE := 4

  /** The fragment length in force: what the MTU leaves beside the headers. */
  function FragmentLength(mtu: nat, checksum: bool): (l: pos)
    requires mtu >= MINIMUM_MTU
  {
    mtu - PROTOCOL_HEADER_SIZE - SEND_FRAGMENT_SIZE - if checksum then CHECKSUM_SIZE else 0
  }

  /** The loop of `Send` that cuts a segment: the running offset and the fragment length, which is cut
      down for the last piece, yield exactly the numbered pieces of the message. */
  method CutIntoFragments(m: Message, first: nat) returns (fragments: seq<Body>)
    requires |m.data| > m.limit
    ensures |fragments| == Count(m)
    ensures forall k: nat :: k < Count(m) ==> fragments[k] == BodyOf(m, first, k)
  {
    var count := (|m.data| + m.limit - 1) / m.limit;
    var number, offset, length := 0, 0, m.limit as nat;
    fragments := [];
    while offset < |m.data|
      invariant count == Count(m) && number <= count && |fragments| == number
      invariant offset == if number < count then Offset(m, number) else |m.data|
      invariant number < count ==> length == m.limit
      invariant forall k: nat :: k < number ==> fragments[k] == BodyOf(m, first, k)
      decreases count - number
    {
      PieceAt(m, first, number);
      if |m.data| - offset < length { length := |m.data| - offset; }
      fragments := fragments + [Piece(Low16(first), number, count, |m.data|, offset, m.data[offset..offset + length])];
      number, offset := number + 1, offset + length;
    }
    AllPieces(m, number);
  }

  /** What one turn of the loop needs to know of piece `i`. */
  lemma PieceAt(m: Message, first: nat, i: nat)
    requires |m.data| > m.limit && i < Count(m)
    ensures Offset(m, i) < |m.data|
    ensures var l := Min(|m.data| - Offset(m, i), m.limit);
            && BodyOf(m, first, i) ==
                 Piece(Low16(first), i, Count(m), |m.data|, Offset(m, i), m.data[Offset(m, i)..Offset(m, i) + l])
            && Offset(m, i) + l == (if i + 1 < Count(m) then Offset(m, i + 1) else |m.data|)
            && (i + 1 < Count(m) ==> l == m.limit)
  {
    PieceBounds(m, i);
    Multiples(i, i + 1, m.limit);
  }

  lemma AllPieces(m: Message, number: nat)
    requires |m.data| > m.limit && number <= Count(m)
    requires number < Count(m) ==> Offset(m, number) >= |m.data|
    ensures number == Count(m)
  {
    if number < Count(m) { PieceBounds(m, number); }
  }

  // --- what `Send` queues ---

  /** The bytes of a datagram that carries nothing but this command. */
  function Alone(b: Body, checksum: bool): nat {
    PROTOCOL_HEADER_SIZE + (if checksum then CHECKSUM_SIZE else 0) + Pod.CommandSize(b) + Pod.Length(b)
  }

  /** The payloads, laid end to end. */
  function Joined(cs: seq<Pod.Outgoing>): seq<byte> {
    if cs == [] then []
    else
      var last := |cs| - 1;
      Joined(cs[..last]) + if cs[last].body.Control? then [] else cs[last].body.data
  }

  /** The commands carry the segment: their payloads are its bytes; each fits an empty datagram at this MTU,
      and every fragment but the last fills one. The segment is cut exactly when it would not fit behind the
      header of a fragment. */
  ghost predicate Carry(cs: seq<Pod.Outgoing>, channel: nat, first: nat, data: seq<byte>, mtu: nat, checksum: bool) {
    && cs != [] && Joined(cs) == data
    && (forall k :: 0 <= k < |cs| ==>
          && cs[k].channel == channel && cs[k].serial == first + k && cs[k].attempts == 0 && cs[k].timeout == 0
          && !cs[k].body.Control? && Alone(cs[k].body, checksum) <= mtu
          && (k + 1 < |cs| ==> cs[k].body.Piece? && Alone(cs[k].body, checksum) == mtu))
    && (forall k :: 0 <= k < |cs| ==>
          (cs[k].body.Piece? <==>
            mtu < PROTOCOL_HEADER_SIZE + (if checksum then CHECKSUM_SIZE else 0) + SEND_FRAGMENT_SIZE + |data|))
  }

  /** The commands of a message as they are queued. */
  function Queue(m: Message, channel: nat, first: nat, n: nat): (cs: seq<Pod.Outgoing>)
    requires n <= Count(m)
    ensures |cs| == n
  {
    if n == 0 then []
    else Queue(m, channel, first, n - 1) + [Pod.Outgoing(channel, first + (n - 1), BodyOf(m, first, n - 1), 0, 0, 0, 0)]
  }

  lemma {:induction false} QueueAt(m: Message, channel: nat, first: nat, n: nat, k: nat)
    requires k < n <= Count(m)
    ensures Queue(m, channel, first, n)[k] == Pod.Outgoing(channel, first + k, BodyOf(m, first, k), 0, 0, 0, 0)
  {
    if k < n - 1 { QueueAt(m, channel, first, n - 1, k); }
  }

  lemma SameBytes(m: Message, first: nat, i: nat)
    requires i < Count(m)
    ensures !BodyOf(m, first, i).Control? && BodyOf(m, first, i).data == BodyOf(m, 0, i).data
  {
  }

  lemma {:induction false} QueueIsParts(m: Message, channel: nat, first: nat, n: nat)
    requires n <= Count(m)
    ensures Joined(Queue(m, channel, first, n)) == Parts(m, n)
  {
    if n > 0 {
      QueueIsParts(m, channel, first, n - 1);
      var cs := Queue(m, channel, first, n);
      assert cs[..n - 1] == Queue(m, channel, first, n - 1);
      SameBytes(m, first, n - 1);
    }
  }

  /** Queueing from number `i` on appends the commands that are missing. */
  lemma {:induction false} QueueFromAppends(p: Pod.State, before: seq<Pod.Outgoing>, channel: nat, m: Message, first: nat, i: nat)
    requires channel < |p.lanes| && i <= Count(m) && p.lanes[channel].serial + 1 == first + i
    requires p.outgoing == before + Queue(m, channel, first, i)
    ensures QueueFrom(p, channel, m, first, i).outgoing == before + Queue(m, channel, first, Count(m))
    decreases Count(m) - i
  {
    if i < Count(m) {
      var q := Pod.Setup(p, channel, BodyOf(m, first, i));
      assert q.outgoing == before + Queue(m, channel, first, i + 1);
      QueueFromAppends(q, before, channel, m, first, i + 1);
    }
  }

  lemma QueueCarries(m: Message, channel: nat, first: nat, mtu: nat, checksum: bool)
    requires m.limit == mtu - PROTOCOL_HEADER_SIZE - SEND_FRAGMENT_SIZE - (if checksum then CHECKSUM_SIZE else 0)
    ensures Carry(Queue(m, channel, first, Count(m)), channel, first, m.data, mtu, checksum)
  {
    var cs := Queue(m, channel, first, Count(m));
    QueueIsParts(m, channel, first, Count(m));
    PiecesTile(m);
    forall k: nat | k < |cs|
      ensures cs[k] == Pod.Outgoing(channel, first + k, BodyOf(m, first, k), 0, 0, 0, 0)
      ensures !cs[k].body.Control? && Alone(cs[k].body, checksum) <= mtu
      ensures k + 1 < |cs| ==> cs[k].body.Piece? && Alone(cs[k].body, checksum) == mtu
      ensures cs[k].body.Piece? <==> |m.data| > m.limit
    {
      QueueAt(m, channel, first, Count(m), k);
      PieceIsFront(m, first, k);
    }
  }

  lemma MessageIsCarried(p: Pod.State, channel: nat, m: Message, mtu: nat, checksum: bool)
    requires channel < |p.lanes|
    requires m.limit == mtu - PROTOCOL_HEADER_SIZE - SEND_FRAGMENT_SIZE - (if checksum then CHECKSUM_SIZE else 0)
    ensures exists cs :: QueueMessage(p, channel, m).outgoing == p.outgoing + cs
                         && Carry(cs, channel, p.lanes[channel].serial + 1, m.data, mtu, checksum)
  {
    var first := p.lanes[channel].serial + 1;
    assert p.outgoing + Queue(m, channel, first, 0) == p.outgoing;
    QueueFromAppends(p, p.outgoing, channel, m, first, 0);
    QueueCarries(m, channel, first, mtu, checksum);
  }

  /** A segment that is not too long never has too many fragments. */
  lemma LongestIsSendable(m: Message)
    requires m.limit >= MINIMUM_MTU - PROTOCOL_HEADER_SIZE - SEND_FRAGMENT_SIZE - CHECKSUM_SIZE
    ensures Sendable(m) <==> |m.data| <= MAXIMUM_SEGMENT_SIZE
  {
    if |m.data| <= MAXIMUM_SEGMENT_SIZE { FewFragments(m); }
  }

  lemma FewFragments(m: Message)
    requires m.limit >= MINIMUM_MTU - PROTOCOL_HEADER_SIZE - SEND_FRAGMENT_SIZE - CHECKSUM_SIZE
    requires |m.data| <= MAXIMUM_SEGMENT_SIZE
    ensures Count(m) <= MAXIMUM_FRAGMENT_COUNT
  {
    var n, l := Count(m), m.limit as nat;
    if |m.data| > l {
      Ceiling(|m.data|, l, n);
      if n > MAXIMUM_FRAGMENT_COUNT { ProductGrows(n - 1, MAXIMUM_FRAGMENT_COUNT, l); }
    }
  }

  lemma ProductGrows(n: nat, least: nat, l: nat)
    requires n >= least
    ensures (n + 1) * l == n * l + l && n * l >= least * l
  {
  }

  /** An acknowledgement that waits to be sent. */
  datatype Acknowledgement = Acknowledgement(channel: nat, number: uint16, sentTime: uint16)

  class Peer {
    var state: PeerState
    var mtu: nat
    const channels: seq<Channel>
    const pod: CommandPod
    var acknowledgements: seq<Acknowledgement>
    var totalWaiting: nat

    ghost predicate Valid()
      reads this, pod, channels, set c | c in channels :: c.windows
    {
      mtu >= MINIMUM_MTU && pod.Valid(channels)
    }

    constructor (channels: seq<Channel>)
      requires Separate(channels)
      requires forall i :: 0 <= i < |channels| ==> channels[i].WellFormed() && channels[i].Lane() == Pod.FreshLane()
      ensures Valid() && this.channels == channels && state == Disconnected && acknowledgements == []
    {
      state, mtu, acknowledgements, totalWaiting := Disconnected, 1400, [], 0;
      this.channels := channels;
      pod := new CommandPod(channels);
    }

    /** `Send` for a reliable segment. */
    method Send(channel: nat, data: seq<byte>, checksum: bool) returns (ok: bool)
      requires Valid()
      modifies pod`outgoing, pod`controlSerial, pod`model, channels`serial
      ensures Valid()
      ensures ok <==> && state == Connected && channel < |channels|
                      && Sendable(Message(data, FragmentLength(mtu, checksum)))
      ensures ok <==> state == Connected && channel < |channels| && |data| <= MAXIMUM_SEGMENT_SIZE
      ensures pod.model == if ok then QueueMessage(old(pod.model), channel, Message(data, FragmentLength(mtu, checksum)))
                           else old(pod.model)
      ensures !ok ==> pod.outgoing == old(pod.outgoing)
      ensures ok ==> exists cs :: pod.outgoing == old(pod.outgoing) + cs
                                  && Carry(cs, channel, old(channels[channel].serial) + 1, data, mtu, checksum)
    {
      LongestIsSendable(Message(data, FragmentLength(mtu, checksum)));
      ok := false;
      if state != Connected || channel >= |channels| || |data| > MAXIMUM_SEGMENT_SIZE { return; }
      var m := Message(data, FragmentLength(mtu, checksum));
      if |data| > m.limit {
        var count := (|data| + m.limit - 1) / m.limit;
        if count > MAXIMUM_FRAGMENT_COUNT { return; }
        QueueFragments(channel, m);
      } else {
        QueueWhole(channel, m);
      }
      ok := true;
      MessageIsCarried(old(pod.model), channel, m, mtu, checksum);
    }

    /** A segment that fits behind the header of a fragment goes in one command. */
    method QueueWhole(channel: nat, m: Message)
      requires Valid() && channel < |channels| && |m.data| <= m.limit
      modifies pod`outgoing, pod`controlSerial, pod`model, channels`serial
      ensures Valid() && pod.model == QueueMessage(old(pod.model), channel, m)
    {
      pod.SetupOutgoingCommand(channel, Whole(m.data), channels);
      assert QueueFrom(pod.model, channel, m, old(pod.model).lanes[channel].serial + 1, 1) == pod.model;
    }

    /** The two loops of `Send`: all fragments are cut before the first is queued. */
    method QueueFragments(channel: nat, m: Message)
      requires Valid() && channel < |channels| && |m.data| > m.limit
      modifies pod`outgoing, pod`controlSerial, pod`model, channels`serial
      ensures Valid() && pod.model == QueueMessage(old(pod.model), channel, m)
    {
      var first := channels[channel].serial + 1;
      var fragments := CutIntoFragments(m, first);
      var i := 0;
      while i < |fragments|
        invariant Valid() && i <= |fragments| && channel < |pod.model.lanes|
        invariant QueueFrom(pod.model, channel, m, first, i) == QueueMessage(old(pod.model), channel, m)
      {
        pod.SetupOutgoingCommand(channel, fragments[i], channels);
        i := i + 1;
      }
    }

    /** An acknowledgement is queued unless the number lies one or two windows beyond those that are
        accepted; commands outside every channel are always acknowledged. */
    method QueueAcknowledgement(channel: nat, number: uint16, sentTime: uint16)
      modifies this`acknowledgements
      ensures acknowledgements == old(acknowledgements) +
                if channel < |channels| && AckSuppressed(number, channels[channel].incoming) then []
                else [Acknowledgement(channel, number, sentTime)]
    {
      if channel < |channels| {
        var incoming := channels[channel].incoming;
        var ahead := number / WINDOW_SIZE + if number < incoming then WINDOWS else 0;
        var current := incoming / WINDOW_SIZE;
        if ahead >= current + FREE_WINDOWS - 1 && ahead <= current + FREE_WINDOWS { return; }
      }
      acknowledgements := acknowledgements + [Acknowledgement(channel, number, sentTime)];
    }

    /** `HandleSendReliable` and the acknowledgement that follows it. */
    method TakeSegment(channel: nat, number: uint16, sentTime: uint16, data: seq<byte>, maximumWaiting: nat)
      returns (delivered: seq<Entry>)
      requires channel < |channels|
      modifies this`acknowledgements, this`totalWaiting, channels`entries, channels`incoming
      ensures var taken := state != DisconnectLater && old(totalWaiting) < maximumWaiting;
              && totalWaiting == old(totalWaiting) + (if taken then |data| else 0)
              && (channels[channel].Contents(), delivered) ==
                   if taken then ReceiveWhole(old(channels[channel].Contents()), number, data)
                   else Drain(old(channels[channel].Contents()))
      ensures acknowledgements == old(acknowledgements) +
                if AckSuppressed(number, channels[channel].incoming) then []
                else [Acknowledgement(channel, number, sentTime)]
    {
      if state != DisconnectLater && totalWaiting < maximumWaiting {
        totalWaiting := totalWaiting + |data|;
        delivered := channels[channel].HandleSendReliable(number, data);
      } else {
        delivered := channels[channel].NewIncomingReliableCommands();
      }
      QueueAcknowledgement(channel, number, sentTime);
    }

    /** `HandleSendFragment` and the acknowledgement that follows it: of the number that the command
        came with, whatever became of it. */
    method TakeFragment(channel: nat, number: uint16, sentTime: uint16, b: Body) returns (delivered: seq<Entry>, outcome: Outcome)
      requires channel < |channels| && b.Piece? && Ordered(channels[channel].Contents())
      modifies this`acknowledgements, channels`entries, channels`incoming
      ensures (channels[channel].Contents(), delivered, outcome) == ReceivePiece(old(channels[channel].Contents()), b)
      ensures acknowledgements == old(acknowledgements) +
                if outcome == Error || AckSuppressed(number, channels[channel].incoming) then []
                else [Acknowledgement(channel, number, sentTime)]
    {
      delivered, outcome := channels[channel].HandleSendFragment(b);
      if outcome == Ok { QueueAcknowledgement(channel, number, sentTime); }
    }
  }
}
