/** What the whole-run invariant implies for the provisos under which it was proved, and where the
    guarantees end. */
module Guarantees {
  import opened Numbers
  import opened Fragments
  import opened Inbox
  import opened Receiver
  import opened Delivery
  import Pod
  import Books
  import opened Runs
  import opened Lengths
  import InFlight

  // --- the provisos on delay, for what is in flight ---

  /** The largest number of pieces with which a message never outlives the proviso. */
  const LONGEST_TIMELY := WINDOW_SIZE + 1

  /** A command in flight that belongs to a message of at most `limit` pieces. */
  ghost predicate InFlightPiece(s: System, channel: nat, x: Pod.Outgoing, k: nat, i: nat, limit: nat) {
    && x.channel == channel < |s.pod.lanes| && InFlight.Flying(s.pod, x)
    && At(s.messages, k, i, x.serial, x.body) && Count(s.messages[k]) <= limit
  }

  /** A copy of a command that is still in flight is never too old, provided that its message has no
      more than 4097 pieces; an acknowledgement of a command in flight is never too old. */
  lemma CopiesInFlightAreTimely(s: System, channel: nat, x: Pod.Outgoing, k: nat, i: nat, limit: nat)
    requires Invariant(s, channel) && InFlightPiece(s, channel, x, k, i, limit)
    ensures limit <= LONGEST_TIMELY ==> NotTooOld(s, channel, Arrive(Copy(x.serial, x.body)))
    ensures NotTooOld(s, channel, AckArrives(x.serial))
  {
    InFlight.FlyingIsNear(s.pod, x, channel);
    var first, h: nat := x.serial - i, Books.Highest(s.pod, channel);
    assert FirstOf(Copy(x.serial, x.body)) == first;
    assert s.view.base <= h;
    NineWindows(s.view.base, h, x.serial, first);
  }

  lemma NineWindows(base: nat, highest: nat, serial: nat, first: nat)
    requires base <= highest && highest / WINDOW_SIZE <= serial / WINDOW_SIZE + 8 && first <= serial
    ensures serial <= first + WINDOW_SIZE ==> base / WINDOW_SIZE <= first / WINDOW_SIZE + 9
    ensures highest < serial + 0x10000
  {
  }

  /** In every run every copy in flight of a message of at most `limit` pieces meets the proviso. */
  ghost predicate AlwaysTimely(limit: nat) {
    forall lanes: nat, channel: nat, window: nat, s: System, x: Pod.Outgoing, k: nat, i: nat
      {:trigger Reached(lanes, channel, window, s), InFlightPiece(s, channel, x, k, i, limit)} ::
      Reached(lanes, channel, window, s) && InFlightPiece(s, channel, x, k, i, limit) ==>
        NotTooOld(s, channel, Arrive(Copy(x.serial, x.body)))
  }

  /** A message of `n` pieces of one byte. */
  function Bytewise(n: nat): (m: Message)
    ensures |m.data| == n && (n > 0 ==> Count(m) == n)
  {
    Message(seq(n, _ => 0), 1)
  }

  /** The messages of the run below; their first numbers are 1, 0xFFF, 0x2001 and 0x6001. */
  function LateMessages(): (ms: seq<Message>)
    ensures |ms| == 4 && ms[0] == Bytewise(0xFFE) && ms[1] == Bytewise(0x1002)
    ensures ms[2] == ms[3] == Bytewise(0x4000)
  {
    [Bytewise(0xFFE), Bytewise(0x1002), Bytewise(0x4000), Bytewise(0x4000)]
  }

  lemma LateFirsts()
    ensures First(LateMessages(), 0) == 1 && First(LateMessages(), 1) == 0xFFF && First(LateMessages(), 2) == 0x2001
    ensures First(LateMessages(), 3) == 0x6001 && First(LateMessages(), 4) == 0xA001
  {
    var ms := LateMessages();
    assert First(ms, 1) == First(ms, 0) + Count(ms[0]);
    assert First(ms, 2) == First(ms, 1) + Count(ms[1]);
    assert First(ms, 3) == First(ms, 2) + Count(ms[2]);
    assert First(ms, 4) == First(ms, 3) + Count(ms[3]);
  }

  const LATE_WINDOW := 100

  lemma LateFit(x: Setting, i: nat)
    requires i < 4 && x.window == LATE_WINDOW && x.held <= 1 && |x.stuck| <= 1
    requires x.stuck != [] ==> i >= 2 && x.stuck[0].channel == x.channel && x.stuck[0].serial == 0x2000
    ensures FitsNext(x, LateMessages(), i)
  {
    var m := LateMessages()[i];
    LateFirsts();
    Boundary(m, First(LateMessages(), i) - 1, x.window - x.held);
  }

  /** The last piece of the second message stays in flight, with its acknowledgement lost. */
  lemma OnePieceStays() returns (s: System, x: Setting)
    ensures Quiet(x, s) && s.messages == LateMessages()[..2] && x.lanes == 1 && x.channel == 0 && x.window == LATE_WINDOW
    ensures x.held <= 1 && |x.stuck| == 1
    ensures x.stuck[0].channel == 0 && x.stuck[0].serial == 0x2000 && x.stuck[0].body == BodyOf(Bytewise(0x1002), 0xFFF, 0x1001)
  {
    var ms, y := LateMessages(), Setting(1, 0, LATE_WINDOW, [], 0);
    LateFirsts();
    InitialIsReached(1, 0, LATE_WINDOW);
    LateFit(y, 0);
    LateFit(y, 1);
    var r := DeliverNext(y, Initial(1), ms);
    FirstOfBeginning(r.messages, ms, 1);
    var h;
    s, h := DeliverMessage(y, r, ms[1], 1);
    assert s.messages == ms[..2];
    FirstOfBeginning(s.messages, ms, 1);
    FlyingHead(h, ms[1], 0xFFF);
    assert |h.done + h.flying + h.waiting| == 0x1002;
    x := y.(stuck := s.pod.sent, held := Bytes(h.flying));
    StuckNow(y, s, h, x);
  }

  lemma StuckNow(y: Setting, s: System, h: Progress, x: Setting)
    requires y.stuck == [] && y.held == 0 && |h.flying| == 1 && h.waiting == []
    requires SenderAt(s.pod, y.channel, [], 0, h.flying, []) && x == y.(stuck := s.pod.sent, held := Bytes(h.flying))
    ensures SenderAt(s.pod, x.channel, x.stuck, x.held, [], []) && |x.stuck| == 1
    ensures x.stuck[0].channel == y.channel && Copy(x.stuck[0].serial, x.stuck[0].body) == h.flying[0]
    ensures x.held == Pod.Length(h.flying[0].body)
  {
    assert s.pod.sent[0..] == s.pod.sent;
    assert h.flying[1..] == [];
  }

  lemma StuckFlies(x: Setting, s: System)
    requires Quiet(x, s) && |x.stuck| == 1
    ensures x.channel < |s.pod.lanes| && InFlight.Flying(s.pod, x.stuck[0])
  {
    ReachedIsGood(x.lanes, x.channel, x.window, s);
    assert s.pod.sent[0] == x.stuck[0];
  }

  /** A run after which a piece in flight is ten windows behind the receiver, counted from the first
      piece of its message: its number would be accepted as new. */
  lemma LatePieceInFlight() returns (s: System, c: Pod.Outgoing)
    ensures Reached(1, 0, LATE_WINDOW, s) && InFlightPiece(s, 0, c, 1, 0x1001, 0x1002)
    ensures c.serial == 0x2000 && s.view.base == 0xA000
    ensures !NotTooOld(s, 0, Arrive(Copy(c.serial, c.body)))
    ensures Acceptable(c.body.start, s.view.queue.incoming)
  {
    var r, x := OnePieceStays();
    LateFirsts();
    LateFit(x, 2);
    LateFit(x, 3);
    s := DeliverMessages(x, r, LateMessages());
    c := x.stuck[0];
    StuckFlies(x, s);
    BaseFollows(x, s, 4);
    IncomingFollows(x, s);
    ReadTooFarBehind(0xFFF, 0xA000);
  }

  lemma IncomingFollows(x: Setting, s: System)
    requires Reached(x.lanes, x.channel, x.window, s)
    ensures s.view.queue.incoming == Low16(s.view.base)
  {
    ReachedIsGood(x.lanes, x.channel, x.window, s);
  }

  /** The proviso on copies is met by all that is in flight exactly for messages of at most 4097 pieces:
      from 4098 on there is a run in which a mere retransmission is too late. */
  lemma AlwaysTimelyIff(limit: nat)
    ensures AlwaysTimely(limit) <==> limit <= LONGEST_TIMELY
  {
    if limit <= LONGEST_TIMELY {
      forall lanes: nat, channel: nat, window: nat, s: System, x: Pod.Outgoing, k: nat, i: nat |
        Reached(lanes, channel, window, s) && InFlightPiece(s, channel, x, k, i, limit)
        ensures NotTooOld(s, channel, Arrive(Copy(x.serial, x.body)))
      {
        ReachedIsGood(lanes, channel, window, s);
        CopiesInFlightAreTimely(s, channel, x, k, i, limit);
      }
    } else {
      var s, c := LatePieceInFlight();
      assert InFlightPiece(s, 0, c, 1, 0x1001, limit);
    }
  }

  // --- the proviso on acknowledgements is sharp ---

  /** A command that has not been sent has not been received. */
  lemma NotSentIsNotReceived(ms: seq<Message>, highest: int, v: View, serial: nat)
    requires Faithful(ms, highest, v) && serial > highest
    ensures !Received(v, serial)
  {
    forall i | 0 <= i < |v.queue.entries|
      ensures !InEntry(v, v.queue.entries[i], serial)
    {
      assert Known(ms, highest, v, v.queue.entries[i]);
    }
  }

  /** What was sent and is too far back to be in flight has been acknowledged. */
  lemma OldIsAcked(s: System, channel: nat, serial: nat)
    requires Invariant(s, channel) && serial >= 1 && serial + 0x10000 <= Books.Highest(s.pod, channel)
    ensures serial in s.acks
  {
    assert Covered(s.pod, channel, s.acks, serial);
    var f := Books.FlyingAs(channel, serial);
    if Books.Total(s.pod, f) > 0 {
      var c := FlyingBearer(s.pod, channel, serial);
      InFlight.FlyingIsNear(s.pod, c, channel);
    }
  }

  lemma FlyingBearer(p: Pod.State, channel: nat, serial: nat) returns (c: Pod.Outgoing)
    requires Books.Sound(p) && Books.Total(p, Books.FlyingAs(channel, serial)) > 0
    ensures InFlight.Flying(p, c) && c.channel == channel && c.serial == serial
  {
    var f := Books.FlyingAs(channel, serial);
    if Books.Sum(p.sent, f) > 0 {
      var i := Books.SumWitness(p.sent, f);
      c := p.sent[i];
    } else {
      var i := Books.SumWitness(p.outgoing, f);
      c := p.outgoing[i];
    }
  }

  /** Messages that take the serials up to 2^16, and one more. */
  function WrapMessages(): (ms: seq<Message>)
    ensures |ms| == 4 && ms[0] == ms[1] == ms[2] == ms[3] == Bytewise(0x4000)
  {
    [Bytewise(0x4000), Bytewise(0x4000), Bytewise(0x4000), Bytewise(0x4000)]
  }

  lemma WrapFirsts()
    ensures First(WrapMessages(), 0) == 1 && First(WrapMessages(), 1) == 0x4001 && First(WrapMessages(), 2) == 0x8001
    ensures First(WrapMessages(), 3) == 0xC001 && First(WrapMessages(), 4) == 0x10001
  {
    var ms := WrapMessages();
    assert First(ms, 1) == First(ms, 0) + Count(ms[0]);
    assert First(ms, 2) == First(ms, 1) + Count(ms[1]);
    assert First(ms, 3) == First(ms, 2) + Count(ms[2]);
    assert First(ms, 4) == First(ms, 3) + Count(ms[3]);
  }

  lemma SmallHasRoom(x: Setting, m: Message, base: nat, n: nat)
    requires x.window == LATE_WINDOW && x.held == 0 && x.stuck == [] && m == Bytewise(n) && 0 < n <= 0x4000
    ensures Sendable(m) && Room(x, m, base)
  {
    Boundary(m, base, LATE_WINDOW);
  }

  lemma NothingBeyond(x: Setting, s: System, k: nat, g: Progress, serial: nat)
    requires Midway(x, s, k, g) && serial == First(s.messages, k) + |g.done| + |g.flying|
    ensures !Received(s.view, serial)
  {
    HighestIs(x, s, k, g);
    UnsentInRun(x, s, serial);
  }

  lemma UnsentInRun(x: Setting, s: System, serial: nat)
    requires Reached(x.lanes, x.channel, x.window, s) && x.channel < |s.pod.lanes| && serial > Books.Highest(s.pod, x.channel)
    ensures !Received(s.view, serial)
  {
    ReachedIsGood(x.lanes, x.channel, x.window, s);
    NotSentIsNotReceived(s.messages, Books.Highest(s.pod, x.channel), s.view, serial);
  }

  /** The first 2^16 commands have been delivered, and the next one is sent and has not arrived. */
  lemma OneMoreIsSent(x: Setting) returns (s: System, g: Progress)
    requires x == Setting(1, 0, LATE_WINDOW, [], 0)
    ensures Midway(x, s, 4, g) && s.view.base == 0x10000 && g.done == g.waiting == [] && |g.flying| == 1
    ensures g.flying[0].serial == 0x10001 && 0 < |s.pod.lanes| && Books.Highest(s.pod, 0) == 0x10001
    ensures !Received(s.view, 0x10001)
  {
    var ms := WrapMessages();
    WrapFirsts();
    InitialIsReached(1, 0, LATE_WINDOW);
    forall i | 0 <= i < 4
      ensures FitsNext(x, ms, i)
    {
      SmallHasRoom(x, ms[i], First(ms, i) - 1, 0x4000);
    }
    var r := DeliverMessages(x, Initial(1), ms);
    SmallHasRoom(x, Bytewise(1), 0x10000, 1);
    var t, h := BeginMessage(x, r, Bytewise(1));
    FirstExtends(ms, Bytewise(1), 4);
    HeadMayLoad(x, Bytewise(1), 0x10001, h);
    s := LoadHead(x, t, 4, h);
    g := Loaded(h);
    BaseFollows(x, s, 4);
    LastIsHighest(x, s, 4, g, g.flying[|g.flying| - 1]);
    NothingBeyond(x, t, 4, h, 0x10001);
  }

  lemma LateAckTakesIt(x: Setting, s: System, g: Progress) returns (c: Pod.Outgoing)
    requires Midway(x, s, 4, g) && x == Setting(1, 0, LATE_WINDOW, [], 0) && g.waiting == [] && |g.flying| == 1
    requires g.flying[0].serial == 0x10001
    ensures 0 < |s.pod.lanes| && Pod.WellFormed(s.pod) && InFlight.Flying(s.pod, c) && c.channel == 0 && c.serial == 0x10001
    ensures Pod.Acknowledge(s.pod, Low16(1), 0).1 == Pod.Removed(c)
    ensures var p := Acknowledged(s.pod, Low16(1), 0); p.sent == [] && p.outgoing == []
  {
    ReachedIsGood(1, 0, LATE_WINDOW, s);
    c := s.pod.sent[0];
    assert s.pod.sent[0..][0] == c;
    InFlight.LateAcknowledgementRemovesAnother(s.pod, c, 1);
    FirstIsRemoved(s.pod, 0, [], 0, g.flying, []);
  }

  lemma FirstIsAcked(s: System)
    requires Reached(1, 0, LATE_WINDOW, s) && 0 < |s.pod.lanes| && Books.Highest(s.pod, 0) == 0x10001
    ensures 1 in s.acks
  {
    ReachedIsGood(1, 0, LATE_WINDOW, s);
    OldIsAcked(s, 0, 1);
  }

  /** A run after which an acknowledgement 2^16 behind the sender takes out of flight a command that has
      not arrived, and leaves nothing in flight. */
  lemma LateAckInRun() returns (s: System, c: Pod.Outgoing)
    ensures Reached(1, 0, LATE_WINDOW, s) && 0 < |s.pod.lanes| && Pod.WellFormed(s.pod)
    ensures 1 in s.acks && Books.Highest(s.pod, 0) == 0x10001 && !NotTooOld(s, 0, AckArrives(1))
    ensures InFlight.Flying(s.pod, c) && c.channel == 0 && c.serial == 0x10001 && !Received(s.view, c.serial)
    ensures Pod.Acknowledge(s.pod, Low16(1), 0).1 == Pod.Removed(c)
    ensures var p := Next(s, 0, AckArrives(1)).pod; p.sent == [] && p.outgoing == []
  {
    var g;
    s, g := OneMoreIsSent(Setting(1, 0, LATE_WINDOW, [], 0));
    FirstIsAcked(s);
    c := LateAckTakesIt(Setting(1, 0, LATE_WINDOW, [], 0), s, g);
  }

  // --- where acknowledgements stop being sound ---

  /** `HandleSendReliable` behind the two tests of `Peer::QueueIncomingCommand`: a peer that is
      disconnecting later, or whose waiting data has reached the limit, discards the segment,
      reports success, and so goes on to deliver what is ready and to acknowledge. */
  function ArrivedAtPeer(v: View, disconnectLater: bool, waiting: nat, limit: nat, n: uint16, data: seq<byte>): View {
    if disconnectLater || waiting >= limit then Drained(v) else ArrivedWhole(v, n, data)
  }

  /** For a command that the receiver does not have and that lies less than seven windows ahead,
      an acknowledgement is queued in either case, and it is for a received command exactly when
      the peer takes commands in. */
  lemma AckIsSoundIffTakenIn(ms: seq<Message>, highest: int, v: View, k: nat, disconnectLater: bool, waiting: nat, limit: nat)
    requires Faithful(ms, highest, v) && !Ready(v.queue) && k < |ms| && IsWhole(ms[k])
    requires First(ms, k) <= highest && Timely(v, First(ms, k), First(ms, k))
    requires highest / WINDOW_SIZE <= v.base / WINDOW_SIZE + 7
    requires !Received(v, First(ms, k)) && First(ms, k) / WINDOW_SIZE <= v.base / WINDOW_SIZE + 6
    ensures var s := First(ms, k);
            var w := ArrivedAtPeer(v, disconnectLater, waiting, limit, Low16(s), ms[k].data);
            && !AckSuppressed(Low16(s), w.queue.incoming)
            && (Received(w, s) <==> !disconnectLater && waiting < limit)
  {
    var s := First(ms, k);
    if disconnectLater || waiting >= limit {
      DrainedUnfolds(v);
      NotAheadAgain(v, v, s);
    } else {
      TakenInIsReceived(ms, highest, v, k, s);
    }
  }

  lemma TakenInIsReceived(ms: seq<Message>, highest: int, v: View, k: nat, s: nat)
    requires Faithful(ms, highest, v) && !Ready(v.queue) && k < |ms| && IsWhole(ms[k]) && s == First(ms, k)
    requires s <= highest && Timely(v, s, s) && highest / WINDOW_SIZE <= v.base / WINDOW_SIZE + 7
    requires s > v.base && s / WINDOW_SIZE <= v.base / WINDOW_SIZE + 6
    ensures var w := ArrivedWhole(v, Low16(s), ms[k].data); Received(w, s) && !AckSuppressed(Low16(s), w.queue.incoming)
  {
    var w := ArrivedWhole(v, Low16(s), ms[k].data);
    WholeOutcome(ms, highest, v, k);
    NotAheadAgain(v, w, s);
  }

  /** Delivering more does not bring a number back into the band that is not acknowledged. */
  lemma NotAheadAgain(v: View, w: View, s: nat)
    requires w.queue.incoming == Low16(w.base) && v.base <= w.base
    requires s > v.base && s / WINDOW_SIZE <= v.base / WINDOW_SIZE + 6
    requires w.base / WINDOW_SIZE <= v.base / WINDOW_SIZE + 7
    ensures !AckSuppressed(Low16(s), w.queue.incoming)
  {
    if s > w.base {
      NewIsRead(w, s);
    } else if s < w.base {
      ReadBehind(s, w.base);
    }
  }
}
