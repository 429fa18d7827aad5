/** Two endpoints and the network between them, for one channel: whatever is lost, repeated,
    reordered and sent again, what is delivered is a prefix of what was sent, and nothing is
    acknowledged that was not received. */
module Delivery {
  import opened Numbers
  import opened Fragments
  import opened Inbox
  import opened Receiver
  import Pod
  import Books

  /** A command on the wire. The number that it carries is `Low16(serial)`. */
  datatype Copy = Copy(serial: nat, body: Body)

  /** `wire` holds every copy ever sent: a copy that never arrives is lost, one that arrives
      again is a duplicate, and the order of arrival is free. `acks` likewise holds the serial of
      every acknowledgement ever queued. */
  datatype System = System(pod: Pod.State, messages: seq<Message>, wire: set<Copy>, view: View, acks: set<nat>)

  datatype Step =
    | Send(message: Message)
    | QueueElsewhere(channel: nat, body: Body)
    | LoadDatagram(chamber: Pod.Chamber, env: Pod.Env)
    | Expire(now: uint32, limits: Pod.Limits)
    | Arrive(copy: Copy)
    | AckArrives(serial: nat)
    | AckElsewhere(number: uint16, channel: nat)

  function Initial(lanes: nat): System {
    System(Pod.State([], [], seq(lanes, _ => Pod.FreshLane()), 0, 0, 0, 0), [], {}, View(Queue([], 0), 0, []), {})
  }

  // --- the steps ---

  /** Queueing the commands of a message from number `i` on: the second loop of `Send`. */
  function QueueFrom(p: Pod.State, channel: nat, m: Message, first: nat, i: nat): Pod.State
    requires i <= Count(m)
    decreases Count(m) - i
  {
    if i == Count(m) then p
    else QueueFrom(Pod.Setup(p, channel, BodyOf(m, first, i)), channel, m, first, i + 1)
  }

  function QueueMessage(p: Pod.State, channel: nat, m: Message): Pod.State
    requires channel < |p.lanes|
  {
    QueueFrom(p, channel, m, p.lanes[channel].serial + 1, 0)
  }

  /** The copies that a loaded datagram puts on the wire of this channel. */
  function Copies(loaded: seq<Pod.Outgoing>, channel: nat): set<Copy> {
    set c | c in loaded && c.channel == channel :: Copy(c.serial, c.body)
  }

  /** What the receiving peer does with a command, given that it takes commands in. */
  function Arrived(v: View, c: Copy): View {
    match c.body
    case Whole(data) => ArrivedWhole(v, Low16(c.serial), data)
    case Piece(_, _, _, _, _, _) => ArrivedPiece(v, c.body)
    case Control(_) => v
  }

  /** `HandleAcknowledge`: whatever the acknowledgement is for, nothing has been late so far. */
  function Acknowledged(p: Pod.State, n: uint16, channel: nat): Pod.State
    requires Pod.WellFormed(p)
  {
    Pod.Acknowledge(p, n, channel).0.(earliestTimeout := 0)
  }

  /** The first serial of the message that a copy belongs to. */
  function FirstOf(c: Copy): int {
    if c.body.Piece? then c.serial - c.body.index else c.serial
  }

  /** The proviso on delay. A command may be at most nine windows behind the receiver, counted
      from the first command of its message, and an acknowledgement less than 2^16 numbers
      behind the sender. */
  ghost predicate NotTooOld(s: System, channel: nat, step: Step)
    requires channel < |s.pod.lanes|
  {
    match step
    case Arrive(c) => s.view.base / WINDOW_SIZE <= FirstOf(c) / WINDOW_SIZE + 9
    case AckArrives(serial) => Books.Highest(s.pod, channel) < serial + 0x10000
    case _ => true
  }

  ghost predicate Enabled(s: System, channel: nat, step: Step) {
    && channel < |s.pod.lanes|
    && Pod.WellFormed(s.pod)
    && match step
       case Send(m) => Sendable(m)
       case QueueElsewhere(d, body) => d != channel && (d < |s.pod.lanes| <==> !body.Control?)
       case LoadDatagram(_, _) => true
       case Expire(_, _) => true
       case Arrive(c) => c in s.wire && NotTooOld(s, channel, step)
       case AckArrives(serial) => serial in s.acks && NotTooOld(s, channel, step)
       case AckElsewhere(_, d) => d != channel
  }

  function Next(s: System, channel: nat, step: Step): System
    requires channel < |s.pod.lanes| && Pod.WellFormed(s.pod)
  {
    match step
    case Send(m) =>
      s.(pod := QueueMessage(s.pod, channel, m), messages := s.messages + [m])
    case QueueElsewhere(d, body) =>
      s.(pod := Pod.Setup(s.pod, d, body))
    case LoadDatagram(chamber, env) =>
      var l := Pod.Load(s.pod, chamber, env);
      s.(pod := l.pod, wire := s.wire + Copies(l.loaded, channel))
    case Expire(now, limits) =>
      s.(pod := Pod.Timeout(s.pod, now, limits).pod)
    case Arrive(c) =>
      var v := Arrived(s.view, c);
      s.(view := v, acks := if AckSuppressed(Low16(c.serial), v.queue.incoming) then s.acks else s.acks + {c.serial})
    case AckArrives(serial) =>
      s.(pod := Acknowledged(s.pod, Low16(serial), channel))
    case AckElsewhere(n, d) =>
      s.(pod := Acknowledged(s.pod, n, d))
  }

  // --- the sending side of the invariant ---

  /** Every command of the channel that waits or flies is the numbered command of a message. */
  ghost predicate Labelled(ms: seq<Message>, cs: seq<Pod.Outgoing>, channel: nat) {
    forall i :: 0 <= i < |cs| && cs[i].channel == channel ==> Numbered(ms, cs[i].serial, cs[i].body)
  }

  /** A command that was sent is in flight or was acknowledged by the receiver. */
  ghost predicate Covered(p: Pod.State, channel: nat, acks: set<nat>, serial: nat) {
    Books.Total(p, Books.FlyingAs(channel, serial)) > 0 || serial in acks
  }

  /** What the sender keeps towards a receiver that stands at `base`: everything sent is covered,
      and nothing was sent more than seven windows ahead of the receiver. */
  ghost predicate Paced(p: Pod.State, channel: nat, acks: set<nat>, base: nat)
    requires channel < |p.lanes|
  {
    && Books.Highest(p, channel) / WINDOW_SIZE <= base / WINDOW_SIZE + 7
    && forall s: nat {:trigger Covered(p, channel, acks, s)} ::
         1 <= s <= Books.Highest(p, channel) ==> Covered(p, channel, acks, s)
  }

  /** An acknowledged command was received, and it lies less than seven windows ahead. */
  ghost predicate AckSound(v: View, highest: int, serial: nat) {
    && 1 <= serial <= highest
    && Received(v, serial)
    && serial / WINDOW_SIZE <= v.base / WINDOW_SIZE + 6
  }

  ghost predicate OnWire(ms: seq<Message>, highest: int, c: Copy) {
    c.serial <= highest && Numbered(ms, c.serial, c.body)
  }

  // --- the window test keeps the pace ---

  /** Sent at least once, on this channel, with a serial in [from, to). */
  function FlyingRange(channel: nat, from: nat, to: nat): Pod.Outgoing -> nat {
    (c: Pod.Outgoing) => if c.channel == channel && c.attempts > 0 && from <= c.serial < to then 1 else 0
  }

  lemma {:induction false} RangeSplits(cs: seq<Pod.Outgoing>, channel: nat, from: nat, to: nat)
    requires from <= to
    ensures Books.Sum(cs, FlyingRange(channel, from, to + 1))
         == Books.Sum(cs, FlyingRange(channel, from, to)) + Books.Sum(cs, Books.FlyingAs(channel, to))
  {
    if cs != [] {
      RangeSplits(cs[1..], channel, from, to);
    }
  }

  lemma {:induction false} RangeIsInWindow(cs: seq<Pod.Outgoing>, channel: nat, from: nat, to: nat, w: nat)
    requires forall s :: from <= s < to ==> s / WINDOW_SIZE % WINDOWS == w
    ensures Books.Sum(cs, FlyingRange(channel, from, to)) <= Books.Sum(cs, Books.FlyingIn(channel, w))
  {
    if cs != [] {
      RangeIsInWindow(cs[1..], channel, from, to, w);
    }
  }

  lemma {:induction false} EmptyRange(cs: seq<Pod.Outgoing>, channel: nat, from: nat)
    ensures Books.Sum(cs, FlyingRange(channel, from, from)) == 0
  {
    if cs != [] {
      EmptyRange(cs[1..], channel, from);
    }
  }

  /** A range of serials that are all in flight makes at least its own number of commands. */
  lemma {:induction false} AllFlying(p: Pod.State, channel: nat, from: nat, to: nat)
    requires from <= to
    requires forall s {:trigger Books.FlyingAs(channel, s)} ::
               from <= s < to ==> Books.Total(p, Books.FlyingAs(channel, s)) > 0
    ensures Books.Total(p, FlyingRange(channel, from, to)) >= to - from
  {
    if from == to {
      EmptyRange(p.sent, channel, from);
      EmptyRange(p.outgoing, channel, from);
    } else {
      AllFlying(p, channel, from, to - 1);
      RangeSplits(p.sent, channel, from, to - 1);
      RangeSplits(p.outgoing, channel, from, to - 1);
      assert Books.Total(p, Books.FlyingAs(channel, to - 1)) > 0;
    }
  }

  /** When the first number of window W is about to be sent and the window before it is not full,
      some number of that window has been acknowledged. */
  lemma SomeAcknowledged(p: Pod.State, channel: nat, acks: set<nat>, base: nat, window: nat) returns (s: nat)
    requires channel < |p.lanes| && Books.Windows(p) && Paced(p, channel, acks, base)
    requires window > 0 && Books.Highest(p, channel) + 1 == window * WINDOW_SIZE
    requires p.lanes[channel].windows[(window - 1) % WINDOWS] < WINDOW_SIZE - 1
    ensures s in acks && s / WINDOW_SIZE == window - 1
  {
    var from := if window == 1 then 1 else (window - 1) * WINDOW_SIZE;
    var to := window * WINDOW_SIZE;
    var w := (window - 1) % WINDOWS;
    forall r | from <= r < to
      ensures r / WINDOW_SIZE == window - 1
    {
    }
    assert p.lanes[channel].windows[w] == Books.Total(p, Books.FlyingIn(channel, w));
    if forall r: nat :: from <= r < to ==> r !in acks {
      forall r | from <= r < to
        ensures Books.Total(p, Books.FlyingAs(channel, r)) > 0
      {
        assert Covered(p, channel, acks, r);
      }
      AllFlying(p, channel, from, to);
      RangeIsInWindow(p.sent, channel, from, to, w);
      RangeIsInWindow(p.outgoing, channel, from, to, w);
      assert false;
    }
    s :| from <= s < to && s in acks;
  }

  // --- the sending side, operation by operation ---

  ghost predicate SenderOk(p: Pod.State, ms: seq<Message>, channel: nat, acks: set<nat>, base: nat) {
    && channel < |p.lanes|
    && Books.Sound(p)
    && Labelled(ms, p.sent, channel)
    && Labelled(ms, p.outgoing, channel)
    && Paced(p, channel, acks, base)
  }

  /** Every acknowledgement was given less than seven windows ahead of the receiver. */
  ghost predicate AcksBehind(acks: set<nat>, base: nat) {
    forall a :: a in acks ==> a / WINDOW_SIZE <= base / WINDOW_SIZE + 6
  }

  /** The counter that the wrap test reads is that of the window before. */
  lemma WindowBeforeSlot(h: nat)
    requires h > 0 && h % WINDOW_SIZE == 0
    ensures (Low16(h) / WINDOW_SIZE + WINDOWS - 1) % WINDOWS == (h / WINDOW_SIZE - 1) % WINDOWS
    ensures Low16(h) % WINDOW_SIZE == 0
  {
    WindowSlot(h);
    SlotBefore(h / WINDOW_SIZE);
  }

  lemma SlotBefore(w: nat)
    requires w > 0
    ensures (w % WINDOWS + WINDOWS - 1) % WINDOWS == (w - 1) % WINDOWS
  {
    var q, r := w / 16, w % 16;
    assert w - 1 == if r > 0 then 16 * q + (r - 1) else 16 * (q - 1) + 15;
  }

  lemma FirstOfWindowKeepsPace(p: Pod.State, channel: nat, acks: set<nat>, base: nat, h: nat)
    requires channel < |p.lanes| && Books.Windows(p) && Paced(p, channel, acks, base) && AcksBehind(acks, base)
    requires h == Books.Highest(p, channel) + 1 && h > 0 && h % WINDOW_SIZE == 0
    requires p.lanes[channel].windows[(h / WINDOW_SIZE - 1) % WINDOWS] < WINDOW_SIZE - 1
    ensures h / WINDOW_SIZE <= base / WINDOW_SIZE + 7
  {
    var s := SomeAcknowledged(p, channel, acks, base, h / WINDOW_SIZE);
  }

  lemma TransmitKeepsPace(p: Pod.State, i: nat, channel: nat, acks: set<nat>, base: nat)
    requires channel < |p.lanes| && Books.Sound(p) && Paced(p, channel, acks, base) && AcksBehind(acks, base)
    requires i < |p.outgoing| && Books.MaySend(p, i, channel)
    ensures Books.HighestAfter(p, i, channel) / WINDOW_SIZE <= base / WINDOW_SIZE + 7
  {
    var x := p.outgoing[i];
    assert Books.Flight(p, channel);
    if x.channel == channel && x.attempts == 0 {
      var h: nat := Books.Highest(p, channel) + 1;
      assert x.serial == h;
      if h % WINDOW_SIZE == 0 {
        WindowBeforeSlot(h);
        FirstOfWindowKeepsPace(p, channel, acks, base, h);
      } else {
        SameWindow(h);
      }
    }
  }

  lemma SameWindow(h: nat)
    requires h % WINDOW_SIZE != 0
    ensures h / WINDOW_SIZE == (h - 1) / WINDOW_SIZE
  {
  }

  lemma TransmitKeepsCovered(p: Pod.State, i: nat, env: Pod.Env, channel: nat, acks: set<nat>, serial: nat)
    requires channel < |p.lanes| && Books.Sound(p) && i < |p.outgoing| && Books.MaySend(p, i, channel)
    requires 1 <= serial <= Books.HighestAfter(p, i, channel)
    requires serial <= Books.Highest(p, channel) ==> Covered(p, channel, acks, serial)
    ensures Covered(Pod.Transmit(p, i, env), channel, acks, serial)
  {
    assert Books.Flight(p, channel);
    Books.TransmitSums(p, i, env, Books.FlyingAs(channel, serial));
  }

  lemma TransmitKeepsLabels(p: Pod.State, i: nat, env: Pod.Env, ms: seq<Message>, channel: nat)
    requires Pod.WellFormed(p) && i < |p.outgoing|
    requires Labelled(ms, p.sent, channel) && Labelled(ms, p.outgoing, channel)
    ensures var q := Pod.Transmit(p, i, env); Labelled(ms, q.sent, channel) && Labelled(ms, q.outgoing, channel)
  {
  }

  lemma TransmitKeepsSender(p: Pod.State, i: nat, env: Pod.Env, ms: seq<Message>, channel: nat, acks: set<nat>, base: nat)
    requires SenderOk(p, ms, channel, acks, base) && AcksBehind(acks, base)
    requires i < |p.outgoing| && forall c :: 0 <= c < |p.lanes| ==> Books.MaySend(p, i, c)
    ensures SenderOk(Pod.Transmit(p, i, env), ms, channel, acks, base)
    ensures Books.Highest(Pod.Transmit(p, i, env), channel) >= Books.Highest(p, channel)
  {
    var q := Pod.Transmit(p, i, env);
    Books.TransmitKeepsSound(p, i, env);
    Books.TransmitMovesHighest(p, i, env, channel);
    TransmitKeepsLabels(p, i, env, ms, channel);
    TransmitKeepsPace(p, i, channel, acks, base);
    forall s: nat | 1 <= s <= Books.Highest(q, channel)
      ensures Covered(q, channel, acks, s)
    {
      if s <= Books.Highest(p, channel) { assert Covered(p, channel, acks, s); }
      TransmitKeepsCovered(p, i, env, channel, acks, s);
    }
  }

  /** The commands loaded so far may be put on the wire. */
  ghost predicate LoadedOk(s: Pod.Loading, ms: seq<Message>, channel: nat)
    requires channel < |s.pod.lanes|
  {
    forall i :: 0 <= i < |s.loaded| && s.loaded[i].channel == channel ==>
      s.loaded[i].serial <= Books.Highest(s.pod, channel) && Numbered(ms, s.loaded[i].serial, s.loaded[i].body)
  }

  lemma LoadOneKeepsSender(s: Pod.Loading, env: Pod.Env, ms: seq<Message>, channel: nat, acks: set<nat>, base: nat)
    requires Books.LoadInvariant(s) && !s.stopped && s.next < |s.pod.outgoing|
    requires SenderOk(s.pod, ms, channel, acks, base) && AcksBehind(acks, base) && LoadedOk(s, ms, channel)
    ensures var r := Pod.LoadOne(s, env);
            && SenderOk(r.pod, ms, channel, acks, base) && LoadedOk(r, ms, channel)
            && Books.Highest(r.pod, channel) >= Books.Highest(s.pod, channel)
  {
    Books.LoadOneCases(s, env);
    var r, x := Pod.LoadOne(s, env), s.pod.outgoing[s.next];
    if r.pod != s.pod || r.loaded != s.loaded {
      TransmitKeepsSender(s.pod, s.next, env, ms, channel, acks, base);
      Books.TransmitMovesHighest(s.pod, s.next, env, channel);
      assert Books.Flight(s.pod, channel) && Books.Near(x, channel, Books.Highest(s.pod, channel));
      assert x.channel == channel ==> x.serial <= Books.Highest(r.pod, channel);
    }
  }

  lemma {:induction false} LoadKeepsSender(s: Pod.Loading, env: Pod.Env, ms: seq<Message>, channel: nat, acks: set<nat>, base: nat)
    requires Books.LoadInvariant(s)
    requires SenderOk(s.pod, ms, channel, acks, base) && AcksBehind(acks, base) && LoadedOk(s, ms, channel)
    ensures var r := Pod.LoadRest(s, env);
            && SenderOk(r.pod, ms, channel, acks, base) && LoadedOk(r, ms, channel)
            && Books.Highest(r.pod, channel) >= Books.Highest(s.pod, channel)
    decreases if s.stopped then 0 else |s.pod.outgoing| - s.next
  {
    if !s.stopped && s.next < |s.pod.outgoing| {
      var t := Pod.LoadOne(s, env);
      Books.LoadOneKeepsInvariant(s, env);
      LoadOneKeepsSender(s, env, ms, channel, acks, base);
      if !t.stopped { LoadKeepsSender(t, env, ms, channel, acks, base); }
    }
  }

  lemma RequeueKeepsSender(p: Pod.State, i: nat, ms: seq<Message>, channel: nat, acks: set<nat>, base: nat)
    requires SenderOk(p, ms, channel, acks, base) && i < |p.sent|
    ensures SenderOk(Pod.Requeue(p, i), ms, channel, acks, base)
    ensures Books.Highest(Pod.Requeue(p, i), channel) == Books.Highest(p, channel)
  {
    var q := Pod.Requeue(p, i);
    Books.RequeueKeepsSound(p, i);
    assert Books.Flight(p, channel);
    Books.RequeueKeepsFlight(p, i, channel);
    forall s: nat | 1 <= s <= Books.Highest(q, channel)
      ensures Covered(q, channel, acks, s)
    {
      assert Covered(p, channel, acks, s);
      Books.RequeueSums(p, i, Books.FlyingAs(channel, s));
    }
    forall k | 0 <= k < |q.sent|
      ensures q.sent[k] == p.sent[if k < i then k else k + 1]
    {
    }
    forall k | 0 <= k < |q.outgoing|
      ensures q.outgoing[k] == if k == 0 then Books.Slower(p.sent[i]) else p.outgoing[k - 1]
    {
    }
  }

  lemma EarliestKeepsSender(p: Pod.State, q: Pod.State, ms: seq<Message>, channel: nat, acks: set<nat>, base: nat)
    requires SenderOk(p, ms, channel, acks, base) && q == p.(earliestTimeout := q.earliestTimeout)
    ensures SenderOk(q, ms, channel, acks, base) && Books.Highest(q, channel) == Books.Highest(p, channel)
  {
    Books.EarliestKeepsSound(p, q);
    forall s: nat | 1 <= s <= Books.Highest(q, channel)
      ensures Covered(q, channel, acks, s)
    {
      assert Covered(p, channel, acks, s);
    }
  }

  lemma {:induction false} ExpireKeepsSender(s: Pod.Expiring, now: uint32, limits: Pod.Limits, ms: seq<Message>,
                                             channel: nat, acks: set<nat>, base: nat)
    requires SenderOk(s.pod, ms, channel, acks, base) && (s.disconnect || s.next <= |s.pod.sent|)
    ensures var r := Pod.ExpireRest(s, now, limits);
            SenderOk(r.pod, ms, channel, acks, base) && Books.Highest(r.pod, channel) == Books.Highest(s.pod, channel)
    decreases if s.disconnect then 0 else |s.pod.sent| - s.next
  {
    if !s.disconnect && s.next < |s.pod.sent| {
      var t := Pod.ExpireOne(s, now, limits);
      var p := s.pod.(earliestTimeout := Pod.EarliestOf(s.pod.earliestTimeout, s.pod.sent[s.next]));
      EarliestKeepsSender(s.pod, p, ms, channel, acks, base);
      RequeueKeepsSender(p, s.next, ms, channel, acks, base);
      if !t.disconnect { ExpireKeepsSender(t, now, limits, ms, channel, acks, base); }
    }
  }

  /** An acknowledgement that is not too old names the command that it was given for. */
  lemma AckNamesItsCommand(p: Pod.State, channel: nat, serial: nat, x: Pod.Outgoing)
    requires channel < |p.lanes|
    requires 1 <= serial <= Books.Highest(p, channel) < serial + 0x10000
    requires x.attempts > 0 && Books.Near(x, channel, Books.Highest(p, channel)) && Pod.Named(x, Low16(serial), channel)
    ensures x.serial == serial
  {
  }

  lemma AcknowledgeKeepsSender(p: Pod.State, n: uint16, d: nat, ms: seq<Message>, channel: nat, acks: set<nat>, base: nat)
    requires SenderOk(p, ms, channel, acks, base)
    requires d == channel ==> exists a :: a in acks && Low16(a) == n && 1 <= a <= Books.Highest(p, channel) < a + 0x10000
    ensures SenderOk(Pod.Acknowledge(p, n, d).0, ms, channel, acks, base)
    ensures Books.Highest(Pod.Acknowledge(p, n, d).0, channel) == Books.Highest(p, channel)
  {
    var r := Pod.Acknowledge(p, n, d);
    Books.AcknowledgeKeepsSound(p, n, d);
    assert Books.Flight(p, channel);
    Books.AcknowledgeKeepsFlight(p, n, d, channel);
    AcknowledgeKeepsLabels(p, n, d, ms, channel);
    forall s: nat | 1 <= s <= Books.Highest(p, channel)
      ensures Covered(r.0, channel, acks, s)
    {
      assert Covered(p, channel, acks, s);
      Books.AcknowledgeSums(p, n, d, Books.FlyingAs(channel, s));
      if r.1.Removed? && d == channel {
        var a :| a in acks && Low16(a) == n && 1 <= a <= Books.Highest(p, channel) < a + 0x10000;
        RemovedWasFlying(p, n, d, channel);
        AckNamesItsCommand(p, channel, a, r.1.command);
      }
    }
  }

  lemma RemovedWasFlying(p: Pod.State, n: uint16, d: nat, channel: nat)
    requires Books.Sound(p) && Pod.Acknowledge(p, n, d).1.Removed? && channel < |p.lanes|
    ensures var x := Pod.Acknowledge(p, n, d).1.command;
            x.attempts > 0 && Pod.Named(x, n, d) && Books.Near(x, channel, Books.Highest(p, channel))
  {
    assert Books.Flight(p, channel);
  }

  lemma AcknowledgeKeepsLabels(p: Pod.State, n: uint16, d: nat, ms: seq<Message>, channel: nat)
    requires Pod.WellFormed(p) && Labelled(ms, p.sent, channel) && Labelled(ms, p.outgoing, channel)
    ensures var q := Pod.Acknowledge(p, n, d).0; Labelled(ms, q.sent, channel) && Labelled(ms, q.outgoing, channel)
  {
    var i := Pod.FindSent(p.sent, n, d);
    var j := Pod.FindRequeued(p.outgoing, n, d);
    if i < |p.sent| {
      LabelledWithout(ms, p.sent, channel, i);
    } else if j < |p.outgoing| {
      LabelledWithout(ms, p.outgoing, channel, j);
    }
  }

  lemma LabelledWithout(ms: seq<Message>, cs: seq<Pod.Outgoing>, channel: nat, i: nat)
    requires Labelled(ms, cs, channel) && i < |cs|
    ensures Labelled(ms, Pod.Without(cs, i), channel)
  {
  }

  lemma SetupKeepsSender(p: Pod.State, d: nat, body: Body, ms: seq<Message>, channel: nat, acks: set<nat>, base: nat)
    requires SenderOk(p, ms, channel, acks, base) && (d < |p.lanes| <==> !body.Control?)
    requires d == channel ==> Numbered(ms, p.lanes[channel].serial + 1, body)
    ensures SenderOk(Pod.Setup(p, d, body), ms, channel, acks, base)
    ensures Books.Highest(Pod.Setup(p, d, body), channel) == Books.Highest(p, channel)
  {
    var q := Pod.Setup(p, d, body);
    Books.SetupKeepsSound(p, d, body);
    assert Books.Flight(p, channel);
    Books.SetupKeepsFlight(p, d, body, channel);
    forall s: nat | 1 <= s <= Books.Highest(q, channel)
      ensures Covered(q, channel, acks, s)
    {
      assert Covered(p, channel, acks, s);
      Books.SetupSums(p, d, body, Books.FlyingAs(channel, s));
    }
  }

  // --- the receiving side when the sender moves on ---

  lemma NumberedExtends(ms: seq<Message>, m: Message, serial: nat, body: Body)
    requires Numbered(ms, serial, body)
    ensures Numbered(ms + [m], serial, body)
  {
    var k: nat, i: nat :| At(ms, k, i, serial, body);
    FirstExtends(ms, m, k);
    assert At(ms + [m], k, i, serial, body);
  }

  lemma KnownExtends(ms: seq<Message>, m: Message, highest: int, v: View, e: Entry)
    requires Known(ms, highest, v, e)
    ensures Known(ms + [m], highest, v, e)
  {
    var k :| |v.delivered| <= k < |ms| && EntryFor(ms, highest, v, e, k);
    FirstExtends(ms, m, k);
    assert EntryFor(ms + [m], highest, v, e, k);
  }

  lemma FaithfulExtends(ms: seq<Message>, m: Message, highest: int, v: View)
    requires Faithful(ms, highest, v)
    ensures Faithful(ms + [m], highest, v)
  {
    FirstExtends(ms, m, |v.delivered|);
    forall i | 0 <= i < |v.queue.entries|
      ensures Known(ms + [m], highest, v, v.queue.entries[i])
    {
      KnownExtends(ms, m, highest, v, v.queue.entries[i]);
    }
  }

  lemma FaithfulGrows(ms: seq<Message>, highest: int, higher: int, v: View)
    requires Faithful(ms, highest, v) && highest <= higher
    ensures Faithful(ms, higher, v)
  {
    forall i | 0 <= i < |v.queue.entries|
      ensures Known(ms, higher, v, v.queue.entries[i])
    {
      var e := v.queue.entries[i];
      assert Known(ms, highest, v, e);
      var k :| |v.delivered| <= k < |ms| && EntryFor(ms, highest, v, e, k);
      assert EntryFor(ms, higher, v, e, k);
    }
  }

  // --- the invariant of the whole system ---

  ghost predicate WireOk(ms: seq<Message>, highest: int, wire: set<Copy>) {
    forall c :: c in wire ==> OnWire(ms, highest, c)
  }

  ghost predicate AcksOk(v: View, highest: int, acks: set<nat>) {
    forall a :: a in acks ==> AckSound(v, highest, a)
  }

  ghost predicate MessagesOk(p: Pod.State, channel: nat, ms: seq<Message>)
    requires channel < |p.lanes|
  {
    && p.lanes[channel].serial + 1 == First(ms, |ms|)
    && forall k :: 0 <= k < |ms| ==> Sendable(ms[k])
  }

  ghost predicate Invariant(s: System, channel: nat) {
    && SenderOk(s.pod, s.messages, channel, s.acks, s.view.base)
    && MessagesOk(s.pod, channel, s.messages)
    && WireOk(s.messages, Books.Highest(s.pod, channel), s.wire)
    && Faithful(s.messages, Books.Highest(s.pod, channel), s.view)
    && !Ready(s.view.queue)
    && AcksOk(s.view, Books.Highest(s.pod, channel), s.acks)
  }

  lemma InitialInvariant(lanes: nat, channel: nat)
    requires channel < lanes
    ensures Invariant(Initial(lanes), channel)
  {
    var s := Initial(lanes);
    forall c | 0 <= c < |s.pod.lanes|
      ensures Books.Flight(s.pod, c)
    {
    }
  }

  lemma {:induction false} QueueFromKeepsSender(p: Pod.State, channel: nat, ms: seq<Message>, k: nat, i: nat,
                                                acks: set<nat>, base: nat)
    requires SenderOk(p, ms, channel, acks, base) && k < |ms| && i <= Count(ms[k])
    requires p.lanes[channel].serial + 1 == First(ms, k) + i
    ensures var q := QueueFrom(p, channel, ms[k], First(ms, k), i);
            && SenderOk(q, ms, channel, acks, base)
            && Books.Highest(q, channel) == Books.Highest(p, channel)
            && q.lanes[channel].serial + 1 == First(ms, k) + Count(ms[k])
    decreases Count(ms[k]) - i
  {
    if i < Count(ms[k]) {
      var b := BodyOf(ms[k], First(ms, k), i);
      assert At(ms, k, i, First(ms, k) + i, b);
      SetupKeepsSender(p, channel, b, ms, channel, acks, base);
      QueueFromKeepsSender(Pod.Setup(p, channel, b), channel, ms, k, i + 1, acks, base);
    }
  }

  lemma SenderExtends(p: Pod.State, ms: seq<Message>, m: Message, channel: nat, acks: set<nat>, base: nat)
    requires SenderOk(p, ms, channel, acks, base)
    ensures SenderOk(p, ms + [m], channel, acks, base)
  {
    forall i | 0 <= i < |p.sent| && p.sent[i].channel == channel
      ensures Numbered(ms + [m], p.sent[i].serial, p.sent[i].body)
    {
      NumberedExtends(ms, m, p.sent[i].serial, p.sent[i].body);
    }
    forall i | 0 <= i < |p.outgoing| && p.outgoing[i].channel == channel
      ensures Numbered(ms + [m], p.outgoing[i].serial, p.outgoing[i].body)
    {
      NumberedExtends(ms, m, p.outgoing[i].serial, p.outgoing[i].body);
    }
  }

  lemma SendKeepsInvariant(s: System, channel: nat, m: Message)
    requires Invariant(s, channel) && Sendable(m)
    ensures Invariant(Next(s, channel, Send(m)), channel)
  {
    var ms, k := s.messages + [m], |s.messages|;
    FirstExtends(s.messages, m, k);
    SenderExtends(s.pod, s.messages, m, channel, s.acks, s.view.base);
    QueueFromKeepsSender(s.pod, channel, ms, k, 0, s.acks, s.view.base);
    FaithfulExtends(s.messages, m, Books.Highest(s.pod, channel), s.view);
    forall c | c in s.wire
      ensures OnWire(ms, Books.Highest(s.pod, channel), c)
    {
      NumberedExtends(s.messages, m, c.serial, c.body);
    }
  }

  /** Steps that only move the sender: the pod changes, nothing is transmitted. */
  lemma SenderStepKeepsInvariant(s: System, channel: nat, q: Pod.State)
    requires Invariant(s, channel) && SenderOk(q, s.messages, channel, s.acks, s.view.base)
    requires Books.Highest(q, channel) == Books.Highest(s.pod, channel)
    requires q.lanes[channel].serial == s.pod.lanes[channel].serial
    ensures Invariant(s.(pod := q), channel)
  {
  }

  lemma AcksAreBehind(v: View, highest: int, acks: set<nat>)
    requires AcksOk(v, highest, acks)
    ensures AcksBehind(acks, v.base)
  {
  }

  lemma {:induction false} LoadKeepsSerial(l: Pod.Loading, env: Pod.Env, channel: nat)
    requires l.next <= |l.pod.outgoing| && Pod.WellFormed(l.pod) && channel < |l.pod.lanes|
    ensures var r := Pod.LoadRest(l, env);
            channel < |r.pod.lanes| && r.pod.lanes[channel].serial == l.pod.lanes[channel].serial
    decreases if l.stopped then 0 else |l.pod.outgoing| - l.next
  {
    if !l.stopped && l.next < |l.pod.outgoing| {
      var t := Pod.LoadOne(l, env);
      if !t.stopped { LoadKeepsSerial(t, env, channel); }
    }
  }

  lemma LoadKeepsInvariant(s: System, channel: nat, chamber: Pod.Chamber, env: Pod.Env)
    requires Invariant(s, channel)
    ensures Invariant(Next(s, channel, LoadDatagram(chamber, env)), channel)
  {
    var start := Pod.StartLoading(s.pod, chamber);
    var r := Pod.Load(s.pod, chamber, env);
    AcksAreBehind(s.view, Books.Highest(s.pod, channel), s.acks);
    LoadKeepsSender(start, env, s.messages, channel, s.acks, s.view.base);
    LoadKeepsSerial(start, env, channel);
    var h, h' := Books.Highest(s.pod, channel), Books.Highest(r.pod, channel);
    FaithfulGrows(s.messages, h, h', s.view);
    var wire := s.wire + Copies(r.loaded, channel);
    forall c | c in wire
      ensures OnWire(s.messages, h', c)
    {
      if c in s.wire {
        assert OnWire(s.messages, h, c);
      } else {
        var x :| x in r.loaded && x.channel == channel && c == Copy(x.serial, x.body);
      }
    }
    forall a | a in s.acks
      ensures AckSound(s.view, h', a)
    {
      assert AckSound(s.view, h, a);
    }
  }

  /** The message and the place of a copy on the wire. */
  lemma CopyIsTimely(s: System, channel: nat, c: Copy) returns (k: nat, i: nat)
    requires Invariant(s, channel) && c in s.wire && NotTooOld(s, channel, Arrive(c))
    ensures At(s.messages, k, i, c.serial, c.body) && c.serial <= Books.Highest(s.pod, channel)
    ensures Timely(s.view, First(s.messages, k), c.serial) && Sendable(s.messages[k])
    ensures IsWhole(s.messages[k]) ==> i == 0
  {
    assert OnWire(s.messages, Books.Highest(s.pod, channel), c);
    k, i :| At(s.messages, k, i, c.serial, c.body);
    assert FirstOf(c) == First(s.messages, k);
  }

  lemma WholeCopyArrives(ms: seq<Message>, highest: int, v: View, c: Copy, k: nat)
    requires Faithful(ms, highest, v) && !Ready(v.queue) && At(ms, k, 0, c.serial, c.body) && IsWhole(ms[k])
    requires c.serial <= highest && Timely(v, First(ms, k), c.serial)
    ensures SoundArrival(ms, highest, v, Arrived(v, c), c.serial)
  {
    WholeOutcome(ms, highest, v, k);
  }

  lemma PieceCopyArrives(ms: seq<Message>, highest: int, v: View, c: Copy, k: nat, i: nat)
    requires Faithful(ms, highest, v) && !Ready(v.queue) && At(ms, k, i, c.serial, c.body) && !IsWhole(ms[k])
    requires c.serial <= highest && Timely(v, First(ms, k), c.serial) && Sendable(ms[k])
    ensures SoundArrival(ms, highest, v, Arrived(v, c), c.serial)
  {
    ArrivedPieceIsSound(ms, highest, v, k, i, c.serial);
  }

  lemma ArrivalIsSound(s: System, channel: nat, c: Copy)
    requires Invariant(s, channel) && c in s.wire && NotTooOld(s, channel, Arrive(c))
    ensures SoundArrival(s.messages, Books.Highest(s.pod, channel), s.view, Arrived(s.view, c), c.serial)
    ensures 1 <= c.serial <= Books.Highest(s.pod, channel)
    ensures c.serial / WINDOW_SIZE <= s.view.base / WINDOW_SIZE + 7
  {
    var k, i := CopyIsTimely(s, channel, c);
    if IsWhole(s.messages[k]) {
      WholeCopyArrives(s.messages, Books.Highest(s.pod, channel), s.view, c, k);
    } else {
      PieceCopyArrives(s.messages, Books.Highest(s.pod, channel), s.view, c, k, i);
    }
  }

  /** An acknowledgement that is queued is for a command less than seven windows ahead. */
  lemma QueuedAckIsBehind(v: View, serial: nat)
    requires v.queue.incoming == Low16(v.base)
    requires serial / WINDOW_SIZE <= v.base / WINDOW_SIZE + 7
    requires !AckSuppressed(Low16(serial), v.queue.incoming)
    ensures serial / WINDOW_SIZE <= v.base / WINDOW_SIZE + 6
  {
    if serial > v.base { NewIsRead(v, serial); }
  }

  lemma PacedLater(p: Pod.State, channel: nat, acks: set<nat>, more: set<nat>, base: nat, later: nat)
    requires channel < |p.lanes| && Paced(p, channel, acks, base) && acks <= more && base <= later
    ensures Paced(p, channel, more, later)
  {
    forall s: nat | 1 <= s <= Books.Highest(p, channel)
      ensures Covered(p, channel, more, s)
    {
      assert Covered(p, channel, acks, s);
    }
  }

  lemma ArriveKeepsInvariant(s: System, channel: nat, c: Copy)
    requires Invariant(s, channel) && c in s.wire && NotTooOld(s, channel, Arrive(c))
    ensures Invariant(Next(s, channel, Arrive(c)), channel)
  {
    ArrivalIsSound(s, channel, c);
    var t, h := Next(s, channel, Arrive(c)), Books.Highest(s.pod, channel);
    PacedLater(s.pod, channel, s.acks, t.acks, s.view.base, t.view.base);
    forall a | a in t.acks
      ensures AckSound(t.view, h, a)
    {
      if a in s.acks {
        assert AckSound(s.view, h, a);
        assert Received(s.view, a);
      } else {
        assert a == c.serial && Answered(t.view, a);
        QueuedAckIsBehind(t.view, a);
      }
    }
  }

  lemma AcknowledgedKeepsSender(p: Pod.State, n: uint16, d: nat, ms: seq<Message>, channel: nat, acks: set<nat>, base: nat)
    requires SenderOk(p, ms, channel, acks, base)
    requires d == channel ==> exists a :: a in acks && Low16(a) == n && 1 <= a <= Books.Highest(p, channel) < a + 0x10000
    ensures SenderOk(Acknowledged(p, n, d), ms, channel, acks, base)
    ensures Books.Highest(Acknowledged(p, n, d), channel) == Books.Highest(p, channel)
  {
    AcknowledgeKeepsSender(p, n, d, ms, channel, acks, base);
    EarliestKeepsSender(Pod.Acknowledge(p, n, d).0, Acknowledged(p, n, d), ms, channel, acks, base);
  }

  lemma AckKeepsInvariant(s: System, channel: nat, serial: nat)
    requires Invariant(s, channel) && serial in s.acks && NotTooOld(s, channel, AckArrives(serial))
    ensures Invariant(Next(s, channel, AckArrives(serial)), channel)
  {
    assert AckSound(s.view, Books.Highest(s.pod, channel), serial);
    AcknowledgedKeepsSender(s.pod, Low16(serial), channel, s.messages, channel, s.acks, s.view.base);
    SenderStepKeepsInvariant(s, channel, Acknowledged(s.pod, Low16(serial), channel));
  }

  lemma StepKeepsInvariant(s: System, channel: nat, step: Step)
    requires Invariant(s, channel) && Enabled(s, channel, step)
    ensures Invariant(Next(s, channel, step), channel)
  {
    match step {
      case Send(m) => SendKeepsInvariant(s, channel, m);
      case QueueElsewhere(d, body) =>
        SetupKeepsSender(s.pod, d, body, s.messages, channel, s.acks, s.view.base);
        SenderStepKeepsInvariant(s, channel, Pod.Setup(s.pod, d, body));
      case LoadDatagram(chamber, env) => LoadKeepsInvariant(s, channel, chamber, env);
      case Expire(now, limits) =>
        ExpireKeepsSender(Pod.Expiring(s.pod, 0, 0, false), now, limits, s.messages, channel, s.acks, s.view.base);
        SenderStepKeepsInvariant(s, channel, Pod.Timeout(s.pod, now, limits).pod);
      case Arrive(c) => ArriveKeepsInvariant(s, channel, c);
      case AckArrives(serial) => AckKeepsInvariant(s, channel, serial);
      case AckElsewhere(n, d) =>
        AcknowledgedKeepsSender(s.pod, n, d, s.messages, channel, s.acks, s.view.base);
        SenderStepKeepsInvariant(s, channel, Acknowledged(s.pod, n, d));
    }
  }

  // --- whole runs ---

  ghost predicate Possible(s: System, channel: nat, steps: seq<Step>)
    decreases |steps|
  {
    steps == [] || (Enabled(s, channel, steps[0]) && Possible(Next(s, channel, steps[0]), channel, steps[1..]))
  }

  ghost function After(s: System, channel: nat, steps: seq<Step>): System
    requires Possible(s, channel, steps)
    decreases |steps|
  {
    if steps == [] then s else After(Next(s, channel, steps[0]), channel, steps[1..])
  }

  lemma {:induction false} RunKeepsInvariant(s: System, channel: nat, steps: seq<Step>)
    requires Invariant(s, channel) && Possible(s, channel, steps)
    ensures Invariant(After(s, channel, steps), channel)
    decreases |steps|
  {
    if steps != [] {
      StepKeepsInvariant(s, channel, steps[0]);
      RunKeepsInvariant(Next(s, channel, steps[0]), channel, steps[1..]);
    }
  }

  /** Exactly once and in order: after any run, what was delivered is the data of the first
      messages that were sent, without gap or repeat. */
  lemma DeliveredIsPrefixOfSent(lanes: nat, channel: nat, steps: seq<Step>)
    requires channel < lanes && Possible(Initial(lanes), channel, steps)
    ensures var t := After(Initial(lanes), channel, steps);
            && |t.view.delivered| <= |t.messages|
            && forall i :: 0 <= i < |t.view.delivered| ==> t.view.delivered[i] == t.messages[i].data
  {
    InitialInvariant(lanes, channel);
    RunKeepsInvariant(Initial(lanes), channel, steps);
  }

  /** Ack soundness: after any run, every acknowledgement ever queued is for a command that the
      receiver has stored or delivered. */
  lemma AcksAreForReceivedCommands(lanes: nat, channel: nat, steps: seq<Step>)
    requires channel < lanes && Possible(Initial(lanes), channel, steps)
    ensures var t := After(Initial(lanes), channel, steps);
            forall a :: a in t.acks ==> Received(t.view, a)
  {
    InitialInvariant(lanes, channel);
    RunKeepsInvariant(Initial(lanes), channel, steps);
    var t := After(Initial(lanes), channel, steps);
    forall a | a in t.acks
      ensures Received(t.view, a)
    {
      assert AckSound(t.view, Books.Highest(t.pod, channel), a);
    }
  }
}
