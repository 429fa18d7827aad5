/** How long a message may be: what can be in flight at once, and so which messages can ever be
    delivered. */
module Lengths {
  import opened Numbers
  import opened Fragments
  import opened Inbox
  import opened Receiver
  import opened Delivery
  import opened Runs
  import Pod
  import Books
  import InFlight

  // --- the bytes in flight never exceed the data window ---

  /** The payload of a command that was sent at least once. */
  function FlyingBytes(): Pod.Outgoing -> nat {
    (c: Pod.Outgoing) => if c.attempts > 0 then Pod.Length(c.body) else 0
  }

  /** What was sent and is not acknowledged, waiting to be sent again or not, fits the data window. */
  ghost predicate InWindow(p: Pod.State, window: nat) {
    Books.Total(p, FlyingBytes()) <= window
  }

  lemma {:induction false} NothingFlown(cs: seq<Pod.Outgoing>)
    requires forall i :: 0 <= i < |cs| ==> cs[i].attempts == 0
    ensures Books.Sum(cs, FlyingBytes()) == 0
  {
    if cs != [] { NothingFlown(cs[1..]); }
  }

  lemma {:induction false} AllFlown(cs: seq<Pod.Outgoing>)
    requires forall i :: 0 <= i < |cs| ==> cs[i].attempts > 0
    ensures Books.Sum(cs, FlyingBytes()) == Books.Sum(cs, Books.PayloadOf())
  {
    if cs != [] { AllFlown(cs[1..]); }
  }

  /** A command is sent for the first time only when nothing waits to be sent again. */
  lemma FirstSendingFits(p: Pod.State, i: nat, window: nat)
    requires Books.Sound(p) && i < |p.outgoing| && forall c :: 0 <= c < |p.lanes| ==> Books.MaySend(p, i, c)
    requires p.outgoing[i].attempts == 0 && !p.outgoing[i].body.Control?
    requires p.inTransit + Pod.Length(p.outgoing[i].body) <= window
    ensures Books.Total(p, FlyingBytes()) + Pod.Length(p.outgoing[i].body) <= window
  {
    assert Books.MaySend(p, i, p.outgoing[i].channel) && i == 0;
    NothingFlown(p.outgoing);
    AllFlown(p.sent);
  }

  lemma TransmitKeepsInWindow(p: Pod.State, i: nat, env: Pod.Env, window: nat)
    requires Books.Sound(p) && i < |p.outgoing| && forall c :: 0 <= c < |p.lanes| ==> Books.MaySend(p, i, c)
    requires InWindow(p, window) && Pod.Max(env.budget, env.mtu) <= window
    requires p.outgoing[i].body.Control? || !Pod.WindowExceeds(p.inTransit, env, p.outgoing[i].body)
    ensures InWindow(Pod.Transmit(p, i, env), window)
  {
    Books.TransmitSums(p, i, env, FlyingBytes());
    if p.outgoing[i].attempts == 0 && !p.outgoing[i].body.Control? { FirstSendingFits(p, i, window); }
  }

  lemma {:induction false} LoadKeepsInWindow(s: Pod.Loading, env: Pod.Env, window: nat)
    requires Books.LoadInvariant(s) && InWindow(s.pod, window) && Pod.Max(env.budget, env.mtu) <= window
    ensures InWindow(Pod.LoadRest(s, env).pod, window)
    decreases if s.stopped then 0 else |s.pod.outgoing| - s.next
  {
    if !s.stopped && s.next < |s.pod.outgoing| {
      Books.LoadOneCases(s, env);
      Books.LoadOneKeepsInvariant(s, env);
      var t := Pod.LoadOne(s, env);
      if t.pod != s.pod { TransmitKeepsInWindow(s.pod, s.next, env, window); }
      if !t.stopped { LoadKeepsInWindow(t, env, window); }
    }
  }

  lemma {:induction false} ExpireKeepsInWindow(s: Pod.Expiring, now: uint32, limits: Pod.Limits, window: nat)
    requires InWindow(s.pod, window) && (s.disconnect || s.next <= |s.pod.sent|)
    ensures InWindow(Pod.ExpireRest(s, now, limits).pod, window)
    decreases if s.disconnect then 0 else |s.pod.sent| - s.next
  {
    if !s.disconnect && s.next < |s.pod.sent| {
      var t := Pod.ExpireOne(s, now, limits);
      var p := s.pod.(earliestTimeout := Pod.EarliestOf(s.pod.earliestTimeout, s.pod.sent[s.next]));
      Books.RequeueSums(p, s.next, FlyingBytes());
      if !t.disconnect { ExpireKeepsInWindow(t, now, limits, window); }
    }
  }

  lemma {:induction false} QueueKeepsInWindow(p: Pod.State, channel: nat, m: Message, first: nat, i: nat, window: nat)
    requires InWindow(p, window) && i <= Count(m)
    ensures InWindow(QueueFrom(p, channel, m, first, i), window)
    decreases Count(m) - i
  {
    if i < Count(m) {
      Books.SetupSums(p, channel, BodyOf(m, first, i), FlyingBytes());
      QueueKeepsInWindow(Pod.Setup(p, channel, BodyOf(m, first, i)), channel, m, first, i + 1, window);
    }
  }

  lemma AckKeepsInWindow(p: Pod.State, n: uint16, channel: nat, window: nat)
    requires Pod.WellFormed(p) && InWindow(p, window)
    ensures InWindow(Acknowledged(p, n, channel), window)
  {
    Books.AcknowledgeSums(p, n, channel, FlyingBytes());
  }

  lemma StepKeepsInWindow(s: System, channel: nat, step: Step, window: nat)
    requires Invariant(s, channel) && Enabled(s, channel, step) && Windowed(step, window) && InWindow(s.pod, window)
    ensures InWindow(Next(s, channel, step).pod, window)
  {
    match step {
      case Send(m) => QueueKeepsInWindow(s.pod, channel, m, s.pod.lanes[channel].serial + 1, 0, window);
      case QueueElsewhere(d, body) => Books.SetupSums(s.pod, d, body, FlyingBytes());
      case LoadDatagram(chamber, env) => LoadKeepsInWindow(Pod.StartLoading(s.pod, chamber), env, window);
      case Expire(now, limits) => ExpireKeepsInWindow(Pod.Expiring(s.pod, 0, 0, false), now, limits, window);
      case Arrive(c) =>
      case AckArrives(serial) => AckKeepsInWindow(s.pod, Low16(serial), channel, window);
      case AckElsewhere(n, d) => AckKeepsInWindow(s.pod, n, d, window);
    }
  }

  // --- the pieces beyond the edge are all in flight together ---

  /** Sent at least once, on this channel, with a serial in [from, end). */
  function BytesOfRange(channel: nat, from: nat, end: nat): Pod.Outgoing -> nat {
    (c: Pod.Outgoing) => if c.channel == channel && c.attempts > 0 && from <= c.serial < end then Pod.Length(c.body) else 0
  }

  function BytesOfSerial(channel: nat, serial: nat): Pod.Outgoing -> nat {
    (c: Pod.Outgoing) => if c.channel == channel && c.attempts > 0 && c.serial == serial then Pod.Length(c.body) else 0
  }

  lemma {:induction false} BytesSplit(cs: seq<Pod.Outgoing>, channel: nat, from: nat, end: nat)
    requires from <= end
    ensures Books.Sum(cs, BytesOfRange(channel, from, end + 1))
         == Books.Sum(cs, BytesOfRange(channel, from, end)) + Books.Sum(cs, BytesOfSerial(channel, end))
  {
    if cs != [] { BytesSplit(cs[1..], channel, from, end); }
  }

  lemma RangeGrows(p: Pod.State, channel: nat, from: nat, end: nat)
    requires from <= end
    ensures Books.Total(p, BytesOfRange(channel, from, end + 1))
         == Books.Total(p, BytesOfRange(channel, from, end)) + Books.Total(p, BytesOfSerial(channel, end))
  {
    BytesSplit(p.sent, channel, from, end);
    BytesSplit(p.outgoing, channel, from, end);
  }

  lemma {:induction false} RangeIsPart(cs: seq<Pod.Outgoing>, channel: nat, from: nat, end: nat)
    ensures Books.Sum(cs, BytesOfRange(channel, from, end)) <= Books.Sum(cs, FlyingBytes())
  {
    if cs != [] { RangeIsPart(cs[1..], channel, from, end); }
  }

  /** The serial tells the message and the place in it. */
  lemma SerialTellsPlace(ms: seq<Message>, k: nat, i: nat, l: nat, j: nat, serial: nat, a: Body, b: Body)
    requires At(ms, k, i, serial, a) && At(ms, l, j, serial, b)
    ensures k == l && i == j && a == b
  {
    if k < l { FirstIncreases(ms, k, l); } else if l < k { FirstIncreases(ms, l, k); }
  }

  /** A piece that is in flight counts with its bytes. */
  lemma FlyingPieceCounts(ms: seq<Message>, cs: seq<Pod.Outgoing>, channel: nat, k: nat, i: nat, serial: nat)
    requires Labelled(ms, cs, channel) && k < |ms| && i < Count(ms[k]) && serial == First(ms, k) + i
    requires Books.Sum(cs, Books.FlyingAs(channel, serial)) > 0
    ensures Books.Sum(cs, BytesOfSerial(channel, serial)) >= Pod.Length(BodyOf(ms[k], First(ms, k), i))
  {
    var n := Books.SumWitness(cs, Books.FlyingAs(channel, serial));
    assert Numbered(ms, cs[n].serial, cs[n].body);
    var l: nat, j: nat :| At(ms, l, j, cs[n].serial, cs[n].body);
    SerialTellsPlace(ms, k, i, l, j, serial, BodyOf(ms[k], First(ms, k), i), cs[n].body);
    Books.SumMember(cs, n, BytesOfSerial(channel, serial));
  }

  lemma PieceCounts(p: Pod.State, ms: seq<Message>, channel: nat, k: nat, i: nat, serial: nat)
    requires Labelled(ms, p.sent, channel) && Labelled(ms, p.outgoing, channel)
    requires k < |ms| && i < Count(ms[k]) && serial == First(ms, k) + i
    requires Books.Total(p, Books.FlyingAs(channel, serial)) > 0
    ensures Books.Total(p, BytesOfSerial(channel, serial)) >= Pod.Length(BodyOf(ms[k], First(ms, k), i))
  {
    if Books.Sum(p.sent, Books.FlyingAs(channel, serial)) > 0 {
      FlyingPieceCounts(ms, p.sent, channel, k, i, serial);
    } else {
      FlyingPieceCounts(ms, p.outgoing, channel, k, i, serial);
    }
  }

  ghost predicate AllFly(p: Pod.State, channel: nat, from: nat, end: nat)
    decreases end
  {
    from < end ==> Books.Total(p, Books.FlyingAs(channel, end - 1)) > 0 && AllFly(p, channel, from, end - 1)
  }

  /** Pieces that are all in flight weigh as much as the bytes they carry. */
  lemma {:induction false} PiecesCount(p: Pod.State, ms: seq<Message>, channel: nat, k: nat, i: nat, j: nat, from: nat, end: nat)
    requires Labelled(ms, p.sent, channel) && Labelled(ms, p.outgoing, channel)
    requires k < |ms| && i <= j <= Count(ms[k]) && from == First(ms, k) + i && end == First(ms, k) + j
    requires AllFly(p, channel, from, end)
    ensures Books.Total(p, BytesOfRange(channel, from, end)) >= Front(ms[k], j) - Front(ms[k], i)
    decreases j
  {
    if i < j {
      PiecesCount(p, ms, channel, k, i, j - 1, from, end - 1);
      PieceCounts(p, ms, channel, k, j - 1, end - 1);
      PieceIsFront(ms[k], First(ms, k), j - 1);
      RangeGrows(p, channel, from, end - 1);
    }
  }

  // --- what has been delivered fits ---

  /** The first `n` messages fit, each behind those before it. */
  predicate AllFit(ms: seq<Message>, n: nat, window: nat)
    requires n <= |ms|
  {
    n > 0 ==> Fits(ms[n - 1], First(ms, n - 1) - 1, window) && AllFit(ms, n - 1, window)
  }

  lemma {:induction false} EachFits(ms: seq<Message>, n: nat, window: nat, i: nat)
    requires i < n <= |ms| && AllFit(ms, n, window)
    ensures Fits(ms[i], First(ms, i) - 1, window)
  {
    if i < n - 1 { EachFits(ms, n - 1, window, i); }
  }

  lemma {:induction false} FitExtends(ms: seq<Message>, m: Message, n: nat, window: nat)
    requires n <= |ms| && AllFit(ms, n, window)
    ensures AllFit(ms + [m], n, window)
  {
    if n > 0 {
      FirstExtends(ms, m, n - 1);
      FitExtends(ms, m, n - 1, window);
    }
  }

  ghost predicate DeliveredFit(s: System, window: nat) {
    |s.view.delivered| <= |s.messages| && AllFit(s.messages, |s.view.delivered|, window)
  }

  /** The sender is never more than 0x7FFF numbers ahead of the receiver, less its place in its window. */
  lemma SenderIsClose(highest: int, base: nat, later: nat)
    requires highest / WINDOW_SIZE <= base / WINDOW_SIZE + 7 && base <= later
    ensures highest <= later + 8 * WINDOW_SIZE - 1 - later % WINDOW_SIZE
  {
  }

  /** A serial seven windows ahead of `later` that has been sent is seven windows ahead of `base`. */
  lemma EdgeIsLast(highest: int, base: nat, later: nat, serial: nat)
    requires highest / WINDOW_SIZE <= base / WINDOW_SIZE + 7 && base <= later
    requires later + 1 + Edge(later) <= serial <= highest
    ensures serial / WINDOW_SIZE == base / WINDOW_SIZE + 7
  {
    assert later + 1 + Edge(later) == (later / WINDOW_SIZE + 7) * WINDOW_SIZE;
  }

  /** Beyond the edge nothing is acknowledged, so what was sent is in flight. */
  lemma BeyondEdgeFlies(s: System, channel: nat, later: nat, serial: nat)
    requires Invariant(s, channel) && s.view.base <= later
    requires later + 1 + Edge(later) <= serial <= Books.Highest(s.pod, channel)
    ensures Books.Total(s.pod, Books.FlyingAs(channel, serial)) > 0
  {
    EdgeIsLast(Books.Highest(s.pod, channel), s.view.base, later, serial);
    assert Covered(s.pod, channel, s.acks, serial);
    AcksAreBehind(s.view, Books.Highest(s.pod, channel), s.acks);
  }

  lemma {:induction false} BeyondEdgeAllFly(s: System, channel: nat, later: nat, from: nat, end: nat)
    requires Invariant(s, channel) && s.view.base <= later
    requires later + 1 + Edge(later) <= from && end <= Books.Highest(s.pod, channel) + 1
    ensures AllFly(s.pod, channel, from, end)
    decreases end
  {
    if from < end {
      BeyondEdgeFlies(s, channel, later, end - 1);
      BeyondEdgeAllFly(s, channel, later, from, end - 1);
    }
  }

  /** All of a message was sent while the receiver was not past it: then it fits. */
  lemma SentIsFit(s: System, channel: nat, k: nat, window: nat)
    requires Invariant(s, channel) && InWindow(s.pod, window) && k < |s.messages|
    requires s.view.base + 1 <= First(s.messages, k) && First(s.messages, k + 1) <= Books.Highest(s.pod, channel) + 1
    ensures Fits(s.messages[k], First(s.messages, k) - 1, window)
  {
    var ms, first, edge := s.messages, First(s.messages, k), Edge(First(s.messages, k) - 1);
    var end := First(ms, k + 1);
    assert end == first + Count(ms[k]);
    SenderIsClose(Books.Highest(s.pod, channel), s.view.base, first - 1);
    if edge < Count(ms[k]) {
      BeyondEdgeAllFly(s, channel, first - 1, first + edge, end);
      PiecesCount(s.pod, ms, channel, k, edge, Count(ms[k]), first + edge, end);
      RangeIsPart(s.pod.sent, channel, first + edge, end);
      RangeIsPart(s.pod.outgoing, channel, first + edge, end);
    }
  }

  // --- every run ---

  /** The receiver is not past a message that it has not delivered. */
  lemma NotPast(s: System, channel: nat, n: nat)
    requires Invariant(s, channel) && |s.view.delivered| < n <= |s.messages|
    ensures s.view.base + 1 <= First(s.messages, n - 1) <= First(s.messages, n)
  {
    FirstIncreases(s.messages, n - 1, n);
    if |s.view.delivered| < n - 1 { FirstIncreases(s.messages, |s.view.delivered|, n - 1); }
  }

  /** The messages that an arrival delivers were all sent while the receiver was not past them. */
  lemma {:induction false} SentAreFit(s: System, channel: nat, window: nat, n: nat)
    requires Invariant(s, channel) && InWindow(s.pod, window) && DeliveredFit(s, window)
    requires |s.view.delivered| <= n <= |s.messages| && First(s.messages, n) <= Books.Highest(s.pod, channel) + 1
    ensures AllFit(s.messages, n, window)
    decreases n
  {
    if |s.view.delivered| < n {
      NotPast(s, channel, n);
      SentAreFit(s, channel, window, n - 1);
      SentIsFit(s, channel, n - 1, window);
    }
  }

  lemma BaseIsBehind(s: System, channel: nat)
    requires Invariant(s, channel)
    ensures |s.view.delivered| <= |s.messages|
    ensures First(s.messages, |s.view.delivered|) == s.view.base + 1 <= Books.Highest(s.pod, channel) + 1
  {
  }

  lemma ArrivalMovesOn(s: System, channel: nat, c: Copy)
    requires Invariant(s, channel) && Enabled(s, channel, Arrive(c))
    ensures var t := Next(s, channel, Arrive(c));
            && |s.view.delivered| <= |t.view.delivered| <= |s.messages|
            && First(s.messages, |t.view.delivered|) <= Books.Highest(s.pod, channel) + 1
  {
    var t := Next(s, channel, Arrive(c));
    ArrivalIsSound(s, channel, c);
    BaseIsBehind(s, channel);
    ArriveKeepsInvariant(s, channel, c);
    BaseIsBehind(t, channel);
    if |t.view.delivered| < |s.view.delivered| { FirstIncreases(s.messages, |t.view.delivered|, |s.view.delivered|); }
  }

  lemma StepKeepsFit(s: System, channel: nat, step: Step, window: nat)
    requires Invariant(s, channel) && InWindow(s.pod, window) && DeliveredFit(s, window) && Enabled(s, channel, step)
    ensures DeliveredFit(Next(s, channel, step), window)
  {
    if step.Arrive? {
      ArrivalMovesOn(s, channel, step.copy);
      SentAreFit(s, channel, window, |Next(s, channel, step).view.delivered|);
    } else if step.Send? {
      FitExtends(s.messages, step.message, |s.view.delivered|, window);
    }
  }

  lemma {:induction false} RunKeepsFit(s: System, channel: nat, steps: seq<Step>, window: nat)
    requires Invariant(s, channel) && InWindow(s.pod, window) && DeliveredFit(s, window)
    requires Possible(s, channel, steps) && AllWindowed(steps, window)
    ensures InWindow(After(s, channel, steps).pod, window) && DeliveredFit(After(s, channel, steps), window)
    decreases |steps|
  {
    if steps != [] {
      assert Windowed(steps[0], window);
      StepKeepsInvariant(s, channel, steps[0]);
      StepKeepsInWindow(s, channel, steps[0], window);
      StepKeepsFit(s, channel, steps[0], window);
      RunKeepsFit(Next(s, channel, steps[0]), channel, steps[1..], window);
    }
  }

  /** In every run whose data windows are at most `window`: what is in flight fits the window, and so
      does every message that was delivered, with its pieces beyond the edge. */
  lemma DeliveredMessagesFit(lanes: nat, channel: nat, window: nat, steps: seq<Step>)
    requires channel < lanes && Possible(Initial(lanes), channel, steps) && AllWindowed(steps, window)
    ensures var t := After(Initial(lanes), channel, steps);
            && InWindow(t.pod, window)
            && |t.view.delivered| <= |t.messages| && AllFit(t.messages, |t.view.delivered|, window)
  {
    InitialInvariant(lanes, channel);
    RunKeepsFit(Initial(lanes), channel, steps, window);
  }

  // --- which messages can be delivered ---

  /** Some run sends exactly these messages and delivers them all. */
  ghost predicate Deliverable(lanes: nat, channel: nat, window: nat, ms: seq<Message>) {
    exists t :: Reached(lanes, channel, window, t) && t.messages == ms && |t.view.delivered| == |ms|
  }

  /** A message that `Send` takes, cut for an MTU that the data window is never smaller than. */
  predicate Ordinary(m: Message, window: nat) {
    Sendable(m) && m.limit + PROTOCOL_HEADER_SIZE + SEND_FRAGMENT_SIZE <= window
  }

  lemma FittingAreDelivered(lanes: nat, channel: nat, window: nat, ms: seq<Message>)
    requires channel < lanes && forall i :: 0 <= i < |ms| ==> Ordinary(ms[i], window)
    requires AllFit(ms, |ms|, window)
    ensures Deliverable(lanes, channel, window, ms)
  {
    var x := Setting(lanes, channel, window, [], 0);
    InitialIsReached(lanes, channel, window);
    forall i | 0 <= i < |ms|
      ensures FitsNext(x, ms, i)
    {
      assert Ordinary(ms[i], window);
      EachFits(ms, |ms|, window, i);
    }
    var t := DeliverMessages(x, Initial(lanes), ms);
  }

  /** Messages can be delivered exactly when each of them fits: no more pieces than are left up to the
      end of the eighth window, and the bytes of those in that window within the data window. */
  lemma DeliverableIffFit(lanes: nat, channel: nat, window: nat, ms: seq<Message>)
    requires channel < lanes && forall i :: 0 <= i < |ms| ==> Ordinary(ms[i], window)
    ensures Deliverable(lanes, channel, window, ms) <==> AllFit(ms, |ms|, window)
  {
    if AllFit(ms, |ms|, window) {
      FittingAreDelivered(lanes, channel, window, ms);
    }
    if Deliverable(lanes, channel, window, ms) {
      var t :| Reached(lanes, channel, window, t) && t.messages == ms && |t.view.delivered| == |ms|;
      var steps :| Leads(Initial(lanes), channel, window, steps, t);
      DeliveredMessagesFit(lanes, channel, window, steps);
    }
  }

  lemma {:induction false} FewerFit(ms: seq<Message>, n: nat, window: nat, k: nat)
    requires k <= n <= |ms| && AllFit(ms, n, window)
    ensures AllFit(ms, k, window)
  {
    if k < n { FewerFit(ms, n - 1, window, k); }
  }

  /** In every run, a message that does not fit blocks the channel: neither it nor any message behind it
      is ever delivered, although `Send` takes it. */
  lemma UnfitBlocksTheChannel(lanes: nat, channel: nat, window: nat, steps: seq<Step>, k: nat)
    requires channel < lanes && Possible(Initial(lanes), channel, steps) && AllWindowed(steps, window)
    requires k < |After(Initial(lanes), channel, steps).messages|
    requires !AllFit(After(Initial(lanes), channel, steps).messages, k + 1, window)
    ensures |After(Initial(lanes), channel, steps).view.delivered| <= k
  {
    var t := After(Initial(lanes), channel, steps);
    DeliveredMessagesFit(lanes, channel, window, steps);
    if k < |t.view.delivered| { FewerFit(t.messages, |t.view.delivered|, window, k + 1); }
  }

  /** Where the boundary lies: up to 0x6000 pieces always fit; with a data window as large as the message
      it is 0x7FFF pieces less the place of the number before it in its window. */
  lemma Boundary(m: Message, base: nat, window: nat)
    ensures Count(m) <= 6 * WINDOW_SIZE ==> Fits(m, base, window)
    ensures |m.data| <= window ==> (Fits(m, base, window) <==> Count(m) <= 0x7FFF - base % WINDOW_SIZE)
  {
  }

  /** With the smallest MTU and a checksum a fragment still has 544 bytes, so a segment that `Send` takes
      has at most 61681 of them. */
  lemma MostPieces(m: Message)
    requires Sendable(m) && m.limit >= MINIMUM_MTU - PROTOCOL_HEADER_SIZE - SEND_FRAGMENT_SIZE - 4
    ensures Count(m) <= 61681
  {
    var n := Count(m);
    if |m.data| > m.limit {
      Ceiling(|m.data|, m.limit, n);
      if n >= 61682 { TimesGrows(n - 1, m.limit); }
    }
  }

  lemma TimesGrows(a: nat, l: nat)
    requires a >= 61681 && l >= 544
    ensures a * l >= 61681 * 544
  {
    assert a * l >= 61681 * l;
  }
}
