/** Runs that can be taken on purpose: one command is put on the wire, arrives, is acknowledged. They
    show that what the invariants do not forbid does happen. */
module Runs {
  import opened Numbers
  import opened Fragments
  import opened Inbox
  import opened Receiver
  import opened Delivery
  import Pod
  import Books
  import Datagram
  import InFlight

  // --- reaching a state ---

  /** The data window that the sender sees is at most this. */
  ghost predicate Windowed(step: Step, window: nat) {
    step.LoadDatagram? ==> Pod.Max(step.env.budget, step.env.mtu) <= window
  }

  ghost predicate AllWindowed(steps: seq<Step>, window: nat) {
    forall i :: 0 <= i < |steps| ==> Windowed(steps[i], window)
  }

  ghost predicate Leads(s: System, channel: nat, window: nat, steps: seq<Step>, t: System) {
    Possible(s, channel, steps) && AllWindowed(steps, window) && After(s, channel, steps) == t
  }

  /** Some run from the start leads here. */
  ghost predicate Reached(lanes: nat, channel: nat, window: nat, s: System) {
    channel < lanes && exists steps :: Leads(Initial(lanes), channel, window, steps, s)
  }

  lemma InitialIsReached(lanes: nat, channel: nat, window: nat)
    requires channel < lanes
    ensures Reached(lanes, channel, window, Initial(lanes))
  {
    assert Leads(Initial(lanes), channel, window, [], Initial(lanes));
  }

  lemma ReachedIsGood(lanes: nat, channel: nat, window: nat, s: System)
    requires Reached(lanes, channel, window, s)
    ensures Invariant(s, channel)
  {
    var steps :| Leads(Initial(lanes), channel, window, steps, s);
    InitialInvariant(lanes, channel);
    RunKeepsInvariant(Initial(lanes), channel, steps);
  }

  lemma {:induction false} RunGoesOn(s: System, channel: nat, window: nat, steps: seq<Step>, t: System, step: Step)
    requires Leads(s, channel, window, steps, t) && Enabled(t, channel, step) && Windowed(step, window)
    ensures Leads(s, channel, window, steps + [step], Next(t, channel, step))
    decreases |steps|
  {
    if steps == [] {
      assert steps + [step] == [step] && [step][1..] == [];
      assert Possible(Next(t, channel, step), channel, []);
    } else {
      assert (steps + [step])[1..] == steps[1..] + [step];
      RunGoesOn(Next(s, channel, steps[0]), channel, window, steps[1..], t, step);
    }
  }

  lemma ReachedByStep(lanes: nat, channel: nat, window: nat, s: System, step: Step)
    requires Reached(lanes, channel, window, s) && Enabled(s, channel, step) && Windowed(step, window)
    ensures Reached(lanes, channel, window, Next(s, channel, step))
  {
    var steps :| Leads(Initial(lanes), channel, window, steps, s);
    RunGoesOn(Initial(lanes), channel, window, steps, s, step);
  }

  // --- loading exactly the head of the waiting list ---

  /** A datagram that is full takes nothing more that has a payload. */
  lemma {:induction false} FullTakesNothing(s: Pod.Loading, env: Pod.Env)
    requires s.next <= |s.pod.outgoing| && Pod.WellFormed(s.pod)
    requires forall i :: 0 <= i < |s.pod.outgoing| ==> !s.pod.outgoing[i].body.Control?
    requires env.mtu <= s.chamber.size || s.next == |s.pod.outgoing|
    ensures Pod.LoadRest(s, env).pod == s.pod && Pod.LoadRest(s, env).loaded == s.loaded
    decreases if s.stopped then 0 else |s.pod.outgoing| - s.next
  {
    if !s.stopped && s.next < |s.pod.outgoing| {
      var t := Pod.LoadOne(s, env);
      assert t.pod == s.pod && t.loaded == s.loaded && t.chamber.size == s.chamber.size;
      if !t.stopped { FullTakesNothing(t, env); }
    }
  }

  /** The head is sent and nothing else. */
  lemma OnlyHeadIsLoaded(p: Pod.State, env: Pod.Env)
    requires Pod.WellFormed(p) && p.outgoing != []
    requires forall i :: 0 <= i < |p.outgoing| ==> !p.outgoing[i].body.Control?
    requires var c := p.outgoing[0];
             && (c.channel < |p.lanes| ==> !Pod.WindowWraps(p.lanes[c.channel], c))
             && !Pod.WindowExceeds(p.inTransit, env, c.body)
             && Datagram.Small(c.body, env.mtu)
             && (|p.outgoing| > 1 ==> PROTOCOL_HEADER_SIZE + Pod.CommandSize(c.body) + Pod.Length(c.body) == env.mtu)
    ensures var r := Pod.Load(p, Datagram.EmptyChamber(), env);
            r.pod == Pod.Transmit(p, 0, env) && r.loaded == [Pod.Stamped(p.outgoing[0], env)]
  {
    var s := Pod.StartLoading(p, Datagram.EmptyChamber());
    var t := Pod.LoadOne(s, env);
    assert t.pod == Pod.Transmit(p, 0, env) && t.loaded == [Pod.Stamped(p.outgoing[0], env)];
    assert t.pod.outgoing == p.outgoing[1..];
    FullTakesNothing(t, env);
  }

  // --- the sequence windows ---

  /** The first piece that lies seven windows ahead of a receiver at `base`, where nothing is
      acknowledged, when piece 0 is the command after `base`. */
  function Edge(base: nat): nat {
    7 * WINDOW_SIZE - 1 - base % WINDOW_SIZE
  }

  /** At most one command, of this channel, not too far behind the serials from `from` to `to`. */
  ghost predicate Behind(stuck: seq<Pod.Outgoing>, channel: nat, from: nat, to: nat) {
    |stuck| <= 1 && forall i :: 0 <= i < |stuck| ==>
      stuck[i].channel == channel && stuck[i].serial < from && to / WINDOW_SIZE <= stuck[i].serial / WINDOW_SIZE + FREE_WINDOWS
  }

  /** A serial one to eight windows back does not fall in the eight windows of the mask. */
  lemma MaskIsAhead(a: nat, b: nat, r: nat)
    requires b < a <= b + 8 && r < 8
    ensures b % 16 != (a % 16 + r) % 16
  {
    assert (a % 16 + r) % 16 == (a + r) % 16;
    var d := a + r - b;
    assert 1 <= d <= 15;
  }

  lemma NothingFresh(cs: seq<Pod.Outgoing>, channel: nat, w: nat)
    requires forall i :: 0 <= i < |cs| ==> cs[i].attempts == 0
    ensures Books.Sum(cs, Books.FlyingIn(channel, w)) == 0
  {
    if Books.Sum(cs, Books.FlyingIn(channel, w)) > 0 {
      var i := Books.SumWitness(cs, Books.FlyingIn(channel, w));
      assert false;
    }
  }

  /** The window counters when nothing but what is stuck has been sent and not acknowledged. */
  lemma CounterIsStuck(p: Pod.State, channel: nat, w: nat)
    requires Books.Sound(p) && channel < |p.lanes| && w < WINDOWS && |p.sent| <= 1
    requires forall i :: 0 <= i < |p.outgoing| ==> p.outgoing[i].attempts == 0
    ensures p.lanes[channel].windows[w] == if p.sent == [] then 0 else Books.FlyingIn(channel, w)(p.sent[0])
    ensures p.lanes[channel].used[w] <==> p.lanes[channel].windows[w] > 0
  {
    NothingFresh(p.outgoing, channel, w);
    assert p.lanes[channel].windows[w] == Books.Total(p, Books.FlyingIn(channel, w));
    var f := Books.FlyingIn(channel, w);
    if p.sent != [] { assert Books.Sum(p.sent, f) == f(p.sent[0]) + Books.Sum(p.sent[1..], f); }
  }

  /** The head is not held back by the sequence windows. */
  lemma HeadMayGo(p: Pod.State, channel: nat, stuck: seq<Pod.Outgoing>)
    requires Books.Sound(p) && channel < |p.lanes| && p.outgoing != []
    requires forall i :: 0 <= i < |p.outgoing| ==> p.outgoing[i].attempts == 0
    requires p.outgoing[0].serial % WINDOW_SIZE == 0 ==>
               p.sent == stuck && Behind(stuck, channel, p.outgoing[0].serial, p.outgoing[0].serial)
    ensures !Pod.WindowWraps(p.lanes[channel], p.outgoing[0])
  {
    var c := p.outgoing[0];
    WindowSlot(c.serial);
    if c.serial % WINDOW_SIZE == 0 {
      var w := Pod.Number(c) / WINDOW_SIZE;
      CounterIsStuck(p, channel, (w + WINDOWS - 1) % WINDOWS);
      forall r: nat | r < FREE_WINDOWS
        ensures !Pod.InUse(p.lanes[channel], w, r)
      {
        CounterIsStuck(p, channel, (w + r) % WINDOWS);
        if p.sent != [] {
          MaskIsAhead(c.serial / WINDOW_SIZE, p.sent[0].serial / WINDOW_SIZE, r);
        }
      }
    }
  }

  // --- the sender half-way through a list of commands ---

  /** The command as it is queued. */
  function Queued(channel: nat, c: Copy): Pod.Outgoing {
    Pod.Outgoing(channel, c.serial, c.body, 0, 0, 0, 0)
  }

  function Unsent(channel: nat, cs: seq<Copy>): (s: seq<Pod.Outgoing>)
    ensures |s| == |cs|
  {
    if cs == [] then [] else [Queued(channel, cs[0])] + Unsent(channel, cs[1..])
  }

  lemma {:induction false} UnsentAt(channel: nat, cs: seq<Copy>)
    ensures forall i :: 0 <= i < |cs| ==> Unsent(channel, cs)[i] == Queued(channel, cs[i])
  {
    if cs != [] { UnsentAt(channel, cs[1..]); }
  }

  lemma {:induction false} AllFresh(cs: seq<Pod.Outgoing>, channel: nat)
    requires forall i :: 0 <= i < |cs| ==> cs[i].channel == channel && cs[i].attempts == 0
    ensures Books.Sum(cs, Books.FreshOn(channel)) == |cs|
  {
    if cs != [] { AllFresh(cs[1..], channel); }
  }

  /** The commands are these, whatever stamps they bear. */
  ghost predicate Are(sent: seq<Pod.Outgoing>, channel: nat, cs: seq<Copy>) {
    && |sent| == |cs|
    && (cs != [] ==> sent[0].channel == channel && Copy(sent[0].serial, sent[0].body) == cs[0]
                     && Are(sent[1..], channel, cs[1..]))
  }

  lemma {:induction false} OneMoreIs(sent: seq<Pod.Outgoing>, x: Pod.Outgoing, channel: nat, cs: seq<Copy>, c: Copy)
    requires Are(sent, channel, cs) && x.channel == channel && Copy(x.serial, x.body) == c
    ensures Are(sent + [x], channel, cs + [c])
  {
    if cs == [] {
      assert (sent + [x])[1..] == [] && (cs + [c])[1..] == [];
    } else {
      assert (sent + [x])[1..] == sent[1..] + [x] && (cs + [c])[1..] == cs[1..] + [c];
      OneMoreIs(sent[1..], x, channel, cs[1..], c);
    }
  }

  function Bytes(cs: seq<Copy>): nat {
    if cs == [] then 0 else Pod.Length(cs[0].body) + Bytes(cs[1..])
  }

  lemma {:induction false} BytesAppend(cs: seq<Copy>, c: Copy)
    ensures Bytes(cs + [c]) == Bytes(cs) + Pod.Length(c.body)
  {
    if cs == [] {
      assert ([] + [c])[1..] == [];
    } else {
      assert (cs + [c])[1..] == cs[1..] + [c];
      BytesAppend(cs[1..], c);
    }
  }

  /** `stuck` and behind it `flying` are sent and not acknowledged, `waiting` was never sent; `held` is
      the payload of what is stuck. */
  ghost predicate SenderAt(p: Pod.State, channel: nat, stuck: seq<Pod.Outgoing>, held: nat, flying: seq<Copy>, waiting: seq<Copy>) {
    && p.outgoing == Unsent(channel, waiting)
    && |stuck| <= |p.sent| && p.sent[..|stuck|] == stuck && Are(p.sent[|stuck|..], channel, flying)
    && p.inTransit == held + Bytes(flying)
  }

  lemma HeadIsSent(p: Pod.State, env: Pod.Env, channel: nat, stuck: seq<Pod.Outgoing>, held: nat, flying: seq<Copy>, waiting: seq<Copy>)
    requires Pod.WellFormed(p) && waiting != [] && SenderAt(p, channel, stuck, held, flying, waiting)
    ensures SenderAt(Pod.Transmit(p, 0, env), channel, stuck, held, flying + [waiting[0]], waiting[1..])
  {
    var q, x := Pod.Transmit(p, 0, env), Pod.Stamped(p.outgoing[0], env);
    assert q.outgoing == p.outgoing[1..];
    assert q.sent == p.sent + [x];
    assert q.sent[..|stuck|] == p.sent[..|stuck|];
    assert q.sent[|stuck|..] == p.sent[|stuck|..] + [x];
    OneMoreIs(p.sent[|stuck|..], x, channel, flying, waiting[0]);
    BytesAppend(flying, waiting[0]);
  }

  /** The datagram is just large enough for the largest piece, and the window is as wide as allowed. */
  function Snug(limit: nat, window: nat): Pod.Env {
    Pod.Env(limit + PROTOCOL_HEADER_SIZE + SEND_FRAGMENT_SIZE, window, 0, 0, 0)
  }

  /** The command fits into such a datagram, and fills it when another one follows. */
  predicate Fills(c: Copy, limit: nat, last: bool) {
    && !c.body.Control? && Pod.Length(c.body) <= limit
    && (!last ==> c.body.Piece? && Pod.Length(c.body) == limit)
  }

  /** Nothing keeps the head of the waiting list back. */
  lemma HeadFits(p: Pod.State, channel: nat, window: nat, limit: nat, stuck: seq<Pod.Outgoing>, held: nat,
                 flying: seq<Copy>, waiting: seq<Copy>)
    requires Books.Sound(p) && channel < |p.lanes| && waiting != [] && SenderAt(p, channel, stuck, held, flying, waiting)
    requires limit + PROTOCOL_HEADER_SIZE + SEND_FRAGMENT_SIZE <= window
    requires held + Bytes(flying) + Pod.Length(waiting[0].body) <= window
    requires Fills(waiting[0], limit, |waiting| == 1) && forall i :: 0 <= i < |waiting| ==> !waiting[i].body.Control?
    requires waiting[0].serial % WINDOW_SIZE == 0 ==>
               flying == [] && Behind(stuck, channel, waiting[0].serial, waiting[0].serial)
    ensures var r := Pod.Load(p, Datagram.EmptyChamber(), Snug(limit, window));
            r.pod == Pod.Transmit(p, 0, Snug(limit, window)) && r.loaded == [Pod.Stamped(p.outgoing[0], Snug(limit, window))]
  {
    UnsentAt(channel, waiting);
    if flying == [] { assert p.sent[..|stuck|] == p.sent; }
    HeadMayGo(p, channel, stuck);
    OnlyHeadIsLoaded(p, Snug(limit, window));
  }

  // --- acknowledgements ---

  lemma FindsBehindStuck(p: Pod.State, channel: nat, stuck: seq<Pod.Outgoing>, c: Pod.Outgoing)
    requires Books.Sound(p) && channel < |p.lanes| && c.channel == channel
    requires |stuck| <= 1 && |stuck| < |p.sent| && p.sent[..|stuck|] == stuck && p.sent[|stuck|] == c
    requires forall i :: 0 <= i < |stuck| ==> stuck[i].channel == channel && stuck[i].serial < c.serial
    ensures Pod.FindSent(p.sent, Pod.Number(c), channel) == |stuck|
  {
    assert InFlight.Flying(p, c);
    if |stuck| == 1 {
      assert p.sent[0] == stuck[0] && InFlight.Flying(p, p.sent[0]);
      if Pod.Number(p.sent[0]) == Pod.Number(c) { InFlight.NumberNamesOneCommand(p, p.sent[0], c); }
      assert p.sent[1..][0] == c;
    }
  }

  lemma FirstIsRemoved(p: Pod.State, channel: nat, stuck: seq<Pod.Outgoing>, held: nat, flying: seq<Copy>, waiting: seq<Copy>)
    requires Books.Sound(p) && channel < |p.lanes| && flying != [] && SenderAt(p, channel, stuck, held, flying, waiting)
    requires Behind(stuck, channel, flying[0].serial, flying[0].serial)
    ensures SenderAt(Acknowledged(p, Low16(flying[0].serial), channel), channel, stuck, held, flying[1..], waiting)
  {
    var c, q := p.sent[|stuck|], Acknowledged(p, Low16(flying[0].serial), channel);
    assert p.sent[|stuck|..][0] == c;
    FindsBehindStuck(p, channel, stuck, c);
    assert q.sent == Pod.Without(p.sent, |stuck|);
    assert q.sent[..|stuck|] == p.sent[..|stuck|];
    assert q.sent[|stuck|..] == p.sent[|stuck|..][1..];
  }

  // --- the commands of a message ---

  function CommandsFrom(m: Message, first: nat, i: nat): (cs: seq<Copy>)
    requires i <= Count(m)
    ensures |cs| == Count(m) - i
    decreases Count(m) - i
  {
    if i == Count(m) then [] else [Copy(first + i, BodyOf(m, first, i))] + CommandsFrom(m, first, i + 1)
  }

  lemma {:induction false} CommandAt(m: Message, first: nat, i: nat, x: nat)
    requires i + x < Count(m)
    ensures CommandsFrom(m, first, i)[x] == Copy(first + i + x, BodyOf(m, first, i + x))
    decreases x
  {
    if x > 0 { CommandAt(m, first, i + 1, x - 1); }
  }

  function Commands(m: Message, first: nat): (cs: seq<Copy>)
    ensures |cs| == Count(m)
  {
    CommandsFrom(m, first, 0)
  }

  /** How far a message has come: acknowledged, in flight, never sent. */
  datatype Progress = Progress(done: seq<Copy>, flying: seq<Copy>, waiting: seq<Copy>)

  ghost predicate Covers(g: Progress, m: Message, first: nat) {
    g.done + g.flying + g.waiting == Commands(m, first)
  }

  lemma WaitingHead(g: Progress, m: Message, first: nat)
    requires Covers(g, m, first) && g.waiting != []
    ensures var n := |g.done| + |g.flying|;
            n + |g.waiting| == Count(m) && g.waiting[0] == Copy(first + n, BodyOf(m, first, n))
    ensures Fills(g.waiting[0], m.limit, |g.waiting| == 1)
    ensures forall i :: 0 <= i < |g.waiting| ==> !g.waiting[i].body.Control?
  {
    var n := |g.done| + |g.flying|;
    var cs := g.done + g.flying + g.waiting;
    forall i: nat | i < |g.waiting|
      ensures g.waiting[i] == Copy(first + n + i, BodyOf(m, first, n + i)) && !g.waiting[i].body.Control?
    {
      assert g.waiting[i] == cs[n + i];
      CommandAt(m, first, 0, n + i);
      PieceIsFront(m, first, n + i);
    }
    PieceIsFront(m, first, n);
  }

  lemma FlyingHead(g: Progress, m: Message, first: nat)
    requires Covers(g, m, first) && g.flying != []
    ensures |g.done| < Count(m) && g.flying[0] == Copy(first + |g.done|, BodyOf(m, first, |g.done|))
  {
    assert g.flying[0] == (g.done + g.flying + g.waiting)[|g.done|];
    CommandAt(m, first, 0, |g.done|);
  }

  lemma {:induction false} BytesFrom(m: Message, first: nat, cs: seq<Copy>, a: nat)
    requires a + |cs| <= Count(m) && forall x :: 0 <= x < |cs| ==> cs[x] == Copy(first + a + x, BodyOf(m, first, a + x))
    ensures Bytes(cs) == Front(m, a + |cs|) - Front(m, a)
  {
    if cs != [] {
      PieceIsFront(m, first, a);
      assert cs[0] == Copy(first + a, BodyOf(m, first, a));
      forall x | 0 <= x < |cs[1..]|
        ensures cs[1..][x] == Copy(first + (a + 1) + x, BodyOf(m, first, (a + 1) + x))
      {
        assert cs[1..][x] == cs[x + 1];
      }
      BytesFrom(m, first, cs[1..], a + 1);
    }
  }

  /** The bytes in flight are those between two fronts. */
  lemma FlyingBytes(g: Progress, m: Message, first: nat)
    requires Covers(g, m, first)
    ensures |g.done| + |g.flying| <= Count(m)
    ensures Bytes(g.flying) == Front(m, |g.done| + |g.flying|) - Front(m, |g.done|)
  {
    var cs := g.done + g.flying + g.waiting;
    assert |cs| == Count(m);
    forall x | 0 <= x < |g.flying|
      ensures g.flying[x] == Copy(first + |g.done| + x, BodyOf(m, first, |g.done| + x))
    {
      assert g.flying[x] == cs[|g.done| + x];
      CommandAt(m, first, 0, |g.done| + x);
    }
    BytesFrom(m, first, g.flying, |g.done|);
  }

  // --- what the receiver has ---

  /** The commands with serials from `from` to before `end` are received. */
  ghost predicate Got(v: View, from: nat, end: nat)
    decreases end
  {
    from < end ==> Received(v, end - 1) && Got(v, from, end - 1)
  }

  lemma {:induction false} GotOne(v: View, from: nat, end: nat, s: nat)
    requires Got(v, from, end) && from <= s < end
    ensures Received(v, s)
    decreases end
  {
    if s < end - 1 { GotOne(v, from, end - 1, s); }
  }

  lemma {:induction false} GotStays(v: View, w: View, from: nat, end: nat)
    requires Got(v, from, end) && Retains(v, w)
    ensures Got(w, from, end)
    decreases end
  {
    if from < end {
      assert Received(v, end - 1);
      GotStays(v, w, from, end - 1);
    }
  }

  /** What a receiver can have delivered that has been sent `highest` of the commands of `k + 1` messages. */
  lemma DeliveredSoFar(ms: seq<Message>, highest: int, v: View, k: nat, base: nat)
    requires Faithful(ms, highest, v) && |ms| == k + 1 && base + 1 == First(ms, k) && v.base >= base
    ensures |v.delivered| == k || |v.delivered| == k + 1
    ensures |v.delivered| == k ==> v.base == base
    ensures highest + 1 < First(ms, k + 1) ==> |v.delivered| == k
  {
    if |v.delivered| < k { FirstIncreases(ms, |v.delivered|, k); }
  }

  lemma GotAllIsDelivered(ms: seq<Message>, highest: int, v: View, k: nat)
    requires Faithful(ms, highest, v) && !Ready(v.queue) && k < |ms| && Got(v, First(ms, k), First(ms, k + 1))
    ensures |v.delivered| != k
  {
    if |v.delivered| == k {
      forall s: nat | First(ms, k) <= s < First(ms, k + 1)
        ensures Received(v, s)
      {
        GotOne(v, First(ms, k), First(ms, k + 1), s);
      }
      AllReceivedIsReady(ms, highest, v);
    }
  }

  /** The piece that has just arrived is received. */
  lemma ArrivalIsReceived(s: System, channel: nat, c: Copy, k: nat, i: nat)
    requires Invariant(s, channel) && c in s.wire && NotTooOld(s, channel, Arrive(c))
    requires At(s.messages, k, i, c.serial, c.body) && s.view.base + 1 == First(s.messages, k)
    ensures Received(Arrived(s.view, c), c.serial)
  {
    var ms, highest := s.messages, Books.Highest(s.pod, channel);
    ArrivalIsSound(s, channel, c);
    assert Sendable(ms[k]) && Timely(s.view, First(ms, k), c.serial);
    if IsWhole(ms[k]) {
      var w := Arrived(s.view, c);
      if c.serial > w.base { NewIsRead(w, c.serial); }
    } else {
      ArrivedPieceIsSound(ms, highest, s.view, k, i, c.serial);
    }
  }

  /** Whether the number of a received command is acknowledged. */
  lemma IsAnswered(w: View, base: nat, serial: nat)
    requires w.queue.incoming == Low16(w.base) && w.base >= base
    requires serial > w.base ==> serial / WINDOW_SIZE <= base / WINDOW_SIZE + 6
    requires serial < w.base ==> w.base / WINDOW_SIZE <= serial / WINDOW_SIZE + 1
    ensures !AckSuppressed(Low16(serial), w.queue.incoming)
  {
    if serial > w.base {
      NewIsRead(w, serial);
    } else if serial < w.base {
      ReadBehind(serial, w.base);
    }
  }

  /** What is delivered when the last piece that was sent is received too. */
  lemma DeliveredWithPiece(ms: seq<Message>, highest: nat, v: View, w: View, k: nat, serial: nat)
    requires Faithful(ms, highest, v) && |ms| == k + 1 && |v.delivered| == k && serial == highest
    requires First(ms, k) <= serial < First(ms, k + 1) && Got(v, First(ms, k), serial)
    requires SoundArrival(ms, highest, v, w, serial) && Received(w, serial)
    ensures serial + 1 < First(ms, k + 1) ==> |w.delivered| == k && Got(w, First(ms, k), serial + 1)
    ensures serial + 1 == First(ms, k + 1) ==> |w.delivered| == k + 1
  {
    GotStays(v, w, First(ms, k), serial);
    DeliveredSoFar(ms, highest, w, k, v.base);
    if serial + 1 == First(ms, k + 1) { GotAllIsDelivered(ms, highest, w, k); }
  }

  // --- a message half-way ---

  /** What stays the same: the data window, and what is stuck in the sent list with its payload. */
  datatype Setting = Setting(lanes: nat, channel: nat, window: nat, stuck: seq<Pod.Outgoing>, held: nat)

  ghost predicate Wired(s: System, g: Progress) {
    (forall c :: c in g.done ==> c in s.wire) && (forall c :: c in g.flying ==> c in s.wire)
  }

  /** Message `k`, the last one, has come this far. */
  ghost predicate Midway(x: Setting, s: System, k: nat, g: Progress) {
    && Reached(x.lanes, x.channel, x.window, s)
    && |s.messages| == k + 1 && Covers(g, s.messages[k], First(s.messages, k))
    && SenderAt(s.pod, x.channel, x.stuck, x.held, g.flying, g.waiting)
    && Wired(s, g)
  }

  /** The commands of the message that were sent are those done or in flight. */
  lemma HighestIs(x: Setting, s: System, k: nat, g: Progress)
    requires Midway(x, s, k, g)
    ensures x.channel < |s.pod.lanes|
    ensures Books.Highest(s.pod, x.channel) == First(s.messages, k) + |g.done| + |g.flying| - 1
  {
    ReachedIsGood(x.lanes, x.channel, x.window, s);
    UnsentAt(x.channel, g.waiting);
    AllFresh(s.pod.outgoing, x.channel);
    assert First(s.messages, k + 1) == First(s.messages, k) + Count(s.messages[k]);
  }

  /** The head may go: the datagram is large enough and the windows are open. */
  ghost predicate MayLoad(x: Setting, g: Progress, limit: nat)
    requires g.waiting != []
  {
    && limit + PROTOCOL_HEADER_SIZE + SEND_FRAGMENT_SIZE <= x.window
    && x.held + Bytes(g.flying) + Pod.Length(g.waiting[0].body) <= x.window
    && (g.waiting[0].serial % WINDOW_SIZE == 0 ==> g.flying == [])
    && Behind(x.stuck, x.channel, g.waiting[0].serial, g.waiting[0].serial)
  }

  function Loaded(g: Progress): Progress
    requires g.waiting != []
  {
    g.(flying := g.flying + [g.waiting[0]], waiting := g.waiting[1..])
  }

  lemma LoadedCovers(g: Progress, m: Message, first: nat)
    requires Covers(g, m, first) && g.waiting != []
    ensures Covers(Loaded(g), m, first)
  {
    assert Loaded(g).done + Loaded(g).flying + Loaded(g).waiting == g.done + g.flying + g.waiting;
  }

  lemma LoadedAlone(s: System, channel: nat, env: Pod.Env, c: Copy)
    requires channel < |s.pod.lanes| && Pod.WellFormed(s.pod) && s.pod.outgoing != []
    requires var r := Pod.Load(s.pod, Datagram.EmptyChamber(), env);
             r.pod == Pod.Transmit(s.pod, 0, env) && r.loaded == [Pod.Stamped(s.pod.outgoing[0], env)]
    requires s.pod.outgoing[0] == Queued(channel, c)
    ensures Next(s, channel, LoadDatagram(Datagram.EmptyChamber(), env)) ==
            s.(pod := Pod.Transmit(s.pod, 0, env), wire := s.wire + {c})
  {
    var p := Pod.Stamped(s.pod.outgoing[0], env);
    assert p in [p];
    assert Copies([p], channel) == {c};
  }

  /** What the head of the waiting list needs in order to go alone. */
  lemma HeadGoes(x: Setting, s: System, k: nat, g: Progress)
    requires Midway(x, s, k, g) && g.waiting != [] && MayLoad(x, g, s.messages[k].limit)
    ensures Pod.WellFormed(s.pod) && x.channel < |s.pod.lanes| && s.pod.outgoing != []
    ensures s.pod.outgoing[0] == Queued(x.channel, g.waiting[0])
    ensures var env := Snug(s.messages[k].limit, x.window);
            var r := Pod.Load(s.pod, Datagram.EmptyChamber(), env);
            r.pod == Pod.Transmit(s.pod, 0, env) && r.loaded == [Pod.Stamped(s.pod.outgoing[0], env)]
  {
    ReachedIsGood(x.lanes, x.channel, x.window, s);
    WaitingHead(g, s.messages[k], First(s.messages, k));
    HeadFits(s.pod, x.channel, x.window, s.messages[k].limit, x.stuck, x.held, g.flying, g.waiting);
  }

  /** The head of what is waiting goes out, alone. */
  lemma LoadHead(x: Setting, s: System, k: nat, g: Progress) returns (t: System)
    requires Midway(x, s, k, g) && g.waiting != [] && MayLoad(x, g, s.messages[k].limit)
    ensures Midway(x, t, k, Loaded(g)) && t.messages == s.messages && t.view == s.view
  {
    var env := Snug(s.messages[k].limit, x.window);
    var step := LoadDatagram(Datagram.EmptyChamber(), env);
    HeadGoes(x, s, k, g);
    LoadedAlone(s, x.channel, env, g.waiting[0]);
    HeadIsSent(s.pod, env, x.channel, x.stuck, x.held, g.flying, g.waiting);
    LoadedCovers(g, s.messages[k], First(s.messages, k));
    ReachedByStep(x.lanes, x.channel, x.window, s, step);
    t := Next(s, x.channel, step);
  }

  // --- the pieces arrive ---

  /** The receiver is at message `k` and has all of it that was sent. */
  ghost predicate HasSent(s: System, k: nat, g: Progress)
    requires k < |s.messages|
  {
    |s.view.delivered| == k && Got(s.view, First(s.messages, k), First(s.messages, k) + |g.done| + |g.flying|)
  }

  lemma LastFlying(g: Progress, m: Message, first: nat)
    requires Covers(g, m, first) && g.flying != []
    ensures var j := |g.done| + |g.flying| - 1;
            j < Count(m) && g.flying[|g.flying| - 1] == Copy(first + j, BodyOf(m, first, j))
  {
    var j := |g.done| + |g.flying| - 1;
    assert g.flying[|g.flying| - 1] == (g.done + g.flying + g.waiting)[j];
    CommandAt(m, first, 0, j);
  }

  /** A step that leaves the sender alone. */
  lemma ReceiverStep(x: Setting, s: System, k: nat, g: Progress, t: System)
    requires Midway(x, s, k, g) && Reached(x.lanes, x.channel, x.window, t)
    requires t.pod == s.pod && t.messages == s.messages && t.wire == s.wire
    ensures Midway(x, t, k, g)
  {
  }

  /** Before the edge, the command sent last is acknowledged once it has arrived. */
  lemma BeforeEdge(ms: seq<Message>, w: View, base: nat, j: nat, serial: nat)
    requires Faithful(ms, serial, w) && w.base >= base && serial == base + 1 + j && j < Edge(base)
    ensures !AckSuppressed(Low16(serial), w.queue.incoming)
  {
    assert serial / WINDOW_SIZE <= base / WINDOW_SIZE + 6;
    IsAnswered(w, base, serial);
  }

  /** What the receiver has after the command sent last has arrived for the first time. */
  lemma LastIsTakenIn(s: System, channel: nat, k: nat, j: nat, c: Copy)
    requires Invariant(s, channel) && |s.messages| == k + 1 && |s.view.delivered| == k
    requires At(s.messages, k, j, c.serial, c.body) && c in s.wire && Books.Highest(s.pod, channel) == c.serial
    requires Got(s.view, First(s.messages, k), c.serial)
    ensures var w := Arrived(s.view, c);
            && (c.serial + 1 < First(s.messages, k + 1) ==>
                  |w.delivered| == k && Got(w, First(s.messages, k), c.serial + 1))
            && (c.serial + 1 == First(s.messages, k + 1) ==> |w.delivered| == k + 1)
            && w.base >= s.view.base
    ensures Enabled(s, channel, Arrive(c))
  {
    var ms, w := s.messages, Arrived(s.view, c);
    assert FirstOf(c) == First(ms, k);
    ArrivalIsSound(s, channel, c);
    ArrivalIsReceived(s, channel, c, k, j);
    DeliveredWithPiece(ms, c.serial, s.view, w, k, c.serial);
  }

  lemma GotUpTo(v: View, from: nat, a: nat, b: nat)
    requires Got(v, from, a) && a == b
    ensures Got(v, from, b)
  {
  }

  /** The command sent last is the last in flight. */
  lemma LastSerial(x: Setting, s: System, k: nat, g: Progress, c: Copy)
    requires Midway(x, s, k, g) && g.flying != [] && c == g.flying[|g.flying| - 1]
    ensures c.serial == First(s.messages, k) + |g.done| + |g.flying| - 1
    ensures c.serial + 1 + |g.waiting| == First(s.messages, k + 1)
  {
    LastFlying(g, s.messages[k], First(s.messages, k));
    assert |g.done + g.flying + g.waiting| == Count(s.messages[k]);
  }

  /** It is the newest serial that was sent. */
  lemma LastIsHighest(x: Setting, s: System, k: nat, g: Progress, c: Copy)
    requires Midway(x, s, k, g) && g.flying != [] && c == g.flying[|g.flying| - 1]
    ensures x.channel < |s.pod.lanes| && Books.Highest(s.pod, x.channel) == c.serial
    ensures c in s.wire && At(s.messages, k, |g.done| + |g.flying| - 1, c.serial, c.body)
    ensures c.serial == First(s.messages, k) + |g.done| + |g.flying| - 1
  {
    HighestIs(x, s, k, g);
    LastSerial(x, s, k, g, c);
    LastFlying(g, s.messages[k], First(s.messages, k));
    assert c in g.flying;
  }

  lemma CopyArrives(x: Setting, s: System, k: nat, g: Progress, c: Copy) returns (t: System)
    requires Midway(x, s, k, g) && Enabled(s, x.channel, Arrive(c))
    ensures Midway(x, t, k, g) && t.messages == s.messages && t.view == Arrived(s.view, c)
    ensures !AckSuppressed(Low16(c.serial), t.view.queue.incoming) ==> c.serial in t.acks
  {
    t := Next(s, x.channel, Arrive(c));
    ReachedByStep(x.lanes, x.channel, x.window, s, Arrive(c));
    ReceiverStep(x, s, k, g, t);
  }

  /** An acknowledgement is queued for the command sent last, unless its number is suppressed. */
  ghost predicate Heard(t: System, g: Progress)
    requires g.flying != []
  {
    var serial := g.flying[|g.flying| - 1].serial;
    !AckSuppressed(Low16(serial), t.view.queue.incoming) ==> serial in t.acks
  }

  lemma ReachedLast(x: Setting, s: System, k: nat, j: nat, c: Copy)
    requires Reached(x.lanes, x.channel, x.window, s) && |s.messages| == k + 1 && |s.view.delivered| == k
    requires x.channel < |s.pod.lanes| && Books.Highest(s.pod, x.channel) == c.serial
    requires At(s.messages, k, j, c.serial, c.body) && c in s.wire && Got(s.view, First(s.messages, k), c.serial)
    ensures Enabled(s, x.channel, Arrive(c))
    ensures var w := Arrived(s.view, c);
            && (c.serial + 1 < First(s.messages, k + 1) ==>
                  |w.delivered| == k && Got(w, First(s.messages, k), c.serial + 1))
            && (c.serial + 1 == First(s.messages, k + 1) ==> |w.delivered| == k + 1)
  {
    ReachedIsGood(x.lanes, x.channel, x.window, s);
    LastIsTakenIn(s, x.channel, k, j, c);
  }

  /** What the receiver has when the command sent last has arrived. */
  lemma LastIsTaken(x: Setting, s: System, k: nat, g: Progress, c: Copy)
    requires Midway(x, s, k, g) && g.flying != [] && c == g.flying[|g.flying| - 1]
    requires |s.view.delivered| == k && Got(s.view, First(s.messages, k), c.serial)
    ensures Enabled(s, x.channel, Arrive(c))
    ensures var w := Arrived(s.view, c);
            && (c.serial + 1 < First(s.messages, k + 1) ==>
                  |w.delivered| == k && Got(w, First(s.messages, k), c.serial + 1))
            && (c.serial + 1 == First(s.messages, k + 1) ==> |w.delivered| == k + 1)
  {
    LastIsHighest(x, s, k, g, c);
    ReachedLast(x, s, k, |g.done| + |g.flying| - 1, c);
  }

  lemma LastArrives(x: Setting, s: System, k: nat, g: Progress, c: Copy) returns (t: System)
    requires Midway(x, s, k, g) && g.flying != [] && c == g.flying[|g.flying| - 1]
    requires |s.view.delivered| == k && Got(s.view, First(s.messages, k), c.serial)
    ensures Midway(x, t, k, g) && t.messages == s.messages && Heard(t, g)
    ensures c.serial + 1 < First(s.messages, k + 1) ==>
              |t.view.delivered| == k && Got(t.view, First(s.messages, k), c.serial + 1)
    ensures c.serial + 1 == First(s.messages, k + 1) ==> |t.view.delivered| == k + 1
  {
    LastIsTaken(x, s, k, g, c);
    t := CopyArrives(x, s, k, g, c);
  }

  lemma LastIsFaithful(x: Setting, t: System, k: nat, g: Progress, c: Copy)
    requires Midway(x, t, k, g) && g.flying != [] && c == g.flying[|g.flying| - 1]
    ensures Faithful(t.messages, c.serial, t.view)
    ensures c.serial == First(t.messages, k) + |g.done| + |g.flying| - 1
  {
    ReachedIsGood(x.lanes, x.channel, x.window, t);
    LastIsHighest(x, t, k, g, c);
  }

  lemma EarlyIsAnswered(x: Setting, t: System, k: nat, g: Progress, c: Copy)
    requires Midway(x, t, k, g) && g.flying != [] && c == g.flying[|g.flying| - 1]
    requires t.view.base + 1 >= First(t.messages, k) && |g.done| + |g.flying| - 1 < Edge(First(t.messages, k) - 1)
    ensures !AckSuppressed(Low16(c.serial), t.view.queue.incoming)
  {
    LastIsFaithful(x, t, k, g, c);
    BeforeEdge(t.messages, t.view, First(t.messages, k) - 1, |g.done| + |g.flying| - 1, c.serial);
  }

  lemma BaseFollows(x: Setting, s: System, k: nat)
    requires Reached(x.lanes, x.channel, x.window, s) && k <= |s.view.delivered|
    ensures |s.view.delivered| <= |s.messages| && s.view.base + 1 == First(s.messages, |s.view.delivered|)
    ensures s.view.base + 1 >= First(s.messages, k)
  {
    ReachedIsGood(x.lanes, x.channel, x.window, s);
    if k < |s.view.delivered| { FirstIncreases(s.messages, k, |s.view.delivered|); }
  }

  /** The piece sent last arrives for the first time. */
  lemma ArriveLast(x: Setting, s: System, k: nat, g: Progress) returns (t: System)
    requires Midway(x, s, k, g) && g.flying != [] && |s.view.delivered| == k
    requires Got(s.view, First(s.messages, k), First(s.messages, k) + |g.done| + |g.flying| - 1)
    ensures Midway(x, t, k, g) && t.messages == s.messages && Heard(t, g)
    ensures g.waiting != [] ==> HasSent(t, k, g)
    ensures g.waiting == [] ==> |t.view.delivered| == k + 1
  {
    var c, first := g.flying[|g.flying| - 1], First(s.messages, k);
    LastSerial(x, s, k, g, c);
    GotUpTo(s.view, first, first + |g.done| + |g.flying| - 1, c.serial);
    t := LastArrives(x, s, k, g, c);
    if g.waiting != [] { GotUpTo(t.view, first, c.serial + 1, first + |g.done| + |g.flying|); }
  }

  // --- the pieces are acknowledged ---

  function Acked(g: Progress): Progress
    requires g.flying != []
  {
    g.(done := g.done + [g.flying[0]], flying := g.flying[1..])
  }

  lemma AckedCovers(g: Progress, m: Message, first: nat)
    requires Covers(g, m, first) && g.flying != []
    ensures Covers(Acked(g), m, first)
  {
    assert Acked(g).done + Acked(g).flying + Acked(g).waiting == g.done + g.flying + g.waiting;
  }

  /** What has been sent on the channel and is in flight is not too old to be acknowledged. */
  lemma AckIsTimely(p: Pod.State, channel: nat, stuck: seq<Pod.Outgoing>, held: nat, flying: seq<Copy>, waiting: seq<Copy>)
    requires Books.Sound(p) && channel < |p.lanes| && flying != [] && SenderAt(p, channel, stuck, held, flying, waiting)
    ensures Books.Highest(p, channel) < flying[0].serial + 0x10000
  {
    var c := p.sent[|stuck|];
    assert p.sent[|stuck|..][0] == c;
    assert InFlight.Flying(p, c);
    InFlight.FlyingIsNear(p, c, channel);
  }

  lemma AckHead(x: Setting, s: System, k: nat, g: Progress) returns (t: System)
    requires Midway(x, s, k, g) && g.flying != [] && g.flying[0].serial in s.acks
    requires Behind(x.stuck, x.channel, g.flying[0].serial, g.flying[0].serial)
    ensures Midway(x, t, k, Acked(g)) && t.messages == s.messages && t.view == s.view
  {
    var step := AckArrives(g.flying[0].serial);
    ReachedIsGood(x.lanes, x.channel, x.window, s);
    AckIsTimely(s.pod, x.channel, x.stuck, x.held, g.flying, g.waiting);
    FirstIsRemoved(s.pod, x.channel, x.stuck, x.held, g.flying, g.waiting);
    AckedCovers(g, s.messages[k], First(s.messages, k));
    ReachedByStep(x.lanes, x.channel, x.window, s, step);
    t := Next(s, x.channel, step);
  }

  // --- a whole message ---

  /** A message that begins behind `base` can be sent in full: the pieces that cannot be acknowledged
      before it is complete fit into one window of numbers, and their bytes into `room`. */
  predicate Fits(m: Message, base: nat, room: int) {
    Count(m) <= 8 * WINDOW_SIZE - 1 - base % WINDOW_SIZE && |m.data| - Front(m, Edge(base)) <= room
  }

  /** The data window has room for the message beside what is stuck. */
  ghost predicate Room(x: Setting, m: Message, base: nat) {
    && m.limit + PROTOCOL_HEADER_SIZE + SEND_FRAGMENT_SIZE <= x.window && x.held + m.limit <= x.window
    && Fits(m, base, x.window - x.held)
    && Behind(x.stuck, x.channel, base + 1, base + Count(m))
  }

  /** The first piece that is not acknowledged once the pieces before `j` have arrived. */
  function Oldest(base: nat, j: nat): nat {
    if j <= Edge(base) then j else Edge(base)
  }

  lemma FrontGrows(m: Message, a: nat, b: nat)
    requires a <= b
    ensures Front(m, a) <= Front(m, b) <= |m.data|
  {
    if a < b && b < Count(m) && |m.data| > m.limit {
      PieceBounds(m, a);
      PieceBounds(m, b);
      PiecesApart(m, a, b);
    }
  }

  lemma RoomForPiece(x: Setting, m: Message, base: nat, j: nat)
    requires Room(x, m, base) && j < Count(m)
    ensures x.held + Front(m, j + 1) - Front(m, Oldest(base, j)) <= x.window
    ensures (base + 1 + j) % WINDOW_SIZE == 0 ==> Oldest(base, j) == j
  {
    if j > Edge(base) {
      FrontGrows(m, j + 1, j + 1);
      NotFirstOfWindow(base, j);
    } else {
      PieceIsFront(m, 0, j);
    }
  }

  lemma NotFirstOfWindow(base: nat, j: nat)
    requires Edge(base) < j < Edge(base) + WINDOW_SIZE
    ensures (base + 1 + j) % WINDOW_SIZE != 0
  {
    assert base + 1 + Edge(base) == (base / WINDOW_SIZE + 7) * WINDOW_SIZE;
  }

  lemma StillBehind(x: Setting, m: Message, base: nat, j: nat)
    requires Room(x, m, base) && j < Count(m)
    ensures Behind(x.stuck, x.channel, base + 1 + j, base + 1 + j)
  {
  }

  /** All that was sent has arrived, and what could be acknowledged is. */
  ghost predicate Underway(x: Setting, s: System, k: nat, g: Progress) {
    && Midway(x, s, k, g) && HasSent(s, k, g)
    && |g.done| == Oldest(First(s.messages, k) - 1, |g.done| + |g.flying|)
  }

  lemma HeadMayLoad(x: Setting, m: Message, first: nat, g: Progress)
    requires first > 0 && Covers(g, m, first) && g.waiting != [] && Room(x, m, first - 1)
    requires |g.done| == Oldest(first - 1, |g.done| + |g.flying|)
    ensures MayLoad(x, g, m.limit)
  {
    var j := |g.done| + |g.flying|;
    WaitingHead(g, m, first);
    FlyingBytes(g, m, first);
    PieceIsFront(m, first, j);
    RoomForPiece(x, m, first - 1, j);
    StillBehind(x, m, first - 1, j);
  }

  /** The next piece goes out and arrives. */
  lemma SendHead(x: Setting, s: System, k: nat, g: Progress) returns (t: System)
    requires Midway(x, s, k, g) && HasSent(s, k, g) && g.waiting != [] && MayLoad(x, g, s.messages[k].limit)
    ensures Midway(x, t, k, Loaded(g)) && t.messages == s.messages && Heard(t, Loaded(g))
    ensures |g.waiting| > 1 ==> HasSent(t, k, Loaded(g))
    ensures |g.waiting| == 1 ==> |t.view.delivered| == k + 1
  {
    var r := LoadHead(x, s, k, g);
    GotUpTo(r.view, First(s.messages, k), First(s.messages, k) + |g.done| + |g.flying|,
            First(s.messages, k) + |Loaded(g).done| + |Loaded(g).flying| - 1);
    t := ArriveLast(x, r, k, Loaded(g));
  }

  /** A piece before the edge, that has arrived, is acknowledged at once. */
  lemma AckAtOnce(x: Setting, s: System, k: nat, g: Progress) returns (t: System)
    requires Midway(x, s, k, g) && HasSent(s, k, g) && |g.flying| == 1 && Heard(s, g)
    requires |g.done| < Edge(First(s.messages, k) - 1)
    requires Behind(x.stuck, x.channel, g.flying[0].serial, g.flying[0].serial)
    ensures Midway(x, t, k, Acked(g)) && HasSent(t, k, Acked(g)) && t.messages == s.messages
  {
    BaseFollows(x, s, k);
    EarlyIsAnswered(x, s, k, g, g.flying[0]);
    t := AckHead(x, s, k, g);
    var first := First(s.messages, k);
    GotUpTo(t.view, first, first + |g.done| + |g.flying|, first + |Acked(g).done| + |Acked(g).flying|);
  }

  /** Before the edge nothing is in flight when the next piece goes out, and it is acknowledged at once. */
  lemma SendEarly(x: Setting, s: System, k: nat, g: Progress) returns (t: System)
    requires Midway(x, s, k, g) && HasSent(s, k, g) && |g.waiting| > 1 && MayLoad(x, g, s.messages[k].limit)
    requires g.flying == [] && |g.done| < Edge(First(s.messages, k) - 1)
    ensures Midway(x, t, k, Acked(Loaded(g))) && HasSent(t, k, Acked(Loaded(g))) && t.messages == s.messages
  {
    var r := SendHead(x, s, k, g);
    t := AckAtOnce(x, r, k, Loaded(g));
  }

  lemma OldestMoves(base: nat, j: nat)
    ensures j < Edge(base) ==> Oldest(base, j) == j && Oldest(base, j + 1) == j + 1
    ensures j >= Edge(base) ==> Oldest(base, j) == Oldest(base, j + 1) == Edge(base)
  {
  }

  lemma EarlyUnderway(x: Setting, t: System, k: nat, g: Progress)
    requires Midway(x, t, k, g) && HasSent(t, k, g) && g.flying == [] && |g.done| <= Edge(First(t.messages, k) - 1)
    ensures Underway(x, t, k, g)
  {
  }

  lemma SendLate(x: Setting, s: System, k: nat, g: Progress) returns (t: System)
    requires Midway(x, s, k, g) && HasSent(s, k, g) && |g.waiting| > 1 && MayLoad(x, g, s.messages[k].limit)
    requires |g.done| == Oldest(First(s.messages, k) - 1, |g.done| + |g.flying| + 1)
    ensures Underway(x, t, k, Loaded(g)) && t.messages == s.messages
  {
    t := SendHead(x, s, k, g);
  }

  /** One piece more, and at least one to follow. */
  lemma SendNext(x: Setting, s: System, k: nat, g: Progress) returns (t: System, h: Progress)
    requires Underway(x, s, k, g) && |g.waiting| > 1 && Room(x, s.messages[k], First(s.messages, k) - 1)
    ensures Underway(x, t, k, h) && t.messages == s.messages && |h.waiting| == |g.waiting| - 1
  {
    var j, base := |g.done| + |g.flying|, First(s.messages, k) - 1;
    HeadMayLoad(x, s.messages[k], base + 1, g);
    OldestMoves(base, j);
    if j < Edge(base) {
      t := SendEarly(x, s, k, g);
      h := Acked(Loaded(g));
      EarlyUnderway(x, t, k, h);
    } else {
      t := SendLate(x, s, k, g);
      h := Loaded(g);
    }
  }

  /** The last piece goes out, and the message is delivered. */
  lemma SendLast(x: Setting, s: System, k: nat, g: Progress) returns (t: System)
    requires Underway(x, s, k, g) && |g.waiting| == 1 && Room(x, s.messages[k], First(s.messages, k) - 1)
    ensures Midway(x, t, k, Loaded(g)) && t.messages == s.messages && |t.view.delivered| == k + 1
    ensures |g.done| == Oldest(First(s.messages, k) - 1, Count(s.messages[k]) - 1)
  {
    assert |g.done + g.flying + g.waiting| == Count(s.messages[k]);
    HeadMayLoad(x, s.messages[k], First(s.messages, k), g);
    t := SendHead(x, s, k, g);
  }

  /** From any point of a message to its delivery. */
  lemma {:induction false} SendRest(x: Setting, s: System, k: nat, g: Progress) returns (t: System, h: Progress)
    requires Underway(x, s, k, g) && g.waiting != [] && Room(x, s.messages[k], First(s.messages, k) - 1)
    ensures Midway(x, t, k, h) && h.waiting == [] && h.flying != []
    ensures |h.done| == Oldest(First(s.messages, k) - 1, Count(s.messages[k]) - 1)
    ensures t.messages == s.messages && |t.view.delivered| == k + 1
    decreases |g.waiting|
  {
    if |g.waiting| == 1 {
      t := SendLast(x, s, k, g);
      h := Loaded(g);
    } else {
      var r, i := SendNext(x, s, k, g);
      t, h := SendRest(x, r, k, i);
    }
  }

  // --- what is left is acknowledged ---

  /** The message has been delivered, its last pieces may still be in flight. */
  ghost predicate Settling(x: Setting, s: System, k: nat, g: Progress) {
    && Midway(x, s, k, g) && g.waiting == [] && |s.view.delivered| == k + 1
    && First(s.messages, k + 1) <= First(s.messages, k) + |g.done| + WINDOW_SIZE
    && Count(s.messages[k]) <= 8 * WINDOW_SIZE - 1
  }

  /** A copy that arrives again, when everything has been delivered, is acknowledged. */
  lemma OldIsAnswered(s: System, channel: nat, k: nat, i: nat, c: Copy)
    requires Invariant(s, channel) && |s.messages| == k + 1 && |s.view.delivered| == k + 1
    requires At(s.messages, k, i, c.serial, c.body) && c in s.wire
    requires First(s.messages, k + 1) <= c.serial + WINDOW_SIZE && Count(s.messages[k]) <= 8 * WINDOW_SIZE - 1
    ensures Enabled(s, channel, Arrive(c))
    ensures var w := Arrived(s.view, c); |w.delivered| == k + 1 && !AckSuppressed(Low16(c.serial), w.queue.incoming)
  {
    var ms, w := s.messages, Arrived(s.view, c);
    assert First(ms, k + 1) == First(ms, k) + Count(ms[k]);
    assert FirstOf(c) == First(ms, k);
    ArrivalIsSound(s, channel, c);
    IsAnswered(w, s.view.base, c.serial);
  }

  /** The oldest piece in flight arrives again and is acknowledged. */
  lemma SettleHead(x: Setting, s: System, k: nat, g: Progress) returns (t: System)
    requires Settling(x, s, k, g) && g.flying != []
    requires Behind(x.stuck, x.channel, First(s.messages, k), First(s.messages, k + 1) - 1)
    ensures Settling(x, t, k, Acked(g)) && t.messages == s.messages
  {
    var c := g.flying[0];
    FlyingHead(g, s.messages[k], First(s.messages, k));
    ReachedIsGood(x.lanes, x.channel, x.window, s);
    OldIsAnswered(s, x.channel, k, |g.done|, c);
    var r := CopyArrives(x, s, k, g, c);
    t := AckHead(x, r, k, g);
  }

  /** All but the newest `left` pieces are acknowledged. */
  lemma {:induction false} Settle(x: Setting, s: System, k: nat, g: Progress, left: nat) returns (t: System, h: Progress)
    requires Settling(x, s, k, g) && left <= |g.flying|
    requires Behind(x.stuck, x.channel, First(s.messages, k), First(s.messages, k + 1) - 1)
    ensures Settling(x, t, k, h) && t.messages == s.messages && |h.flying| == left
    decreases |g.flying|
  {
    if |g.flying| == left {
      t, h := s, g;
    } else {
      var r := SettleHead(x, s, k, g);
      t, h := Settle(x, r, k, Acked(g), left);
    }
  }

  // --- message after message ---

  /** Everything sent has been delivered, and nothing but what is stuck is in flight. */
  ghost predicate Quiet(x: Setting, s: System) {
    && Reached(x.lanes, x.channel, x.window, s) && |s.view.delivered| == |s.messages|
    && SenderAt(s.pod, x.channel, x.stuck, x.held, [], [])
  }

  lemma {:induction false} QueueFromIs(p: Pod.State, channel: nat, m: Message, first: nat, i: nat)
    requires channel < |p.lanes| && i <= Count(m) && p.lanes[channel].serial + 1 == first + i
    ensures var q := QueueFrom(p, channel, m, first, i);
            && q.outgoing == p.outgoing + Unsent(channel, CommandsFrom(m, first, i))
            && q.sent == p.sent && q.inTransit == p.inTransit
    decreases Count(m) - i
  {
    if i < Count(m) {
      var q := Pod.Setup(p, channel, BodyOf(m, first, i));
      QueueFromIs(q, channel, m, first, i + 1);
      assert CommandsFrom(m, first, i)[1..] == CommandsFrom(m, first, i + 1);
    }
  }

  lemma MessageIsQueued(x: Setting, p: Pod.State, m: Message, first: nat)
    requires x.channel < |p.lanes| && p.lanes[x.channel].serial + 1 == first
    requires SenderAt(p, x.channel, x.stuck, x.held, [], [])
    ensures SenderAt(QueueMessage(p, x.channel, m), x.channel, x.stuck, x.held, [], Commands(m, first))
  {
    QueueFromIs(p, x.channel, m, first, 0);
    assert p.outgoing + Unsent(x.channel, Commands(m, first)) == Unsent(x.channel, Commands(m, first));
  }

  lemma NothingSentYet(m: Message, first: nat)
    ensures Covers(Progress([], [], Commands(m, first)), m, first)
  {
    assert [] + [] + Commands(m, first) == Commands(m, first);
  }

  lemma NextSerial(x: Setting, s: System)
    requires Reached(x.lanes, x.channel, x.window, s)
    ensures x.channel < |s.pod.lanes| && Pod.WellFormed(s.pod)
    ensures s.pod.lanes[x.channel].serial + 1 == First(s.messages, |s.messages|)
  {
    ReachedIsGood(x.lanes, x.channel, x.window, s);
  }

  lemma BeginMessage(x: Setting, s: System, m: Message) returns (t: System, g: Progress)
    requires Quiet(x, s) && Sendable(m)
    ensures Underway(x, t, |s.messages|, g) && g.waiting != [] && t.messages == s.messages + [m]
  {
    var first := First(s.messages, |s.messages|);
    NextSerial(x, s);
    FirstExtends(s.messages, m, |s.messages|);
    MessageIsQueued(x, s.pod, m, first);
    ReachedByStep(x.lanes, x.channel, x.window, s, Send(m));
    t := Next(s, x.channel, Send(m));
    g := Progress([], [], Commands(m, first));
    NothingSentYet(m, first);
  }

  lemma LastPiecesFit(x: Setting, m: Message, base: nat)
    requires Room(x, m, base)
    ensures Count(m) <= Oldest(base, Count(m) - 1) + WINDOW_SIZE && Count(m) <= 8 * WINDOW_SIZE - 1
    ensures Behind(x.stuck, x.channel, base + 1, base + Count(m))
  {
  }

  /** A message is sent and delivered. */
  lemma SendMessage(x: Setting, s: System, m: Message) returns (t: System, h: Progress)
    requires Quiet(x, s) && Sendable(m) && Room(x, m, First(s.messages, |s.messages|) - 1)
    ensures Settling(x, t, |s.messages|, h) && t.messages == s.messages + [m] && h.flying != []
    ensures Behind(x.stuck, x.channel, First(t.messages, |s.messages|), First(t.messages, |s.messages| + 1) - 1)
  {
    var k := |s.messages|;
    var r, g := BeginMessage(x, s, m);
    FirstExtends(s.messages, m, k);
    t, h := SendRest(x, r, k, g);
    LastPiecesFit(x, m, First(s.messages, k) - 1);
    assert First(t.messages, k + 1) == First(t.messages, k) + Count(m);
  }

  /** A message is sent and delivered; its last `left` pieces stay in flight. */
  lemma DeliverMessage(x: Setting, s: System, m: Message, left: nat) returns (t: System, h: Progress)
    requires Quiet(x, s) && Sendable(m) && Room(x, m, First(s.messages, |s.messages|) - 1) && left <= 1
    ensures Settling(x, t, |s.messages|, h) && t.messages == s.messages + [m] && |h.flying| == left
  {
    var u, i := SendMessage(x, s, m);
    t, h := Settle(x, u, |s.messages|, i, left);
  }

  ghost predicate FitsNext(x: Setting, ms: seq<Message>, i: nat)
    requires i < |ms|
  {
    Sendable(ms[i]) && Room(x, ms[i], First(ms, i) - 1)
  }

  lemma DeliverNext(x: Setting, s: System, ms: seq<Message>) returns (t: System)
    requires Quiet(x, s) && s.messages < ms && FitsNext(x, ms, |s.messages|)
    ensures Quiet(x, t) && t.messages <= ms && |t.messages| == |s.messages| + 1
  {
    var k := |s.messages|;
    FirstOfBeginning(s.messages, ms, k);
    var h;
    t, h := DeliverMessage(x, s, ms[k], 0);
  }

  /** Messages that all fit are sent and delivered, one after the other. */
  lemma {:induction false} DeliverMessages(x: Setting, s: System, ms: seq<Message>) returns (t: System)
    requires Quiet(x, s) && s.messages <= ms && forall i :: |s.messages| <= i < |ms| ==> FitsNext(x, ms, i)
    ensures Quiet(x, t) && t.messages == ms
    decreases |ms| - |s.messages|
  {
    if |s.messages| == |ms| {
      t := s;
    } else {
      var r := DeliverNext(x, s, ms);
      t := DeliverMessages(x, r, ms);
    }
  }

  lemma {:induction false} FirstOfBeginning(some: seq<Message>, all: seq<Message>, k: nat)
    requires some <= all && k <= |some|
    ensures First(some, k) == First(all, k)
  {
    if k > 0 { FirstOfBeginning(some, all, k - 1); }
  }
}
