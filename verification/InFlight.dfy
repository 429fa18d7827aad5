/** What the books of the sending half imply: a 16-bit number names at most one command in
    flight, an acknowledgement removes exactly the command it was given for, and the 16-bit
    window counters cannot overflow. */
module InFlight {
  import opened Numbers
  import opened Pod
  import opened Books

  /** The command was sent and is not acknowledged. */
  predicate Flying(p: State, c: Outgoing) {
    c.attempts > 0 && (c in p.sent || c in p.outgoing)
  }

  lemma FlyingIsNear(p: State, c: Outgoing, channel: nat)
    requires Sound(p) && channel < |p.lanes| && Flying(p, c)
    ensures Near(c, channel, Highest(p, channel))
  {
    assert Flight(p, channel);
  }

  /** The serials in flight on a channel never spread over more than nine windows. */
  lemma FlightSpansNineWindows(p: State, c: Outgoing, d: Outgoing)
    requires Sound(p) && c.channel == d.channel < |p.lanes| && Flying(p, c) && Flying(p, d)
    ensures c.serial / WINDOW_SIZE <= d.serial / WINDOW_SIZE + FREE_WINDOWS
  {
    FlyingIsNear(p, c, c.channel);
    FlyingIsNear(p, d, c.channel);
  }

  lemma SameSerial(s: nat, t: nat)
    requires Low16(s) == Low16(t) && s < t + 0x10000 && t < s + 0x10000
    ensures s == t
  {
  }

  /** Two different members of a list count twice. */
  lemma SumOfTwo(s: seq<Outgoing>, i: nat, j: nat, f: Outgoing -> nat)
    requires i < j < |s|
    ensures f(s[i]) + f(s[j]) <= Sum(s, f)
  {
    SumWithout(s, j, f);
    assert Without(s, j)[i] == s[i];
    SumMember(Without(s, j), i, f);
  }

  /** A channel and a 16-bit number name at most one command in flight. */
  lemma NumberNamesOneCommand(p: State, c: Outgoing, d: Outgoing)
    requires Sound(p) && c.channel == d.channel < |p.lanes| && Flying(p, c) && Flying(p, d)
    requires Number(c) == Number(d)
    ensures c == d
  {
    FlightSpansNineWindows(p, c, d);
    FlightSpansNineWindows(p, d, c);
    SameSerial(c.serial, d.serial);
    OneCommandASerial(p, c, d);
  }

  lemma OneCommandASerial(p: State, c: Outgoing, d: Outgoing)
    requires Once(p) && c.channel == d.channel && c.serial == d.serial
    requires (c in p.sent || c in p.outgoing) && (d in p.sent || d in p.outgoing)
    ensures c == d
  {
    var f := Books.Named(c.channel, c.serial);
    assert Total(p, f) <= 1;
    if c in p.sent && d in p.sent {
      OneOfList(p.sent, c, d, f);
    } else if c in p.outgoing && d in p.outgoing {
      OneOfList(p.outgoing, c, d, f);
    } else if c in p.sent {
      MemberCounts(p.sent, c, f);
      MemberCounts(p.outgoing, d, f);
    } else {
      MemberCounts(p.outgoing, c, f);
      MemberCounts(p.sent, d, f);
    }
  }

  lemma MemberCounts(s: seq<Outgoing>, c: Outgoing, f: Outgoing -> nat)
    requires c in s
    ensures Sum(s, f) >= f(c)
  {
  }

  lemma OneOfList(s: seq<Outgoing>, c: Outgoing, d: Outgoing, f: Outgoing -> nat)
    requires c in s && d in s && f(c) == 1 && f(d) == 1 && Sum(s, f) <= 1
    ensures c == d
  {
    var i :| 0 <= i < |s| && s[i] == c;
    var j :| 0 <= j < |s| && s[j] == d;
    if i < j { SumOfTwo(s, i, j, f); } else if j < i { SumOfTwo(s, j, i, f); }
  }

  /** First transmissions happen in sequence order: whatever the loading loop sends for the first
      time carries the serial after the highest one sent before. */
  lemma FirstTransmissionIsNext(s: Loading, env: Env)
    requires LoadInvariant(s) && !s.stopped && s.next < |s.pod.outgoing|
    requires |LoadOne(s, env).loaded| > |s.loaded|
    ensures var x := s.pod.outgoing[s.next];
            x.channel < |s.pod.lanes| && x.attempts == 0 ==>
              && x.serial == Highest(s.pod, x.channel) + 1
              && |LoadOne(s, env).pod.lanes| == |s.pod.lanes|
              && Highest(LoadOne(s, env).pod, x.channel) == x.serial
  {
    LoadOneCases(s, env);
    var x := s.pod.outgoing[s.next];
    if x.channel < |s.pod.lanes| && x.attempts == 0 {
      assert MaySend(s.pod, s.next, x.channel);
      assert Flight(s.pod, x.channel);
      TransmitMovesHighest(s.pod, s.next, env, x.channel);
    }
  }

  // --- acknowledgements ---

  lemma {:induction false} RequeuedIsFound(s: seq<Outgoing>, c: Outgoing, n: uint16, channel: nat)
    requires forall i, j :: 0 <= i < j < |s| && s[j].attempts > 0 ==> s[i].attempts > 0
    requires c in s && c.attempts > 0 && Pod.Named(c, n, channel)
    ensures FindRequeued(s, n, channel) < |s|
  {
    var i :| 0 <= i < |s| && s[i] == c;
    assert s[0].attempts > 0;
    if !Pod.Named(s[0], n, channel) {
      assert s[1..][i - 1] == c;
      RequeuedIsFound(s[1..], c, n, channel);
    }
  }

  /** An acknowledgement removes a command exactly when one in flight bears its number. */
  lemma RemovesIffFlying(p: State, n: uint16, channel: nat)
    requires Sound(p) && channel < |p.lanes|
    ensures Acknowledge(p, n, channel).1.Removed? <==> exists c :: Flying(p, c) && Pod.Named(c, n, channel)
  {
    var i := FindSent(p.sent, n, channel);
    var j := FindRequeued(p.outgoing, n, channel);
    if i < |p.sent| {
      assert Flying(p, p.sent[i]);
    } else if j < |p.outgoing| {
      assert Flying(p, p.outgoing[j]);
    } else {
      forall c | Flying(p, c)
        ensures !Pod.Named(c, n, channel)
      {
        if Pod.Named(c, n, channel) && c !in p.sent { RequeuedIsFound(p.outgoing, c, n, channel); }
      }
    }
  }

  /** What the acknowledgement of a serial does is what it was given for. */
  ghost predicate ActsFor(p: State, serial: nat, channel: nat)
    requires WellFormed(p)
  {
    match Acknowledge(p, Low16(serial), channel).1
    case Removed(c) => Flying(p, c) && c.channel == channel && c.serial == serial
    case Nothing => !exists c :: Flying(p, c) && c.channel == channel && c.serial == serial
  }

  /** An acknowledgement, however old, does that exactly when no other serial with the same 16 bits is in
      flight on the channel. */
  lemma AcknowledgementIsExactIff(p: State, serial: nat, channel: nat)
    requires Sound(p) && channel < |p.lanes|
    ensures ActsFor(p, serial, channel) <==>
            forall c :: Flying(p, c) && Pod.Named(c, Low16(serial), channel) ==> c.serial == serial
  {
    var r := Acknowledge(p, Low16(serial), channel).1;
    RemovesIffFlying(p, Low16(serial), channel);
    if r.Removed? {
      assert Flying(p, r.command) && Pod.Named(r.command, Low16(serial), channel);
      forall c | Flying(p, c) && Pod.Named(c, Low16(serial), channel)
        ensures c == r.command
      {
        NumberNamesOneCommand(p, c, r.command);
      }
    } else if c :| Flying(p, c) && c.channel == channel && c.serial == serial {
      assert Pod.Named(c, Low16(serial), channel);
      assert false;
    }
  }

  /** The acknowledgement of a serial that is less than 2^16 behind the newest removes the command
      with that serial when it is in flight, and nothing when it is not. */
  lemma AcknowledgementIsExact(p: State, serial: nat, channel: nat)
    requires Sound(p) && channel < |p.lanes|
    requires 1 <= serial <= Highest(p, channel) < serial + 0x10000
    ensures ActsFor(p, serial, channel)
  {
    forall c | Flying(p, c) && Pod.Named(c, Low16(serial), channel)
      ensures c.serial == serial
    {
      FlyingIsNear(p, c, channel);
      SameSerial(c.serial, serial);
    }
    AcknowledgementIsExactIff(p, serial, channel);
  }

  lemma OneIsGone(p: State, c: Outgoing, d: Outgoing, serial: nat)
    requires Sound(p) && c.channel < |p.lanes| && Flying(p, c) && c.serial == serial + 0x10000
    requires d.channel == c.channel && d.serial == serial
    ensures !Flying(p, d)
  {
    if Flying(p, d) { FlightSpansNineWindows(p, c, d); }
  }

  /** The bound of 2^16 is sharp: an acknowledgement that comes when the serial 2^16 later is in flight
      finds its own command gone and removes that one. */
  lemma LateAcknowledgementRemovesAnother(p: State, c: Outgoing, serial: nat)
    requires Sound(p) && c.channel < |p.lanes| && Flying(p, c) && c.serial == serial + 0x10000
    ensures !exists d :: Flying(p, d) && d.channel == c.channel && d.serial == serial
    ensures Acknowledge(p, Low16(serial), c.channel).1 == Removed(c)
  {
    forall d: Outgoing | d.channel == c.channel && d.serial == serial
      ensures !Flying(p, d)
    {
      OneIsGone(p, c, d, serial);
    }
    assert Pod.Named(c, Low16(serial), c.channel);
    RemovesIffFlying(p, Low16(serial), c.channel);
    RemovedIsNamed(p, Low16(serial), c.channel);
    NumberNamesOneCommand(p, c, Acknowledge(p, Low16(serial), c.channel).1.command);
  }

  lemma RemovedIsNamed(p: State, n: uint16, channel: nat)
    requires Sound(p) && Acknowledge(p, n, channel).1.Removed?
    ensures var d := Acknowledge(p, n, channel).1.command; Flying(p, d) && Pod.Named(d, n, channel)
  {
  }

  // --- window counters ---

  /** On this channel, sent at least once, with a serial in [from, to). */
  function FlyingFrom(channel: nat, from: nat, to: nat): Outgoing -> nat {
    (c: Outgoing) => if c.channel == channel && c.attempts > 0 && from <= c.serial < to then 1 else 0
  }

  lemma {:induction false} SumSplits(s: seq<Outgoing>, f: Outgoing -> nat, g: Outgoing -> nat, h: Outgoing -> nat)
    requires forall c :: c in s ==> f(c) <= g(c) + h(c)
    ensures Sum(s, f) <= Sum(s, g) + Sum(s, h)
  {
    if s != [] {
      SumSplits(s[1..], f, g, h);
    }
  }

  function Zero(): Outgoing -> nat {
    (c: Outgoing) => 0
  }

  lemma {:induction false} SumZero(s: seq<Outgoing>)
    ensures Sum(s, Zero()) == 0
  {
    if s != [] {
      SumZero(s[1..]);
    }
  }

  /** No more commands fly than there are serials. */
  lemma {:induction false} AtMostOneASerial(p: State, channel: nat, from: nat, to: nat)
    requires Once(p) && from <= to
    ensures Total(p, FlyingFrom(channel, from, to)) <= to - from
  {
    if from == to {
      SumSplits(p.sent, FlyingFrom(channel, from, to), Zero(), Zero());
      SumSplits(p.outgoing, FlyingFrom(channel, from, to), Zero(), Zero());
      SumZero(p.sent);
      SumZero(p.outgoing);
    } else {
      AtMostOneASerial(p, channel, from, to - 1);
      var f, g, h := FlyingFrom(channel, from, to), FlyingFrom(channel, from, to - 1), Books.Named(channel, to - 1);
      SumSplits(p.sent, f, g, h);
      SumSplits(p.outgoing, f, g, h);
      assert Total(p, h) <= 1;
    }
  }

  /** Commands in flight whose windows agree modulo 16 are in the same window. */
  lemma SameSlotSameWindow(p: State, c: Outgoing, d: Outgoing)
    requires Sound(p) && c.channel == d.channel < |p.lanes| && Flying(p, c) && Flying(p, d)
    requires c.serial / WINDOW_SIZE % WINDOWS == d.serial / WINDOW_SIZE % WINDOWS
    ensures c.serial / WINDOW_SIZE == d.serial / WINDOW_SIZE
  {
    FlightSpansNineWindows(p, c, d);
    FlightSpansNineWindows(p, d, c);
  }

  lemma FlyingWitness(p: State, channel: nat, w: nat) returns (c: Outgoing)
    requires Shape(p) && Total(p, FlyingIn(channel, w)) > 0
    ensures Flying(p, c) && FlyingIn(channel, w)(c) == 1
  {
    if Sum(p.sent, FlyingIn(channel, w)) > 0 {
      var i := SumWitness(p.sent, FlyingIn(channel, w));
      c := p.sent[i];
    } else {
      var i := SumWitness(p.outgoing, FlyingIn(channel, w));
      c := p.outgoing[i];
    }
  }

  /** A window counter never exceeds the size of a window, so its 16 bits are enough. */
  lemma CounterIsBounded(p: State, channel: nat, w: nat)
    requires Sound(p) && channel < |p.lanes| && w < WINDOWS
    ensures p.lanes[channel].windows[w] <= WINDOW_SIZE
  {
    assert p.lanes[channel].windows[w] == Total(p, FlyingIn(channel, w));
    if Total(p, FlyingIn(channel, w)) > 0 {
      var d := FlyingWitness(p, channel, w);
      var from := d.serial / WINDOW_SIZE * WINDOW_SIZE;
      forall c | Flying(p, c)
        ensures FlyingIn(channel, w)(c) <= FlyingFrom(channel, from, from + WINDOW_SIZE)(c) + Zero()(c)
      {
        if FlyingIn(channel, w)(c) == 1 { SameSlotSameWindow(p, c, d); }
      }
      SumSplits(p.sent, FlyingIn(channel, w), FlyingFrom(channel, from, from + WINDOW_SIZE), Zero());
      SumSplits(p.outgoing, FlyingIn(channel, w), FlyingFrom(channel, from, from + WINDOW_SIZE), Zero());
      SumZero(p.sent);
      SumZero(p.outgoing);
      AtMostOneASerial(p, channel, from, from + WINDOW_SIZE);
    }
  }
}
