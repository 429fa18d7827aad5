/** What every operation of the sending half keeps: the data in transit, the window
    counters, the order of first transmissions, and one place for every command. */
module Books {
  import opened Numbers
  import opened Clock
  import opened Fragments
  import opened Pod

  // --- sums over command lists ---

  function Sum(s: seq<Outgoing>, f: Outgoing -> nat): nat {
    if s == [] then 0 else f(s[0]) + Sum(s[1..], f)
  }

  lemma {:induction false} SumConcat(a: seq<Outgoing>, b: seq<Outgoing>, f: Outgoing -> nat)
    ensures Sum(a + b, f) == Sum(a, f) + Sum(b, f)
  {
    if a == [] {
      assert a + b == b;
    } else {
      SumConcat(a[1..], b, f);
      assert (a + b)[1..] == a[1..] + b;
    }
  }

  lemma SumAppend(s: seq<Outgoing>, c: Outgoing, f: Outgoing -> nat)
    ensures Sum(s + [c], f) == Sum(s, f) + f(c)
  {
    SumConcat(s, [c], f);
    assert Sum([c], f) == f(c) + Sum([], f);
  }

  lemma SumPrepend(s: seq<Outgoing>, c: Outgoing, f: Outgoing -> nat)
    ensures Sum([c] + s, f) == f(c) + Sum(s, f)
  {
  }

  lemma SumWithout(s: seq<Outgoing>, i: nat, f: Outgoing -> nat)
    requires i < |s|
    ensures Sum(Without(s, i), f) + f(s[i]) == Sum(s, f)
  {
    SumConcat(s[..i], s[i..], f);
    SumConcat(s[..i], s[i + 1..], f);
    assert s[..i] + s[i..] == s;
    assert s[i..][0] == s[i] && s[i..][1..] == s[i + 1..];
  }

  lemma {:induction false} SumMember(s: seq<Outgoing>, i: nat, f: Outgoing -> nat)
    requires i < |s|
    ensures f(s[i]) <= Sum(s, f)
  {
    SumWithout(s, i, f);
  }

  lemma {:induction false} SumWitness(s: seq<Outgoing>, f: Outgoing -> nat) returns (i: nat)
    requires Sum(s, f) > 0
    ensures i < |s| && f(s[i]) > 0
  {
    if f(s[0]) > 0 {
      i := 0;
    } else {
      i := SumWitness(s[1..], f);
      i := i + 1;
    }
  }

  // --- what is counted ---

  function PayloadOf(): Outgoing -> nat {
    (c: Outgoing) => Length(c.body)
  }

  /** Sent at least once, on this channel, in this window modulo 16. */
  function FlyingIn(channel: nat, w: nat): Outgoing -> nat {
    (c: Outgoing) => if c.channel == channel && c.attempts > 0 && c.serial / WINDOW_SIZE % WINDOWS == w then 1 else 0
  }

  /** Never sent, on this channel. */
  function FreshOn(channel: nat): Outgoing -> nat {
    (c: Outgoing) => if c.channel == channel && c.attempts == 0 then 1 else 0
  }

  function Named(channel: nat, serial: nat): Outgoing -> nat {
    (c: Outgoing) => if c.channel == channel && c.serial == serial then 1 else 0
  }

  /** Sent at least once, with this serial. */
  function FlyingAs(channel: nat, serial: nat): Outgoing -> nat {
    (c: Outgoing) => if c.channel == channel && c.attempts > 0 && c.serial == serial then 1 else 0
  }

  function Total(p: State, f: Outgoing -> nat): nat {
    Sum(p.sent, f) + Sum(p.outgoing, f)
  }

  // --- the invariant ---

  /** `reliable_data_in_transit_` is the payload of the sent list. */
  ghost predicate Transit(p: State) {
    p.inTransit == Sum(p.sent, PayloadOf())
  }

  /** Counter w of a channel is the number of its commands in window w that were sent and are
      not acknowledged; the bit is set exactly when the counter is positive. */
  ghost predicate Windows(p: State) {
    && WellFormed(p)
    && forall c, w {:trigger p.lanes[c].windows[w]} {:trigger p.lanes[c].used[w]} ::
         0 <= c < |p.lanes| && 0 <= w < WINDOWS ==>
           && p.lanes[c].windows[w] == Total(p, FlyingIn(c, w))
           && (p.lanes[c].used[w] <==> p.lanes[c].windows[w] > 0)
  }

  /** Retransmissions are a prefix of the waiting list; payload travels on channels only. */
  ghost predicate Shape(p: State) {
    && (forall i :: 0 <= i < |p.sent| ==> p.sent[i].attempts > 0)
    && (forall i, j :: 0 <= i < j < |p.outgoing| && p.outgoing[j].attempts > 0 ==> p.outgoing[i].attempts > 0)
    && (forall i :: 0 <= i < |p.outgoing| ==> (p.outgoing[i].channel < |p.lanes| <==> !p.outgoing[i].body.Control?))
    && (forall i :: 0 <= i < |p.sent| ==> (p.sent[i].channel < |p.lanes| <==> !p.sent[i].body.Control?))
  }

  /** The last serial given out on a channel, or to commands outside every channel. */
  function LastSerial(p: State, channel: nat): nat {
    if channel < |p.lanes| then p.lanes[channel].serial else p.controlSerial
  }

  /** Every command is in one place only. */
  ghost predicate Once(p: State) {
    && (forall c: nat, s: nat :: Total(p, Named(c, s)) <= 1)
    && (forall c: nat, s: nat :: s > LastSerial(p, c) ==> Total(p, Named(c, s)) == 0)
  }

  /** The number of commands of the channel that have been sent at least once. */
  function Highest(p: State, channel: nat): int
    requires channel < |p.lanes|
  {
    p.lanes[channel].serial - Sum(p.outgoing, FreshOn(channel))
  }

  /** The commands of the channel that were never sent carry the serials from `next` on. */
  ghost predicate Run(s: seq<Outgoing>, channel: nat, next: int) {
    s != [] ==>
      if s[0].channel == channel && s[0].attempts == 0
      then s[0].serial == next && Run(s[1..], channel, next + 1)
      else Run(s[1..], channel, next)
  }

  /** A command that was sent and not acknowledged is at most eight windows behind the newest. */
  ghost predicate Near(c: Outgoing, channel: nat, highest: int) {
    c.channel == channel && c.attempts > 0 ==>
      1 <= c.serial <= highest && highest / WINDOW_SIZE <= c.serial / WINDOW_SIZE + FREE_WINDOWS
  }

  ghost predicate Flight(p: State, channel: nat)
    requires channel < |p.lanes|
  {
    && Highest(p, channel) >= 0
    && Run(p.outgoing, channel, Highest(p, channel) + 1)
    && (forall i :: 0 <= i < |p.sent| ==> Near(p.sent[i], channel, Highest(p, channel)))
    && (forall i :: 0 <= i < |p.outgoing| ==> Near(p.outgoing[i], channel, Highest(p, channel)))
  }

  ghost predicate Sound(p: State) {
    && Transit(p)
    && Windows(p)
    && Shape(p)
    && Once(p)
    && forall c :: 0 <= c < |p.lanes| ==> Flight(p, c)
  }

  // --- how the sums change ---

  lemma SetupSums(p: State, channel: nat, body: Body, f: Outgoing -> nat)
    ensures var q := Setup(p, channel, body);
            Total(q, f) == Total(p, f) + f(q.outgoing[|p.outgoing|])
  {
    SumAppend(p.outgoing, Setup(p, channel, body).outgoing[|p.outgoing|], f);
  }

  lemma TransmitSums(p: State, i: nat, env: Env, f: Outgoing -> nat)
    requires i < |p.outgoing| && WellFormed(p)
    ensures var q, c := Transmit(p, i, env), p.outgoing[i];
            && Sum(q.outgoing, f) + f(c) == Sum(p.outgoing, f)
            && Sum(q.sent, f) == Sum(p.sent, f) + f(Stamped(c, env))
  {
    SumWithout(p.outgoing, i, f);
    SumAppend(p.sent, Stamped(p.outgoing[i], env), f);
  }

  function Slower(c: Outgoing): Outgoing {
    c.(timeout := Add32(c.timeout, c.timeout))
  }

  lemma RequeueSums(p: State, i: nat, f: Outgoing -> nat)
    requires i < |p.sent|
    ensures var q := Requeue(p, i);
            && Sum(q.sent, f) + f(p.sent[i]) == Sum(p.sent, f)
            && Sum(q.outgoing, f) == f(Slower(p.sent[i])) + Sum(p.outgoing, f)
  {
    SumWithout(p.sent, i, f);
    SumPrepend(p.outgoing, Slower(p.sent[i]), f);
  }

  lemma AcknowledgeSums(p: State, n: uint16, channel: nat, f: Outgoing -> nat)
    requires WellFormed(p)
    ensures var r := Acknowledge(p, n, channel);
            match r.1
            case Nothing => r.0 == p
            case Removed(c) => Total(r.0, f) + f(c) == Total(p, f)
  {
    var i := FindSent(p.sent, n, channel);
    if i < |p.sent| {
      SumWithout(p.sent, i, f);
    } else {
      var j := FindRequeued(p.outgoing, n, channel);
      if j < |p.outgoing| {
        SumWithout(p.outgoing, j, f);
      }
    }
  }

  // --- data in transit ---

  lemma SetupKeepsTransit(p: State, channel: nat, body: Body)
    requires Transit(p)
    ensures Transit(Setup(p, channel, body))
  {
  }

  lemma TransmitKeepsTransit(p: State, i: nat, env: Env)
    requires Transit(p) && i < |p.outgoing| && WellFormed(p)
    ensures Transit(Transmit(p, i, env))
  {
    TransmitSums(p, i, env, PayloadOf());
  }

  lemma RequeueKeepsTransit(p: State, i: nat)
    requires Transit(p) && i < |p.sent|
    ensures Transit(Requeue(p, i)) && Requeue(p, i).inTransit >= 0
  {
    RequeueSums(p, i, PayloadOf());
  }

  lemma AcknowledgeKeepsTransit(p: State, n: uint16, channel: nat)
    requires Transit(p) && WellFormed(p)
    ensures Transit(Acknowledge(p, n, channel).0) && Acknowledge(p, n, channel).0.inTransit >= 0
  {
    var i := FindSent(p.sent, n, channel);
    if i < |p.sent| {
      SumWithout(p.sent, i, PayloadOf());
    }
  }

  // --- window counters ---

  lemma SetupKeepsWindows(p: State, channel: nat, body: Body)
    requires Windows(p)
    ensures Windows(Setup(p, channel, body))
  {
    var q := Setup(p, channel, body);
    forall c, w | 0 <= c < |q.lanes| && 0 <= w < WINDOWS
      ensures q.lanes[c].windows[w] == Total(q, FlyingIn(c, w)) && (q.lanes[c].used[w] <==> q.lanes[c].windows[w] > 0)
    {
      SetupSums(p, channel, body, FlyingIn(c, w));
      assert p.lanes[c].windows[w] == Total(p, FlyingIn(c, w));
    }
  }

  lemma TransmitKeepsWindows(p: State, i: nat, env: Env)
    requires Windows(p) && i < |p.outgoing|
    ensures Windows(Transmit(p, i, env))
  {
    var q, x := Transmit(p, i, env), p.outgoing[i];
    WindowSlot(x.serial);
    forall c, w | 0 <= c < |q.lanes| && 0 <= w < WINDOWS
      ensures q.lanes[c].windows[w] == Total(q, FlyingIn(c, w)) && (q.lanes[c].used[w] <==> q.lanes[c].windows[w] > 0)
    {
      TransmitSums(p, i, env, FlyingIn(c, w));
      assert p.lanes[c].windows[w] == Total(p, FlyingIn(c, w));
    }
  }

  lemma RequeueKeepsWindows(p: State, i: nat)
    requires Windows(p) && i < |p.sent|
    ensures Windows(Requeue(p, i))
  {
    var q := Requeue(p, i);
    forall c, w | 0 <= c < |q.lanes| && 0 <= w < WINDOWS
      ensures q.lanes[c].windows[w] == Total(q, FlyingIn(c, w)) && (q.lanes[c].used[w] <==> q.lanes[c].windows[w] > 0)
    {
      RequeueSums(p, i, FlyingIn(c, w));
      assert p.lanes[c].windows[w] == Total(p, FlyingIn(c, w));
    }
  }

  /** Which counter an acknowledged command was counted in. */
  lemma CountedInWindow(x: Outgoing, n: uint16, channel: nat, c: nat, w: nat)
    requires Pod.Named(x, n, channel) && x.attempts > 0
    ensures FlyingIn(c, w)(x) == if c == channel && w == n / WINDOW_SIZE then 1 else 0
  {
    WindowSlot(x.serial);
  }

  lemma AcknowledgeKeepsWindow(p: State, n: uint16, channel: nat, c: nat, w: nat)
    requires Windows(p) && Shape(p) && Acknowledge(p, n, channel).1.Removed? && c < |p.lanes| && w < WINDOWS
    ensures var q := Acknowledge(p, n, channel).0;
            && |q.lanes| == |p.lanes|
            && q.lanes[c].windows[w] == Total(q, FlyingIn(c, w)) && (q.lanes[c].used[w] <==> q.lanes[c].windows[w] > 0)
  {
    var r := Acknowledge(p, n, channel);
    assert Pod.Named(r.1.command, n, channel) && r.1.command.attempts > 0;
    CountedInWindow(r.1.command, n, channel, c, w);
    AcknowledgeSums(p, n, channel, FlyingIn(c, w));
    assert p.lanes[c].windows[w] == Total(p, FlyingIn(c, w));
  }

  lemma AcknowledgeKeepsWindows(p: State, n: uint16, channel: nat)
    requires Windows(p) && Shape(p)
    ensures Windows(Acknowledge(p, n, channel).0)
  {
    var r := Acknowledge(p, n, channel);
    if r.1.Removed? {
      forall c, w | 0 <= c < |r.0.lanes| && 0 <= w < WINDOWS
        ensures r.0.lanes[c].windows[w] == Total(r.0, FlyingIn(c, w))
        ensures r.0.lanes[c].used[w] <==> r.0.lanes[c].windows[w] > 0
      {
        AcknowledgeKeepsWindow(p, n, channel, c, w);
      }
    }
  }

  // --- shape of the lists ---

  lemma SetupKeepsShape(p: State, channel: nat, body: Body)
    requires Shape(p) && (channel < |p.lanes| <==> !body.Control?)
    ensures Shape(Setup(p, channel, body))
  {
  }

  lemma TransmitKeepsShape(p: State, i: nat, env: Env)
    requires Shape(p) && i < |p.outgoing| && WellFormed(p)
    ensures Shape(Transmit(p, i, env))
  {
  }

  lemma RequeueKeepsShape(p: State, i: nat)
    requires Shape(p) && i < |p.sent|
    ensures Shape(Requeue(p, i))
  {
  }

  lemma AcknowledgeKeepsShape(p: State, n: uint16, channel: nat)
    requires Shape(p) && WellFormed(p)
    ensures Shape(Acknowledge(p, n, channel).0)
  {
    var q := Acknowledge(p, n, channel).0;
    var i := FindSent(p.sent, n, channel);
    var j := FindRequeued(p.outgoing, n, channel);
    if i < |p.sent| {
      ShapeWithoutSent(p, q, i);
    } else if j < |p.outgoing| {
      ShapeWithoutWaiting(p, q, j);
    }
  }

  lemma ShapeWithoutSent(p: State, q: State, i: nat)
    requires Shape(p) && i < |p.sent| && |q.lanes| == |p.lanes|
    requires q.sent == Without(p.sent, i) && q.outgoing == p.outgoing
    ensures Shape(q)
  {
  }

  lemma ShapeWithoutWaiting(p: State, q: State, i: nat)
    requires Shape(p) && i < |p.outgoing| && |q.lanes| == |p.lanes|
    requires q.sent == p.sent && q.outgoing == Without(p.outgoing, i)
    ensures Shape(q)
  {
  }

  // --- one place for every command ---

  lemma SetupKeepsOnce(p: State, channel: nat, body: Body)
    requires Once(p)
    ensures Once(Setup(p, channel, body))
  {
    var q := Setup(p, channel, body);
    forall c: nat, s: nat
      ensures Total(q, Named(c, s)) <= 1
      ensures s > LastSerial(q, c) ==> Total(q, Named(c, s)) == 0
    {
      SetupSums(p, channel, body, Named(c, s));
    }
  }

  lemma TransmitKeepsOnce(p: State, i: nat, env: Env)
    requires Once(p) && i < |p.outgoing| && WellFormed(p)
    ensures Once(Transmit(p, i, env))
  {
    var q := Transmit(p, i, env);
    forall c: nat, s: nat
      ensures Total(q, Named(c, s)) == Total(p, Named(c, s))
      ensures LastSerial(q, c) == LastSerial(p, c)
    {
      TransmitSums(p, i, env, Named(c, s));
    }
  }

  lemma RequeueKeepsOnce(p: State, i: nat)
    requires Once(p) && i < |p.sent|
    ensures Once(Requeue(p, i))
  {
    var q := Requeue(p, i);
    forall c: nat, s: nat
      ensures Total(q, Named(c, s)) == Total(p, Named(c, s))
      ensures LastSerial(q, c) == LastSerial(p, c)
    {
      RequeueSums(p, i, Named(c, s));
    }
  }

  lemma AcknowledgeKeepsOnce(p: State, n: uint16, channel: nat)
    requires Once(p) && WellFormed(p)
    ensures Once(Acknowledge(p, n, channel).0)
  {
    var q := Acknowledge(p, n, channel).0;
    forall c: nat, s: nat
      ensures Total(q, Named(c, s)) <= Total(p, Named(c, s))
      ensures LastSerial(q, c) == LastSerial(p, c)
    {
      AcknowledgeSums(p, n, channel, Named(c, s));
    }
  }

  // --- order and spread of the serials of one channel ---

  lemma {:induction false} RunAppend(s: seq<Outgoing>, c: Outgoing, channel: nat, next: int)
    requires Run(s, channel, next)
    requires c.channel == channel && c.attempts == 0 ==> c.serial == next + Sum(s, FreshOn(channel))
    ensures Run(s + [c], channel, next)
  {
    if s == [] {
      assert ([] + [c])[1..] == [];
    } else {
      assert (s + [c])[1..] == s[1..] + [c];
      RunAppend(s[1..], c, channel, if s[0].channel == channel && s[0].attempts == 0 then next + 1 else next);
    }
  }

  lemma {:induction false} RunWithout(s: seq<Outgoing>, i: nat, channel: nat, next: int)
    requires Run(s, channel, next) && i < |s|
    requires !(s[i].channel == channel && s[i].attempts == 0)
    ensures Run(Without(s, i), channel, next)
  {
    if i == 0 {
      assert Without(s, 0) == s[1..];
    } else {
      assert Without(s, i)[1..] == Without(s[1..], i - 1);
      RunWithout(s[1..], i - 1, channel, if s[0].channel == channel && s[0].attempts == 0 then next + 1 else next);
    }
  }

  lemma SetupKeepsFlight(p: State, channel: nat, body: Body, c: nat)
    requires c < |p.lanes| && Flight(p, c)
    ensures Flight(Setup(p, channel, body), c)
    ensures Highest(Setup(p, channel, body), c) == Highest(p, c)
  {
    var q := Setup(p, channel, body);
    var x := q.outgoing[|p.outgoing|];
    SumAppend(p.outgoing, x, FreshOn(c));
    assert Highest(q, c) == Highest(p, c);
    RunAppend(p.outgoing, x, c, Highest(p, c) + 1);
  }

  lemma RequeueKeepsFlight(p: State, i: nat, c: nat)
    requires c < |p.lanes| && Flight(p, c) && i < |p.sent| && p.sent[i].attempts > 0
    ensures Flight(Requeue(p, i), c)
    ensures Highest(Requeue(p, i), c) == Highest(p, c)
  {
  }

  lemma AcknowledgeKeepsFlight(p: State, n: uint16, channel: nat, c: nat)
    requires WellFormed(p) && c < |p.lanes| && Flight(p, c)
    ensures Flight(Acknowledge(p, n, channel).0, c)
    ensures Highest(Acknowledge(p, n, channel).0, c) == Highest(p, c)
  {
    var q := Acknowledge(p, n, channel).0;
    var i := FindSent(p.sent, n, channel);
    var j := FindRequeued(p.outgoing, n, channel);
    if i < |p.sent| {
      FlightWithoutSent(p, q, i, c);
    } else if j < |p.outgoing| {
      FlightWithoutWaiting(p, q, j, c);
    }
  }

  lemma FlightWithoutSent(p: State, q: State, i: nat, c: nat)
    requires c < |p.lanes| && Flight(p, c) && i < |p.sent|
    requires |q.lanes| == |p.lanes| && q.lanes[c].serial == p.lanes[c].serial
    requires q.sent == Without(p.sent, i) && q.outgoing == p.outgoing
    ensures Flight(q, c) && Highest(q, c) == Highest(p, c)
  {
  }

  lemma FlightWithoutWaiting(p: State, q: State, i: nat, c: nat)
    requires c < |p.lanes| && Flight(p, c) && i < |p.outgoing| && p.outgoing[i].attempts > 0
    requires |q.lanes| == |p.lanes| && q.lanes[c].serial == p.lanes[c].serial
    requires q.sent == p.sent && q.outgoing == Without(p.outgoing, i)
    ensures Flight(q, c) && Highest(q, c) == Highest(p, c)
  {
    SumWithout(p.outgoing, i, FreshOn(c));
    RunWithout(p.outgoing, i, c, Highest(p, c) + 1);
    forall k | 0 <= k < |q.outgoing|
      ensures Near(q.outgoing[k], c, Highest(q, c))
    {
      assert q.outgoing[k] == p.outgoing[if k < i then k else k + 1];
    }
  }

  /** The command at `i` may be transmitted: if it belongs to the channel, it is the first of the
      list and the window test lets it pass. */
  ghost predicate MaySend(p: State, i: nat, c: nat)
    requires c < |p.lanes| && WellFormed(p) && i < |p.outgoing|
  {
    p.outgoing[i].channel == c ==> i == 0 && !WindowWraps(p.lanes[c], p.outgoing[i])
  }

  function HighestAfter(p: State, i: nat, c: nat): int
    requires c < |p.lanes| && i < |p.outgoing|
  {
    Highest(p, c) + if p.outgoing[i].channel == c && p.outgoing[i].attempts == 0 then 1 else 0
  }

  lemma TransmitMovesHighest(p: State, i: nat, env: Env, c: nat)
    requires c < |p.lanes| && WellFormed(p) && i < |p.outgoing|
    ensures Highest(Transmit(p, i, env), c) == HighestAfter(p, i, c)
  {
    TransmitSums(p, i, env, FreshOn(c));
  }

  /** Nine windows back is seven windows ahead, modulo 16. */
  lemma NineWindowsBack(h: nat, serial: nat)
    requires serial / WINDOW_SIZE + 9 == h / WINDOW_SIZE
    ensures serial / WINDOW_SIZE % WINDOWS == (Low16(h) / WINDOW_SIZE + 7) % WINDOWS
  {
    WindowSlot(h);
  }

  /** The first command of a window is sent only when no command nine windows back is in flight. */
  lemma WrapTestKeepsNear(p: State, c: nat, y: Outgoing, k: nat)
    requires Windows(p) && c < |p.lanes| && Flight(p, c) && p.outgoing != [] && MaySend(p, 0, c)
    requires p.outgoing[0].channel == c && p.outgoing[0].attempts == 0
    requires (k < |p.sent| && y == p.sent[k]) || (k < |p.outgoing| && y == p.outgoing[k])
    ensures Near(y, c, Highest(p, c) + 1)
  {
    var x, h := p.outgoing[0], Highest(p, c) + 1;
    assert x.serial == h;
    assert Near(y, c, h - 1);
    WindowSlot(x.serial);
    if y.channel == c && y.attempts > 0 && h % WINDOW_SIZE == 0 {
      var w := Number(x) / WINDOW_SIZE;
      assert !AheadInUse(p.lanes[c], w);
      if y.serial / WINDOW_SIZE + 9 == h / WINDOW_SIZE {
        var v := (w + 7) % WINDOWS;
        NineWindowsBack(h, y.serial);
        if k < |p.sent| && y == p.sent[k] {
          SumMember(p.sent, k, FlyingIn(c, v));
        } else {
          SumMember(p.outgoing, k, FlyingIn(c, v));
        }
        assert p.lanes[c].windows[v] == Total(p, FlyingIn(c, v));
        assert InUse(p.lanes[c], w, 7);
      }
    }
  }

  lemma TransmitKeepsFlight(p: State, i: nat, env: Env, c: nat)
    requires Windows(p) && c < |p.lanes| && Flight(p, c) && i < |p.outgoing| && MaySend(p, i, c)
    ensures Flight(Transmit(p, i, env), c)
  {
    var q, x, h := Transmit(p, i, env), p.outgoing[i], HighestAfter(p, i, c);
    TransmitMovesHighest(p, i, env, c);
    if x.channel == c && x.attempts == 0 {
      assert Without(p.outgoing, 0) == p.outgoing[1..];
    } else {
      RunWithout(p.outgoing, i, c, Highest(p, c) + 1);
    }
    forall y: Outgoing, k: nat | (k < |p.sent| && y == p.sent[k]) || (k < |p.outgoing| && y == p.outgoing[k])
      ensures Near(y, c, h)
    {
      if x.channel == c && x.attempts == 0 { WrapTestKeepsNear(p, c, y, k); }
    }
    forall k | 0 <= k < |q.outgoing|
      ensures Near(q.outgoing[k], c, h)
    {
      assert q.outgoing[k] == p.outgoing[if k < i then k else k + 1];
    }
    forall k | 0 <= k < |q.sent|
      ensures Near(q.sent[k], c, h)
    {
      if k < |p.sent| {
        assert q.sent[k] == p.sent[k];
      } else {
        assert q.sent[k] == Stamped(x, env) && Near(x, c, h);
      }
    }
  }

  // --- the whole invariant, for every operation ---

  lemma SetupKeepsSound(p: State, channel: nat, body: Body)
    requires Sound(p) && (channel < |p.lanes| <==> !body.Control?)
    ensures Sound(Setup(p, channel, body))
  {
    SetupKeepsTransit(p, channel, body);
    SetupKeepsWindows(p, channel, body);
    SetupKeepsShape(p, channel, body);
    SetupKeepsOnce(p, channel, body);
    forall c | 0 <= c < |p.lanes|
      ensures Flight(Setup(p, channel, body), c)
    {
      SetupKeepsFlight(p, channel, body, c);
    }
  }

  lemma RequeueKeepsSound(p: State, i: nat)
    requires Sound(p) && i < |p.sent|
    ensures Sound(Requeue(p, i))
  {
    RequeueKeepsTransit(p, i);
    RequeueKeepsWindows(p, i);
    RequeueKeepsShape(p, i);
    RequeueKeepsOnce(p, i);
    forall c | 0 <= c < |p.lanes|
      ensures Flight(Requeue(p, i), c)
    {
      RequeueKeepsFlight(p, i, c);
    }
  }

  lemma AcknowledgeKeepsSound(p: State, n: uint16, channel: nat)
    requires Sound(p)
    ensures Sound(Acknowledge(p, n, channel).0)
  {
    AcknowledgeKeepsTransit(p, n, channel);
    AcknowledgeKeepsWindows(p, n, channel);
    AcknowledgeKeepsShape(p, n, channel);
    AcknowledgeKeepsOnce(p, n, channel);
    forall c | 0 <= c < |p.lanes|
      ensures Flight(Acknowledge(p, n, channel).0, c)
    {
      AcknowledgeKeepsFlight(p, n, channel, c);
    }
  }

  lemma TransmitKeepsSound(p: State, i: nat, env: Env)
    requires Sound(p) && i < |p.outgoing|
    requires forall c :: 0 <= c < |p.lanes| ==> MaySend(p, i, c)
    ensures Sound(Transmit(p, i, env))
  {
    TransmitKeepsTransit(p, i, env);
    TransmitKeepsWindows(p, i, env);
    TransmitKeepsShape(p, i, env);
    TransmitKeepsOnce(p, i, env);
    forall c | 0 <= c < |p.lanes|
      ensures Flight(Transmit(p, i, env), c)
    {
      TransmitKeepsFlight(p, i, env, c);
    }
  }

  /** What the loading loop maintains: while neither flag is set, nothing has been skipped. */
  ghost predicate LoadInvariant(s: Loading) {
    && Sound(s.pod)
    && s.next <= |s.pod.outgoing|
    && (!s.wrapped && !s.exceeded ==> s.next == 0)
  }

  lemma LoadOneCases(s: Loading, env: Env)
    requires LoadInvariant(s) && !s.stopped && s.next < |s.pod.outgoing|
    ensures var r := LoadOne(s, env);
            || (r.pod == s.pod && r.loaded == s.loaded)
            || (&& r.pod == Transmit(s.pod, s.next, env)
                && r.loaded == s.loaded + [Stamped(s.pod.outgoing[s.next], env)]
                && forall c :: 0 <= c < |s.pod.lanes| ==> MaySend(s.pod, s.next, c))
    ensures var r := LoadOne(s, env); !r.wrapped && !r.exceeded ==> r.next == 0
  {
  }

  lemma LoadOneKeepsInvariant(s: Loading, env: Env)
    requires LoadInvariant(s) && !s.stopped && s.next < |s.pod.outgoing|
    ensures LoadInvariant(LoadOne(s, env))
  {
    LoadOneCases(s, env);
    if LoadOne(s, env).pod != s.pod {
      TransmitKeepsSound(s.pod, s.next, env);
    }
  }

  lemma {:induction false} LoadKeepsInvariant(s: Loading, env: Env)
    requires LoadInvariant(s)
    ensures LoadInvariant(LoadRest(s, env))
    decreases if s.stopped then 0 else |s.pod.outgoing| - s.next
  {
    if !s.stopped && s.next < |s.pod.outgoing| {
      LoadOneKeepsInvariant(s, env);
      var t := LoadOne(s, env);
      if !t.stopped { LoadKeepsInvariant(t, env); }
    }
  }

  /** Loading a datagram keeps the books. */
  lemma LoadKeepsSound(p: State, ch: Chamber, env: Env)
    requires Sound(p)
    ensures Sound(Load(p, ch, env).pod)
  {
    LoadKeepsInvariant(StartLoading(p, ch), env);
  }

  lemma {:induction false} ExpireKeepsSound(s: Expiring, now: uint32, limits: Limits)
    requires Sound(s.pod) && (s.disconnect || s.next <= |s.pod.sent|)
    ensures Sound(ExpireRest(s, now, limits).pod)
    decreases if s.disconnect then 0 else |s.pod.sent| - s.next
  {
    if !s.disconnect && s.next < |s.pod.sent| {
      var t := ExpireOne(s, now, limits);
      var p := s.pod.(earliestTimeout := EarliestOf(s.pod.earliestTimeout, s.pod.sent[s.next]));
      EarliestKeepsSound(s.pod, p);
      if t.pod == Requeue(p, s.next) { RequeueKeepsSound(p, s.next); }
      if !t.disconnect { ExpireKeepsSound(t, now, limits); }
    }
  }

  lemma EarliestKeepsSound(p: State, q: State)
    requires Sound(p) && q == p.(earliestTimeout := q.earliestTimeout)
    ensures Sound(q)
  {
    forall c | 0 <= c < |p.lanes|
      ensures Flight(q, c)
    {
      assert Flight(p, c);
    }
    forall c: nat, s: nat
      ensures Total(q, Named(c, s)) == Total(p, Named(c, s)) && LastSerial(q, c) == LastSerial(p, c)
    {
    }
  }

  /** Requeueing what has timed out keeps the books, also when the peer is given up half-way. */
  lemma TimeoutKeepsSound(p: State, now: uint32, limits: Limits)
    requires Sound(p)
    ensures Sound(Timeout(p, now, limits).pod)
  {
    ExpireKeepsSound(Expiring(p, 0, 0, false), now, limits);
  }

  // --- conservation over whole operations ---

  /** The weight depends on what a command is, not on how often or when it was sent. */
  ghost predicate Lasting(f: Outgoing -> nat) {
    forall c: Outgoing, d: Outgoing {:trigger f(c), f(d)} ::
      c.channel == d.channel && c.serial == d.serial && c.body == d.body ==> f(c) == f(d)
  }

  lemma LoadOneConserves(s: Loading, env: Env, f: Outgoing -> nat)
    requires Lasting(f) && !s.stopped && s.next < |s.pod.outgoing| && WellFormed(s.pod)
    ensures Total(LoadOne(s, env).pod, f) == Total(s.pod, f)
  {
    var t := LoadOne(s, env);
    assert t.pod == s.pod || t.pod == Transmit(s.pod, s.next, env);
    TransmitSums(s.pod, s.next, env, f);
    assert f(Stamped(s.pod.outgoing[s.next], env)) == f(s.pod.outgoing[s.next]);
  }

  lemma {:induction false} LoadConserves(s: Loading, env: Env, f: Outgoing -> nat)
    requires Lasting(f) && s.next <= |s.pod.outgoing| && WellFormed(s.pod)
    ensures Total(LoadRest(s, env).pod, f) == Total(s.pod, f)
    decreases if s.stopped then 0 else |s.pod.outgoing| - s.next
  {
    if !s.stopped && s.next < |s.pod.outgoing| {
      LoadOneConserves(s, env, f);
      var t := LoadOne(s, env);
      if !t.stopped { LoadConserves(t, env, f); }
    }
  }

  lemma {:induction false} ExpireConserves(s: Expiring, now: uint32, limits: Limits, f: Outgoing -> nat)
    requires Lasting(f) && (s.disconnect || s.next <= |s.pod.sent|)
    ensures Total(ExpireRest(s, now, limits).pod, f) == Total(s.pod, f)
    decreases if s.disconnect then 0 else |s.pod.sent| - s.next
  {
    if !s.disconnect && s.next < |s.pod.sent| {
      var t := ExpireOne(s, now, limits);
      var p := s.pod.(earliestTimeout := EarliestOf(s.pod.earliestTimeout, s.pod.sent[s.next]));
      RequeueSums(p, s.next, f);
      assert f(Slower(s.pod.sent[s.next])) == f(s.pod.sent[s.next]);
      if !t.disconnect { ExpireConserves(t, now, limits, f); }
    }
  }

  /** Conservation: whatever is weighed (commands with a given name, or payload bytes), loading and
      timing out change nothing, queueing adds the new command, and an acknowledgement takes away
      the command that it removes. */
  lemma Conservation(p: State, f: Outgoing -> nat, ch: Chamber, env: Env, now: uint32, limits: Limits,
                     channel: nat, body: Body, n: uint16)
    requires Lasting(f) && WellFormed(p)
    ensures Total(Load(p, ch, env).pod, f) == Total(p, f)
    ensures Total(Timeout(p, now, limits).pod, f) == Total(p, f)
    ensures Total(Setup(p, channel, body), f) ==
            Total(p, f) + f(Outgoing(channel, LastSerial(p, channel) + 1, body, 0, 0, 0, 0))
    ensures match Acknowledge(p, n, channel).1
            case Nothing => Acknowledge(p, n, channel).0 == p
            case Removed(c) => Total(Acknowledge(p, n, channel).0, f) + f(c) == Total(p, f)
  {
    LoadConserves(StartLoading(p, ch), env, f);
    ExpireConserves(Expiring(p, 0, 0, false), now, limits, f);
    SetupSums(p, channel, body, f);
    AcknowledgeSums(p, n, channel, f);
  }
}
