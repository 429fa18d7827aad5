/** One turn of the sending loop for one peer: acknowledgements, timeouts, reliable commands, the ping and
    unreliable commands, all into one datagram. */
module Turns {
  import opened Numbers
  import opened Clock
  import opened Fragments
  import opened Pod
  import opened Books
  import opened Datagram
  import opened PeerNets

  // --- unreliable commands: LoadUnreliableCommandsIntoChamber ---

  /** An unreliable command; the fragments of a segment share its numbers. */
  datatype Loose = Loose(commandSize: nat, hasPayload: bool, length: nat, offset: nat, reliable: uint16, unreliable: uint16)

  /** `waiting` is `outgoing_unreliable_commands_`, `sent` is `sent_unreliable_commands_`, `counter` the
      segment throttle counter; `next` is the position in `waiting`. */
  datatype LooseLoading = LooseLoading(waiting: seq<Loose>, next: nat, sent: seq<Loose>, counter: nat, chamber: Chamber,
                                       stopped: bool, loaded: seq<Loose>)

  /** The first position from `i` on that does not belong to the segment with these numbers. */
  function SkipGroup(waiting: seq<Loose>, i: nat, reliable: uint16, unreliable: uint16): (j: nat)
    requires i <= |waiting|
    ensures i <= j <= |waiting|
    ensures forall k :: i <= k < j ==> waiting[k].reliable == reliable && waiting[k].unreliable == unreliable
    ensures j < |waiting| ==> waiting[j].reliable != reliable || waiting[j].unreliable != unreliable
    decreases |waiting| - i
  {
    if i < |waiting| && waiting[i].reliable == reliable && waiting[i].unreliable == unreliable
    then SkipGroup(waiting, i + 1, reliable, unreliable)
    else i
  }

  function Drop(s: seq<Loose>, i: nat): seq<Loose>
    requires i < |s|
  {
    s[..i] + s[i + 1..]
  }

  function LoadLooseOne(s: LooseLoading, mtu: nat, throttle: nat): (r: LooseLoading)
    requires !s.stopped && s.next < |s.waiting|
    ensures r.next <= |r.waiting| && (r.stopped || |r.waiting| - r.next < |s.waiting| - s.next)
  {
    var c, chamber := s.waiting[s.next], TakeSlots(s.chamber);
    if NoSpace(s.chamber, mtu, c.commandSize, c.hasPayload, c.length) then
      s.(chamber := chamber.(continueSending := true), stopped := true)
    else
      var first := c.hasPayload && c.offset == 0;
      var counter := if first then (s.counter + THROTTLE_COUNTER) % THROTTLE_SCALE else s.counter;
      if first && counter > throttle then
        s.(chamber := chamber, counter := counter, next := SkipGroup(s.waiting, s.next + 1, c.reliable, c.unreliable))
      else
        s.(waiting := Drop(s.waiting, s.next), counter := counter, loaded := s.loaded + [c],
           sent := if c.hasPayload then s.sent + [c] else s.sent,
           chamber := chamber.(buffers := if c.hasPayload && chamber.buffers < CHAMBER_BUFFERS then chamber.buffers + 1
                                          else chamber.buffers,
                               size := chamber.size + c.commandSize + if c.hasPayload then c.length else 0))
  }

  function LoadLooseRest(s: LooseLoading, mtu: nat, throttle: nat): LooseLoading
    requires s.next <= |s.waiting|
    decreases if s.stopped then 0 else |s.waiting| - s.next
  {
    if s.stopped || s.next == |s.waiting| then s
    else
      var t := LoadLooseOne(s, mtu, throttle);
      if t.stopped then t else LoadLooseRest(t, mtu, throttle)
  }

  lemma {:induction false} LooseKeepsBound(s: LooseLoading, mtu: nat, throttle: nat)
    requires s.next <= |s.waiting| && Bounded(s.chamber, mtu)
    ensures Bounded(LoadLooseRest(s, mtu, throttle).chamber, mtu)
    decreases if s.stopped then 0 else |s.waiting| - s.next
  {
    if !s.stopped && s.next < |s.waiting| {
      var t := LoadLooseOne(s, mtu, throttle);
      assert Bounded(t.chamber, mtu);
      if !t.stopped { LooseKeepsBound(t, mtu, throttle); }
    }
  }

  /** Those with a payload, which are kept until the datagram is sent. */
  function WithPayload(s: seq<Loose>): seq<Loose> {
    if s == [] then []
    else
      var last := |s| - 1;
      WithPayload(s[..last]) + if s[last].hasPayload then [s[last]] else []
  }

  lemma DropOne(s: seq<Loose>, i: nat)
    requires i < |s|
    ensures multiset(s) == multiset(Drop(s, i)) + multiset{s[i]}
  {
    assert s == s[..i] + [s[i]] + s[i + 1..];
  }

  lemma LooseOneConserves(s: LooseLoading, mtu: nat, throttle: nat)
    requires !s.stopped && s.next < |s.waiting|
    ensures var r := LoadLooseOne(s, mtu, throttle);
            || (r.waiting == s.waiting && r.loaded == s.loaded && r.sent == s.sent)
            || (&& r.loaded == s.loaded + [s.waiting[s.next]]
                && multiset(s.waiting) == multiset(r.waiting) + multiset{s.waiting[s.next]}
                && r.sent == s.sent + WithPayload([s.waiting[s.next]]))
  {
    DropOne(s.waiting, s.next);
    var c := s.waiting[s.next];
    assert [c][..0] == [] && WithPayload([]) == [];
    assert WithPayload([c]) == if c.hasPayload then [c] else [];
    assert s.sent + [] == s.sent;
  }

  /** What was waiting still waits or has been loaded; exactly what has a payload is kept as sent. */
  ghost predicate Conserved(s: LooseLoading, before: seq<Loose>, sent: seq<Loose>) {
    multiset(before) == multiset(s.waiting) + multiset(s.loaded) && s.sent == sent + WithPayload(s.loaded)
  }

  lemma AppendCounts(s: seq<Loose>, c: Loose)
    ensures multiset(s + [c]) == multiset(s) + multiset{c}
  {
  }

  lemma Regroup(a: seq<Loose>, b: seq<Loose>, c: seq<Loose>)
    ensures a + b + c == a + (b + c)
  {
  }

  lemma LooseOneKeepsConserved(s: LooseLoading, mtu: nat, throttle: nat, before: seq<Loose>, sent: seq<Loose>)
    requires !s.stopped && s.next < |s.waiting| && Conserved(s, before, sent)
    ensures Conserved(LoadLooseOne(s, mtu, throttle), before, sent)
  {
    var t, c := LoadLooseOne(s, mtu, throttle), s.waiting[s.next];
    LooseOneConserves(s, mtu, throttle);
    if t.loaded != s.loaded {
      PayloadsAppend(s.loaded, c);
      AppendCounts(s.loaded, c);
      Regroup(sent, WithPayload(s.loaded), WithPayload([c]));
    }
  }

  /** What a datagram takes leaves the waiting list, what is throttled stays in it, and exactly what has a
      payload is kept as sent, in order. */
  lemma {:induction false} LooseConserves(s: LooseLoading, mtu: nat, throttle: nat, before: seq<Loose>, sent: seq<Loose>)
    requires s.next <= |s.waiting| && Conserved(s, before, sent)
    ensures Conserved(LoadLooseRest(s, mtu, throttle), before, sent)
    decreases if s.stopped then 0 else |s.waiting| - s.next
  {
    if !s.stopped && s.next < |s.waiting| {
      LooseOneKeepsConserved(s, mtu, throttle, before, sent);
      var t := LoadLooseOne(s, mtu, throttle);
      if !t.stopped { LooseConserves(t, mtu, throttle, before, sent); }
    }
  }

  lemma PayloadsAppend(s: seq<Loose>, c: Loose)
    ensures WithPayload(s + [c]) == WithPayload(s) + WithPayload([c])
  {
    assert (s + [c])[..|s|] == s && [c][..0] == [] && WithPayload([]) == [];
    assert WithPayload([c]) == if c.hasPayload then [c] else [];
  }

  // --- the turn ---

  const PING_SIZE := 4
  const NO_CHANNEL := 0xFF

  /** What a turn is given by its surroundings. */
  datatype Occasion = Occasion(env: Env, throttle: nat, checkTimeouts: bool, limits: Limits, pingDue: bool)

  datatype Turn = Turn(pod: State, loose: LooseLoading, chamber: Chamber, acks: AckLoad, pinged: bool, givenUp: bool)

  /** `HasEnoughSpace`, for a datagram that has not been overrun. */
  predicate PingFits(ch: Chamber, mtu: nat) {
    mtu >= ch.size + PING_SIZE
  }

  function AfterTimeouts(p: State, o: Occasion): Expiring {
    if o.checkTimeouts && p.sent != [] && !TimeLess(o.env.time, p.nextTimeout)
    then Timeout(p, o.env.time, o.limits)
    else Expiring(p, 0, 0, false)
  }

  /** Reliable commands, if any wait; `canPing` is true when none did. */
  function AfterReliable(p: State, ch: Chamber, env: Env): Loading
    requires WellFormed(p)
  {
    if p.outgoing == [] then StartLoading(p, ch) else Load(p, ch, env)
  }

  predicate PingsNow(l: Loading, o: Occasion) {
    l.canPing && l.pod.sent == [] && o.pingDue && PingFits(l.chamber, o.env.mtu)
  }

  function AfterPing(l: Loading, o: Occasion): Loading
    requires WellFormed(l.pod)
  {
    if PingsNow(l, o) then Load(Setup(l.pod, NO_CHANNEL, Control(PING_SIZE)), l.chamber, o.env) else l
  }

  /** The turn: the chamber is emptied, but whether sending continues is shared by all peers. */
  function TakeTurn(p: State, waiting: seq<Loose>, counter: nat, acks: seq<uint16>, continuing: bool, o: Occasion): Turn
    requires WellFormed(p)
  {
    var a := LoadAcks(EmptyChamber().(continueSending := continuing), acks, o.env.mtu);
    var e := AfterTimeouts(p, o);
    if e.disconnect then Turn(e.pod, LooseLoading(waiting, 0, [], counter, a.chamber, false, []), a.chamber, a, false, true)
    else
      var l := AfterReliable(e.pod, a.chamber, o.env);
      var q := AfterPing(l, o);
      var u := LoadLooseRest(LooseLoading(waiting, 0, [], counter, q.chamber, false, []), o.env.mtu, o.throttle);
      Turn(q.pod, u, u.chamber, a, PingsNow(l, o), false)
  }

  lemma {:induction false} AcksKeepBound(ch: Chamber, acks: seq<uint16>, mtu: nat)
    requires Bounded(ch, mtu)
    ensures Bounded(LoadAcks(ch, acks, mtu).chamber, mtu)
    decreases |acks|
  {
    if acks != [] && !(ch.commands >= CHAMBER_COMMANDS || ch.buffers >= CHAMBER_BUFFERS || mtu < ch.size + ACKNOWLEDGE_SIZE) {
      AcksKeepBound(TakeSlots(ch).(size := ch.size + ACKNOWLEDGE_SIZE), acks[1..], mtu);
    }
  }

  lemma TimeoutsKeepSound(p: State, o: Occasion)
    requires Sound(p)
    ensures Sound(AfterTimeouts(p, o).pod)
  {
    TimeoutKeepsSound(p, o.env.time, o.limits);
  }

  lemma ReliableKeepsBound(p: State, ch: Chamber, env: Env)
    requires Sound(p) && Bounded(ch, env.mtu)
    ensures Sound(AfterReliable(p, ch, env).pod) && Bounded(AfterReliable(p, ch, env).chamber, env.mtu)
  {
    if p.outgoing != [] {
      LoadKeepsSound(p, ch, env);
      LoadRestKeepsBound(StartLoading(p, ch), env);
    }
  }

  lemma PingKeepsBound(l: Loading, o: Occasion)
    requires Sound(l.pod) && |l.pod.lanes| <= NO_CHANNEL && Bounded(l.chamber, o.env.mtu)
    ensures Sound(AfterPing(l, o).pod) && Bounded(AfterPing(l, o).chamber, o.env.mtu)
  {
    if PingsNow(l, o) {
      SetupKeepsSound(l.pod, NO_CHANNEL, Control(PING_SIZE));
      ReliableKeepsBound(Setup(l.pod, NO_CHANNEL, Control(PING_SIZE)), l.chamber, o.env);
    }
  }

  /** Over a whole turn, whatever it loads: the datagram never exceeds the MTU, no slot is ever missing
      that the text uses, and the books of the sender stay true. */
  lemma TurnIsBounded(p: State, waiting: seq<Loose>, counter: nat, acks: seq<uint16>, continuing: bool, o: Occasion)
    requires Sound(p) && |p.lanes| <= NO_CHANNEL && PROTOCOL_HEADER_SIZE <= o.env.mtu
    ensures var t := TakeTurn(p, waiting, counter, acks, continuing, o);
            Bounded(t.chamber, o.env.mtu) && t.chamber.buffers <= CHAMBER_BUFFERS && Sound(t.pod)
  {
    var ch := EmptyChamber().(continueSending := continuing);
    AcksKeepBound(ch, acks, o.env.mtu);
    var a := LoadAcks(ch, acks, o.env.mtu);
    TimeoutsKeepSound(p, o);
    TimeoutKeepsLanes(p, o);
    var e := AfterTimeouts(p, o);
    if !e.disconnect {
      ReliableKeepsBound(e.pod, a.chamber, o.env);
      var l := AfterReliable(e.pod, a.chamber, o.env);
      LoadKeepsLanes(StartLoading(e.pod, a.chamber), o.env);
      PingKeepsBound(l, o);
      LooseKeepsBound(LooseLoading(waiting, 0, [], counter, AfterPing(l, o).chamber, false, []), o.env.mtu, o.throttle);
    }
  }

  lemma TimeoutKeepsLanes(p: State, o: Occasion)
    ensures |AfterTimeouts(p, o).pod.lanes| == |p.lanes|
  {
  }

  lemma {:induction false} LoadKeepsLanes(s: Loading, env: Env)
    requires s.next <= |s.pod.outgoing| && WellFormed(s.pod)
    ensures |LoadRest(s, env).pod.lanes| == |s.pod.lanes|
    decreases if s.stopped then 0 else |s.pod.outgoing| - s.next
  {
    if !s.stopped && s.next < |s.pod.outgoing| {
      var t := LoadOne(s, env);
      if !t.stopped { LoadKeepsLanes(t, env); }
    }
  }

  // --- the ping ---

  lemma {:induction false} SentGrows(s: Loading, env: Env)
    requires s.next <= |s.pod.outgoing| && WellFormed(s.pod)
    ensures |LoadRest(s, env).pod.sent| >= |s.pod.sent|
    ensures !s.canPing ==> !LoadRest(s, env).canPing
    decreases if s.stopped then 0 else |s.pod.outgoing| - s.next
  {
    if !s.stopped && s.next < |s.pod.outgoing| {
      var t := LoadOne(s, env);
      if !t.stopped { SentGrows(t, env); }
    }
  }

  /** When nothing is in flight, the head of the waiting list is never passed over, so a ping is thought
      of only when nothing at all was waiting. */
  lemma PingOnlyWhenIdle(p: State, ch: Chamber, env: Env)
    requires Sound(p) && p.outgoing != [] && Small(p.outgoing[0].body, env.mtu)
    ensures var l := Load(p, ch, env); !(l.canPing && l.pod.sent == [])
  {
    var s, c := StartLoading(p, ch), p.outgoing[0];
    SentGrows(s, env);
    if p.sent == [] {
      if c.channel < |p.lanes| { HeadDoesNotWrap(p); }
      assert p.inTransit == 0;
      var t := LoadOne(s, env);
      assert !t.canPing;
      if !t.stopped { SentGrows(t, env); }
    }
  }

  lemma OnlyPingWaits(p: State, env: Env, ch: Chamber)
    requires Sound(p) && p.outgoing == [] && |p.lanes| <= NO_CHANNEL && Bounded(ch, env.mtu) && PingFits(ch, env.mtu)
    ensures var q := Setup(p, NO_CHANNEL, Control(PING_SIZE));
            Load(q, ch, env).loaded == if ch.commands < CHAMBER_COMMANDS then [Stamped(q.outgoing[0], env)] else []
  {
    var q := Setup(p, NO_CHANNEL, Control(PING_SIZE));
    assert q.outgoing == [Outgoing(NO_CHANNEL, p.controlSerial + 1, Control(PING_SIZE), 0, 0, 0, 0)];
    var t := LoadOne(StartLoading(q, ch), env);
    if !t.stopped {
      assert t.pod.outgoing == [];
      assert LoadRest(t, env) == t && t.loaded == [Stamped(q.outgoing[0], env)];
    }
    assert Load(q, ch, env) == t;
  }

  /** A ping that is decided on goes out in the same datagram exactly when a command slot is left: the
      guard sees to its bytes, not to its slot. */
  lemma PingGoesOutIff(p: State, ch: Chamber, o: Occasion)
    requires Sound(p) && |p.lanes| <= NO_CHANNEL && Bounded(ch, o.env.mtu)
    requires p.outgoing != [] ==> Small(p.outgoing[0].body, o.env.mtu)
    requires PingsNow(AfterReliable(p, ch, o.env), o)
    ensures p.outgoing == []
    ensures var l := AfterReliable(p, ch, o.env);
            var q := Setup(l.pod, NO_CHANNEL, Control(PING_SIZE));
            AfterPing(l, o).loaded == if ch.commands < CHAMBER_COMMANDS then [Stamped(q.outgoing[0], o.env)] else []
  {
    if p.outgoing != [] {
      PingOnlyWhenIdle(p, ch, o.env);
    } else {
      OnlyPingWaits(p, o.env, ch);
    }
  }

  // --- what a turn does ---

  lemma NothingToLoad(p: State, ch: Chamber, env: Env)
    requires WellFormed(p)
    ensures AfterReliable(p, ch, env) == Load(p, ch, env)
  {
  }

  /** In true times, less than a day apart: the timeouts are looked at exactly when that is asked for,
      something is in flight and the next timeout has come. */
  lemma TimeoutsWhenDue(p: State, o: Occasion, now: nat, deadline: nat)
    requires o.env.time == Low32(now) && p.nextTimeout == Low32(deadline) && now < deadline + DAY && deadline < now + DAY
    ensures AfterTimeouts(p, o) ==
            if o.checkTimeouts && p.sent != [] && deadline <= now then Timeout(p, o.env.time, o.limits)
            else Expiring(p, 0, 0, false)
  {
    ClockIsTrue(now, deadline);
  }

  /** A turn that gives the peer up loads nothing but acknowledgements. Another one loads what the timeouts
      have left waiting, behind the acknowledgements, and pings exactly when that is due, nothing waited,
      nothing is in flight and there are bytes for it. */
  lemma TurnLoads(p: State, waiting: seq<Loose>, counter: nat, acks: seq<uint16>, continuing: bool, o: Occasion)
    requires Sound(p) && PROTOCOL_HEADER_SIZE <= o.env.mtu
    requires forall c :: c in p.sent || c in p.outgoing ==> Small(c.body, o.env.mtu)
    ensures var t, e := TakeTurn(p, waiting, counter, acks, continuing, o), AfterTimeouts(p, o);
            && t.givenUp == e.disconnect
            && (t.givenUp ==> t.pod == e.pod && t.loose.waiting == waiting && t.chamber == t.acks.chamber && !t.pinged)
            && (!t.givenUp ==>
                  var l := Load(e.pod, t.acks.chamber, o.env);
                  && (t.pinged <==>
                        o.pingDue && e.pod.outgoing == [] && e.pod.sent == [] && t.acks.chamber.size + PING_SIZE <= o.env.mtu)
                  && (!t.pinged ==> t.pod == l.pod))
  {
    var e := AfterTimeouts(p, o);
    var a := LoadAcks(EmptyChamber().(continueSending := continuing), acks, o.env.mtu);
    if !e.disconnect {
      NothingToLoad(e.pod, a.chamber, o.env);
      TimeoutsKeepSound(p, o);
      TimeoutsKeepSmall(p, o);
      PingsIff(e.pod, a.chamber, o);
    }
  }

  lemma PingsIff(p: State, ch: Chamber, o: Occasion)
    requires Sound(p) && (p.outgoing != [] ==> Small(p.outgoing[0].body, o.env.mtu))
    ensures PingsNow(AfterReliable(p, ch, o.env), o) <==>
            o.pingDue && p.outgoing == [] && p.sent == [] && ch.size + PING_SIZE <= o.env.mtu
  {
    if p.outgoing != [] { PingOnlyWhenIdle(p, ch, o.env); }
  }

  /** The timeouts change no body. */
  lemma {:induction false} ExpireKeepsSmall(s: Expiring, now: uint32, limits: Limits, mtu: nat)
    requires s.disconnect || s.next <= |s.pod.sent|
    requires forall c :: c in s.pod.sent || c in s.pod.outgoing ==> Small(c.body, mtu)
    ensures var r := ExpireRest(s, now, limits).pod; forall c :: c in r.sent || c in r.outgoing ==> Small(c.body, mtu)
    decreases if s.disconnect then 0 else |s.pod.sent| - s.next
  {
    if !s.disconnect && s.next < |s.pod.sent| {
      var t := ExpireOne(s, now, limits);
      assert s.pod.sent[s.next] in s.pod.sent;
      if !t.disconnect { ExpireKeepsSmall(t, now, limits, mtu); }
    }
  }

  lemma TimeoutsKeepSmall(p: State, o: Occasion)
    requires forall c :: c in p.sent || c in p.outgoing ==> Small(c.body, o.env.mtu)
    ensures var q := AfterTimeouts(p, o).pod; q.outgoing != [] ==> Small(q.outgoing[0].body, o.env.mtu)
  {
    ExpireKeepsSmall(Expiring(p, 0, 0, false), o.env.time, o.limits, o.env.mtu);
    var q := AfterTimeouts(p, o).pod;
    if q.outgoing != [] { assert q.outgoing[0] in q.outgoing; }
  }

  // --- how much the throttle lets through ---

  /** A slot and the bytes for this command. */
  predicate LooseFits(ch: Chamber, mtu: nat, c: Loose) {
    ch.commands < 32 && ch.size + c.commandSize + (if c.hasPayload then c.length else 0) <= mtu
  }

  /** With room for it a command goes exactly when it does not begin a segment with payload, or when the
      counter, put forward by 7 modulo 32, has not passed the throttle. */
  lemma LooseGoesIff(s: LooseLoading, mtu: nat, throttle: nat)
    requires !s.stopped && s.next < |s.waiting| && Bounded(s.chamber, mtu)
    ensures var c, r := s.waiting[s.next], LoadLooseOne(s, mtu, throttle);
            && (r.stopped <==> !LooseFits(s.chamber, mtu, c))
            && (r.loaded == s.loaded + [c] <==>
                  LooseFits(s.chamber, mtu, c) && (c.hasPayload && c.offset == 0 ==> (s.counter + 7) % 32 <= throttle))
            && (r.counter == if LooseFits(s.chamber, mtu, c) && c.hasPayload && c.offset == 0 then (s.counter + 7) % 32 else s.counter)
  {
    if s.chamber.commands < CHAMBER_COMMANDS { PayloadSlotIsThere(s.chamber, mtu); }
  }

  /** How many of `n` segments in a row the throttle lets through. */
  function LetThrough(counter: nat, n: nat, throttle: nat): nat {
    if n == 0 then 0
    else LetThrough(counter, n - 1, throttle) + if (counter + 7 * n) % 32 <= throttle then 1 else 0
  }

  function Hits(counter: nat, n: nat, v: nat): nat {
    if n == 0 then 0 else Hits(counter, n - 1, v) + if (counter + 7 * n) % 32 == v then 1 else 0
  }

  lemma SameRest(a: int, b: int, q: int)
    requires a == b + 32 * q
    ensures a % 32 == b % 32
  {
  }

  lemma Multiple(d: int, k: int)
    requires 23 * d == 32 * k && -32 < d < 32
    ensures d == 0
  {
    assert d == 32 * (7 * k - 5 * d);
  }

  /** 23 is the inverse of 7 modulo 32. */
  lemma HitAt(counter: nat, v: nat, n: nat)
    requires counter < 32 && v < 32 && 1 <= n <= 32
    ensures (counter + 7 * n) % 32 == v <==> n % 32 == (23 * v + 9 * counter) % 32
  {
    var q := (counter + 7 * n) / 32;
    var w := (counter + 7 * n) % 32;
    assert counter + 7 * n == 32 * q + w;
    SameRest(23 * w + 9 * counter, n, 5 * n - 23 * q + counter);
    if n % 32 == (23 * v + 9 * counter) % 32 { Cancel(v, w, counter); }
  }

  lemma Cancel(v: nat, w: nat, counter: nat)
    requires v < 32 && w < 32 && (23 * v + 9 * counter) % 32 == (23 * w + 9 * counter) % 32
    ensures v == w
  {
    var x, y := 23 * v + 9 * counter, 23 * w + 9 * counter;
    assert x == 32 * (x / 32) + x % 32 && y == 32 * (y / 32) + y % 32;
    Multiple(v - w, x / 32 - y / 32);
  }

  /** The one place from 1 to 32 at which the counter comes to `v`. */
  function HitPlace(counter: nat, v: nat): (at: nat)
    ensures 1 <= at <= 32 && at % 32 == (23 * v + 9 * counter) % 32
  {
    var r := (23 * v + 9 * counter) % 32;
    if r == 0 then 32 else r
  }

  lemma HitIffPlace(counter: nat, v: nat, n: nat)
    requires counter < 32 && v < 32 && 1 <= n <= 32
    ensures (counter + 7 * n) % 32 == v <==> n == HitPlace(counter, v)
  {
    HitAt(counter, v, n);
  }

  lemma {:induction false} HitsOnce(counter: nat, n: nat, v: nat)
    requires counter < 32 && v < 32 && n <= 32
    ensures Hits(counter, n, v) == if HitPlace(counter, v) <= n then 1 else 0
  {
    if n > 0 {
      HitIffPlace(counter, v, n);
      HitsOnce(counter, n - 1, v);
    }
  }

  lemma {:induction false} LetThroughIsHits(counter: nat, n: nat, throttle: nat)
    ensures LetThrough(counter, n, throttle) ==
            Hits(counter, n, throttle) + if throttle == 0 then 0 else LetThrough(counter, n, throttle - 1)
  {
    if n > 0 { LetThroughIsHits(counter, n - 1, throttle); }
  }

  /** Of 32 segments in a row the throttle lets through exactly one more than its value, wherever the
      counter stands; from 31 on, all of them. */
  lemma {:induction false} ThrottleLetsThrough(counter: nat, throttle: nat)
    requires counter < 32 && throttle < 32
    ensures LetThrough(counter, 32, throttle) == throttle + 1
  {
    LetThroughIsHits(counter, 32, throttle);
    HitsOnce(counter, 32, throttle);
    if throttle > 0 { ThrottleLetsThrough(counter, throttle - 1); }
  }

  lemma {:induction false} LetThroughFromFront(counter: nat, n: nat, throttle: nat)
    requires n > 0
    ensures LetThrough(counter, n, throttle) ==
            (if (counter + 7) % 32 <= throttle then 1 else 0) + LetThrough((counter + 7) % 32, n - 1, throttle)
  {
    if n > 1 {
      LetThroughFromFront(counter, n - 1, throttle);
      SameRest(counter + 7 * n, (counter + 7) % 32 + 7 * (n - 1), (counter + 7) / 32);
    }
  }

  function LooseVolume(s: seq<Loose>): nat {
    if s == [] then 0 else s[0].commandSize + s[0].length + LooseVolume(s[1..])
  }

  /** Segments with payload that are not cut, no two of them in a row with the same numbers. */
  ghost predicate Segments(s: seq<Loose>) {
    && (forall i :: 0 <= i < |s| ==> s[i].hasPayload && s[i].offset == 0)
    && (forall i :: 0 <= i < |s| - 1 ==> s[i].reliable != s[i + 1].reliable || s[i].unreliable != s[i + 1].unreliable)
  }

  /** There is room for all that waits from the next one on. */
  ghost predicate AllFit(s: LooseLoading, mtu: nat) {
    && !s.stopped && s.next <= |s.waiting| && Bounded(s.chamber, mtu)
    && Segments(s.waiting[s.next..])
    && s.chamber.commands + |s.waiting| - s.next <= 32
    && s.chamber.size + LooseVolume(s.waiting[s.next..]) <= mtu
  }

  lemma AllStillFit(s: LooseLoading, mtu: nat, throttle: nat)
    requires AllFit(s, mtu) && s.next < |s.waiting|
    ensures var t := LoadLooseOne(s, mtu, throttle);
            && AllFit(t, mtu) && t.waiting[t.next..] == s.waiting[s.next..][1..]
            && t.counter == (s.counter + 7) % 32
            && t.loaded == if t.counter <= throttle then s.loaded + [s.waiting[s.next]] else s.loaded
  {
    var t, rest := LoadLooseOne(s, mtu, throttle), s.waiting[s.next..];
    LooseGoesIff(s, mtu, throttle);
    assert rest[0] == s.waiting[s.next] && rest[1..] == s.waiting[s.next + 1..];
    if s.next + 1 < |s.waiting| { assert rest[1] == s.waiting[s.next + 1]; }
    assert t.waiting[t.next..] == rest[1..];
    assert Segments(rest[1..]);
  }

  lemma OneIsCounted(s: LooseLoading, mtu: nat, throttle: nat)
    requires AllFit(s, mtu) && s.next < |s.waiting|
    ensures var t := LoadLooseOne(s, mtu, throttle);
            && AllFit(t, mtu) && |t.waiting| - t.next == |s.waiting| - s.next - 1 && t.counter == (s.counter + 7) % 32
            && |t.loaded| == |s.loaded| + (if t.counter <= throttle then 1 else 0)
            && LoadLooseRest(s, mtu, throttle) == LoadLooseRest(t, mtu, throttle)
  {
    AllStillFit(s, mtu, throttle);
    var t := LoadLooseOne(s, mtu, throttle);
    assert |t.waiting[t.next..]| == |s.waiting[s.next..][1..]|;
  }

  /** Of segments that all have room the throttle lets this many through. */
  lemma {:induction false} ThrottleCounts(s: LooseLoading, mtu: nat, throttle: nat)
    requires AllFit(s, mtu)
    ensures |LoadLooseRest(s, mtu, throttle).loaded| ==
            |s.loaded| + LetThrough(s.counter, |s.waiting| - s.next, throttle)
    decreases |s.waiting| - s.next
  {
    if s.next < |s.waiting| {
      var t, n := LoadLooseOne(s, mtu, throttle), |s.waiting| - s.next;
      OneIsCounted(s, mtu, throttle);
      LetThroughFromFront(s.counter, n, throttle);
      ThrottleCounts(t, mtu, throttle);
    }
  }

  lemma FirstGoes(s: LooseLoading, mtu: nat, throttle: nat)
    requires !s.stopped && s.next == 0 && s.waiting != [] && Bounded(s.chamber, mtu) && throttle >= 31
    ensures var t := LoadLooseOne(s, mtu, throttle);
            if t.stopped then t.waiting == s.waiting && t.loaded == s.loaded
            else t.waiting == s.waiting[1..] && t.next == 0 && t.loaded == s.loaded + [s.waiting[0]] && Bounded(t.chamber, mtu)
  {
    LooseGoesIff(s, mtu, throttle);
  }

  /** With the throttle at its full scale nothing is held back: what goes is the beginning of what waits. */
  lemma {:induction false} FullThrottleHoldsNothing(s: LooseLoading, mtu: nat, throttle: nat) returns (k: nat)
    requires !s.stopped && s.next == 0 && Bounded(s.chamber, mtu) && throttle >= 31
    ensures var r := LoadLooseRest(s, mtu, throttle);
            && k <= |s.waiting| && r.loaded == s.loaded + s.waiting[..k] && r.waiting == s.waiting[k..]
            && (r.stopped <==> k < |s.waiting|)
    decreases |s.waiting|
  {
    k := 0;
    if s.waiting != [] {
      var t := LoadLooseOne(s, mtu, throttle);
      FirstGoes(s, mtu, throttle);
      if !t.stopped {
        k := FullThrottleHoldsNothing(t, mtu, throttle);
        OneMoreGone(s.waiting, s.loaded, k);
        k := k + 1;
      }
    }
  }

  lemma OneMoreGone(s: seq<Loose>, loaded: seq<Loose>, k: nat)
    requires k < |s|
    ensures loaded + [s[0]] + s[1..][..k] == loaded + s[..k + 1] && s[1..][k..] == s[k + 1..]
  {
  }
}
