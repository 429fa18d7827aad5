/** Which commands a datagram takes, by what is in flight: the windows in true serials, the bytes of the
    sent list, and the room in the datagram. */
module LoadingOrder {
  import opened Numbers
  import opened Fragments
  import opened Pod
  import opened Books
  import opened Datagram

  // --- the sequence windows, by counts of commands in flight ---

  /** Sent at least once, on this channel, in this window of unbounded serials. */
  function FlyingInWindow(channel: nat, window: int): Outgoing -> nat {
    (c: Outgoing) => if c.channel == channel && c.attempts > 0 && c.serial / WINDOW_SIZE == window then 1 else 0
  }

  function InFlight(p: State, channel: nat, window: int): nat {
    Total(p, FlyingInWindow(channel, window))
  }

  /** The first number of a window goes out for the first time only when a number of the window before has
      been acknowledged and nothing nine windows back is in flight. */
  predicate WindowIsOpen(p: State, c: Outgoing) {
    c.attempts == 0 && c.serial % 0x1000 == 0 ==>
      && InFlight(p, c.channel, c.serial / 0x1000 - 1) <= 0xFFE
      && InFlight(p, c.channel, c.serial / 0x1000 - 9) == 0
  }

  lemma {:induction false} SameSum(s: seq<Outgoing>, f: Outgoing -> nat, g: Outgoing -> nat)
    requires forall i :: 0 <= i < |s| ==> f(s[i]) == g(s[i])
    ensures Sum(s, f) == Sum(s, g)
  {
    if s != [] { SameSum(s[1..], f, g); }
  }

  /** The commands in flight that the counter of the window `r` places after window `v` counts. */
  function InSlot(p: State, channel: nat, v: nat, r: int): nat {
    Total(p, FlyingIn(channel, (v + r) % 16))
  }

  lemma SlotNumber(v: nat, w: nat, r: int)
    requires w == v % 16 && -1 <= r < 8
    ensures (v + r) % 16 == (w + 16 + r) % 16 && (r >= 0 ==> (v + r) % 16 == (w + r) % 16)
  {
    assert v == 16 * (v / 16) + w;
  }

  /** The counter and the bit that the test reads. */
  lemma CounterOf(p: State, c: Outgoing, r: int)
    requires Sound(p) && c.channel < |p.lanes| && -1 <= r < 8
    ensures var lane, w, n := p.lanes[c.channel], Number(c) / WINDOW_SIZE, InSlot(p, c.channel, c.serial / 0x1000, r);
            && (r == -1 ==> lane.windows[(w + WINDOWS - 1) % WINDOWS] == n)
            && (r >= 0 ==> (InUse(lane, w, r) <==> n > 0))
  {
    WindowSlot(c.serial);
    SlotNumber(c.serial / 0x1000, Number(c) / WINDOW_SIZE, r);
    var slot := (c.serial / 0x1000 + r) % 16;
    assert p.lanes[c.channel].windows[slot] == Total(p, FlyingIn(c.channel, slot));
  }

  /** By the test of the text, for any command of a channel: the mask is about windows modulo 16. */
  lemma WrapTestByCounts(p: State, c: Outgoing)
    requires Sound(p) && c.channel < |p.lanes| && c.serial > 0
    ensures WindowWraps(p.lanes[c.channel], c) <==>
            && c.attempts == 0 && c.serial % 0x1000 == 0
            && (|| InSlot(p, c.channel, c.serial / 0x1000, -1) > 0xFFE
                || exists r :: 0 <= r < 8 && InSlot(p, c.channel, c.serial / 0x1000, r) > 0)
  {
    var lane, w := p.lanes[c.channel], Number(c) / WINDOW_SIZE;
    WindowSlot(c.serial);
    if c.serial % 0x1000 == 0 {
      CounterOf(p, c, -1);
      forall r: nat | r < 8
        ensures InUse(lane, w, r) <==> InSlot(p, c.channel, c.serial / 0x1000, r) > 0
      {
        CounterOf(p, c, r);
      }
    }
  }

  lemma SameWindow(a: int, b: int)
    requires a % 16 == b % 16 && -16 < a - b < 16
    ensures a == b
  {
  }

  /** What flies lies in nine windows, so a window modulo 16 is one window or none of them. */
  lemma SlotIsWindow(p: State, channel: nat, slot: nat, window: int)
    requires Sound(p) && channel < |p.lanes| && slot == window % 16
    requires Highest(p, channel) / WINDOW_SIZE - 15 <= window <= Highest(p, channel) / WINDOW_SIZE
    ensures Total(p, FlyingIn(channel, slot)) == InFlight(p, channel, window)
  {
    var h := Highest(p, channel);
    assert Flight(p, channel);
    forall c: Outgoing | Near(c, channel, h)
      ensures FlyingIn(channel, slot)(c) == FlyingInWindow(channel, window)(c)
    {
      if c.channel == channel && c.attempts > 0 && c.serial / WINDOW_SIZE % 16 == slot {
        SameWindow(c.serial / WINDOW_SIZE, window);
      }
    }
    SameSum(p.sent, FlyingIn(channel, slot), FlyingInWindow(channel, window));
    SameSum(p.outgoing, FlyingIn(channel, slot), FlyingInWindow(channel, window));
  }

  lemma {:induction false} NothingCounted(s: seq<Outgoing>, f: Outgoing -> nat)
    requires forall i :: 0 <= i < |s| ==> f(s[i]) == 0
    ensures Sum(s, f) == 0
  {
    if s != [] { NothingCounted(s[1..], f); }
  }

  /** No command flies in a window that has not begun. */
  lemma AheadIsEmpty(p: State, channel: nat, window: int)
    requires Sound(p) && channel < |p.lanes|
    requires window > Highest(p, channel) / WINDOW_SIZE || window + 8 < Highest(p, channel) / WINDOW_SIZE
    ensures InFlight(p, channel, window) == 0
  {
    var h := Highest(p, channel);
    assert Flight(p, channel);
    forall c: Outgoing | Near(c, channel, h)
      ensures FlyingInWindow(channel, window)(c) == 0
    {
    }
    NothingCounted(p.sent, FlyingInWindow(channel, window));
    NothingCounted(p.outgoing, FlyingInWindow(channel, window));
  }

  /** What the counters hold that the test reads for the first number of a window. */
  lemma SlotsAhead(p: State, c: Outgoing, r: int)
    requires Sound(p) && c.channel < |p.lanes| && c.serial == Highest(p, c.channel) + 1 && c.serial % 0x1000 == 0
    requires -1 <= r < 8
    ensures var v := c.serial / 0x1000;
            InSlot(p, c.channel, v, r) ==
              if r == -1 then InFlight(p, c.channel, v - 1) else if r == 7 then InFlight(p, c.channel, v - 9) else 0
  {
    assert Flight(p, c.channel);
    var v := c.serial / 0x1000;
    assert Highest(p, c.channel) / WINDOW_SIZE == v - 1;
    var window := if r == -1 then v - 1 else v + r - 16;
    assert (v + r) % 16 == window % 16;
    SlotIsWindow(p, c.channel, (v + r) % 16, window);
    if 0 <= r < 7 { AheadIsEmpty(p, c.channel, window); }
  }

  lemma SomeSlotAhead(p: State, c: Outgoing)
    requires Sound(p) && c.channel < |p.lanes| && c.serial == Highest(p, c.channel) + 1 && c.serial % 0x1000 == 0
    ensures (exists r :: 0 <= r < 8 && InSlot(p, c.channel, c.serial / 0x1000, r) > 0) <==>
            InFlight(p, c.channel, c.serial / 0x1000 - 9) > 0
  {
    var v := c.serial / 0x1000;
    SlotsAhead(p, c, 7);
    if r :| 0 <= r < 8 && InSlot(p, c.channel, v, r) > 0 { SlotsAhead(p, c, r); }
  }

  /** For the command that is next on its channel the test is one on true windows. */
  lemma WrapTestIsWindowTest(p: State, c: Outgoing)
    requires Sound(p) && c.channel < |p.lanes| && c.serial > 0 && (c.attempts == 0 ==> c.serial == Highest(p, c.channel) + 1)
    ensures WindowWraps(p.lanes[c.channel], c) <==> !WindowIsOpen(p, c)
  {
    WrapTestByCounts(p, c);
    if c.attempts == 0 && c.serial % 0x1000 == 0 {
      SlotsAhead(p, c, -1);
      SomeSlotAhead(p, c);
    }
  }

  // --- one turn of the loop ---

  /** The payload bytes of what is in flight and of this command fit the data window. */
  predicate BytesFit(p: State, env: Env, b: Body) {
    Sum(p.sent, PayloadOf()) + Length(b) <= env.budget || Sum(p.sent, PayloadOf()) + Length(b) <= env.mtu
  }

  /** Neither window holds the head of the waiting list back. */
  predicate HeadMayGo(p: State, env: Env)
    requires p.outgoing != []
  {
    var c := p.outgoing[0];
    c.body.Control? || (WindowIsOpen(p, c) && BytesFit(p, env, c.body))
  }

  /** A command slot is free, and the bytes of the command are. */
  predicate HasRoom(commands: nat, size: nat, mtu: nat, b: Body) {
    commands < 32 && size + CommandSize(b) + Length(b) <= mtu
  }

  /** The command with the stamps of one more transmission. */
  function Sent(c: Outgoing, env: Env): Outgoing {
    var first := c.timeout == 0;
    Outgoing(c.channel, c.serial, c.body, c.attempts + 1, env.time,
             if first then env.firstTimeout else c.timeout, if first then env.firstLimit else c.timeoutLimit)
  }

  lemma RoomIsSpace(ch: Chamber, mtu: nat, b: Body)
    requires Bounded(ch, mtu)
    ensures DoesNotFit(ch, mtu, b) <==> !HasRoom(ch.commands, ch.size, mtu, b)
  {
    if ch.commands < CHAMBER_COMMANDS { PayloadSlotIsThere(ch, mtu); }
  }

  lemma HeadIsNext(p: State)
    requires Sound(p) && p.outgoing != [] && p.outgoing[0].channel < |p.lanes|
    ensures var c := p.outgoing[0]; c.serial > 0 && (c.attempts == 0 ==> c.serial == Highest(p, c.channel) + 1)
  {
    var c := p.outgoing[0];
    assert Flight(p, c.channel) && Near(c, c.channel, Highest(p, c.channel));
  }

  /** The loop before anything has been held back. */
  ghost predicate Unblocked(s: Loading, mtu: nat) {
    Sound(s.pod) && Bounded(s.chamber, mtu) && !s.stopped && !s.wrapped && !s.exceeded && s.next == 0
  }

  lemma HeadTurn(s: Loading, env: Env)
    requires Unblocked(s, env.mtu) && s.pod.outgoing != []
    ensures var c, r := s.pod.outgoing[0], LoadOne(s, env);
            if !HeadMayGo(s.pod, env) then
              && r.pod == s.pod && r.chamber == TakeSlots(s.chamber) && r.loaded == s.loaded && r.canPing == s.canPing
              && r.next == 1 && !r.stopped && (r.wrapped || r.exceeded) && !c.body.Control?
            else if !HasRoom(s.chamber.commands, s.chamber.size, env.mtu, c.body) then
              && r.stopped && r.pod == s.pod && r.loaded == s.loaded && !r.canPing
              && r.chamber.size == s.chamber.size && r.chamber.continueSending
            else
              && r.pod == Transmit(s.pod, 0, env) && r.loaded == s.loaded + [Sent(c, env)] && !r.canPing
              && Unblocked(r, env.mtu)
              && r.chamber.commands == s.chamber.commands + 1 && r.chamber.continueSending == s.chamber.continueSending
              && r.chamber.size == s.chamber.size + CommandSize(c.body) + Length(c.body)
  {
    var c := s.pod.outgoing[0];
    RoomIsSpace(s.chamber, env.mtu, c.body);
    LoadOneKeepsBound(s, env);
    LoadOneKeepsInvariant(s, env);
    if c.channel < |s.pod.lanes| {
      HeadIsNext(s.pod);
      WrapTestIsWindowTest(s.pod, c);
    }
  }

  /** Once a command with a payload has been held back, so is every other, and commands without one go as
      long as there is room. */
  lemma BlockedTurn(s: Loading, env: Env)
    requires Sound(s.pod) && Bounded(s.chamber, env.mtu) && !s.stopped && (s.wrapped || s.exceeded)
    requires s.next < |s.pod.outgoing|
    ensures var c, r := s.pod.outgoing[s.next], LoadOne(s, env);
            if !c.body.Control? then
              && r.pod == s.pod && r.chamber == TakeSlots(s.chamber) && r.loaded == s.loaded && r.canPing == s.canPing
              && r.next == s.next + 1 && !r.stopped && (r.wrapped || r.exceeded)
            else if !HasRoom(s.chamber.commands, s.chamber.size, env.mtu, c.body) then
              && r.stopped && r.pod == s.pod && r.loaded == s.loaded && !r.canPing
              && r.chamber.size == s.chamber.size && r.chamber.continueSending
            else
              && r.pod == Transmit(s.pod, s.next, env) && r.loaded == s.loaded + [Sent(c, env)] && !r.canPing
              && r.next == s.next && !r.stopped && (r.wrapped || r.exceeded)
              && r.chamber.commands == s.chamber.commands + 1 && r.chamber.continueSending == s.chamber.continueSending
              && r.chamber.size == s.chamber.size + CommandSize(c.body)
  {
    RoomIsSpace(s.chamber, env.mtu, s.pod.outgoing[s.next].body);
  }

  // --- the loop ---

  function Volume(s: seq<Outgoing>): nat {
    if s == [] then 0 else CommandSize(s[0].body) + Length(s[0].body) + Volume(s[1..])
  }

  function AllSent(s: seq<Outgoing>, env: Env): seq<Outgoing> {
    if s == [] then [] else [Sent(s[0], env)] + AllSent(s[1..], env)
  }

  /** The commands without a payload, in order. */
  function Controls(s: seq<Outgoing>): seq<Outgoing> {
    if s == [] then [] else (if s[0].body.Control? then [s[0]] else []) + Controls(s[1..])
  }

  /** The commands with a payload, in order. */
  function Payloads(s: seq<Outgoing>): seq<Outgoing> {
    if s == [] then [] else (if s[0].body.Control? then [] else [s[0]]) + Payloads(s[1..])
  }


  /** What the loop does with the list `rest` when it holds payloads back: it makes `q` turns, and then the
      list is over or there is no room. Every turn takes a command slot. */
  ghost predicate LoadsControls(commands: nat, size: nat, rest: seq<Outgoing>, q: nat, mtu: nat) {
    && q <= |rest|
    && (forall j: nat :: j < q && rest[j].body.Control? ==>
          HasRoom(commands + j, size + Volume(Controls(rest[..j])), mtu, rest[j].body))
    && (q < |rest| ==> rest[q].body.Control? && !HasRoom(commands + q, size + Volume(Controls(rest[..q])), mtu, rest[q].body))
  }

  /** The state after the loop, when it has loaded `taken` and left `left` of what waited from `next` on. */
  ghost predicate Leaves(s: Loading, r: Loading, taken: seq<Outgoing>, left: seq<Outgoing>, stopped: bool, env: Env) {
    && s.next <= |s.pod.outgoing|
    && r.loaded == s.loaded + AllSent(taken, env)
    && r.pod.sent == s.pod.sent + AllSent(taken, env)
    && r.pod.outgoing == s.pod.outgoing[..s.next] + left
    && r.chamber.size == s.chamber.size + Volume(taken)
    && r.stopped == stopped && r.chamber.continueSending == (s.chamber.continueSending || stopped)
    && (r.canPing <==> s.canPing && taken == [] && !stopped)
  }

  lemma HeadOfBeginning(s: seq<Outgoing>, j: nat)
    requires j < |s|
    ensures s[..j + 1] == [s[0]] + s[1..][..j] && s[..j + 1][1..] == s[1..][..j]
    ensures Controls(s[..j + 1]) == (if s[0].body.Control? then [s[0]] else []) + Controls(s[1..][..j])
    ensures Payloads(s[..j + 1]) == (if s[0].body.Control? then [] else [s[0]]) + Payloads(s[1..][..j])
  {
  }

  lemma Grown(c: Outgoing, s: seq<Outgoing>, env: Env)
    ensures Volume([c] + s) == CommandSize(c.body) + Length(c.body) + Volume(s)
    ensures AllSent([c] + s, env) == [Sent(c, env)] + AllSent(s, env)
    ensures Volume([] + s) == Volume(s) && [] + s == s
  {
    assert ([c] + s)[1..] == s && [] + s == s;
  }

  /** A turn puts the list one command further. */
  lemma ControlsShift(commands: nat, size: nat, after: nat, sizeAfter: nat, rest: seq<Outgoing>, q: nat, mtu: nat)
    requires rest != [] && LoadsControls(after, sizeAfter, rest[1..], q, mtu)
    requires commands <= 32 && after == if commands < 32 then commands + 1 else commands
    requires if rest[0].body.Control?
             then sizeAfter == size + CommandSize(rest[0].body) && HasRoom(commands, size, mtu, rest[0].body)
             else sizeAfter == size
    ensures LoadsControls(commands, size, rest, q + 1, mtu)
  {
    forall j: nat | j < |rest| - 1
      ensures HasRoom(commands + (j + 1), size + Volume(Controls(rest[..j + 1])), mtu, rest[j + 1].body) <==>
              HasRoom(after + j, sizeAfter + Volume(Controls(rest[1..][..j])), mtu, rest[1..][j].body)
    {
      HeadOfBeginning(rest, j);
      Grown(rest[0], Controls(rest[1..][..j]), Env(0, 0, 0, 0, 0));
    }
    forall j: nat | j < q + 1 && rest[j].body.Control?
      ensures HasRoom(commands + j, size + Volume(Controls(rest[..j])), mtu, rest[j].body)
    {
      if j > 0 { assert rest[1..][j - 1].body.Control?; } else { assert rest[..0] == []; }
    }
  }

  /** The loop while it holds payloads back, from `s` to `r`. */
  ghost predicate BlockedEnds(s: Loading, r: Loading, q: nat, env: Env) {
    && s.next <= |s.pod.outgoing|
    && var rest := s.pod.outgoing[s.next..];
    && LoadsControls(s.chamber.commands, s.chamber.size, rest, q, env.mtu)
    && Leaves(s, r, Controls(rest[..q]), Payloads(rest[..q]) + rest[q..], q < |rest|, env)
  }

  ghost predicate Blocked(s: Loading, mtu: nat) {
    LoadInvariant(s) && Bounded(s.chamber, mtu) && !s.stopped && (s.wrapped || s.exceeded)
  }

  lemma NothingTaken(s: Loading, r: Loading, env: Env)
    requires s.next <= |s.pod.outgoing| && r.pod == s.pod && r.loaded == s.loaded && r.chamber.size == s.chamber.size
    requires r.canPing <==> s.canPing && !r.stopped
    requires r.chamber.continueSending == (s.chamber.continueSending || r.stopped)
    ensures Leaves(s, r, [], s.pod.outgoing[s.next..], r.stopped, env)
  {
    assert s.pod.outgoing == s.pod.outgoing[..s.next] + s.pod.outgoing[s.next..];
  }

  lemma BlockedEndsHere(s: Loading, env: Env)
    requires Blocked(s, env.mtu) && s.next < |s.pod.outgoing|
    requires s.pod.outgoing[s.next].body.Control? && !HasRoom(s.chamber.commands, s.chamber.size, env.mtu, s.pod.outgoing[s.next].body)
    ensures LoadOne(s, env).stopped && BlockedEnds(s, LoadOne(s, env), 0, env)
  {
    var rest := s.pod.outgoing[s.next..];
    BlockedTurn(s, env);
    NothingTaken(s, LoadOne(s, env), env);
    assert rest[..0] == [] && [] + rest[0..] == rest;
  }

  lemma BlockedEndsWithList(s: Loading, env: Env)
    requires Blocked(s, env.mtu) && s.next == |s.pod.outgoing|
    ensures BlockedEnds(s, s, 0, env)
  {
    NothingTaken(s, s, env);
    assert s.pod.outgoing[s.next..] == [] && Controls([]) == [] && Payloads([]) + [] == [];
  }

  /** The turn has passed over a command with a payload. */
  ghost predicate Skipped(s: Loading, t: Loading) {
    && s.next < |s.pod.outgoing| && !s.pod.outgoing[s.next].body.Control?
    && t.pod == s.pod && t.chamber == TakeSlots(s.chamber) && t.loaded == s.loaded && t.canPing == s.canPing
    && t.next == s.next + 1
  }

  lemma LeavesAfterSkip(s: Loading, t: Loading, r: Loading, taken: seq<Outgoing>, left: seq<Outgoing>, stopped: bool, env: Env)
    requires Skipped(s, t) && Leaves(t, r, taken, left, stopped, env)
    ensures Leaves(s, r, taken, [s.pod.outgoing[s.next]] + left, stopped, env)
  {
    var out := s.pod.outgoing;
    assert out[..s.next + 1] + left == out[..s.next] + ([out[s.next]] + left);
  }

  lemma FrontOfRest(rest: seq<Outgoing>, q: nat)
    requires rest != [] && q < |rest|
    ensures rest[q + 1..] == rest[1..][q..]
    ensures Controls(rest[..q + 1]) == if rest[0].body.Control? then [rest[0]] + Controls(rest[1..][..q]) else Controls(rest[1..][..q])
    ensures Payloads(rest[..q + 1]) + rest[q + 1..] ==
            if rest[0].body.Control? then Payloads(rest[1..][..q]) + rest[1..][q..]
            else [rest[0]] + (Payloads(rest[1..][..q]) + rest[1..][q..])
  {
    HeadOfBeginning(rest, q);
    assert [] + Controls(rest[1..][..q]) == Controls(rest[1..][..q]);
    assert [] + Payloads(rest[1..][..q]) == Payloads(rest[1..][..q]);
  }

  lemma BlockedEndsAfterSkip(s: Loading, t: Loading, r: Loading, q: nat, env: Env)
    requires Bounded(s.chamber, env.mtu) && Skipped(s, t) && BlockedEnds(t, r, q, env)
    ensures BlockedEnds(s, r, q + 1, env)
  {
    var rest := s.pod.outgoing[s.next..];
    assert rest[1..] == t.pod.outgoing[t.next..];
    ControlsShift(s.chamber.commands, s.chamber.size, t.chamber.commands, t.chamber.size, rest, q, env.mtu);
    FrontOfRest(rest, q);
    LeavesAfterSkip(s, t, r, Controls(rest[1..][..q]), Payloads(rest[1..][..q]) + rest[1..][q..], q < |rest| - 1, env);
  }

  /** A turn that loads one command more. */
  lemma LeavesOneMore(s: Loading, t: Loading, r: Loading, taken: seq<Outgoing>, left: seq<Outgoing>, stopped: bool, env: Env)
    requires s.next < |s.pod.outgoing| && Leaves(t, r, taken, left, stopped, env)
    requires t.next == s.next && t.pod.outgoing == Without(s.pod.outgoing, s.next)
    requires t.chamber.continueSending == s.chamber.continueSending
    requires var c := s.pod.outgoing[s.next];
             && t.loaded == s.loaded + [Sent(c, env)] && t.pod.sent == s.pod.sent + [Sent(c, env)] && !t.canPing
             && t.chamber.size == s.chamber.size + CommandSize(c.body) + Length(c.body)
    ensures Leaves(s, r, [s.pod.outgoing[s.next]] + taken, left, stopped, env)
  {
    Grown(s.pod.outgoing[s.next], taken, env);
    assert t.pod.outgoing[..t.next] == s.pod.outgoing[..s.next];
  }

  lemma BlockedEndsAfterControl(s: Loading, r: Loading, q: nat, env: Env)
    requires Blocked(s, env.mtu) && s.next < |s.pod.outgoing| && s.pod.outgoing[s.next].body.Control?
    requires HasRoom(s.chamber.commands, s.chamber.size, env.mtu, s.pod.outgoing[s.next].body)
    requires BlockedEnds(LoadOne(s, env), r, q, env)
    ensures BlockedEnds(s, r, q + 1, env)
  {
    var t, rest := LoadOne(s, env), s.pod.outgoing[s.next..];
    BlockedTurn(s, env);
    assert rest[1..] == t.pod.outgoing[t.next..];
    ControlsShift(s.chamber.commands, s.chamber.size, t.chamber.commands, t.chamber.size, rest, q, env.mtu);
    FrontOfRest(rest, q);
    LeavesOneMore(s, t, r, Controls(rest[1..][..q]), Payloads(rest[1..][..q]) + rest[1..][q..], q < |rest| - 1, env);
  }

  lemma StaysBlocked(s: Loading, env: Env)
    requires Blocked(s, env.mtu) && s.next < |s.pod.outgoing| && !LoadOne(s, env).stopped
    ensures Blocked(LoadOne(s, env), env.mtu)
  {
    LoadOneKeepsBound(s, env);
    LoadOneKeepsInvariant(s, env);
    BlockedTurn(s, env);
  }

  lemma {:induction false} BlockedLoop(s: Loading, env: Env) returns (q: nat)
    requires Blocked(s, env.mtu)
    ensures BlockedEnds(s, LoadRest(s, env), q, env)
    decreases |s.pod.outgoing| - s.next
  {
    if s.next == |s.pod.outgoing| {
      q := 0;
      BlockedEndsWithList(s, env);
    } else {
      var t, c := LoadOne(s, env), s.pod.outgoing[s.next];
      BlockedTurn(s, env);
      if t.stopped {
        q := 0;
        BlockedEndsHere(s, env);
      } else {
        StaysBlocked(s, env);
        q := BlockedLoop(t, env);
        if c.body.Control? {
          BlockedEndsAfterControl(s, LoadRest(t, env), q, env);
        } else {
          BlockedEndsAfterSkip(s, t, LoadRest(t, env), q, env);
        }
        q := q + 1;
      }
    }
  }

  // --- a whole datagram ---

  /** The first `n` commands go, one after the other. The next one does not: a window holds it back, or,
      when none does, there is no next one or no room for it. */
  ghost predicate HeadsGo(p: State, commands: nat, size: nat, env: Env, n: nat, held: bool)
    decreases n
  {
    if p.outgoing == [] then n == 0 && !held
    else
      var c := p.outgoing[0];
      if n == 0 then
        held == !HeadMayGo(p, env) && (!held ==> !HasRoom(commands, size, env.mtu, c.body))
      else
        && WellFormed(p) && HeadMayGo(p, env) && HasRoom(commands, size, env.mtu, c.body)
        && HeadsGo(Transmit(p, 0, env), commands + 1, size + CommandSize(c.body) + Length(c.body), env, n - 1, held)
  }

  /** Of the first `q` commands, the first `n` and then those without a payload. */
  function Taken(out: seq<Outgoing>, n: nat, q: nat): seq<Outgoing>
    requires n <= q <= |out|
  {
    out[..n] + Controls(out[n..q])
  }

  function Left(out: seq<Outgoing>, n: nat, q: nat): seq<Outgoing>
    requires n <= q <= |out|
  {
    Payloads(out[n..q]) + out[q..]
  }

  ghost predicate ControlsGo(out: seq<Outgoing>, commands: nat, size: nat, n: nat, q: nat, held: bool, mtu: nat)
    requires n <= q <= |out|
  {
    if held then LoadsControls(commands + n, size + Volume(out[..n]), out[n..], q - n, mtu) else q == n
  }

  /** What a datagram takes of what waits: the first `n` commands; then, when a window holds the next one
      back, of the `q` commands that it gets to, those without a payload. */
  ghost predicate Takes(s: Loading, r: Loading, n: nat, q: nat, held: bool, env: Env) {
    var out := s.pod.outgoing;
    && s.next == 0 && n <= q <= |out|
    && HeadsGo(s.pod, s.chamber.commands, s.chamber.size, env, n, held)
    && ControlsGo(out, s.chamber.commands, s.chamber.size, n, q, held, env.mtu)
    && Leaves(s, r, Taken(out, n, q), Left(out, n, q), q < |out|, env)
  }

  lemma TakesNothing(s: Loading, env: Env)
    requires Unblocked(s, env.mtu)
    requires s.pod.outgoing == [] || (HeadMayGo(s.pod, env) && !HasRoom(s.chamber.commands, s.chamber.size, env.mtu, s.pod.outgoing[0].body))
    ensures Takes(s, if s.pod.outgoing == [] then s else LoadOne(s, env), 0, 0, false, env)
    ensures s.pod.outgoing != [] ==> LoadOne(s, env).stopped
  {
    var out := s.pod.outgoing;
    assert out[..0] == [] && out[0..] == out && out[0..0] == [] && [] + Controls([]) == [] && Payloads([]) + out == out;
    if out != [] {
      HeadTurn(s, env);
      NothingTaken(s, LoadOne(s, env), env);
    } else {
      NothingTaken(s, s, env);
    }
  }

  lemma TakesControls(s: Loading, r: Loading, q: nat, env: Env)
    requires Unblocked(s, env.mtu) && s.pod.outgoing != [] && !HeadMayGo(s.pod, env)
    requires BlockedEnds(LoadOne(s, env), r, q, env)
    ensures Takes(s, r, 0, q + 1, true, env)
  {
    var out := s.pod.outgoing;
    HeadTurn(s, env);
    BlockedEndsAfterSkip(s, LoadOne(s, env), r, q, env);
    assert out[..0] == [] && out[0..] == out && out[0..q + 1] == out[..q + 1];
    assert [] + Controls(out[..q + 1]) == Controls(out[..q + 1]);
  }

  lemma VolumeShifts(out: seq<Outgoing>, k: nat)
    requires k < |out|
    ensures Volume(out[..k + 1]) == CommandSize(out[0].body) + Length(out[0].body) + Volume(out[1..][..k])
  {
    assert out[..k + 1][1..] == out[1..][..k];
  }

  lemma SliceShifts(s: seq<Outgoing>, n: nat, q: nat)
    requires n <= q < |s|
    ensures s[n + 1..q + 1] == s[1..][n..q] && s[q + 1..] == s[1..][q..]
  {
    var a, b := s[n + 1..q + 1], s[1..][n..q];
    forall i | 0 <= i < q - n
      ensures a[i] == b[i]
    {
      assert b[i] == s[1..][n + i] == s[n + 1 + i];
    }
  }

  lemma TakenShifts(out: seq<Outgoing>, n: nat, q: nat)
    requires out != [] && n <= q < |out|
    ensures Taken(out, n + 1, q + 1) == [out[0]] + Taken(out[1..], n, q)
    ensures Left(out, n + 1, q + 1) == Left(out[1..], n, q)
  {
    SliceShifts(out, n, q);
    assert out[..n + 1] == [out[0]] + out[1..][..n];
  }

  lemma ControlsGoOn(out: seq<Outgoing>, tail: seq<Outgoing>, commands: nat, size: nat, after: nat, sizeAfter: nat,
                     n: nat, q: nat, held: bool, mtu: nat)
    requires out != [] && n <= q < |out| && tail == out[1..]
    requires after == commands + 1 && sizeAfter == size + CommandSize(out[0].body) + Length(out[0].body)
    requires ControlsGo(tail, after, sizeAfter, n, q, held, mtu)
    ensures ControlsGo(out, commands, size, n + 1, q + 1, held, mtu)
  {
    VolumeShifts(out, n);
    assert out[n + 1..] == tail[n..];
    assert commands + (n + 1) == after + n && size + Volume(out[..n + 1]) == sizeAfter + Volume(tail[..n]);
  }

  /** The turn has sent the head. */
  ghost predicate WentOut(s: Loading, t: Loading, env: Env) {
    && s.next == t.next == 0 && WellFormed(s.pod) && s.pod.outgoing != []
    && var c := s.pod.outgoing[0];
    && t.pod == Transmit(s.pod, 0, env) && t.loaded == s.loaded + [Sent(c, env)] && !t.canPing
    && t.chamber.commands == s.chamber.commands + 1 && t.chamber.continueSending == s.chamber.continueSending
    && t.chamber.size == s.chamber.size + CommandSize(c.body) + Length(c.body)
  }

  lemma HeadsGoOn(s: Loading, t: Loading, n: nat, held: bool, env: Env)
    requires WentOut(s, t, env) && HeadMayGo(s.pod, env)
    requires HasRoom(s.chamber.commands, s.chamber.size, env.mtu, s.pod.outgoing[0].body)
    requires HeadsGo(t.pod, t.chamber.commands, t.chamber.size, env, n, held)
    ensures HeadsGo(s.pod, s.chamber.commands, s.chamber.size, env, n + 1, held)
  {
  }

  lemma RestIsLeft(s: Loading, t: Loading, env: Env)
    requires WentOut(s, t, env)
    ensures t.pod.outgoing == s.pod.outgoing[1..] == Without(s.pod.outgoing, 0)
    ensures t.pod.sent == s.pod.sent + [Sent(s.pod.outgoing[0], env)]
  {
  }

  lemma OneMoreTaken(s: Loading, t: Loading, r: Loading, n: nat, q: nat, held: bool, env: Env)
    requires WentOut(s, t, env) && HeadMayGo(s.pod, env)
    requires HasRoom(s.chamber.commands, s.chamber.size, env.mtu, s.pod.outgoing[0].body)
    requires Takes(t, r, n, q, held, env)
    ensures Takes(s, r, n + 1, q + 1, held, env)
  {
    var out := s.pod.outgoing;
    RestIsLeft(s, t, env);
    HeadsGoOn(s, t, n, held, env);
    TakenShifts(out, n, q);
    ControlsGoOn(out, t.pod.outgoing, s.chamber.commands, s.chamber.size, t.chamber.commands, t.chamber.size, n, q, held, env.mtu);
    LeavesOneMore(s, t, r, Taken(t.pod.outgoing, n, q), Left(t.pod.outgoing, n, q), q < |t.pod.outgoing|, env);
  }

  lemma HeadTurnLeaves(s: Loading, env: Env)
    requires Unblocked(s, env.mtu) && s.pod.outgoing != []
    ensures var t := LoadOne(s, env);
            if !HeadMayGo(s.pod, env) then !t.stopped && Blocked(t, env.mtu)
            else if !HasRoom(s.chamber.commands, s.chamber.size, env.mtu, s.pod.outgoing[0].body) then t.stopped
            else !t.stopped && Unblocked(t, env.mtu) && |t.pod.outgoing| < |s.pod.outgoing| && WentOut(s, t, env)
  {
    HeadTurn(s, env);
    LoadOneKeepsBound(s, env);
    LoadOneKeepsInvariant(s, env);
  }

  ghost predicate TakesSome(s: Loading, r: Loading, env: Env) {
    exists n: nat, q: nat, held: bool :: Takes(s, r, n, q, held, env)
  }

  lemma LoadsNothing(s: Loading, r: Loading, env: Env)
    requires Unblocked(s, env.mtu) && r == LoadRest(s, env)
    requires s.pod.outgoing == []
             || (HeadMayGo(s.pod, env) && !HasRoom(s.chamber.commands, s.chamber.size, env.mtu, s.pod.outgoing[0].body))
    ensures TakesSome(s, r, env)
  {
    TakesNothing(s, env);
    assert Takes(s, r, 0, 0, false, env);
  }

  lemma LoadsOnlyControls(s: Loading, r: Loading, env: Env)
    requires Unblocked(s, env.mtu) && r == LoadRest(s, env) && s.pod.outgoing != [] && !HeadMayGo(s.pod, env)
    ensures TakesSome(s, r, env)
  {
    HeadTurnLeaves(s, env);
    var q := BlockedLoop(LoadOne(s, env), env);
    TakesControls(s, r, q, env);
  }

  lemma LoadsHead(s: Loading, t: Loading, r: Loading, env: Env)
    requires WentOut(s, t, env) && HeadMayGo(s.pod, env) && TakesSome(t, r, env)
    requires HasRoom(s.chamber.commands, s.chamber.size, env.mtu, s.pod.outgoing[0].body)
    ensures TakesSome(s, r, env)
  {
    var n, q, held :| Takes(t, r, n, q, held, env);
    OneMoreTaken(s, t, r, n, q, held, env);
  }

  lemma {:induction false} LoadsFrom(s: Loading, r: Loading, env: Env)
    requires Unblocked(s, env.mtu) && r == LoadRest(s, env)
    ensures TakesSome(s, r, env)
    decreases |s.pod.outgoing|
  {
    if s.pod.outgoing != [] && !HeadMayGo(s.pod, env) {
      LoadsOnlyControls(s, r, env);
    } else if s.pod.outgoing == [] || !HasRoom(s.chamber.commands, s.chamber.size, env.mtu, s.pod.outgoing[0].body) {
      LoadsNothing(s, r, env);
    } else {
      HeadTurnLeaves(s, env);
      LoadsFrom(LoadOne(s, env), r, env);
      LoadsHead(s, LoadOne(s, env), r, env);
    }
  }

  /** Which commands a datagram takes, in which order, with which stamps, and what it leaves waiting. */
  lemma LoadTakes(p: State, ch: Chamber, env: Env) returns (n: nat, q: nat, held: bool)
    requires Sound(p) && Bounded(ch, env.mtu)
    ensures Takes(StartLoading(p, ch), Load(p, ch, env), n, q, held, env)
  {
    LoadsFrom(StartLoading(p, ch), Load(p, ch, env), env);
    n, q, held :| Takes(StartLoading(p, ch), Load(p, ch, env), n, q, held, env);
  }

  /** The head of the waiting list goes, and goes first, exactly when neither window holds it back and the
      datagram has room for it, whatever else is in flight. */
  lemma HeadGoesIff(p: State, ch: Chamber, env: Env)
    requires Sound(p) && Bounded(ch, env.mtu) && p.outgoing != []
    ensures var l := Load(p, ch, env).loaded;
            l != [] && l[0] == Sent(p.outgoing[0], env) <==>
            HeadMayGo(p, env) && HasRoom(ch.commands, ch.size, env.mtu, p.outgoing[0].body)
  {
    var n, q, held := LoadTakes(p, ch, env);
    var out := p.outgoing;
    assert out[..0] == [];
    if n == 0 {
      ControlsAreControls(out[0..q]);
    }
  }

  lemma {:induction false} ControlsAreControls(s: seq<Outgoing>)
    ensures forall i :: 0 <= i < |Controls(s)| ==> Controls(s)[i].body.Control?
  {
    if s != [] { ControlsAreControls(s[1..]); }
  }
}
