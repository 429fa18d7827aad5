/** The sending half: the commands of one peer that wait to be sent or to be acknowledged,
    and the window bookkeeping of its channels. */
module Pod {
  import opened Numbers
  import opened Clock
  import opened Fragments

  const CHAMBER_COMMANDS := 32
  const CHAMBER_BUFFERS := 65

  /** A reliable command. `serial` counts the commands of its channel; the program's
      `reliable_sequence_number_` is `Low16(serial)`. */
  datatype Outgoing = Outgoing(channel: nat, serial: nat, body: Body, attempts: nat,
                               sentTime: uint32, timeout: uint32, timeoutLimit: uint32)

  /** The sending fields of a channel. Bit w of `used_reliable_windows_` is `used[w]`. */
  datatype Lane = Lane(serial: nat, windows: seq<nat>, used: seq<bool>)

  /** `CommandPod` with the sending fields of the peer's channels. */
  datatype State = State(outgoing: seq<Outgoing>, sent: seq<Outgoing>, lanes: seq<Lane>, controlSerial: nat,
                         inTransit: int, nextTimeout: uint32, earliestTimeout: uint32)

  function Number(c: Outgoing): uint16 {
    Low16(c.serial)
  }

  function Length(b: Body): nat {
    if b.Control? then 0 else |b.data|
  }

  function CommandSize(b: Body): nat {
    match b
    case Whole(_) => SEND_RELIABLE_SIZE
    case Piece(_, _, _, _, _, _) => SEND_FRAGMENT_SIZE
    case Control(size) => size
  }

  function Without(s: seq<Outgoing>, i: nat): seq<Outgoing>
    requires i < |s|
  {
    s[..i] + s[i + 1..]
  }

  function FreshLane(): Lane {
    Lane(0, seq(WINDOWS, _ => 0), seq(WINDOWS, _ => false))
  }

  // --- queueing: SetupOutgoingCommand ---

  function Setup(p: State, channel: nat, body: Body): State {
    if channel < |p.lanes| then
      var lane := p.lanes[channel];
      p.(lanes := p.lanes[channel := lane.(serial := lane.serial + 1)],
         outgoing := p.outgoing + [Outgoing(channel, lane.serial + 1, body, 0, 0, 0, 0)])
    else
      p.(controlSerial := p.controlSerial + 1,
         outgoing := p.outgoing + [Outgoing(channel, p.controlSerial + 1, body, 0, 0, 0, 0)])
  }

  // --- loading a datagram: LoadReliableCommandsIntoChamber ---

  /** The window r places after w, going round modulo 16, is in use. */
  predicate InUse(lane: Lane, w: nat, r: nat)
    requires |lane.used| == WINDOWS
  {
    lane.used[(w + r) % WINDOWS]
  }

  /** One of the windows w, ..., w+7 modulo 16 is in use: what the mask tests. */
  predicate AheadInUse(lane: Lane, w: nat)
    requires |lane.used| == WINDOWS
  {
    exists r: nat :: r < FREE_WINDOWS && InUse(lane, w, r)
  }

  predicate WellFormed(p: State) {
    forall c :: 0 <= c < |p.lanes| ==> |p.lanes[c].windows| == WINDOWS && |p.lanes[c].used| == WINDOWS
  }

  predicate WindowWraps(lane: Lane, c: Outgoing)
    requires |lane.windows| == WINDOWS && |lane.used| == WINDOWS
  {
    var w := Number(c) / WINDOW_SIZE;
    && c.attempts == 0
    && Number(c) % WINDOW_SIZE == 0
    && (lane.windows[(w + WINDOWS - 1) % WINDOWS] >= WINDOW_SIZE - 1 || AheadInUse(lane, w))
  }

  /** The datagram under construction: slots taken and bytes so far. */
  datatype Chamber = Chamber(commands: nat, buffers: nat, size: nat, continueSending: bool)

  /** What the sending code reads from its surroundings: the MTU, the window size scaled by the
      throttle, the clock and the first timeout of a command. */
  datatype Env = Env(mtu: nat, budget: nat, time: uint32, firstTimeout: uint32, firstLimit: uint32)

  function Max(a: nat, b: nat): nat {
    if a > b then a else b
  }

  predicate WindowExceeds(inTransit: int, env: Env, b: Body) {
    inTransit + Length(b) > Max(env.budget, env.mtu)
  }

  /** Each turn of the loop asks for a command slot and a buffer slot first. */
  function TakeSlots(ch: Chamber): Chamber {
    ch.(commands := if ch.commands < CHAMBER_COMMANDS then ch.commands + 1 else ch.commands,
        buffers := if ch.buffers < CHAMBER_BUFFERS then ch.buffers + 1 else ch.buffers)
  }

  /** `SendingContinues`: a command of this size, with its payload if it has one, does not fit into this
      datagram. `ch` is the chamber before the slots were taken. */
  predicate NoSpace(ch: Chamber, mtu: nat, commandSize: nat, hasPayload: bool, length: nat) {
    || ch.commands >= CHAMBER_COMMANDS
    || ch.buffers + 1 >= CHAMBER_BUFFERS
    || mtu < ch.size + commandSize
    || (hasPayload && mtu < ch.size + commandSize + length)
  }

  predicate DoesNotFit(ch: Chamber, mtu: nat, b: Body) {
    NoSpace(ch, mtu, CommandSize(b), !b.Control?, Length(b))
  }

  /** The loop: `next` is the position in `outgoing`. */
  datatype Loading = Loading(pod: State, chamber: Chamber, next: nat, wrapped: bool, exceeded: bool,
                             canPing: bool, stopped: bool, loaded: seq<Outgoing>)

  function UseWindow(lane: Lane, w: nat): Lane
    requires |lane.windows| == WINDOWS && |lane.used| == WINDOWS && w < WINDOWS
  {
    lane.(windows := lane.windows[w := lane.windows[w] + 1], used := lane.used[w := true])
  }

  /** The command as it is after one more transmission. */
  function Stamped(c: Outgoing, env: Env): Outgoing {
    c.(attempts := c.attempts + 1,
       sentTime := env.time,
       timeout := if c.timeout == 0 then env.firstTimeout else c.timeout,
       timeoutLimit := if c.timeout == 0 then env.firstLimit else c.timeoutLimit)
  }

  /** Moving the command at `next` from the waiting list to the end of the sent list. */
  function Transmit(p: State, i: nat, env: Env): State
    requires i < |p.outgoing| && WellFormed(p)
  {
    var c := p.outgoing[i];
    var d := Stamped(c, env);
    p.(lanes := if c.channel < |p.lanes| && c.attempts < 1
                then p.lanes[c.channel := UseWindow(p.lanes[c.channel], Number(c) / WINDOW_SIZE)]
                else p.lanes,
       outgoing := Without(p.outgoing, i),
       sent := p.sent + [d],
       inTransit := p.inTransit + Length(c.body),
       nextTimeout := if p.sent != [] then Add32(env.time, d.timeout) else p.nextTimeout)
  }

  function LoadOne(s: Loading, env: Env): (r: Loading)
    requires !s.stopped && s.next < |s.pod.outgoing| && WellFormed(s.pod)
    ensures WellFormed(r.pod)
    ensures r.stopped || |r.pod.outgoing| - r.next == |s.pod.outgoing| - s.next - 1
    ensures r.next <= |r.pod.outgoing|
  {
    var c := s.pod.outgoing[s.next];
    var chamber := TakeSlots(s.chamber);
    var onLane := c.channel < |s.pod.lanes|;
    var wrapped := s.wrapped || (onLane && WindowWraps(s.pod.lanes[c.channel], c));
    if onLane && wrapped then
      s.(chamber := chamber, next := s.next + 1, wrapped := true)
    else
      var exceeded := s.exceeded || (!c.body.Control? && WindowExceeds(s.pod.inTransit, env, c.body));
      if !c.body.Control? && exceeded then
        s.(chamber := chamber, next := s.next + 1, exceeded := true)
      else if DoesNotFit(s.chamber, env.mtu, c.body) then
        s.(chamber := chamber.(continueSending := true), canPing := false, stopped := true)
      else
        s.(pod := Transmit(s.pod, s.next, env),
           chamber := chamber.(buffers := if c.body.Control? then chamber.buffers else chamber.buffers + 1,
                               size := chamber.size + CommandSize(c.body) + Length(c.body)),
           canPing := false,
           loaded := s.loaded + [Stamped(c, env)])
  }

  function LoadRest(s: Loading, env: Env): (r: Loading)
    requires s.next <= |s.pod.outgoing| && WellFormed(s.pod)
    ensures WellFormed(r.pod)
    decreases if s.stopped then 0 else |s.pod.outgoing| - s.next
  {
    if s.stopped || s.next == |s.pod.outgoing| then s
    else
      var t := LoadOne(s, env);
      if t.stopped then t else LoadRest(t, env)
  }

  function StartLoading(p: State, ch: Chamber): Loading {
    Loading(p, ch, 0, false, false, true, false, [])
  }

  function Load(p: State, ch: Chamber, env: Env): Loading
    requires WellFormed(p)
  {
    LoadRest(StartLoading(p, ch), env)
  }

  // --- timeouts: Timeout ---

  datatype Limits = Limits(minimum: uint32, maximum: uint32)

  /** The loop: `next` is the position in `sent`. */
  datatype Expiring = Expiring(pod: State, next: nat, lost: nat, disconnect: bool)

  predicate Expired(c: Outgoing, now: uint32) {
    TimeDifference(now, c.sentTime) >= c.timeout
  }

  function EarliestOf(earliest: uint32, c: Outgoing): uint32 {
    if earliest == 0 || TimeLess(c.sentTime, earliest) then c.sentTime else earliest
  }

  predicate GiveUp(c: Outgoing, earliest: uint32, now: uint32, limits: Limits) {
    && earliest != 0
    && (|| TimeDifference(now, earliest) >= limits.maximum
        || (c.timeout >= c.timeoutLimit && TimeDifference(now, earliest) >= limits.minimum))
  }

  /** Moving the command at `i` from the sent list to the front of the waiting list. */
  function Requeue(p: State, i: nat): State
    requires i < |p.sent|
  {
    var c := p.sent[i];
    var d := c.(timeout := Add32(c.timeout, c.timeout));
    var rest := Without(p.sent, i);
    p.(outgoing := [d] + p.outgoing,
       sent := rest,
       inTransit := p.inTransit - Length(c.body),
       nextTimeout := if i == 0 && rest != [] then Add32(rest[0].sentTime, rest[0].timeout) else p.nextTimeout)
  }

  function ExpireOne(s: Expiring, now: uint32, limits: Limits): (r: Expiring)
    requires !s.disconnect && s.next < |s.pod.sent|
    ensures r.disconnect || (r.next <= |r.pod.sent| && |r.pod.sent| - r.next == |s.pod.sent| - s.next - 1)
    ensures r.pod.lanes == s.pod.lanes
  {
    var c := s.pod.sent[s.next];
    if !Expired(c, now) then s.(next := s.next + 1)
    else
      var earliest := EarliestOf(s.pod.earliestTimeout, c);
      var p := s.pod.(earliestTimeout := earliest);
      if GiveUp(c, earliest, now, limits) then s.(pod := p, disconnect := true)
      else s.(pod := Requeue(p, s.next), lost := s.lost + 1)
  }

  function ExpireRest(s: Expiring, now: uint32, limits: Limits): (r: Expiring)
    requires s.disconnect || s.next <= |s.pod.sent|
    ensures r.pod.lanes == s.pod.lanes
    decreases if s.disconnect then 0 else |s.pod.sent| - s.next
  {
    if s.disconnect || s.next == |s.pod.sent| then s
    else
      var t := ExpireOne(s, now, limits);
      if t.disconnect then t else ExpireRest(t, now, limits)
  }

  function Timeout(p: State, now: uint32, limits: Limits): Expiring {
    ExpireRest(Expiring(p, 0, 0, false), now, limits)
  }

  // --- acknowledgement: RemoveSentReliableCommand ---

  predicate Named(c: Outgoing, n: uint16, channel: nat) {
    Number(c) == n && c.channel == channel
  }

  /** The first command in the sent list that the acknowledgement names. */
  function FindSent(s: seq<Outgoing>, n: uint16, channel: nat): (i: nat)
    ensures i <= |s| && (i < |s| ==> Named(s[i], n, channel))
    ensures forall k :: 0 <= k < i ==> !Named(s[k], n, channel)
  {
    if s == [] then 0 else if Named(s[0], n, channel) then 0 else 1 + FindSent(s[1..], n, channel)
  }

  /** The same among the commands that wait to be sent again; the search ends at the first
      command that was never sent. */
  function FindRequeued(s: seq<Outgoing>, n: uint16, channel: nat): (i: nat)
    ensures i <= |s| && (i < |s| ==> s[i].attempts > 0 && Named(s[i], n, channel))
  {
    if s == [] || s[0].attempts < 1 then |s|
    else if Named(s[0], n, channel) then 0
    else 1 + FindRequeued(s[1..], n, channel)
  }

  function ReleaseWindow(lane: Lane, w: nat): Lane
    requires |lane.windows| == WINDOWS && |lane.used| == WINDOWS && w < WINDOWS
  {
    if lane.windows[w] > 0 then
      lane.(windows := lane.windows[w := lane.windows[w] - 1],
            used := if lane.windows[w] == 1 then lane.used[w := false] else lane.used)
    else lane
  }

  function Release(p: State, n: uint16, channel: nat): State
    requires WellFormed(p)
  {
    if channel < |p.lanes|
    then p.(lanes := p.lanes[channel := ReleaseWindow(p.lanes[channel], n / WINDOW_SIZE)])
    else p
  }

  function Retime(p: State): State {
    p.(nextTimeout := if p.sent != [] then Add32(p.sent[0].sentTime, p.sent[0].timeout) else p.nextTimeout)
  }

  datatype Removal = Nothing | Removed(command: Outgoing)

  function Acknowledge(p: State, n: uint16, channel: nat): (r: (State, Removal))
    requires WellFormed(p)
    ensures WellFormed(r.0)
  {
    var i := FindSent(p.sent, n, channel);
    if i < |p.sent| then
      var q := Release(p, n, channel);
      (Retime(q.(sent := Without(p.sent, i), inTransit := p.inTransit - Length(p.sent[i].body))), Removed(p.sent[i]))
    else
      var j := FindRequeued(p.outgoing, n, channel);
      if j < |p.outgoing| then
        var q := Release(p, n, channel);
        (Retime(q.(outgoing := Without(p.outgoing, j))), Removed(p.outgoing[j]))
      else (p, Nothing)
  }
}
