/** `BandwidthThrottle`: how often a host's bandwidth is shared out among its peers, the scale of the
    sending windows, and the incoming limits that the peers are told. */
module Throttle {
  import opened Numbers
  import opened Clock
  import opened PeerStates
  import opened PeerNets
  import opened Shares

  const INTERVAL := 1000

  function Mul32(a: nat, b: nat): uint32 {
    a * b % 0x1_0000_0000
  }

  predicate Distinct(peers: seq<PeerNet>) {
    forall i, j :: 0 <= i < j < |peers| ==> peers[i] != peers[j]
  }

  /** The snapshot of the connected peers and their demands. */
  ghost predicate Observed(peers: seq<PeerNet>, on: seq<bool>, demands: seq<nat>)
    reads peers`state, peers`outgoingBandwidth
  {
    && |on| == |demands| == |peers|
    && (forall i :: 0 <= i < |peers| ==> on[i] == Counted(peers[i].state))
    && (forall i :: 0 <= i < |peers| ==> demands[i] == if on[i] then peers[i].outgoingBandwidth else 0)
  }

  /** What the peers ask for in the passes: one that bears the mark of this moment beforehand is never
      granted anything, as if it asked for more than there is. */
  function Asked(demands: seq<nat>, on: seq<bool>, stale: seq<bool>, over: nat): (asked: seq<nat>)
    requires |demands| == |on| == |stale|
    ensures |asked| == |on|
  {
    seq(|on|, i requires 0 <= i < |on| => if on[i] && stale[i] then over else demands[i])
  }

  function Fresh(on: seq<bool>): (marks: seq<bool>)
    ensures |marks| == |on|
  {
    seq(|on|, _ => false)
  }

  function ConnectedCount(on: seq<bool>): nat {
    Picked(Ones(on), Fresh(on), false)
  }

  // --- the incoming share ---

  /** What the loop over the passes maintains at threshold `p`. */
  ghost predicate Passed(demands: seq<nat>, on: seq<bool>, total: nat, p: int, remaining: nat, bandwidth: int)
    requires |demands| == |on|
  {
    && p >= -1
    && remaining == Left(demands, on, p)
    && bandwidth == total - Spent(demands, on, p)
    && bandwidth >= (if p >= 0 then Times(p, remaining) else 0)
    && forall t :: Balanced(demands, on, total, t) ==> p <= t
  }

  lemma NoPass(demands: seq<nat>, on: seq<bool>, total: nat)
    requires |demands| == |on|
    ensures Granted(demands, on, -1) == Fresh(on)
    ensures Passed(demands, on, total, -1, ConnectedCount(on), total)
  {
    PickNone(demands, Granted(demands, on, -1));
    assert Granted(demands, on, -1) == Fresh(on);
  }

  /** The next threshold is at least the last one and at most every balanced one. */
  lemma NextThreshold(demands: seq<nat>, on: seq<bool>, total: nat, p: int, remaining: nat, bandwidth: int)
    requires |demands| == |on| && Passed(demands, on, total, p, remaining, bandwidth) && remaining > 0
    ensures bandwidth / remaining >= p && bandwidth / remaining >= 0
    ensures bandwidth >= Times(bandwidth / remaining, remaining)
    ensures forall t :: Balanced(demands, on, total, t) ==> bandwidth / remaining <= t
  {
    ThresholdFits(bandwidth, remaining, bandwidth / remaining);
    if p >= 0 { ThresholdGrows(bandwidth, remaining, p); }
    forall t | Balanced(demands, on, total, t)
      ensures bandwidth / remaining <= t
    {
      PassStaysBelow(demands, on, total, p, t);
    }
  }

  lemma ThresholdGrows(bandwidth: nat, remaining: nat, p: nat)
    requires remaining > 0 && bandwidth >= Times(p, remaining)
    ensures bandwidth / remaining >= p
  {
    TimesIsProduct(p, remaining);
    QuotientAbove(bandwidth, remaining, p);
  }

  lemma ThresholdFits(bandwidth: nat, remaining: nat, limit: nat)
    requires remaining > 0 && limit == bandwidth / remaining
    ensures bandwidth >= Times(limit, remaining)
  {
    QuotientFits(bandwidth, remaining);
    TimesIsProduct(limit, remaining);
  }

  lemma OnePass(demands: seq<nat>, on: seq<bool>, total: nat, p: int, limit: nat,
                remaining: nat, bandwidth: nat, left: nat, rest: nat)
    requires |demands| == |on| && Passed(demands, on, total, p, remaining, bandwidth) && remaining > 0
    requires limit == bandwidth / remaining && left == Left(demands, on, limit)
    requires rest == bandwidth - (Spent(demands, on, limit) - Spent(demands, on, p)) >= Times(limit, left)
    ensures Passed(demands, on, total, limit, left, rest)
  {
    NextThreshold(demands, on, total, p, remaining, bandwidth);
  }

  /** What the peers are told stays within the bandwidth. */
  lemma PassedFits(demands: seq<nat>, on: seq<bool>, total: nat, limit: nat, remaining: nat, bandwidth: nat)
    requires |demands| == |on| && Passed(demands, on, total, limit, remaining, bandwidth)
    ensures Picked(Share(demands, on, limit), on, true) <= total
  {
    ShareTotal(demands, on, limit);
  }

  /** When a pass has marked nobody, its limit is balanced. */
  lemma LastPassIsBalanced(demands: seq<nat>, on: seq<bool>, total: nat, limit: nat, remaining: nat, bandwidth: nat)
    requires |demands| == |on| && Passed(demands, on, total, limit, remaining, bandwidth)
    requires remaining > 0 && limit == bandwidth / remaining
    ensures Balanced(demands, on, total, limit)
  {
  }

  /** The limit is the least threshold that is balanced, and what it gives fits. */
  ghost predicate FairLimit(demands: seq<nat>, on: seq<bool>, incoming: nat, limit: nat)
    requires |demands| == |on|
  {
    && Picked(Share(demands, on, limit), on, true) <= incoming
    && (Left(demands, on, limit) > 0 ==> Balanced(demands, on, incoming, limit))
    && forall t :: Balanced(demands, on, incoming, t) ==> limit <= t
  }

  /** The limit of the last pass, or the one that has granted every demand. */
  lemma LimitIsFair(demands: seq<nat>, on: seq<bool>, total: nat, limit: nat, remaining: nat, bandwidth: nat)
    requires |demands| == |on| && Passed(demands, on, total, limit, remaining, bandwidth)
    requires remaining > 0 ==> limit == bandwidth / remaining
    ensures FairLimit(demands, on, total, limit)
  {
    PassedFits(demands, on, total, limit, remaining, bandwidth);
    if remaining > 0 { LastPassIsBalanced(demands, on, total, limit, remaining, bandwidth); }
  }

  /** One turn of a pass: the peer at `i` is granted its demand. */
  lemma GrantOne(demands: seq<nat>, on: seq<bool>, marks: seq<bool>, i: nat, limit: nat, remaining: nat, bandwidth: int)
    requires |demands| == |on| == |marks| && i < |marks| && on[i] && !marks[i] && Below(demands[i], limit)
    requires remaining == Picked(Ones(on), marks, false) && bandwidth >= Times(limit, remaining)
    ensures remaining > 0 && bandwidth >= demands[i]
    ensures remaining - 1 == Picked(Ones(on), marks[i := true], false)
    ensures Picked(demands, marks[i := true], true) == Picked(demands, marks, true) + demands[i]
    ensures bandwidth - demands[i] >= Times(limit, remaining - 1)
  {
    PickOne(Ones(on), marks, i);
    PickOne(demands, marks, i);
  }

  /** The epochs of the connected peers tell which of them are marked or were so beforehand. */
  ghost predicate IncomingMarks(peers: seq<PeerNet>, on: seq<bool>, stale: seq<bool>, marks: seq<bool>, now: uint32)
    requires |peers| == |on| == |stale| == |marks|
    reads peers`incomingEpoch
  {
    forall i :: 0 <= i < |peers| ==>
      (marks[i] ==> on[i]) && (on[i] ==> (peers[i].incomingEpoch == now <==> marks[i] || stale[i]))
  }

  /** The connected peers, and what those of them ask for that do not bear the mark beforehand. */
  ghost predicate Asking(peers: seq<PeerNet>, on: seq<bool>, demands: seq<nat>, stale: seq<bool>)
    reads peers`state, peers`outgoingBandwidth
  {
    && |on| == |demands| == |stale| == |peers|
    && (forall i :: 0 <= i < |peers| ==> on[i] == Counted(peers[i].state))
    && (forall i :: 0 <= i < |peers| && on[i] && !stale[i] ==> demands[i] == peers[i].outgoingBandwidth)
  }

  /** What a pass at this limit has to mark. */
  ghost predicate IsTarget(demands: seq<nat>, on: seq<bool>, before: seq<bool>, target: seq<bool>, limit: nat)
    requires |demands| == |on| == |before| == |target|
  {
    forall i :: 0 <= i < |on| ==> (before[i] ==> target[i]) && (target[i] <==> on[i] && Below(demands[i], limit))
  }

  /** The test for one peer: is its demand below the limit? Then it is marked as granted. */
  method GrantIfLow(net: PeerNet, now: uint32, limit: nat) returns (granted: bool)
    modifies net`incomingEpoch
    ensures granted <==> Counted(net.state) && old(net.incomingEpoch) != now && Below(net.outgoingBandwidth, limit)
    ensures net.incomingEpoch == if granted then now else old(net.incomingEpoch)
  {
    if !Counted(net.state) || net.incomingEpoch == now { return false; }
    if net.outgoingBandwidth > 0 && net.outgoingBandwidth >= limit { return false; }
    net.incomingEpoch := now;
    return true;
  }

  /** One pass over the peers at the given limit. */
  method GrantPass(peers: seq<PeerNet>, now: uint32, limit: nat, remaining: nat, bandwidth: nat,
                   ghost on: seq<bool>, ghost demands: seq<nat>, ghost stale: seq<bool>,
                   ghost before: seq<bool>, ghost target: seq<bool>)
    returns (left: nat, rest: nat, adjusted: bool)
    requires Distinct(peers) && Asking(peers, on, demands, stale) && |before| == |target| == |peers|
    requires IsTarget(demands, on, before, target, limit) && IncomingMarks(peers, on, stale, before, now)
    requires forall i :: 0 <= i < |peers| && stale[i] ==> !target[i]
    requires remaining == Picked(Ones(on), before, false) && bandwidth >= Times(limit, remaining)
    modifies peers`incomingEpoch
    ensures IncomingMarks(peers, on, stale, target, now)
    ensures left == Picked(Ones(on), target, false)
    ensures rest == bandwidth - (Picked(demands, target, true) - Picked(demands, before, true)) >= Times(limit, left)
    ensures if adjusted then left < remaining else target == before
  {
    ghost var marks := before;
    left, rest, adjusted := remaining, bandwidth, false;
    var i := 0;
    while i < |peers|
      invariant i <= |peers| && |marks| == |peers|
      invariant forall j :: 0 <= j < |marks| ==> marks[j] == if j < i then target[j] else before[j]
      invariant IncomingMarks(peers, on, stale, marks, now)
      invariant left == Picked(Ones(on), marks, false)
      invariant rest == bandwidth - (Picked(demands, marks, true) - Picked(demands, before, true))
      invariant rest >= Times(limit, left)
      invariant if adjusted then left < remaining else marks == before
    {
      assert forall j :: 0 <= j < |peers| && j != i ==> peers[j] != peers[i];
      var granted := GrantIfLow(peers[i], now, limit);
      if granted {
        GrantOne(demands, on, marks, i, limit, left, rest);
        adjusted := true;
        left := left - 1;
        rest := rest - peers[i].outgoingBandwidth;
        marks := marks[i := true];
      }
      i := i + 1;
    }
    assert marks == target;
  }

  /** The limit of the next pass, and the pass. */
  method NextPass(peers: seq<PeerNet>, now: uint32, remaining: nat, bandwidth: nat,
                  ghost on: seq<bool>, ghost demands: seq<nat>, ghost stale: seq<bool>, ghost total: nat, ghost p: int)
    returns (limit: nat, left: nat, rest: nat, adjusted: bool)
    requires Distinct(peers) && Asking(peers, on, demands, stale) && remaining > 0
    requires forall i :: 0 <= i < |peers| && on[i] && stale[i] ==> demands[i] > total
    requires Passed(demands, on, total, p, remaining, bandwidth)
    requires IncomingMarks(peers, on, stale, Granted(demands, on, p), now)
    modifies peers`incomingEpoch
    ensures limit == bandwidth / remaining && limit >= p
    ensures Passed(demands, on, total, limit, left, rest)
    ensures IncomingMarks(peers, on, stale, Granted(demands, on, limit), now)
    ensures if adjusted then left < remaining else left == remaining && rest == bandwidth
    ensures left == 0 || !adjusted ==> FairLimit(demands, on, total, limit)
  {
    NextThreshold(demands, on, total, p, remaining, bandwidth);
    limit := bandwidth / remaining;
    left, rest, adjusted := GrantPass(
      peers, now, limit, remaining, bandwidth, on, demands, stale, Granted(demands, on, p), Granted(demands, on, limit));
    OnePass(demands, on, total, p, limit, remaining, bandwidth, left, rest);
    if left == 0 || !adjusted { LimitIsFair(demands, on, total, limit, left, rest); }
  }

  /** The loop over the passes. The limit is the least threshold that is balanced, the peers whose
      demand lies below it are marked, and the bandwidth never runs below what they need. */
  method ShareIncoming(peers: seq<PeerNet>, now: uint32, connected: nat, incoming: uint32,
                       ghost on: seq<bool>, ghost demands: seq<nat>, ghost stale: seq<bool>) returns (limit: nat)
    requires Distinct(peers) && Asking(peers, on, demands, stale) && connected == ConnectedCount(on) > 0 && incoming > 0
    requires forall i :: 0 <= i < |peers| && on[i] && stale[i] ==> demands[i] > incoming
    requires IncomingMarks(peers, on, stale, Fresh(on), now)
    modifies peers`incomingEpoch
    ensures IncomingMarks(peers, on, stale, Granted(demands, on, limit), now)
    ensures FairLimit(demands, on, incoming, limit)
  {
    NoPass(demands, on, incoming);
    var remaining, bandwidth, adjusted := connected, incoming as nat, true;
    ghost var p: int := -1;
    limit := 0;
    while remaining > 0 && adjusted
      invariant Passed(demands, on, incoming, p, remaining, bandwidth)
      invariant IncomingMarks(peers, on, stale, Granted(demands, on, p), now)
      invariant if p == -1 then remaining > 0 && adjusted else p == limit
      invariant remaining == 0 || !adjusted ==> FairLimit(demands, on, incoming, limit)
      decreases remaining, adjusted
    {
      limit, remaining, bandwidth, adjusted := NextPass(peers, now, remaining, bandwidth, on, demands, stale, incoming, p);
      p := limit;
    }
  }

  // --- the outgoing scale ---

  function Min(a: nat, b: nat): nat {
    if a < b then a else b
  }

  function Scale(bandwidth: nat, total: nat): (t: nat)
    ensures t <= SCALE
  {
    if total <= bandwidth then SCALE
    else
      ScaleIsSmall(bandwidth, total);
      bandwidth * SCALE / total
  }

  lemma ScaleIsSmall(bandwidth: nat, total: nat)
    requires total > bandwidth
    ensures bandwidth * SCALE / total <= SCALE
  {
  }

  /** The bandwidth covers the scaled data of all who are counted in the total. */
  lemma ScaleCovers(bandwidth: nat, total: nat, data: nat)
    requires data <= total
    ensures SCALE * bandwidth >= Scale(bandwidth, total) * data
  {
  }

  /** `scale` is the largest, up to the full scale, at which the scaled `whole` fits the `room`. */
  predicate LargestFit(scale: int, whole: int, room: int) {
    && 0 <= scale <= SCALE
    && scale * whole <= SCALE * room
    && (scale == SCALE || (scale + 1) * whole > SCALE * room)
  }

  lemma ScaleIsLargest(bandwidth: nat, total: nat)
    ensures LargestFit(Scale(bandwidth, total), total, bandwidth)
  {
    if total > bandwidth { QuotientFits(bandwidth * SCALE, total); }
  }

  /** The snapshot of the connected peers, of their data and of what they can take. */
  ghost predicate Measured(peers: seq<PeerNet>, totals: seq<uint32>, seconds: nat, on: seq<bool>, data: seq<nat>, caps: seq<nat>)
    reads peers`state, peers`incomingBandwidth
  {
    && |on| == |data| == |caps| == |totals| == |peers|
    && (forall i :: 0 <= i < |peers| ==> on[i] == Counted(peers[i].state))
    && (forall i :: 0 <= i < |peers| ==> data[i] == if on[i] then totals[i] else 0)
    && (forall i :: 0 <= i < |peers| ==> caps[i] == if on[i] then peers[i].incomingBandwidth * seconds else 0)
  }

  /** The peer was held to what it can take: its limit lets through no more, or is the least one. */
  predicate HeldTo(limit: nat, throttle: nat, data: nat, cap: nat) {
    && throttle <= limit <= SCALE
    && (limit * data / SCALE <= cap || limit == 1)
  }

  /** The limit of a peer that can take `cap` of its `data`. */
  function OwnLimit(data: nat, cap: nat): (l: nat)
    requires data > cap
    ensures 1 <= l <= SCALE
  {
    ScaleIsSmall(cap, data);
    if cap * SCALE / data == 0 then 1 else cap * SCALE / data
  }

  /** The limit of a peer that is held: the largest at which its data fits what it can take, or 1 when
      not even that fits. */
  predicate OwnFit(limit: nat, data: nat, cap: nat) {
    if data <= SCALE * cap then LargestFit(limit, data, cap) else limit == 1
  }

  lemma OwnLimitHolds(data: nat, cap: nat)
    requires data > cap
    ensures OwnFit(OwnLimit(data, cap), data, cap)
  {
    var a, l := cap * SCALE, OwnLimit(data, cap);
    QuotientFits(a, data);
    if data <= a { QuotientAbove(a, data, 1); } else { QuotientBelow(a, data, 0); }
  }

  lemma OwnFitHolds(limit: nat, data: nat, cap: nat)
    requires data > cap && OwnFit(limit, data, cap)
    ensures 1 <= limit <= SCALE && (limit * data / SCALE <= cap || limit == 1)
  {
  }

  ghost predicate OutgoingMarks(peers: seq<PeerNet>, stale: seq<bool>, marks: seq<bool>, now: uint32)
    requires |peers| == |stale| == |marks|
    reads peers`state, peers`incomingBandwidth, peers`outgoingEpoch
  {
    forall i :: 0 <= i < |peers| ==>
      && (marks[i] ==> Counted(peers[i].state) && peers[i].incomingBandwidth > 0 && !stale[i])
      && (Counted(peers[i].state) ==> (peers[i].outgoingEpoch == now <==> marks[i] || stale[i]))
  }

  /** The marked peers are held to what they can take, and their throttle is cut down to that from what
      it `was`; the others still have it. */
  ghost predicate Held(peers: seq<PeerNet>, marks: seq<bool>, data: seq<nat>, caps: seq<nat>, was: seq<nat>)
    requires |peers| == |marks| == |data| == |caps| == |was|
    reads peers`throttle, peers`throttleLimit
  {
    forall i :: 0 <= i < |peers| ==>
      if marks[i] then
        && data[i] > caps[i]
        && OwnFit(peers[i].throttleLimit, data[i], caps[i])
        && peers[i].throttle == Min(was[i], peers[i].throttleLimit)
      else peers[i].throttle == was[i]
  }

  /** The peers that are not marked need no limit of their own at this scale. */
  ghost predicate Unheld(peers: seq<PeerNet>, stale: seq<bool>, marks: seq<bool>, data: seq<nat>, caps: seq<nat>,
                         upTo: nat, scale: nat)
    requires |peers| == |stale| == |marks| == |data| == |caps| && upTo <= |peers|
    reads peers`state, peers`incomingBandwidth
  {
    forall i :: 0 <= i < upTo && Counted(peers[i].state) && !marks[i] && !stale[i] && peers[i].incomingBandwidth > 0 ==>
      scale * data[i] / SCALE <= caps[i]
  }

  /** The accounts of the outgoing loop. */
  ghost predicate Accounts(marks: seq<bool>, on: seq<bool>, data: seq<nat>, caps: seq<nat>,
                           bandwidth: int, total: int, remaining: nat, bandwidth0: nat, total0: nat)
    requires |marks| == |on| == |data| == |caps|
  {
    && remaining == Picked(Ones(on), marks, false)
    && bandwidth == bandwidth0 - Picked(caps, marks, true) >= 0
    && total == total0 - Picked(caps, marks, true)
    && total >= Picked(data, marks, false)
  }

  /** Marking one more peer: nothing underflows and the total still covers the rest. */
  lemma HoldOne(marks: seq<bool>, on: seq<bool>, data: seq<nat>, caps: seq<nat>, i: nat, scale: nat,
                bandwidth: int, total: int, remaining: nat, bandwidth0: nat, total0: nat)
    requires |marks| == |on| == |data| == |caps| && i < |marks| && on[i] && !marks[i]
    requires Accounts(marks, on, data, caps, bandwidth, total, remaining, bandwidth0, total0)
    requires scale <= SCALE && scale * data[i] / SCALE > caps[i]
    requires SCALE * bandwidth >= Times(scale, Picked(data, marks, false))
    ensures remaining > 0 && bandwidth >= caps[i] && total >= caps[i] && data[i] > caps[i]
    ensures Accounts(marks[i := true], on, data, caps, bandwidth - caps[i], total - caps[i], remaining - 1, bandwidth0, total0)
    ensures SCALE * (bandwidth - caps[i]) >= Times(scale, Picked(data, marks[i := true], false))
  {
    PickOne(Ones(on), marks, i);
    PickOne(data, marks, i);
    PickOne(caps, marks, i);
    RoomForOne(scale, Picked(data, marks[i := true], false), data[i], caps[i], bandwidth);
  }

  lemma RoomForOne(scale: nat, others: nat, data: nat, cap: nat, bandwidth: int)
    requires scale <= SCALE && scale * data / SCALE > cap && SCALE * bandwidth >= Times(scale, others + data)
    ensures data > cap && bandwidth >= cap && SCALE * (bandwidth - cap) >= Times(scale, others)
  {
    TimesIsProduct(scale, others);
    TimesIsProduct(scale, others + data);
    assert scale * (others + data) == scale * others + scale * data;
    assert scale * others >= 0;
    assert scale * data > SCALE * cap;
    TimesMonotone(data, scale, SCALE);
  }

  /** No product with this scale leaves 32 bits. */
  ghost predicate Narrow(data: seq<nat>, caps: seq<nat>) {
    && (forall i :: 0 <= i < |data| ==> SCALE * data[i] < 0x1_0000_0000)
    && (forall i :: 0 <= i < |caps| ==> SCALE * caps[i] < 0x1_0000_0000)
  }

  lemma ProductIsNarrow(a: nat, b: nat)
    requires a * b < 0x1_0000_0000
    ensures Mul32(a, b) == a * b
  {
  }

  lemma ScaledIsNarrow(scale: nat, data: nat)
    requires scale <= SCALE && SCALE * data < 0x1_0000_0000
    ensures Mul32(scale, data) == scale * data <= SCALE * data
  {
    TimesMonotone(data, scale, SCALE);
    ProductIsNarrow(scale, data);
  }

  /** Holding one peer to what it can take. */
  method Hold(net: PeerNet, data: uint32, cap: uint32, now: uint32)
    requires data > cap && cap * SCALE < 0x1_0000_0000
    modifies net`outgoingEpoch, net`throttle, net`throttleLimit
    ensures net.outgoingEpoch == now && OwnFit(net.throttleLimit, data, cap)
    ensures net.throttle == Min(old(net.throttle), net.throttleLimit)
  {
    ProductIsNarrow(cap, SCALE);
    OwnLimitHolds(data, cap);
    net.throttleLimit := Mul32(cap, SCALE) / data;
    if net.throttleLimit == 0 { net.throttleLimit := 1; }
    if net.throttle > net.throttleLimit { net.throttle := net.throttleLimit; }
    net.outgoingEpoch := now;
  }

  /** The test for one peer: is its scaled data more than it can take? Then it is held to that. */
  method HoldIfSlow(net: PeerNet, data: uint32, now: uint32, seconds: nat, scale: nat, ghost room: nat)
    returns (held: bool, cap: uint32)
    requires scale <= SCALE
    requires Counted(net.state) ==>
               room == net.incomingBandwidth * seconds && SCALE * data < 0x1_0000_0000 && SCALE * room < 0x1_0000_0000
    modifies net`outgoingEpoch, net`throttle, net`throttleLimit
    ensures held <==> && Counted(net.state) && net.incomingBandwidth > 0 && old(net.outgoingEpoch) != now
                      && scale * data / SCALE > room
    ensures held ==> cap == room && net.outgoingEpoch == now
    ensures held ==> data > room && OwnFit(net.throttleLimit, data, room)
    ensures held ==> net.throttle == Min(old(net.throttle), net.throttleLimit)
    ensures !held ==> unchanged(net)
  {
    held, cap := false, 0;
    if !Counted(net.state) || net.incomingBandwidth == 0 || net.outgoingEpoch == now { return; }
    ProductIsNarrow(net.incomingBandwidth, seconds);
    cap := Mul32(net.incomingBandwidth, seconds);
    ScaledIsNarrow(scale, data);
    if Mul32(scale, data) / SCALE > cap {
      assert data > cap;
      Hold(net, data, cap, now);
      held := true;
    }
  }

  /** One turn of a pass: the peer at `i` is held, or needs no limit of its own at this scale. */
  method HoldTurn(peers: seq<PeerNet>, totals: seq<uint32>, now: uint32, seconds: nat, scale: nat, i: nat,
                  ghost on: seq<bool>, ghost data: seq<nat>, ghost caps: seq<nat>, ghost stale: seq<bool>, ghost was: seq<nat>,
                  ghost marks: seq<bool>)
    returns (held: bool, cap: uint32)
    requires Distinct(peers) && i < |peers| == |stale| == |was| == |marks| && scale <= SCALE
    requires Measured(peers, totals, seconds, on, data, caps) && Narrow(data, caps)
    requires OutgoingMarks(peers, stale, marks, now) && Held(peers, marks, data, caps, was)
    requires Unheld(peers, stale, marks, data, caps, i, scale)
    modifies peers`outgoingEpoch, peers`throttle, peers`throttleLimit
    ensures held ==> on[i] && !marks[i] && cap == caps[i] && scale * data[i] / SCALE > caps[i]
    ensures var after := if held then marks[i := true] else marks;
            && OutgoingMarks(peers, stale, after, now) && Held(peers, after, data, caps, was)
            && Unheld(peers, stale, after, data, caps, i + 1, scale)
    ensures forall i :: 0 <= i < |peers| && (!Counted(peers[i].state) || stale[i]) ==>
              peers[i].throttleLimit == old(peers[i].throttleLimit)
  {
    assert forall j :: 0 <= j < |peers| && j != i ==> peers[j] != peers[i];
    held, cap := HoldIfSlow(peers[i], totals[i], now, seconds, scale, caps[i]);
  }

  /** One pass over the peers at the given scale. */
  method HoldPass(peers: seq<PeerNet>, totals: seq<uint32>, now: uint32, seconds: nat, scale: nat,
                  remaining: nat, bandwidth: nat, total: nat, ghost on: seq<bool>, ghost data: seq<nat>, ghost caps: seq<nat>,
                  ghost stale: seq<bool>, ghost was: seq<nat>, ghost marks: seq<bool>, ghost bandwidth0: nat, ghost total0: nat)
    returns (left: nat, rest: nat, restTotal: nat, adjusted: bool, ghost after: seq<bool>)
    requires Distinct(peers) && |peers| == |stale| == |was| == |marks| && scale <= SCALE
    requires Measured(peers, totals, seconds, on, data, caps) && Narrow(data, caps)
    requires OutgoingMarks(peers, stale, marks, now) && Held(peers, marks, data, caps, was)
    requires Accounts(marks, on, data, caps, bandwidth, total, remaining, bandwidth0, total0)
    requires SCALE * bandwidth >= Times(scale, Picked(data, marks, false))
    modifies peers`outgoingEpoch, peers`throttle, peers`throttleLimit
    ensures |after| == |peers| && OutgoingMarks(peers, stale, after, now) && Held(peers, after, data, caps, was)
    ensures Accounts(after, on, data, caps, rest, restTotal, left, bandwidth0, total0)
    ensures if adjusted then left < remaining
            else after == marks && left == remaining && rest == bandwidth && restTotal == total
    ensures !adjusted ==> Unheld(peers, stale, after, data, caps, |peers|, scale)
    ensures forall i :: 0 <= i < |peers| && (!Counted(peers[i].state) || stale[i]) ==>
              peers[i].throttleLimit == old(peers[i].throttleLimit)
  {
    left, rest, restTotal, adjusted, after := remaining, bandwidth, total, false, marks;
    var i := 0;
    while i < |peers|
      invariant i <= |peers| && |after| == |peers|
      invariant OutgoingMarks(peers, stale, after, now) && Held(peers, after, data, caps, was)
      invariant Accounts(after, on, data, caps, rest, restTotal, left, bandwidth0, total0)
      invariant SCALE * rest >= Times(scale, Picked(data, after, false))
      invariant if adjusted then left < remaining
                else after == marks && left == remaining && rest == bandwidth && restTotal == total
      invariant Unheld(peers, stale, after, data, caps, i, scale)
      invariant forall j :: 0 <= j < |peers| && (!Counted(peers[j].state) || stale[j]) ==>
                  peers[j].throttleLimit == old(peers[j].throttleLimit)
    {
      var held, cap := HoldTurn(peers, totals, now, seconds, scale, i, on, data, caps, stale, was, after);
      if held {
        HoldOne(after, on, data, caps, i, scale, rest, restTotal, left, bandwidth0, total0);
        adjusted := true;
        left := left - 1;
        rest := rest - cap;
        restTotal := restTotal - cap;
        after := after[i := true];
      }
      i := i + 1;
    }
  }

  lemma ScaleIsNarrow(bandwidth: nat, total: nat)
    requires total > bandwidth && SCALE * bandwidth < 0x1_0000_0000
    ensures Mul32(bandwidth, SCALE) / total == Scale(bandwidth, total)
  {
  }

  lemma NoMarks(on: seq<bool>, data: seq<nat>, caps: seq<nat>, bandwidth: nat, total: nat)
    requires |on| == |data| == |caps| && total >= Picked(data, Fresh(on), false)
    ensures Accounts(Fresh(on), on, data, caps, bandwidth, total, ConnectedCount(on), bandwidth, total)
  {
    PickNone(caps, Fresh(on));
  }

  /** The scale at which the data in hand fit the bandwidth in hand. */
  method ScaleFor(bandwidth: nat, total: nat) returns (scale: nat)
    requires total <= bandwidth || SCALE * bandwidth < 0x1_0000_0000
    ensures scale == Scale(bandwidth, total)
  {
    scale := SCALE;
    if total > bandwidth {
      ScaleIsNarrow(bandwidth, total);
      scale := Mul32(bandwidth, SCALE) / total;
    }
  }

  /** The loop over the passes: it stops when no peer is left or none has to be held any more. */
  method HoldSlowPeers(peers: seq<PeerNet>, totals: seq<uint32>, now: uint32, seconds: nat, connected: nat, limited: bool,
                       bandwidth0: nat, total0: nat, ghost on: seq<bool>, ghost data: seq<nat>, ghost caps: seq<nat>,
                       ghost stale: seq<bool>, ghost was: seq<nat>)
    returns (remaining: nat, bandwidth: nat, total: nat, ghost marks: seq<bool>)
    requires |was| == |peers| && forall i :: 0 <= i < |peers| ==> peers[i].throttle == was[i]
    requires |stale| == |peers| && Distinct(peers) && Measured(peers, totals, seconds, on, data, caps) && Narrow(data, caps)
    requires OutgoingMarks(peers, stale, Fresh(on), now) && connected == ConnectedCount(on) && total0 >= Picked(data, Fresh(on), false)
    requires total0 <= bandwidth0 || SCALE * bandwidth0 < 0x1_0000_0000
    requires !limited ==> forall i :: 0 <= i < |peers| && on[i] ==> peers[i].incomingBandwidth == 0
    modifies peers`outgoingEpoch, peers`throttle, peers`throttleLimit
    ensures |marks| == |peers| && OutgoingMarks(peers, stale, marks, now) && Held(peers, marks, data, caps, was)
    ensures Accounts(marks, on, data, caps, bandwidth, total, remaining, bandwidth0, total0)
    ensures remaining > 0 ==> Unheld(peers, stale, marks, data, caps, |peers|, Scale(bandwidth, total))
    ensures forall i :: 0 <= i < |peers| && (!Counted(peers[i].state) || stale[i]) ==>
              peers[i].throttleLimit == old(peers[i].throttleLimit)
  {
    var adjusted := limited;
    remaining, bandwidth, total, marks := connected, bandwidth0, total0, Fresh(on);
    NoMarks(on, data, caps, bandwidth0, total0);
    while remaining > 0 && adjusted
      invariant |marks| == |peers| && OutgoingMarks(peers, stale, marks, now) && Held(peers, marks, data, caps, was)
      invariant Accounts(marks, on, data, caps, bandwidth, total, remaining, bandwidth0, total0)
      invariant forall i :: 0 <= i < |peers| && (!Counted(peers[i].state) || stale[i]) ==>
                  peers[i].throttleLimit == old(peers[i].throttleLimit)
      invariant adjusted || Unheld(peers, stale, marks, data, caps, |peers|, Scale(bandwidth, total))
      decreases remaining, adjusted
    {
      var scale := ScaleFor(bandwidth, total);
      ScaleCovers(bandwidth, total, Picked(data, marks, false));
      TimesIsProduct(scale, Picked(data, marks, false));
      remaining, bandwidth, total, adjusted, marks :=
        HoldPass(peers, totals, now, seconds, scale, remaining, bandwidth, total, on, data, caps, stale, was, marks, bandwidth0, total0);
    }
  }

  /** The peers that were not held all get the same scale. */
  method ScaleOthers(peers: seq<PeerNet>, now: uint32, scale: nat)
    requires Distinct(peers)
    modifies peers`throttle, peers`throttleLimit
    ensures forall i :: 0 <= i < |peers| ==>
              if Counted(peers[i].state) && peers[i].outgoingEpoch != now
              then peers[i].throttleLimit == scale && peers[i].throttle == Min(old(peers[i].throttle), scale)
              else peers[i].throttleLimit == old(peers[i].throttleLimit) && peers[i].throttle == old(peers[i].throttle)
  {
    for i := 0 to |peers|
      invariant forall j :: 0 <= j < |peers| ==>
                  if j < i && Counted(peers[j].state) && peers[j].outgoingEpoch != now
                  then peers[j].throttleLimit == scale && peers[j].throttle == Min(old(peers[j].throttle), scale)
                  else peers[j].throttleLimit == old(peers[j].throttleLimit) && peers[j].throttle == old(peers[j].throttle)
    {
      var net := peers[i];
      if Counted(net.state) && net.outgoingEpoch != now {
        net.throttleLimit := scale;
        if net.throttle > net.throttleLimit { net.throttle := net.throttleLimit; }
      }
    }
  }

  /** Every connected peer that is not passed over has a throttle within its limit, and the data of a limited
      peer, scaled by the limit, is what the peer can take, unless the limit is the least one. */
  ghost predicate WellScaled(peers: seq<PeerNet>, stale: seq<bool>, data: seq<nat>, caps: seq<nat>)
    requires |stale| == |data| == |caps| == |peers|
    reads peers`state, peers`incomingBandwidth, peers`throttle, peers`throttleLimit
  {
    forall i :: 0 <= i < |peers| && Counted(peers[i].state) && !stale[i] ==>
      && peers[i].throttle <= peers[i].throttleLimit <= SCALE
      && (peers[i].incomingBandwidth > 0 ==> HeldTo(peers[i].throttleLimit, peers[i].throttle, data[i], caps[i]))
  }

  /** The peers that were held take what they can, the others their data at one scale; together that
      is no more than the host may send. */
  ghost predicate WithinBudget(peers: seq<PeerNet>, stale: seq<bool>, marks: seq<bool>, on: seq<bool>, data: seq<nat>,
                               caps: seq<nat>, scale: nat, budget: nat)
    requires |stale| == |marks| == |on| == |data| == |caps| == |peers|
    reads peers`throttleLimit
  {
    && (forall i :: 0 <= i < |peers| && on[i] && !marks[i] && !stale[i] ==> peers[i].throttleLimit == scale)
    && SCALE * Picked(caps, marks, true) + scale * Picked(data, marks, false) <= SCALE * budget
  }

  /** The peers that are held, and only peers that cannot take their data are, have the largest limit of
      their own that fits. */
  ghost predicate HeldFit(peers: seq<PeerNet>, marks: seq<bool>, data: seq<nat>, caps: seq<nat>)
    requires |peers| == |marks| == |data| == |caps|
    reads peers`throttleLimit
  {
    forall i :: 0 <= i < |peers| && marks[i] ==> data[i] > caps[i] && OwnFit(peers[i].throttleLimit, data[i], caps[i])
  }

  /** When some connected peer is not held, the common scale is the largest at which what is left of the
      data fits what is left of the budget. */
  ghost predicate LargestScale(marks: seq<bool>, on: seq<bool>, caps: seq<nat>, scale: nat, total: nat, budget: nat)
    requires |marks| == |on| == |caps|
  {
    (exists i :: 0 <= i < |on| && on[i] && !marks[i]) ==>
      LargestFit(scale, total - Picked(caps, marks, true), budget - Picked(caps, marks, true))
  }

  lemma ScaleSettles(marks: seq<bool>, on: seq<bool>, data: seq<nat>, caps: seq<nat>, bandwidth: nat, total: nat,
                     remaining: nat, bandwidth0: nat, total0: nat)
    requires |marks| == |on| == |data| == |caps|
    requires Accounts(marks, on, data, caps, bandwidth, total, remaining, bandwidth0, total0)
    ensures SCALE * Picked(caps, marks, true) + Scale(bandwidth, total) * Picked(data, marks, false) <= SCALE * bandwidth0
    ensures LargestScale(marks, on, caps, Scale(bandwidth, total), total0, bandwidth0)
    ensures total0 <= bandwidth0 ==> Scale(bandwidth, total) == SCALE
  {
    ScaleCovers(bandwidth, total, Picked(data, marks, false));
    ScaleIsLargest(bandwidth, total);
  }

  lemma NobodyIsLeft(on: seq<bool>, marks: seq<bool>)
    requires |on| == |marks| && Picked(Ones(on), marks, false) == 0
    ensures forall i :: 0 <= i < |on| && on[i] ==> marks[i]
  {
    forall i | 0 <= i < |on| && on[i]
      ensures marks[i]
    {
      PickedIsPositive(Ones(on), marks, i);
    }
  }

  /** What the peers have after `ScaleOthers`, given what they had before. */
  ghost predicate Rescaled(peers: seq<PeerNet>, stale: seq<bool>, marks: seq<bool>, on: seq<bool>, was: seq<nat>, scale: nat)
    requires |peers| == |stale| == |marks| == |on| == |was|
    reads peers`throttle, peers`throttleLimit
  {
    forall i :: 0 <= i < |peers| ==>
      && (on[i] && !marks[i] && !stale[i] ==> peers[i].throttleLimit == scale)
      && peers[i].throttle == if on[i] && !stale[i] then Min(was[i], peers[i].throttleLimit) else was[i]
  }

  lemma SettledIsWell(peers: seq<PeerNet>, totals: seq<uint32>, now: uint32, seconds: nat, on: seq<bool>, data: seq<nat>,
                      caps: seq<nat>, stale: seq<bool>, was: seq<nat>, marks: seq<bool>, scale: nat)
    requires |peers| == |stale| == |was| == |marks| && scale <= SCALE
    requires Measured(peers, totals, seconds, on, data, caps) && OutgoingMarks(peers, stale, marks, now)
    requires Rescaled(peers, stale, marks, on, was, scale) && HeldFit(peers, marks, data, caps)
    requires Unheld(peers, stale, marks, data, caps, |peers|, scale)
    ensures WellScaled(peers, stale, data, caps)
  {
    forall i | 0 <= i < |peers| && marks[i]
      ensures 1 <= peers[i].throttleLimit <= SCALE
      ensures peers[i].throttleLimit * data[i] / SCALE <= caps[i] || peers[i].throttleLimit == 1
    {
      OwnFitHolds(peers[i].throttleLimit, data[i], caps[i]);
    }
  }

  /** The scale of the peers that were not held. */
  method ScaleRest(peers: seq<PeerNet>, now: uint32, remaining: nat, bandwidth: nat, total: nat,
                   bandwidth0: nat, total0: nat, ghost on: seq<bool>, ghost data: seq<nat>, ghost caps: seq<nat>,
                   ghost stale: seq<bool>, ghost was: seq<nat>, ghost marks: seq<bool>)
    returns (scale: nat)
    requires |peers| == |on| == |data| == |caps| == |stale| == |was| == |marks| && Distinct(peers)
    requires forall i :: 0 <= i < |peers| ==> on[i] == Counted(peers[i].state)
    requires OutgoingMarks(peers, stale, marks, now) && Held(peers, marks, data, caps, was)
    requires Accounts(marks, on, data, caps, bandwidth, total, remaining, bandwidth0, total0)
    requires total0 <= bandwidth0 || SCALE * bandwidth0 < 0x1_0000_0000
    modifies peers`throttle, peers`throttleLimit
    ensures Rescaled(peers, stale, marks, on, was, scale) && HeldFit(peers, marks, data, caps)
    ensures remaining > 0 ==> scale == Scale(bandwidth, total)
    ensures remaining == 0 ==> scale == 0 && forall i :: 0 <= i < |peers| && on[i] ==> marks[i]
    ensures forall i :: 0 <= i < |peers| && (!on[i] || stale[i]) ==> peers[i].throttleLimit == old(peers[i].throttleLimit)
  {
    scale := 0;
    if remaining > 0 {
      scale := ScaleFor(bandwidth, total);
      ScaleOthers(peers, now, scale);
    } else {
      NobodyIsLeft(on, marks);
    }
  }

  /** The first half: who is held to what it can take, and the scale of the others. */
  method ScaleOutgoing(peers: seq<PeerNet>, totals: seq<uint32>, now: uint32, seconds: nat, connected: nat, limited: bool,
                       bandwidth0: nat, total0: nat, ghost on: seq<bool>, ghost data: seq<nat>, ghost caps: seq<nat>,
                       ghost stale: seq<bool>)
    returns (scale: nat, ghost marks: seq<bool>)
    requires |stale| == |peers| && Distinct(peers) && Measured(peers, totals, seconds, on, data, caps) && Narrow(data, caps)
    requires OutgoingMarks(peers, stale, Fresh(on), now) && connected == ConnectedCount(on) && total0 >= Picked(data, Fresh(on), false)
    requires total0 <= bandwidth0 || SCALE * bandwidth0 < 0x1_0000_0000
    requires !limited ==> forall i :: 0 <= i < |peers| && on[i] ==> peers[i].incomingBandwidth == 0
    modifies peers`outgoingEpoch, peers`throttle, peers`throttleLimit
    ensures |marks| == |peers| && scale <= SCALE && OutgoingMarks(peers, stale, marks, now) && HeldFit(peers, marks, data, caps)
    ensures WellScaled(peers, stale, data, caps)
    ensures WithinBudget(peers, stale, marks, on, data, caps, scale, bandwidth0)
    ensures LargestScale(marks, on, caps, scale, total0, bandwidth0)
    ensures total0 <= bandwidth0 ==> scale == SCALE || forall i :: 0 <= i < |peers| && on[i] ==> marks[i]
    ensures forall i :: 0 <= i < |peers| && (!on[i] || stale[i]) ==> peers[i].throttleLimit == old(peers[i].throttleLimit)
    ensures forall i :: 0 <= i < |peers| ==>
              peers[i].throttle == if on[i] && !stale[i] then Min(old(peers[i].throttle), peers[i].throttleLimit)
                                   else old(peers[i].throttle)
  {
    var remaining, bandwidth, total;
    ghost var was := seq(|peers|, i requires 0 <= i < |peers| reads peers => peers[i].throttle);
    remaining, bandwidth, total, marks :=
      HoldSlowPeers(peers, totals, now, seconds, connected, limited, bandwidth0, total0, on, data, caps, stale, was);
    scale := ScaleRest(peers, now, remaining, bandwidth, total, bandwidth0, total0, on, data, caps, stale, was, marks);
    ScaleSettles(marks, on, data, caps, bandwidth, total, remaining, bandwidth0, total0);
    SettledIsWell(peers, totals, now, seconds, on, data, caps, stale, was, marks, scale);
  }

  /** What a BANDWIDTH_LIMIT command tells a peer. */
  datatype Notice = Notice(incoming: nat, outgoing: nat)

  /** What each peer is told: a peer that bears the mark beforehand its own demand, the others their share. */
  function ToldShare(demands: seq<nat>, on: seq<bool>, stale: seq<bool>, incoming: nat, limit: nat): (x: seq<nat>)
    requires |demands| == |on| == |stale|
    ensures |x| == |on|
  {
    var share := Share(Asked(demands, on, stale, incoming + 1), on, limit);
    seq(|on|, i requires 0 <= i < |on| =>
      if on[i] && stale[i] then demands[i] else if incoming == 0 then 0 else share[i])
  }

  /** The host's share of its incoming bandwidth, and the commands that tell the peers. */
  ghost predicate AllTold(on: seq<bool>, stale: seq<bool>, demands: seq<nat>, incoming: uint32, outgoing: uint32,
                          limit: nat, told: map<nat, Notice>)
    requires |on| == |stale| == |demands|
  {
    && (forall i: nat :: i in told <==> i < |on| && on[i])
    && (forall i :: i in told ==> told[i] == Notice(ToldShare(demands, on, stale, incoming, limit)[i], outgoing))
    && (incoming > 0 ==> FairLimit(Asked(demands, on, stale, incoming + 1), on, incoming, limit))
  }

  /** One command for every connected peer. */
  method Tell(peers: seq<PeerNet>, now: uint32, limit: nat, outgoing: uint32, ghost on: seq<bool>, ghost shares: seq<nat>)
    returns (told: map<nat, Notice>)
    requires |on| == |shares| == |peers|
    requires forall i :: 0 <= i < |peers| ==> on[i] == Counted(peers[i].state)
    requires forall i :: 0 <= i < |peers| && on[i] ==>
               shares[i] == if peers[i].incomingEpoch == now then peers[i].outgoingBandwidth else limit
    ensures forall i: nat :: i in told <==> i < |peers| && on[i]
    ensures forall i :: i in told ==> told[i] == Notice(shares[i], outgoing)
  {
    told := map[];
    var i := 0;
    while i < |peers|
      invariant i <= |peers|
      invariant forall j: nat :: j in told <==> j < i && on[j]
      invariant forall j :: j in told ==> told[j] == Notice(shares[j], outgoing)
    {
      var net := peers[i];
      if Counted(net.state) {
        told := told[i := Notice(if net.incomingEpoch == now then net.outgoingBandwidth else limit, outgoing)];
      }
      i := i + 1;
    }
  }

  /** The second half: the incoming limit and the commands that tell the peers. */
  method TellPeers(peers: seq<PeerNet>, now: uint32, connected: nat, incoming: uint32, outgoing: uint32,
                   ghost on: seq<bool>, ghost demands: seq<nat>, ghost stale: seq<bool>)
    returns (limit: nat, told: map<nat, Notice>)
    requires Distinct(peers) && Observed(peers, on, demands) && connected == ConnectedCount(on) > 0
    requires |stale| == |peers| && IncomingMarks(peers, on, stale, Fresh(on), now)
    modifies peers`incomingEpoch
    ensures AllTold(on, stale, demands, incoming, outgoing, limit, told)
  {
    limit := 0;
    if incoming != 0 {
      limit := ShareIncoming(peers, now, connected, incoming, on, Asked(demands, on, stale, incoming + 1), stale);
    }
    told := Tell(peers, now, limit, outgoing, on, ToldShare(demands, on, stale, incoming, limit));
  }

  // --- marks of this moment that were there before ---

  /** When no connected peer bears the mark beforehand, all are told their fair share. */
  lemma NoneStaleIsFair(demands: seq<nat>, on: seq<bool>, stale: seq<bool>, incoming: nat, limit: nat)
    requires |demands| == |on| == |stale| && incoming > 0 && forall i :: 0 <= i < |on| && on[i] ==> !stale[i]
    ensures Asked(demands, on, stale, incoming + 1) == demands
    ensures ToldShare(demands, on, stale, incoming, limit) == Share(demands, on, limit)
  {
    assert Asked(demands, on, stale, incoming + 1) == demands;
  }

  /** Whatever the peers ask for, what they are told stays within the bandwidth. */
  ghost predicate AlwaysFits(on: seq<bool>, stale: seq<bool>, incoming: nat)
    requires |on| == |stale|
  {
    forall demands: seq<nat>, limit: nat {:trigger ToldShare(demands, on, stale, incoming, limit)} ::
      |demands| == |on| && FairLimit(Asked(demands, on, stale, incoming + 1), on, incoming, limit) ==>
        Picked(ToldShare(demands, on, stale, incoming, limit), on, true) <= incoming
  }

  function Greedy(on: seq<bool>, incoming: nat): (demands: seq<nat>)
    ensures |demands| == |on|
  {
    seq(|on|, _ => incoming + 1)
  }

  lemma GreedyGetsNothing(on: seq<bool>, incoming: nat, t: nat)
    requires t <= incoming
    ensures Granted(Greedy(on, incoming), on, t) == Fresh(on)
    ensures Spent(Greedy(on, incoming), on, t) == 0 && Left(Greedy(on, incoming), on, t) == ConnectedCount(on)
  {
    assert Granted(Greedy(on, incoming), on, t) == Fresh(on);
    PickNone(Greedy(on, incoming), Fresh(on));
  }

  lemma ShareIsSmall(incoming: nat, n: nat)
    requires n > 0
    ensures incoming / n <= incoming && Times(incoming / n, n) <= incoming
  {
    ThresholdFits(incoming, n, incoming / n);
    QuotientBelow(incoming, n, incoming);
  }

  lemma GreedyShareEqually(on: seq<bool>, incoming: nat)
    requires ConnectedCount(on) > 0
    ensures FairLimit(Greedy(on, incoming), on, incoming, incoming / ConnectedCount(on))
  {
    var demands, n := Greedy(on, incoming), ConnectedCount(on);
    ShareIsSmall(incoming, n);
    GreedyGetsNothing(on, incoming, incoming / n);
    ShareTotal(demands, on, incoming / n);
    forall t | Balanced(demands, on, incoming, t)
      ensures incoming / n <= t
    {
      if t <= incoming { GreedyGetsNothing(on, incoming, t); }
    }
  }

  lemma StaleTakesMore(on: seq<bool>, stale: seq<bool>, incoming: nat, i: nat)
    requires |on| == |stale| && i < |on| && on[i] && stale[i]
    ensures !AlwaysFits(on, stale, incoming)
  {
    var demands := Greedy(on, incoming);
    PickedIsPositive(Ones(on), Fresh(on), i);
    GreedyShareEqually(on, incoming);
    assert Asked(demands, on, stale, incoming + 1) == demands;
    var limit: nat := incoming / ConnectedCount(on);
    PickedIsPositive(ToldShare(demands, on, stale, incoming, limit), on, i);
  }

  /** What is told stays within the bandwidth for all demands exactly when no connected peer bears the mark
      of this moment before anything is done. */
  lemma ToldFitsIff(on: seq<bool>, stale: seq<bool>, incoming: nat)
    requires |on| == |stale| && incoming > 0
    ensures AlwaysFits(on, stale, incoming) <==> forall i :: 0 <= i < |on| && on[i] ==> !stale[i]
  {
    if i :| 0 <= i < |on| && on[i] && stale[i] {
      StaleTakesMore(on, stale, incoming, i);
    } else {
      forall demands: seq<nat>, limit: nat |
        |demands| == |on| && FairLimit(Asked(demands, on, stale, incoming + 1), on, incoming, limit)
        ensures Picked(ToldShare(demands, on, stale, incoming, limit), on, true) <= incoming
      {
        NoneStaleIsFair(demands, on, stale, incoming, limit);
      }
    }
  }

  lemma {:induction false} UnmarkedData(data: seq<nat>, on: seq<bool>)
    requires |data| == |on| && forall i :: 0 <= i < |on| && !on[i] ==> data[i] == 0
    ensures Picked(data, Fresh(on), false) == Picked(data, on, true)
  {
    if data != [] {
      assert Fresh(on)[1..] == Fresh(on[1..]);
      UnmarkedData(data[1..], on[1..]);
    }
  }

  /** The data of all connected peers, as the summing loop computes it. */
  method TotalData(peers: seq<PeerNet>, totals: seq<uint32>, ghost on: seq<bool>, ghost data: seq<nat>)
    returns (total: uint32)
    requires |on| == |data| == |totals| == |peers| && Picked(data, on, true) < 0x1_0000_0000
    requires forall i :: 0 <= i < |peers| ==> on[i] == Counted(peers[i].state) && (on[i] ==> data[i] == totals[i])
    ensures total == Picked(data, on, true)
  {
    total := 0;
    var i := 0;
    while i < |peers|
      invariant i <= |peers|
      invariant total + Picked(data[i..], on[i..], true) == Picked(data, on, true)
    {
      assert data[i..][1..] == data[i + 1..] && on[i..][1..] == on[i + 1..];
      if Counted(peers[i].state) { total := Add32(total, totals[i]); }
      i := i + 1;
    }
  }

  /** No product of the allocator leaves 32 bits, and the data of all connected peers fits. */
  ghost predicate NoOverflow(on: seq<bool>, data: seq<nat>, caps: seq<nat>, budget: nat)
    requires |on| == |data|
  {
    && SCALE * budget < 0x1_0000_0000
    && Narrow(data, caps)
    && Picked(data, on, true) < 0x1_0000_0000
  }

  /** The allocation itself, once it is due. */
  method Allocate(peers: seq<PeerNet>, totals: seq<uint32>, now: uint32, seconds: nat, connected: nat, limited: bool,
                  outgoing: uint32, ghost on: seq<bool>, ghost data: seq<nat>, ghost caps: seq<nat>, ghost stale: seq<bool>)
    returns (scale: nat, ghost marks: seq<bool>)
    requires |stale| == |peers| && Distinct(peers) && Measured(peers, totals, seconds, on, data, caps)
    requires OutgoingMarks(peers, stale, Fresh(on), now) && connected == ConnectedCount(on)
    requires NoOverflow(on, data, caps, outgoing * seconds)
    requires !limited ==> forall i :: 0 <= i < |peers| && on[i] ==> peers[i].incomingBandwidth == 0
    modifies peers`outgoingEpoch, peers`throttle, peers`throttleLimit
    ensures |marks| == |peers| && OutgoingMarks(peers, stale, marks, now) && HeldFit(peers, marks, data, caps)
    ensures WellScaled(peers, stale, data, caps)
    ensures outgoing > 0 ==> WithinBudget(peers, stale, marks, on, data, caps, scale, outgoing * seconds)
    ensures outgoing > 0 ==> LargestScale(marks, on, caps, scale, Picked(data, on, true), outgoing * seconds)
    ensures outgoing == 0 ==> forall i :: 0 <= i < |peers| && on[i] && !marks[i] && !stale[i] ==> peers[i].throttleLimit == SCALE
    ensures forall i :: 0 <= i < |peers| && (!on[i] || stale[i]) ==> peers[i].throttleLimit == old(peers[i].throttleLimit)
    ensures forall i :: 0 <= i < |peers| ==>
              peers[i].throttle == if on[i] && !stale[i] then Min(old(peers[i].throttle), peers[i].throttleLimit)
                                   else old(peers[i].throttle)
  {
    UnmarkedData(data, on);
    var total, bandwidth := 0xFFFF_FFFF, 0xFFFF_FFFF;
    if outgoing != 0 {
      total := TotalData(peers, totals, on, data);
      ProductIsNarrow(outgoing, seconds);
      bandwidth := Mul32(outgoing, seconds);
    }
    scale, marks := ScaleOutgoing(peers, totals, now, seconds, connected, limited, bandwidth, total, on, data, caps, stale);
  }

  /** The part of `RUdpProtocol` and of its dispatch hub that the allocator uses. */
  class Allocator {
    var epoch: uint32
    var connectedPeers: nat
    var limitedPeers: nat
    var recalculate: bool

    constructor ()
      ensures epoch == 0 && connectedPeers == 0 && limitedPeers == 0 && !recalculate
    {
      epoch, connectedPeers, limitedPeers, recalculate := 0, 0, 0, false;
    }

    /** The counters are exact. */
    ghost predicate Ready(peers: seq<PeerNet>, on: seq<bool>)
      requires |on| == |peers|
      reads this, peers`incomingBandwidth
    {
      && Distinct(peers)
      && connectedPeers == ConnectedCount(on)
      && (limitedPeers == 0 ==> forall i :: 0 <= i < |peers| && on[i] ==> peers[i].incomingBandwidth == 0)
    }

    /** The connected peers that bear the mark of this moment before anything is done. */
    ghost predicate Stale(peers: seq<PeerNet>, now: uint32, on: seq<bool>, staleOut: seq<bool>, staleIn: seq<bool>)
      requires |on| == |peers|
      reads peers`outgoingEpoch, peers`incomingEpoch
    {
      && |staleOut| == |staleIn| == |peers|
      && (forall i :: 0 <= i < |peers| ==> staleOut[i] == (on[i] && peers[i].outgoingEpoch == now))
      && (forall i :: 0 <= i < |peers| ==> staleIn[i] == (on[i] && peers[i].incomingEpoch == now))
    }

    /** Both tests of the time that has passed; only then the epoch moves on. */
    method Due(serviceTime: uint32, now: uint32) returns (due: bool)
      modifies this`epoch
      ensures due <==> TimeDifference(serviceTime, old(epoch)) >= INTERVAL && Sub32(now, old(epoch)) >= INTERVAL
      ensures epoch == if due then now else old(epoch)
    {
      if TimeDifference(serviceTime, epoch) < INTERVAL { return false; }
      if Sub32(now, epoch) < INTERVAL { return false; }
      epoch := now;
      return true;
    }

    /** The incoming half, when a peer has come or gone since the last time. */
    method TellIfAsked(now: uint32, incoming: uint32, outgoing: uint32, peers: seq<PeerNet>,
                       ghost on: seq<bool>, ghost demands: seq<nat>, ghost stale: seq<bool>)
      returns (limit: nat, told: map<nat, Notice>)
      requires Distinct(peers) && Observed(peers, on, demands) && connectedPeers == ConnectedCount(on) > 0
      requires |stale| == |peers| && IncomingMarks(peers, on, stale, Fresh(on), now)
      modifies this`recalculate, peers`incomingEpoch
      ensures !recalculate
      ensures if old(recalculate) then AllTold(on, stale, demands, incoming, outgoing, limit, told) else told == map[]
    {
      limit, told := 0, map[];
      if recalculate {
        recalculate := false;
        limit, told := TellPeers(peers, now, connectedPeers, incoming, outgoing, on, demands, stale);
      }
    }

    /** The allocation, once it is due: the outgoing scale, and, when a peer has come or gone since,
        the incoming limits. */
    method Share(now: uint32, incoming: uint32, outgoing: uint32, peers: seq<PeerNet>, totals: seq<uint32>, seconds: nat,
                 ghost on: seq<bool>, ghost demands: seq<nat>, ghost data: seq<nat>, ghost caps: seq<nat>,
                 ghost staleOut: seq<bool>, ghost staleIn: seq<bool>)
      returns (scale: nat, ghost marks: seq<bool>, limit: nat, told: map<nat, Notice>)
      requires Observed(peers, on, demands) && Measured(peers, totals, seconds, on, data, caps)
      requires Ready(peers, on) && Stale(peers, now, on, staleOut, staleIn)
      requires NoOverflow(on, data, caps, outgoing * seconds) && connectedPeers > 0
      modifies this`recalculate, peers`outgoingEpoch, peers`incomingEpoch, peers`throttle, peers`throttleLimit
      ensures |marks| == |peers| && OutgoingMarks(peers, staleOut, marks, now) && HeldFit(peers, marks, data, caps)
      ensures WellScaled(peers, staleOut, data, caps)
      ensures outgoing > 0 ==> WithinBudget(peers, staleOut, marks, on, data, caps, scale, outgoing * seconds)
      ensures outgoing > 0 ==> LargestScale(marks, on, caps, scale, Picked(data, on, true), outgoing * seconds)
      ensures outgoing == 0 ==>
                forall i :: 0 <= i < |peers| && on[i] && !marks[i] && !staleOut[i] ==> peers[i].throttleLimit == SCALE
      ensures forall i :: 0 <= i < |peers| && (!on[i] || staleOut[i]) ==> peers[i].throttleLimit == old(peers[i].throttleLimit)
      ensures forall i :: 0 <= i < |peers| ==>
                peers[i].throttle == if on[i] && !staleOut[i] then Min(old(peers[i].throttle), peers[i].throttleLimit)
                                     else old(peers[i].throttle)
      ensures !recalculate
      ensures if old(recalculate) then AllTold(on, staleIn, demands, incoming, outgoing, limit, told) else told == map[]
    {
      assert IncomingMarks(peers, on, staleIn, Fresh(on), now) && OutgoingMarks(peers, staleOut, Fresh(on), now);
      scale, marks := Allocate(peers, totals, now, seconds, connectedPeers, limitedPeers > 0, outgoing, on, data, caps, staleOut);
      limit, told := TellIfAsked(now, incoming, outgoing, peers, on, demands, staleIn);
    }

    /** `now` is the clock that is read after the first test; `totals` are the data totals of the peers.
        The ghost arguments are what the peers show when the method starts; a peer that bears the mark of
        this moment already keeps its limit and is told its own demand. */
    method BandwidthThrottle(serviceTime: uint32, now: uint32, incoming: uint32, outgoing: uint32,
                             peers: seq<PeerNet>, totals: seq<uint32>, ghost seconds: nat,
                             ghost on: seq<bool>, ghost demands: seq<nat>, ghost data: seq<nat>, ghost caps: seq<nat>,
                             ghost staleOut: seq<bool>, ghost staleIn: seq<bool>)
      returns (ran: bool, scale: nat, ghost marks: seq<bool>, limit: nat, told: map<nat, Notice>)
      requires seconds == Sub32(now, epoch) / 1000
      requires Observed(peers, on, demands) && Measured(peers, totals, seconds, on, data, caps)
      requires Ready(peers, on) && Stale(peers, now, on, staleOut, staleIn)
      requires NoOverflow(on, data, caps, outgoing * seconds)
      modifies this`epoch, this`recalculate
      modifies peers`outgoingEpoch, peers`incomingEpoch, peers`throttle, peers`throttleLimit
      ensures ran <==> && TimeDifference(serviceTime, old(epoch)) >= INTERVAL && Sub32(now, old(epoch)) >= INTERVAL
                       && connectedPeers > 0
      ensures !ran ==> unchanged(peers) && recalculate == old(recalculate) && told == map[]
      ensures ran ==> |marks| == |peers| && OutgoingMarks(peers, staleOut, marks, now) && HeldFit(peers, marks, data, caps)
      ensures ran ==> WellScaled(peers, staleOut, data, caps)
      ensures ran && outgoing > 0 ==> WithinBudget(peers, staleOut, marks, on, data, caps, scale, outgoing * seconds)
      ensures ran && outgoing > 0 ==> LargestScale(marks, on, caps, scale, Picked(data, on, true), outgoing * seconds)
      ensures ran && outgoing == 0 ==>
                forall i :: 0 <= i < |peers| && on[i] && !marks[i] && !staleOut[i] ==> peers[i].throttleLimit == SCALE
      ensures ran ==> forall i :: 0 <= i < |peers| && (!on[i] || staleOut[i]) ==>
                peers[i].throttleLimit == old(peers[i].throttleLimit)
      ensures ran ==> forall i :: 0 <= i < |peers| ==>
                peers[i].throttle == if on[i] && !staleOut[i] then Min(old(peers[i].throttle), peers[i].throttleLimit)
                                     else old(peers[i].throttle)
      ensures ran ==> epoch == now && !recalculate
      ensures ran ==>
                if old(recalculate) then AllTold(on, staleIn, demands, incoming, outgoing, limit, told) else told == map[]
    {
      ran, scale, marks, limit, told := false, 0, [], 0, map[];
      var elapsed := Sub32(now, epoch);
      var due := Due(serviceTime, now);
      if due && connectedPeers > 0 {
        ran := true;
        scale, marks, limit, told :=
          Share(now, incoming, outgoing, peers, totals, elapsed / 1000, on, demands, data, caps, staleOut, staleIn);
      }
    }
  }

  /** A peer that has never been marked, when the clock reads 0: it is passed over, and told all that it
      asks for, ten times what the host has. */
  method NewPeerAtClockZero() returns (told: map<nat, Notice>)
    ensures told == map[0 := Notice(1000, 0)]
  {
    var net := new PeerNet();
    net.state, net.outgoingBandwidth := Connected, 1000;
    var limit;
    OnlyOne();
    limit, told := TellPeers([net], 0, 1, 100, 0, [true], [1000], [true]);
    assert told[0] == Notice(ToldShare([1000], [true], [true], 100, limit)[0], 0);
  }

  lemma OnlyOne()
    ensures ConnectedCount([true]) == 1
  {
    assert Ones([true])[1..] == [] && Fresh([true])[1..] == [];
  }
}
