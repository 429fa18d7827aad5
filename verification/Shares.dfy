/** The arithmetic of the bandwidth allocator, on plain sequences: entry i belongs to peer i. */
module Shares {
  const SCALE := 32

  /** The sum of the weights whose mark is `b`. */
  function Picked(ws: seq<nat>, marks: seq<bool>, b: bool): nat
    requires |ws| == |marks|
  {
    if ws == [] then 0 else (if marks[0] == b then ws[0] else 0) + Picked(ws[1..], marks[1..], b)
  }

  lemma {:induction false} PickOne(ws: seq<nat>, marks: seq<bool>, i: nat)
    requires |ws| == |marks| && i < |ws| && !marks[i]
    ensures Picked(ws, marks[i := true], true) == Picked(ws, marks, true) + ws[i]
    ensures Picked(ws, marks[i := true], false) + ws[i] == Picked(ws, marks, false)
  {
    if i == 0 {
      assert marks[0 := true][1..] == marks[1..];
    } else {
      PickOne(ws[1..], marks[1..], i - 1);
      assert marks[i := true][1..] == marks[1..][i - 1 := true];
    }
  }

  lemma {:induction false} PickNone(ws: seq<nat>, marks: seq<bool>)
    requires |ws| == |marks| && forall i :: 0 <= i < |marks| ==> !marks[i]
    ensures Picked(ws, marks, true) == 0
  {
    if ws != [] {
      PickNone(ws[1..], marks[1..]);
    }
  }

  lemma {:induction false} PickedIsPositive(ws: seq<nat>, marks: seq<bool>, i: nat)
    requires |ws| == |marks| && i < |ws|
    ensures ws[i] <= Picked(ws, marks, marks[i])
  {
    if i > 0 {
      PickedIsPositive(ws[1..], marks[1..], i - 1);
    }
  }

  lemma {:induction false} PickedWitness(ws: seq<nat>, marks: seq<bool>, b: bool) returns (i: nat)
    requires |ws| == |marks| && Picked(ws, marks, b) > 0
    ensures i < |ws| && marks[i] == b && ws[i] > 0
  {
    if marks[0] == b && ws[0] > 0 {
      i := 0;
    } else {
      i := PickedWitness(ws[1..], marks[1..], b);
      i := i + 1;
    }
  }

  /** The product, by repeated addition: the loops that count down one peer at a time use it. */
  function Times(a: nat, n: nat): nat {
    if n == 0 then 0 else a + Times(a, n - 1)
  }

  lemma {:induction false} TimesIsProduct(a: nat, n: nat)
    ensures Times(a, n) == a * n
  {
    if n > 0 {
      TimesIsProduct(a, n - 1);
      assert a * n == a * (n - 1) + a;
    }
  }

  // --- the incoming share ---

  /** A demand of 0 or below the threshold is granted in full. No pass has been made at -1. */
  predicate Below(demand: nat, t: int) {
    t >= 0 && (demand == 0 || demand < t)
  }

  function Granted(demands: seq<nat>, on: seq<bool>, t: int): (g: seq<bool>)
    requires |demands| == |on|
    ensures |g| == |demands|
  {
    seq(|demands|, i requires 0 <= i < |demands| => on[i] && Below(demands[i], t))
  }

  function Ones(on: seq<bool>): (ws: seq<nat>)
    ensures |ws| == |on|
  {
    seq(|on|, i requires 0 <= i < |on| => if on[i] then 1 else 0)
  }

  function Spent(demands: seq<nat>, on: seq<bool>, t: int): nat
    requires |demands| == |on|
  {
    Picked(demands, Granted(demands, on, t), true)
  }

  /** The number of connected peers whose demand is not granted. */
  function Left(demands: seq<nat>, on: seq<bool>, t: int): nat
    requires |demands| == |on|
  {
    Picked(Ones(on), Granted(demands, on, t), false)
  }

  /** The threshold is the equal share of what is left after the demands below it are granted. */
  predicate Balanced(demands: seq<nat>, on: seq<bool>, bandwidth: nat, t: int)
    requires |demands| == |on|
  {
    && t >= 0
    && Spent(demands, on, t) <= bandwidth
    && Left(demands, on, t) > 0
    && t == (bandwidth - Spent(demands, on, t)) / Left(demands, on, t)
  }

  lemma GrantedTail(demands: seq<nat>, on: seq<bool>, t: int)
    requires |demands| == |on| && demands != []
    ensures Granted(demands, on, t)[1..] == Granted(demands[1..], on[1..], t)
    ensures Ones(on)[1..] == Ones(on[1..])
  {
  }

  /** Between two thresholds every further demand that is granted is at most the higher one. */
  lemma {:induction false} SpentGap(demands: seq<nat>, on: seq<bool>, p: int, t: int)
    requires |demands| == |on| && p <= t && t >= 0
    ensures Left(demands, on, t) <= Left(demands, on, p)
    ensures Spent(demands, on, t) - Spent(demands, on, p) <= t * (Left(demands, on, p) - Left(demands, on, t))
  {
    if demands != [] {
      GrantedTail(demands, on, p);
      GrantedTail(demands, on, t);
      SpentGap(demands[1..], on[1..], p, t);
      var l, m := Left(demands[1..], on[1..], p), Left(demands[1..], on[1..], t);
      assert t * (l + 1 - m) == t * (l - m) + t;
      assert Left(demands, on, p) - Left(demands, on, t) ==
             l - m + if on[0] && !Below(demands[0], p) && Below(demands[0], t) then 1 else 0;
    }
  }

  /** A pass never raises the threshold above a balanced one. */
  lemma PassStaysBelow(demands: seq<nat>, on: seq<bool>, bandwidth: nat, p: int, t: int)
    requires |demands| == |on| && p <= t && Balanced(demands, on, bandwidth, t)
    requires Spent(demands, on, p) <= bandwidth && Left(demands, on, p) > 0
    ensures (bandwidth - Spent(demands, on, p)) / Left(demands, on, p) <= t
  {
    SpentGap(demands, on, p, t);
    var r, r' := Left(demands, on, p), Left(demands, on, t);
    var rest, rest' := bandwidth - Spent(demands, on, p), bandwidth - Spent(demands, on, t);
    assert rest' <= t * r' + r' - 1;
    assert t * (r - r') + t * r' == t * r;
    assert rest < (t + 1) * r;
    QuotientBelow(rest, r, t);
  }

  lemma TimesMonotone(r: nat, a: int, b: int)
    requires a <= b
    ensures r * a <= r * b
  {
    assert r * b == r * a + r * (b - a);
  }

  lemma QuotientBelow(a: nat, r: nat, t: int)
    requires r > 0 && a < (t + 1) * r
    ensures a / r <= t
  {
    var q := a / r;
    assert a == r * q + a % r;
    assert (t + 1) * r == r * (t + 1);
    if q > t { TimesMonotone(r, t + 1, q); }
  }

  lemma QuotientAbove(a: nat, r: nat, t: nat)
    requires r > 0 && t * r <= a
    ensures t <= a / r
  {
    var q := a / r;
    assert a == r * q + a % r;
    assert t * r == r * t;
    assert r * (q + 1) == r * q + r;
    if q + 1 <= t { TimesMonotone(r, q + 1, t); }
  }

  lemma QuotientFits(a: nat, r: nat)
    requires r > 0
    ensures a / r * r <= a < (a / r + 1) * r
  {
    assert a == r * (a / r) + a % r;
  }

  /** When the limit is one that every balanced threshold must reach and it grants every demand,
      no threshold is balanced. */
  lemma EveryoneIsGranted(demands: seq<nat>, on: seq<bool>, bandwidth: nat, limit: int)
    requires |demands| == |on| && limit >= 0 && Left(demands, on, limit) == 0
    requires forall t :: Balanced(demands, on, bandwidth, t) ==> limit <= t
    ensures forall t :: !Balanced(demands, on, bandwidth, t)
  {
    forall t | Balanced(demands, on, bandwidth, t)
      ensures false
    {
      SpentGap(demands, on, limit, t);
    }
  }

  /** What each peer is told: its own demand when that is granted, else the limit. */
  function Share(demands: seq<nat>, on: seq<bool>, limit: nat): (x: seq<nat>)
    requires |demands| == |on|
    ensures |x| == |demands|
  {
    seq(|demands|, i requires 0 <= i < |demands| =>
      if !on[i] then 0 else if Below(demands[i], limit) then demands[i] else limit)
  }

  lemma {:induction false} ShareTotal(demands: seq<nat>, on: seq<bool>, limit: nat)
    requires |demands| == |on|
    ensures Picked(Share(demands, on, limit), on, true) == Spent(demands, on, limit) + Times(limit, Left(demands, on, limit))
  {
    if demands != [] {
      GrantedTail(demands, on, limit);
      assert Share(demands, on, limit)[1..] == Share(demands[1..], on[1..], limit);
      ShareTotal(demands[1..], on[1..], limit);
    }
  }

  lemma {:induction false} PickedExceeds(x: seq<nat>, y: seq<nat>, on: seq<bool>, j: nat)
    requires |x| == |y| == |on| && j < |x| && on[j]
    requires forall i :: 0 <= i < |x| && on[i] ==> x[i] >= y[i]
    ensures Picked(x, on, true) - Picked(y, on, true) >= x[j] - y[j]
  {
    if j > 0 {
      PickedExceeds(x[1..], y[1..], on[1..], j - 1);
    } else if k :| 1 <= k < |x| && on[k] {
      PickedExceeds(x[1..], y[1..], on[1..], k - 1);
    } else {
      PickedOff(x[1..], on[1..]);
      PickedOff(y[1..], on[1..]);
    }
  }

  lemma {:induction false} PickedOff(x: seq<nat>, on: seq<bool>)
    requires |x| == |on| && forall i :: 0 <= i < |on| ==> !on[i]
    ensures Picked(x, on, true) == 0
  {
    PickNone(x, on);
  }

  /** Max-min fairness, up to the remainder of the division: a division of the bandwidth that gives
      some peer that is held to the limit at least one more for every such peer, takes from a peer
      that was given no more than the limit. */
  lemma ShareIsMaxMin(demands: seq<nat>, on: seq<bool>, bandwidth: nat, limit: nat, x: seq<nat>, j: nat) returns (i: nat)
    requires |demands| == |on| == |x| && Balanced(demands, on, bandwidth, limit)
    requires Picked(x, on, true) <= bandwidth
    requires j < |x| && on[j] && !Below(demands[j], limit) && x[j] >= limit + Left(demands, on, limit)
    ensures i < |x| && on[i] && x[i] < Share(demands, on, limit)[i] <= limit
  {
    var y, l := Share(demands, on, limit), Left(demands, on, limit);
    assert (limit + 1) * l == limit * l + l;
    if forall k :: 0 <= k < |x| && on[k] ==> x[k] >= y[k] {
      PickedExceeds(x, y, on, j);
      ShareTotal(demands, on, limit);
      TimesIsProduct(limit, l);
      QuotientFits(bandwidth - Spent(demands, on, limit), l);
      assert false;
    }
    i :| 0 <= i < |x| && on[i] && x[i] < y[i];
  }
}
