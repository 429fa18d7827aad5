/** Where the text of the program departs from what it is meant to do: each departure as the text has
    it, an input on which it fails, and exactly when it does what is meant. */
module AsWritten {
  import opened Numbers
  import opened Clock
  import opened Fragments
  import opened Inbox
  import opened Receiver
  import opened Pod
  import Books

  // --- the successor of the number delivered last: computed as an int ---

  predicate ReadyAsWritten(q: Queue) {
    && q.entries != []
    && q.entries[0].remaining == 0
    && q.entries[0].number == q.incoming + 1
  }

  lemma ReadyAgreesIff(q: Queue)
    requires Ready(q)
    ensures ReadyAsWritten(q) <==> q.incoming != 0xFFFF
  {
  }

  function DrainAsWritten(q: Queue): (Queue, seq<Entry>)
    decreases |q.entries|
  {
    if ReadyAsWritten(q) then
      var rest := DrainAsWritten(AfterDelivery(q));
      (rest.0, [q.entries[0]] + rest.1)
    else (q, [])
  }

  /** The number delivered last after the first `k` entries of what is meant. */
  function IncomingAfter(q: Queue, k: nat): uint16
    requires k <= |Drain(q).1|
  {
    Low16(q.incoming + Spans(Drain(q).1[..k]))
  }

  lemma LowTwice(a: nat, b: nat)
    ensures Low16(Low16(a) + b) == Low16(a + b)
  {
    SumLow(a, b);
    SumLow(Low16(a), b);
  }

  lemma IncomingMoves(q: Queue)
    requires Ready(q)
    ensures AfterDelivery(q).incoming == Low16(q.incoming + Span(q.entries[0]))
  {
    assert Successor(q.incoming) == Low16(q.incoming + 1);
    LowTwice(q.incoming + 1, Span(q.entries[0]) - 1);
  }

  lemma NextIncomingAfter(q: Queue, k: nat)
    requires Ready(q) && k <= |Drain(AfterDelivery(q)).1|
    ensures k + 1 <= |Drain(q).1| && IncomingAfter(q, k + 1) == IncomingAfter(AfterDelivery(q), k)
  {
    var rest := Drain(AfterDelivery(q)).1;
    assert Drain(q).1 == [q.entries[0]] + rest;
    FrontSpans(q.entries[0], rest, k);
    IncomingMoves(q);
    LowTwice(q.incoming + Span(q.entries[0]), Spans(rest[..k]));
  }

  lemma FrontSpans(e: Entry, rest: seq<Entry>, k: nat)
    requires k <= |rest|
    ensures Spans(([e] + rest)[..k + 1]) == Span(e) + Spans(rest[..k])
  {
    assert ([e] + rest)[..k + 1] == [e] + rest[..k];
    assert ([e] + rest[..k])[1..] == rest[..k];
  }

  lemma StopsAtOnce(q: Queue)
    requires Ready(q) && q.incoming == 0xFFFF
    ensures DrainAsWritten(q) == (q, []) != Drain(q) && IncomingAfter(q, 0) == 0xFFFF
  {
    assert Drain(q).1[..0] == [];
  }

  /** Some entry that should be delivered stands behind one that ends on 0xFFFF, or behind a base of
      0xFFFF. */
  ghost predicate EndsEarly(q: Queue) {
    exists k: nat :: k < |Drain(q).1| && IncomingAfter(q, k) == 0xFFFF
  }

  /** What is delivered is always a beginning of what should be, and all of it exactly when no proper
      beginning of what should be delivered ends on 0xFFFF. */
  lemma {:induction false} DrainIsCutShortIff(q: Queue)
    ensures DrainAsWritten(q).1 <= Drain(q).1
    ensures DrainAsWritten(q) == Drain(q) <==> !EndsEarly(q)
    decreases |q.entries|
  {
    if ReadyAsWritten(q) {
      var r := AfterDelivery(q);
      DrainIsCutShortIff(r);
      DrainStep(q);
      if k: nat :| k < |Drain(r).1| && IncomingAfter(r, k) == 0xFFFF {
        NextIncomingAfter(q, k);
        assert IncomingAfter(q, k + 1) == 0xFFFF;
      }
      if k: nat :| k < |Drain(q).1| && IncomingAfter(q, k) == 0xFFFF {
        assert Drain(q).1[..0] == [];
        NextIncomingAfter(q, k - 1);
      }
    } else if Ready(q) {
      StopsAtOnce(q);
    }
  }

  lemma DrainStep(q: Queue)
    requires ReadyAsWritten(q)
    requires DrainAsWritten(AfterDelivery(q)).1 <= Drain(AfterDelivery(q)).1
    ensures DrainAsWritten(q).1 <= Drain(q).1
    ensures DrainAsWritten(q) == Drain(q) <==> DrainAsWritten(AfterDelivery(q)) == Drain(AfterDelivery(q))
  {
    var r, s := DrainAsWritten(AfterDelivery(q)), Drain(AfterDelivery(q));
    assert [q.entries[0]] + r.1 <= [q.entries[0]] + s.1;
    assert ([q.entries[0]] + r.1)[1..] == r.1 && ([q.entries[0]] + s.1)[1..] == s.1;
  }

  /** Once 0xFFFF has been delivered the channel delivers nothing any more, whatever arrives. */
  lemma NothingAfterTheLastNumber(q: Queue, e: Entry)
    requires q.incoming == 0xFFFF
    ensures DrainAsWritten(Insert(q, e)) == (Insert(q, e), []) && Insert(q, e).incoming == 0xFFFF
  {
  }

  // --- the walk that looks for the place of a new entry ---

  datatype Stop = Behind(count: nat) | PastTheFront

  /** The walk from the back: it stops behind an entry that comes before the number, or runs over the
      front of the list, where it reads what is not an entry. */
  function WalkAsWritten(entries: seq<Entry>, n: uint16, base: uint16): (s: Stop)
    ensures s.Behind? ==> 0 < s.count <= |entries|
  {
    if entries == [] then PastTheFront
    else if ComesAfter(entries[|entries| - 1].number, n, base) then WalkAsWritten(entries[..|entries| - 1], n, base)
    else Behind(|entries|)
  }

  /** On a list that is not empty the walk fails exactly when the new number comes before all. */
  lemma {:induction false} WalkFailsIff(entries: seq<Entry>, n: uint16, base: uint16)
    ensures WalkAsWritten(entries, n, base) == PastTheFront <==>
            forall i :: 0 <= i < |entries| ==> DistanceOf(entries[i], base) > Distance(n, base)
    ensures WalkAsWritten(entries, n, base) != PastTheFront ==>
            WalkAsWritten(entries, n, base) == Behind(Position(entries, n, base))
  {
    if entries != [] {
      var last := |entries| - 1;
      ComesAfterIsModular(entries[last].number, n, base);
      if ComesAfter(entries[last].number, n, base) {
        WalkFailsIff(entries[..last], n, base);
        assert forall i :: 0 <= i < last ==> entries[..last][i] == entries[i];
      }
    }
  }

  lemma WalkFails()
    ensures WalkAsWritten([WholeEntry(5, [])], 3, 2) == PastTheFront && Wanted(Queue([WholeEntry(5, [])], 2), 3)
  {
  }

  // --- the entry that a fragment belongs to ---

  /** The walk from the back down to, not including, the first entry; the first entry is returned
      without being looked at. An entry with the right number is refused when it is no fragment, when the
      count differs, or when `appended`, the bytes that have been put into it so far, are not the total. */
  function LookupAsWritten(entries: seq<Entry>, appended: seq<nat>, start: uint16, total: nat, count: nat, base: uint16, i: nat): Lookup
    requires i < |entries| == |appended|
    decreases i
  {
    if i == 0 then Found(0)
    else
      var n := entries[i].number;
      if start >= base then
        if n < base then LookupAsWritten(entries, appended, start, total, count, base, i - 1) else Missing
      else if n < start then Missing
      else if n == start then
        if entries[i].count == 0 || total != appended[i] || count != entries[i].count then Mismatch else Found(i)
      else LookupAsWritten(entries, appended, start, total, count, base, i - 1)
  }

  /** When a number not below the base is looked up. */
  lemma {:induction false} LookupAbove(entries: seq<Entry>, appended: seq<nat>, start: uint16, total: nat, count: nat, base: uint16, i: nat)
    requires i < |entries| == |appended| && start >= base
    ensures LookupAsWritten(entries, appended, start, total, count, base, i) ==
            if exists k :: 1 <= k <= i && entries[k].number >= base then Missing else Found(0)
  {
    if i > 0 && entries[i].number < base { LookupAbove(entries, appended, start, total, count, base, i - 1); }
  }

  /** The last entry up to `i`, other than the first, whose number is not above `start`; 0 for none. */
  function LastNotAbove(entries: seq<Entry>, start: uint16, i: nat): (k: nat)
    requires i < |entries|
    ensures k <= i && (k > 0 ==> entries[k].number <= start)
    ensures forall l :: k < l <= i ==> entries[l].number > start
  {
    if i == 0 || entries[i].number <= start then i else LastNotAbove(entries, start, i - 1)
  }

  /** When a number below the base is looked up: the walk stops at the last entry that is not above it. */
  lemma {:induction false} LookupBelow(entries: seq<Entry>, appended: seq<nat>, start: uint16, total: nat, count: nat, base: uint16, i: nat)
    requires i < |entries| == |appended| && start < base
    ensures LookupAsWritten(entries, appended, start, total, count, base, i) ==
            var k := LastNotAbove(entries, start, i);
            if k == 0 then Found(0)
            else if entries[k].number < start then Missing
            else if entries[k].count == 0 || total != appended[k] || count != entries[k].count then Mismatch
            else Found(k)
  {
    if i > 0 && entries[i].number > start { LookupBelow(entries, appended, start, total, count, base, i - 1); }
  }

  /** In the list, numbers below the base come last and increase. */
  lemma OrderOfNumbers(q: Queue, i: nat, j: nat)
    requires Ordered(q) && i < j < |q.entries|
    ensures q.entries[i].number < q.entries[j].number || (q.entries[i].number >= q.incoming > q.entries[j].number)
    ensures q.entries[j].number >= q.incoming ==> q.entries[i].number >= q.incoming
    ensures q.entries[i].number != q.entries[j].number
  {
    assert DistanceOf(q.entries[i], q.incoming) + Span(q.entries[i]) <= DistanceOf(q.entries[j], q.incoming);
  }

  /** The entry is the one that a fragment with this start number, total and count is meant for. */
  predicate Suits(e: Entry, start: uint16, total: nat, count: nat) {
    e.number == start && e.count == count && |e.buffer| == total
  }

  /** When the lookup is right. For a number not below the base: with a second entry not below it, when
      the number is not in the list; otherwise when the first entry suits. For a number below the base:
      with another entry not above it, when the entry with that number, if its count is right, has had
      as many bytes appended as its buffer is long or the total is neither; otherwise when the first
      entry suits. */
  ghost predicate LooksUpRightly(q: Queue, appended: seq<nat>, start: uint16, total: nat, count: nat)
    requires q.entries != [] && |appended| == |q.entries|
  {
    if start >= q.incoming && |q.entries| > 1 && q.entries[1].number >= q.incoming
    then forall k :: 0 <= k < |q.entries| ==> q.entries[k].number != start
    else if start < q.incoming && exists k :: 1 <= k < |q.entries| && q.entries[k].number <= start
    then forall k :: 1 <= k < |q.entries| && q.entries[k].number == start && q.entries[k].count == count ==>
           (appended[k] == total <==> |q.entries[k].buffer| == total)
    else Suits(q.entries[0], start, total, count)
  }

  lemma LookupIsRightIff(q: Queue, appended: seq<nat>, start: uint16, total: nat, count: nat)
    requires Ordered(q) && q.entries != [] && |appended| == |q.entries| && count > 0
    ensures LookupAsWritten(q.entries, appended, start, total, count, q.incoming, |q.entries| - 1) ==
              FindEntry(q.entries, start, total, count) <==>
            LooksUpRightly(q, appended, start, total, count)
  {
    if start >= q.incoming {
      LookupAboveIsRightIff(q, appended, start, total, count);
    } else {
      LookupBelowIsRightIff(q, appended, start, total, count);
    }
  }

  lemma LookupAboveIsRightIff(q: Queue, appended: seq<nat>, start: uint16, total: nat, count: nat)
    requires Ordered(q) && q.entries != [] && |appended| == |q.entries| && start >= q.incoming
    ensures LookupAsWritten(q.entries, appended, start, total, count, q.incoming, |q.entries| - 1) ==
              FindEntry(q.entries, start, total, count) <==>
            LooksUpRightly(q, appended, start, total, count)
  {
    var es, base, last := q.entries, q.incoming, |q.entries| - 1;
    LookupAbove(es, appended, start, total, count, base, last);
    if k :| 1 <= k <= last && es[k].number >= base {
      if k > 1 { OrderOfNumbers(q, 1, k); }
    }
  }

  lemma LookupBelowIsRightIff(q: Queue, appended: seq<nat>, start: uint16, total: nat, count: nat)
    requires Ordered(q) && q.entries != [] && |appended| == |q.entries| && start < q.incoming && count > 0
    ensures LookupAsWritten(q.entries, appended, start, total, count, q.incoming, |q.entries| - 1) ==
              FindEntry(q.entries, start, total, count) <==>
            LooksUpRightly(q, appended, start, total, count)
  {
    var es, last := q.entries, |q.entries| - 1;
    var k, f := LastNotAbove(es, start, last), Find(es, start);
    LookupBelow(es, appended, start, total, count, q.incoming, last);
    if k > 0 {
      if es[k].number < start {
        LookupMisses(q, start, k);
      } else {
        OnlyOneHasNumber(q, start, k);
      }
    }
  }

  lemma LookupMisses(q: Queue, start: uint16, k: nat)
    requires Ordered(q) && start < q.incoming && 1 <= k < |q.entries| && q.entries[k].number < start
    requires forall l :: k < l < |q.entries| ==> q.entries[l].number > start
    ensures forall l :: 0 <= l < |q.entries| ==> q.entries[l].number != start
  {
    forall l | 0 <= l < |q.entries|
      ensures q.entries[l].number != start
    {
      if l < k { OrderOfNumbers(q, l, k); }
    }
  }

  lemma OnlyOneHasNumber(q: Queue, start: uint16, k: nat)
    requires Ordered(q) && k < |q.entries| && q.entries[k].number == start
    ensures Find(q.entries, start) == k
    ensures forall l :: 0 <= l < |q.entries| && l != k ==> q.entries[l].number != start
  {
    forall l | 0 <= l < |q.entries| && l != k
      ensures q.entries[l].number != start
    {
      if l < k { OrderOfNumbers(q, l, k); } else { OrderOfNumbers(q, k, l); }
    }
  }

  /** A fragment finds its own half-filled entry exactly when that is the first of the list and, its
      number not being below the base, no second entry is. */
  lemma HalfFilledIsFoundIff(q: Queue, appended: seq<nat>, k: nat)
    requires Ordered(q) && k < |q.entries| == |appended|
    requires var e := q.entries[k]; e.count > 0 && appended[k] < |e.buffer|
    ensures var e := q.entries[k];
            LookupAsWritten(q.entries, appended, e.number, |e.buffer|, e.count, q.incoming, |q.entries| - 1) == Found(k) <==>
            k == 0 && (|q.entries| == 1 || e.number < q.incoming || q.entries[1].number < q.incoming)
  {
    var e := q.entries[k];
    OnlyOneHasNumber(q, e.number, k);
    LookupIsRightIff(q, appended, e.number, |e.buffer|, e.count);
    if k == 0 && |q.entries| > 1 && e.number < q.incoming {
      forall l | 1 <= l < |q.entries|
        ensures q.entries[l].number > e.number
      {
        OrderOfNumbers(q, 0, l);
      }
    }
  }

  /** A list with a whole segment and, behind it, the first of three fragments: the second fragment does
      not find the entry of the first. */
  lemma LookupFails()
    ensures var e := Entry(5, 3, 2, [true, false, false], seq(30, _ => 0));
            var q := Queue([WholeEntry(0xFFF2, []), e], 0xFFF0);
            && Ordered(q)
            && LookupAsWritten(q.entries, [0, 10], 5, 30, 3, q.incoming, 1) == Mismatch
            && FindEntry(q.entries, 5, 30, 3) == Found(1)
  {
    var e := Entry(5, 3, 2, [true, false, false], seq(30, _ => 0));
    var q := Queue([WholeEntry(0xFFF2, []), e], 0xFFF0);
    assert DistanceOf(q.entries[0], q.incoming) == 2 && DistanceOf(q.entries[1], q.incoming) == 21;
    OnlyOneHasNumber(q, 5, 1);
  }

  // --- the entry that is not there ---

  /** `ExtractFirstCommand` for a fragment, also on an empty list. */
  function ExtractAsWritten(q: Queue, appended: seq<nat>, b: Body): Lookup
    requires b.Piece? && |appended| == |q.entries|
  {
    if q.entries == [] then Missing
    else LookupAsWritten(q.entries, appended, b.start, b.total, b.count, q.incoming, |q.entries| - 1)
  }

  /** `QueueIncomingCommand` for a reliable number: no entry is returned, or one is made behind the first
      `count` entries, or the walk has run over the front. */
  datatype Queueing = NoEntry | Made(count: nat) | OverTheFront

  function QueueAsWritten(q: Queue, n: uint16): Queueing {
    if !Acceptable(n, q.incoming) || n == q.incoming then NoEntry
    else if q.entries == [] then Made(0)
    else
      match WalkAsWritten(q.entries, n, q.incoming)
      case PastTheFront => OverTheFront
      case Behind(k) => if q.entries[k - 1].number == n then NoEntry else Made(k)
  }

  lemma NoEntryIffUnwanted(q: Queue, n: uint16)
    requires Ordered(q)
    ensures QueueAsWritten(q, n) == NoEntry <==> !Wanted(q, n)
  {
    if q.entries != [] {
      WalkFailsIff(q.entries, n, q.incoming);
      WantedIffNew(q, n);
    }
  }

  /** `HandleSendFragment` looks at the entry that the lookup returns and not at its error: without an
      entry it queues the fragment, and marks it in the entry that this returns, whether there is one or
      not. */
  predicate MeetsNoEntry(q: Queue, appended: seq<nat>, b: Body)
    requires b.Piece? && |appended| == |q.entries|
  {
    && Acceptable(b.start, q.incoming)
    && PieceValid(b)
    && !ExtractAsWritten(q, appended, b).Found?
    && QueueAsWritten(q, b.start) == NoEntry
  }

  /** The lookup passes over the entry at `k`, which has the start number. */
  predicate PassedOver(q: Queue, appended: seq<nat>, b: Body, k: nat)
    requires b.Piece? && k < |q.entries| == |appended|
  {
    if b.start >= q.incoming then |q.entries| > 1 && q.entries[1].number >= q.incoming
    else k > 0 && (q.entries[k].count != b.count || appended[k] != b.total)
  }

  /** The start number is in the list and its entry is passed over; or it is that of the command delivered
      last, and there is no entry, or a second one that is not below it. */
  ghost predicate HasNoEntry(q: Queue, appended: seq<nat>, b: Body)
    requires b.Piece? && |appended| == |q.entries|
  {
    if b.start == q.incoming
    then q.entries == [] || (|q.entries| > 1 && q.entries[1].number >= q.incoming)
    else exists k: nat :: k < |q.entries| && q.entries[k].number == b.start && PassedOver(q, appended, b, k)
  }

  /** When the entry that the handler dereferences is null. */
  lemma NoEntryIsMetIff(q: Queue, appended: seq<nat>, b: Body)
    requires Ordered(q) && b.Piece? && |appended| == |q.entries| && Acceptable(b.start, q.incoming) && PieceValid(b)
    ensures MeetsNoEntry(q, appended, b) <==>
            !ExtractAsWritten(q, appended, b).Found? &&
            (b.start == q.incoming || exists k :: 0 <= k < |q.entries| && q.entries[k].number == b.start)
    ensures MeetsNoEntry(q, appended, b) <==> HasNoEntry(q, appended, b)
  {
    NoEntryIffUnwanted(q, b.start);
    WantedIffNew(q, b.start);
    if q.entries != [] {
      if k: nat :| k < |q.entries| && q.entries[k].number == b.start {
        ExtractsIff(q, appended, b, k);
        OnlyOneHasNumber(q, b.start, k);
      }
      if b.start == q.incoming { ExtractsAtBase(q, appended, b); }
    }
  }

  lemma ExtractsAtBase(q: Queue, appended: seq<nat>, b: Body)
    requires Ordered(q) && q.entries != [] && b.Piece? && |appended| == |q.entries| && b.start >= q.incoming
    ensures ExtractAsWritten(q, appended, b).Found? <==> |q.entries| == 1 || q.entries[1].number < q.incoming
  {
    LookupAbove(q.entries, appended, b.start, b.total, b.count, q.incoming, |q.entries| - 1);
    if k :| 1 <= k < |q.entries| && q.entries[k].number >= q.incoming {
      if k > 1 { OrderOfNumbers(q, 1, k); }
    }
  }

  lemma ExtractsIff(q: Queue, appended: seq<nat>, b: Body, k: nat)
    requires Ordered(q) && b.Piece? && k < |q.entries| == |appended| && q.entries[k].number == b.start && b.count > 0
    ensures ExtractAsWritten(q, appended, b).Found? <==> !PassedOver(q, appended, b, k)
  {
    if b.start >= q.incoming {
      ExtractsAtBase(q, appended, b);
    } else {
      LookupBelow(q.entries, appended, b.start, b.total, b.count, q.incoming, |q.entries| - 1);
      forall l | k < l < |q.entries|
        ensures q.entries[l].number > b.start
      {
        OrderOfNumbers(q, k, l);
      }
      assert LastNotAbove(q.entries, b.start, |q.entries| - 1) == k;
    }
  }

  /** A further fragment of a half-filled entry meets no entry exactly when its own is not found. */
  lemma HalfFilledMeetsNoEntryIff(q: Queue, appended: seq<nat>, k: nat, b: Body)
    requires Ordered(q) && k < |q.entries| == |appended| && b.Piece?
    requires var e := q.entries[k]; appended[k] < |e.buffer| && b.start == e.number && b.count == e.count && b.total == |e.buffer|
    requires Acceptable(b.start, q.incoming) && PieceValid(b) && b.start != q.incoming
    ensures MeetsNoEntry(q, appended, b) <==>
            !(k == 0 && (|q.entries| == 1 || b.start < q.incoming || q.entries[1].number < q.incoming))
  {
    NoEntryIsMetIff(q, appended, b);
    ExtractsIff(q, appended, b, k);
    if 1 < |q.entries| && k > 1 { OrderOfNumbers(q, 1, k); }
    if b.start >= q.incoming && k == 1 { assert q.entries[1].number >= q.incoming; }
    OnlyOneHasNumber(q, b.start, k);
  }

  /** With the lookup as it is meant to be, and its error heeded, only a fragment whose message begins with
      the number delivered last could meet no entry. */
  lemma MeantMeetsNoEntryIff(q: Queue, b: Body)
    requires Ordered(q) && b.Piece? && Acceptable(b.start, q.incoming) && PieceValid(b)
    ensures FindEntry(q.entries, b.start, b.total, b.count) == Missing && QueueAsWritten(q, b.start) == NoEntry <==>
            b.start == q.incoming
  {
    NoEntryIffUnwanted(q, b.start);
    WantedIffNew(q, b.start);
    if b.start == q.incoming {
      forall i | 0 <= i < |q.entries|
        ensures q.entries[i].number != b.start
      {
        assert DistanceOf(q.entries[i], q.incoming) >= 1;
      }
    }
  }

  function SecondOfThree(start: uint16): Body {
    Piece(start, 1, 3, 30, 10, seq(10, _ => 0))
  }

  /** The list of `LookupFails`, and one with numbers that do not wrap: the second fragment meets no entry. */
  lemma NoEntryIsMet()
    ensures var e := Entry(5, 3, 2, [true, false, false], seq(30, _ => 0));
            var q := Queue([WholeEntry(0xFFF2, []), e], 0xFFF0);
            Ordered(q) && MeetsNoEntry(q, [0, 10], SecondOfThree(5))
    ensures var e := Entry(3, 3, 2, [true, false, false], seq(30, _ => 0));
            var q := Queue([WholeEntry(2, []), e], 0);
            Ordered(q) && MeetsNoEntry(q, [0, 10], SecondOfThree(3))
  {
    LookupFails();
    var e, f := Entry(5, 3, 2, [true, false, false], seq(30, _ => 0)), Entry(3, 3, 2, [true, false, false], seq(30, _ => 0));
    var q, r := Queue([WholeEntry(0xFFF2, []), e], 0xFFF0), Queue([WholeEntry(2, []), f], 0);
    assert DistanceOf(r.entries[0], r.incoming) == 2 && DistanceOf(r.entries[1], r.incoming) == 3;
    HalfFilledMeetsNoEntryIff(q, [0, 10], 1, SecondOfThree(5));
    HalfFilledMeetsNoEntryIff(r, [0, 10], 1, SecondOfThree(3));
  }

  // --- the number that is acknowledged for a fragment ---

  /** When a fragment opens an entry, the number of the command has been overwritten with the start
      number before the acknowledgement is made. */
  lemma FragmentAckIsRightIff(m: Message, first: nat, j: nat)
    requires !IsWhole(m) && j < Count(m)
    ensures BodyOf(m, first, j).start == Low16(first + j) <==> j % 0x10000 == 0
  {
    SumLow(first, j);
  }

  lemma SumLow(a: nat, b: nat)
    ensures Low16(a + b) == if Low16(a) + Low16(b) < 0x10000 then Low16(a) + Low16(b) else Low16(a) + Low16(b) - 0x10000
  {
    var p, q := a / 0x10000, b / 0x10000;
    assert a + b == 0x10000 * (p + q) + (Low16(a) + Low16(b));
  }

  /** And then it is an acknowledgement of the first fragment, which has not been received unless it is
      the one that came. */
  lemma OverwrittenAckIsUnsound(ms: seq<Message>, highest: int, v: View, k: nat, j: nat)
    requires Faithful(ms, highest, v) && |v.delivered| <= k < |ms| && !IsWhole(ms[k]) && j < Count(ms[k])
    requires Wanted(v.queue, Low16(First(ms, k)))
    requires First(ms, k) == v.base + Distance(Low16(First(ms, k)), v.queue.incoming)
    ensures Received(WithQueue(v, Insert(v.queue, OpenedEntry(ms[k], First(ms, k), j))), First(ms, k)) <==> j == 0
  {
    if j == 0 {
      InsertReceives(v, OpenedEntry(ms[k], First(ms, k), j), First(ms, k));
    } else {
      FirstIsMissing(ms, highest, v, k, j);
    }
  }

  lemma FirstIsMissing(ms: seq<Message>, highest: int, v: View, k: nat, j: nat)
    requires Faithful(ms, highest, v) && |v.delivered| <= k < |ms| && !IsWhole(ms[k]) && 0 < j < Count(ms[k])
    requires Wanted(v.queue, Low16(First(ms, k)))
    requires First(ms, k) == v.base + Distance(Low16(First(ms, k)), v.queue.incoming)
    ensures !Received(WithQueue(v, Insert(v.queue, OpenedEntry(ms[k], First(ms, k), j))), First(ms, k))
  {
    var w := WithQueue(v, Insert(v.queue, OpenedEntry(ms[k], First(ms, k), j)));
    forall i | 0 <= i < |w.queue.entries|
      ensures !InEntry(w, w.queue.entries[i], First(ms, k))
    {
      PlaceLacksFirst(ms, highest, v, k, j, w, i);
    }
    BaseIsBefore(ms, highest, v, k);
  }

  lemma PlaceLacksFirst(ms: seq<Message>, highest: int, v: View, k: nat, j: nat, w: View, i: nat)
    requires Faithful(ms, highest, v) && k < |ms| && !IsWhole(ms[k]) && 0 < j < Count(ms[k])
    requires Wanted(v.queue, Low16(First(ms, k)))
    requires First(ms, k) == v.base + Distance(Low16(First(ms, k)), v.queue.incoming)
    requires w == WithQueue(v, Insert(v.queue, OpenedEntry(ms[k], First(ms, k), j))) && i < |w.queue.entries|
    ensures !InEntry(w, w.queue.entries[i], First(ms, k))
  {
    var e := OpenedEntry(ms[k], First(ms, k), j);
    var p := Position(v.queue.entries, e.number, v.queue.incoming);
    InsertedAt(v.queue.entries, p, e, i);
    if i != p { NoOtherHolds(ms, highest, v, w.queue.entries[i], k); } else { LaterLacksFirst(v, ms[k], First(ms, k), j); }
  }

  lemma LaterLacksFirst(v: View, m: Message, first: nat, j: nat)
    requires !IsWhole(m) && 0 < j < Count(m) && first == v.base + Distance(Low16(first), v.queue.incoming)
    ensures !InEntry(v, OpenedEntry(m, first, j), first)
  {
  }

  lemma BaseIsBefore(ms: seq<Message>, highest: int, v: View, k: nat)
    requires Faithful(ms, highest, v) && |v.delivered| <= k < |ms|
    ensures v.base < First(ms, k)
  {
    if |v.delivered| < k { FirstIncreases(ms, |v.delivered|, k); }
  }

  /** No other entry holds the first fragment of a message that has no entry yet. */
  lemma NoOtherHolds(ms: seq<Message>, highest: int, v: View, x: Entry, k: nat)
    requires Faithful(ms, highest, v) && k < |ms| && x in v.queue.entries && Wanted(v.queue, Low16(First(ms, k)))
    ensures !InEntry(v, x, First(ms, k))
  {
    assert Known(ms, highest, v, x);
    var l :| |v.delivered| <= l < |ms| && EntryFor(ms, highest, v, x, l);
    if k < l { FirstIncreases(ms, k, l); } else if l < k { FirstIncreases(ms, l, k); }
    WantedIffNew(v.queue, Low16(First(ms, k)));
    if k == l { NumberOfEntry(v, x, First(ms, k)); }
  }

  lemma NumberOfEntry(v: View, x: Entry, serial: nat)
    requires v.queue.incoming == Low16(v.base) && SerialOf(v, x) == serial
    ensures x.number == Low16(serial)
  {
    SumLow(v.base, DistanceOf(x, v.queue.incoming));
  }

  // --- the band of numbers that are not acknowledged ---

  /** The current window is computed with the number of free windows instead of the window size. */
  predicate AckSuppressedAsWritten(n: uint16, base: uint16) {
    var ahead := n / WINDOW_SIZE + if n < base then WINDOWS else 0;
    var current := base / FREE_WINDOWS;
    current + FREE_WINDOWS - 1 <= ahead <= current + FREE_WINDOWS
  }

  /** The first number of the band. */
  function FirstOfBand(base: uint16): uint16 {
    Low16((base / WINDOW_SIZE + 7) * WINDOW_SIZE)
  }

  lemma FirstOfBandIsSuppressed(base: uint16)
    ensures WindowsAhead(FirstOfBand(base), base) == 7 && !Acceptable(FirstOfBand(base), base)
  {
  }

  /** The band is the right one exactly while fewer than eight numbers have been delivered since 0; later
      some number that the receive window refuses is acknowledged. */
  lemma AckBandIsRightIff(base: uint16)
    ensures (forall n: uint16 :: AckSuppressedAsWritten(n, base) <==> AckSuppressed(n, base)) <==> base < 8
    ensures base >= 8 ==> !AckSuppressedAsWritten(FirstOfBand(base), base) && !Acceptable(FirstOfBand(base), base)
  {
    FirstOfBandIsSuppressed(base);
    var n := FirstOfBand(base);
    assert AckSuppressed(n, base);
    assert base >= 8 ==> base / FREE_WINDOWS > base / WINDOW_SIZE;
  }

  // --- the space test of the datagram ---

  const MAXIMUM_MTU := 4096
  const LARGEST_COMMAND := 48
  const SIZE_MODULUS := 0x1_0000_0000_0000_0000

  /** The MTU less the bytes so far, in unsigned arithmetic of 64 bits. */
  function SpaceLeft(ch: Chamber, mtu: nat): nat
    requires ch.size < SIZE_MODULUS
  {
    if ch.size <= mtu then mtu - ch.size else SIZE_MODULUS - (ch.size - mtu)
  }

  /** The test of the payload is inverted: a command with a payload is taken when its header fits, and
      only one without is tested again, in 16 bits. */
  predicate DoesNotFitAsWritten(ch: Chamber, mtu: nat, b: Body)
    requires ch.size < SIZE_MODULUS
  {
    || ch.commands >= CHAMBER_COMMANDS
    || ch.buffers + 1 >= CHAMBER_BUFFERS
    || SpaceLeft(ch, mtu) < CommandSize(b)
    || (b.Control? && SpaceLeft(ch, mtu) % 0x10000 < (CommandSize(b) + Length(b)) % 0x10000)
  }

  /** When the test errs: the header of a payload fits and the payload does not; or the datagram has been
      overrun already, and the space left has wrapped round to more than enough. */
  predicate SpaceTestErrs(ch: Chamber, mtu: nat, b: Body)
    requires ch.size < SIZE_MODULUS
  {
    if ch.size <= mtu then
      !b.Control? && ch.size + CommandSize(b) <= mtu < ch.size + CommandSize(b) + Length(b)
    else
      CommandSize(b) <= SpaceLeft(ch, mtu) && (b.Control? ==> CommandSize(b) <= SpaceLeft(ch, mtu) % 0x10000)
  }

  /** With the MTU at most 4096 and command headers of at most 48 bytes, as they are. */
  lemma SpaceTestIsRightIff(ch: Chamber, mtu: nat, b: Body)
    requires ch.commands < CHAMBER_COMMANDS && ch.buffers + 1 < CHAMBER_BUFFERS && ch.size < SIZE_MODULUS
    requires mtu <= MAXIMUM_MTU && CommandSize(b) <= LARGEST_COMMAND
    ensures (DoesNotFitAsWritten(ch, mtu, b) <==> DoesNotFit(ch, mtu, b)) <==> !SpaceTestErrs(ch, mtu, b)
  {
  }

  /** The bytes that the commands take. */
  function Weight(bs: seq<Body>): nat {
    if bs == [] then 0 else CommandSize(bs[0]) + Length(bs[0]) + Weight(bs[1..])
  }

  /** How many of the commands the loading loop takes before it stops. */
  function TakenAsWritten(ch: Chamber, mtu: nat, bs: seq<Body>): nat
    requires ch.size + Weight(bs) < SIZE_MODULUS
    decreases |bs|
  {
    if bs == [] || DoesNotFitAsWritten(ch, mtu, bs[0]) then 0
    else
      var t := TakeSlots(ch);
      1 + TakenAsWritten(t.(size := ch.size + CommandSize(bs[0]) + Length(bs[0]),
                            buffers := if bs[0].Control? then t.buffers else t.buffers + 1), mtu, bs[1..])
  }

  /** Once the datagram is overrun, by less than 2^16 - 48 bytes in all, nothing but the lack of slots
      stops the loop: everything that waits is taken. */
  lemma {:induction false} OverrunTakesAll(ch: Chamber, mtu: nat, bs: seq<Body>)
    requires mtu < ch.size && ch.size + Weight(bs) <= mtu + 0x10000 - LARGEST_COMMAND
    requires ch.commands + |bs| <= CHAMBER_COMMANDS && ch.buffers <= 1 + 2 * ch.commands
    requires mtu <= MAXIMUM_MTU && forall i :: 0 <= i < |bs| ==> CommandSize(bs[i]) <= LARGEST_COMMAND
    ensures TakenAsWritten(ch, mtu, bs) == |bs|
    decreases |bs|
  {
    if bs != [] {
      OverrunTakes(ch, mtu, bs[0]);
      var t := TakeSlots(ch);
      OverrunTakesAll(t.(size := ch.size + CommandSize(bs[0]) + Length(bs[0]),
                         buffers := if bs[0].Control? then t.buffers else t.buffers + 1), mtu, bs[1..]);
    }
  }

  lemma OverrunTakes(ch: Chamber, mtu: nat, b: Body)
    requires mtu < ch.size <= mtu + 0x10000 - LARGEST_COMMAND && mtu <= MAXIMUM_MTU && CommandSize(b) <= LARGEST_COMMAND
    requires ch.commands < CHAMBER_COMMANDS && ch.buffers <= 1 + 2 * ch.commands
    ensures !DoesNotFitAsWritten(ch, mtu, b)
  {
    assert SpaceLeft(ch, mtu) % 0x10000 == 0x10000 - (ch.size - mtu);
  }

  /** First a payload is taken that does not fit; then, in the datagram that this makes, another. */
  lemma SpaceTestFails()
    ensures var ch, b, c := Chamber(1, 3, 1390, false), Whole(seq(100, _ => 0)), Whole(seq(10, _ => 0));
            var overrun := Chamber(2, 5, ch.size + CommandSize(b) + Length(b), false);
            && overrun.size == 1496
            && DoesNotFit(ch, 1400, b) && !DoesNotFitAsWritten(ch, 1400, b)
            && DoesNotFit(overrun, 1400, c) && !DoesNotFitAsWritten(overrun, 1400, c)
  {
  }

  // --- requeueing what has timed out: copied, not moved ---

  function RequeueAsWritten(p: State, i: nat): State
    requires i < |p.sent|
  {
    var d := Books.Slower(p.sent[i]);
    p.(outgoing := [d] + p.outgoing, sent := p.sent[i := d], inTransit := p.inTransit - Length(p.sent[i].body))
  }

  function ExpireAsWritten(s: Expiring, now: uint32, limits: Limits): Expiring
    requires s.disconnect || s.next <= |s.pod.sent|
    decreases if s.disconnect then 0 else |s.pod.sent| - s.next
  {
    if s.disconnect || s.next == |s.pod.sent| then s
    else
      var c := s.pod.sent[s.next];
      if !Expired(c, now) then ExpireAsWritten(s.(next := s.next + 1), now, limits)
      else
        var earliest := EarliestOf(s.pod.earliestTimeout, c);
        var p := s.pod.(earliestTimeout := earliest);
        if GiveUp(c, earliest, now, limits) then s.(pod := p, disconnect := true)
        else ExpireAsWritten(Expiring(RequeueAsWritten(p, s.next), s.next + 1, s.lost + 1, false), now, limits)
  }

  /** The first command that has timed out, if there is one, makes the peer be given up. */
  predicate NothingMoves(sent: seq<Outgoing>, i: nat, earliest: uint32, now: uint32, limits: Limits)
    requires i <= |sent|
    decreases |sent| - i
  {
    || i == |sent|
    || (if Expired(sent[i], now) then GiveUp(sent[i], EarliestOf(earliest, sent[i]), now, limits)
        else NothingMoves(sent, i + 1, earliest, now, limits))
  }

  /** Copying only ever adds to what is waiting. */
  lemma {:induction false} CopiesStay(s: Expiring, now: uint32, limits: Limits, f: Outgoing -> nat)
    requires s.disconnect || s.next <= |s.pod.sent|
    requires forall c :: f(Books.Slower(c)) == f(c)
    ensures Books.Total(ExpireAsWritten(s, now, limits).pod, f) >= Books.Total(s.pod, f)
    decreases if s.disconnect then 0 else |s.pod.sent| - s.next
  {
    if !s.disconnect && s.next < |s.pod.sent| {
      var c := s.pod.sent[s.next];
      if !Expired(c, now) {
        CopiesStay(s.(next := s.next + 1), now, limits, f);
      } else {
        var p := s.pod.(earliestTimeout := EarliestOf(s.pod.earliestTimeout, c));
        if !GiveUp(c, p.earliestTimeout, now, limits) {
          CopyCounts(p, s.next, f);
          CopiesStay(Expiring(RequeueAsWritten(p, s.next), s.next + 1, s.lost + 1, false), now, limits, f);
        }
      }
    }
  }

  lemma CopyCounts(p: State, i: nat, f: Outgoing -> nat)
    requires i < |p.sent| && forall c :: f(Books.Slower(c)) == f(c)
    ensures Books.Total(RequeueAsWritten(p, i), f) == Books.Total(p, f) + f(p.sent[i])
  {
    var d := Books.Slower(p.sent[i]);
    Books.SumPrepend(p.outgoing, d, f);
    SumUpdate(p.sent, i, d, f);
  }

  lemma {:induction false} SumUpdate(s: seq<Outgoing>, i: nat, d: Outgoing, f: Outgoing -> nat)
    requires i < |s| && f(d) == f(s[i])
    ensures Books.Sum(s[i := d], f) == Books.Sum(s, f)
  {
    if i == 0 {
      assert s[0 := d][1..] == s[1..];
    } else {
      assert s[i := d][1..] == s[1..][i - 1 := d];
      SumUpdate(s[1..], i - 1, d, f);
    }
  }

  /** Every command stays in one place exactly when no command that has timed out is queued again. */
  lemma {:induction false} TimeoutKeepsOnceIff(s: Expiring, now: uint32, limits: Limits)
    requires !s.disconnect && s.next <= |s.pod.sent| && Books.Once(s.pod)
    ensures Books.Once(ExpireAsWritten(s, now, limits).pod) <==>
            NothingMoves(s.pod.sent, s.next, s.pod.earliestTimeout, now, limits)
    decreases |s.pod.sent| - s.next
  {
    if s.next < |s.pod.sent| {
      var c := s.pod.sent[s.next];
      var p := s.pod.(earliestTimeout := EarliestOf(s.pod.earliestTimeout, c));
      if !Expired(c, now) {
        TimeoutKeepsOnceIff(s.(next := s.next + 1), now, limits);
      } else if GiveUp(c, p.earliestTimeout, now, limits) {
        OnceIgnoresTheClock(s.pod, p);
      } else {
        var f := Books.Named(c.channel, c.serial);
        var t := Expiring(RequeueAsWritten(p, s.next), s.next + 1, s.lost + 1, false);
        CopyCounts(p, s.next, f);
        Books.SumMember(p.sent, s.next, f);
        CopiesStay(t, now, limits, f);
        assert Books.Total(ExpireAsWritten(t, now, limits).pod, f) >= 2;
      }
    }
  }

  lemma OnceIgnoresTheClock(p: State, q: State)
    requires Books.Once(p) && q == p.(earliestTimeout := q.earliestTimeout)
    ensures Books.Once(q)
  {
  }

  // --- acknowledgements of commands that wait to be sent again ---

  /** The flag that leads to the second search is never set, and the next timeout is read before the
      command is taken out. */
  function AcknowledgeAsWritten(p: State, n: uint16, channel: nat): (State, Removal)
    requires WellFormed(p)
  {
    var i := FindSent(p.sent, n, channel);
    if i == |p.sent| then (p, Nothing)
    else
      var q := Retime(Release(p, n, channel));
      (q.(sent := Without(p.sent, i), inTransit := p.inTransit - Length(p.sent[i].body)), Removed(p.sent[i]))
  }

  /** What is removed is right exactly when the command is in the sent list or nowhere; then the lists,
      the counters and the data in transit are right too, and the timeout is unless the first command
      was removed. */
  lemma AcknowledgeIsRightIff(p: State, n: uint16, channel: nat)
    requires WellFormed(p)
    ensures var a, w := Acknowledge(p, n, channel), AcknowledgeAsWritten(p, n, channel);
            var i := FindSent(p.sent, n, channel);
            && (w.1 == a.1 <==> i < |p.sent| || FindRequeued(p.outgoing, n, channel) == |p.outgoing|)
            && (w.1 == a.1 ==> w.0.(nextTimeout := 0) == a.0.(nextTimeout := 0))
            && (w.1 == a.1 && i > 0 ==> w.0 == a.0)
  {
  }

  // --- the next timeout ---

  /** The next timeout is that of the first command in the sent list, which was sent before the others. */
  predicate Deadline(p: State) {
    p.sent != [] ==> p.nextTimeout == Add32(p.sent[0].sentTime, p.sent[0].timeout)
  }

  lemma AcknowledgeSetsDeadline(p: State, n: uint16, channel: nat)
    requires WellFormed(p) && Acknowledge(p, n, channel).1.Removed?
    ensures Deadline(Acknowledge(p, n, channel).0)
  {
  }

  lemma RequeueKeepsDeadline(p: State, i: nat)
    requires Deadline(p) && i < |p.sent|
    ensures Deadline(Requeue(p, i))
  {
  }

  /** Meant: the timeout is set when the sent list was empty. */
  function TransmitAsMeant(p: State, i: nat, env: Env): State
    requires i < |p.outgoing| && WellFormed(p)
  {
    Transmit(p, i, env).(nextTimeout :=
      if p.sent == [] then Add32(env.time, Stamped(p.outgoing[i], env).timeout) else p.nextTimeout)
  }

  /** The text sets it when the list was not empty, so sending keeps the next timeout right exactly when
      the new command times out at the very moment that was set before. */
  lemma SendingKeepsDeadlineIff(p: State, i: nat, env: Env)
    requires Deadline(p) && i < |p.outgoing| && WellFormed(p)
    ensures Deadline(TransmitAsMeant(p, i, env))
    ensures Deadline(Transmit(p, i, env)) <==> p.nextTimeout == Add32(env.time, Stamped(p.outgoing[i], env).timeout)
  {
  }

  // --- fragments kept in the order of arrival ---

  /** The handler tests the bit of a fragment before it appends it, so only first arrivals count. */
  function FirstArrivals(arrivals: seq<nat>): (kept: seq<nat>)
    ensures forall k :: 0 <= k < |kept| ==> kept[k] in arrivals
  {
    if arrivals == [] then []
    else
      var last := |arrivals| - 1;
      var kept := FirstArrivals(arrivals[..last]);
      if arrivals[last] in arrivals[..last] then kept else kept + [arrivals[last]]
  }

  /** The buffer after the fragments named in `arrivals` were appended one after the other. */
  function Appended(m: Message, arrivals: seq<nat>): seq<byte>
    requires forall k :: 0 <= k < |arrivals| ==> arrivals[k] < Count(m)
  {
    if arrivals == [] then []
    else
      var last := |arrivals| - 1;
      Appended(m, arrivals[..last]) + BodyOf(m, 0, arrivals[last]).data
  }

  function InOrder(n: nat): (s: seq<nat>)
    ensures |s| == n && forall k :: 0 <= k < n ==> s[k] == k
  {
    if n == 0 then [] else InOrder(n - 1) + [n - 1]
  }

  lemma {:induction false} InOrderIsParts(m: Message, n: nat)
    requires n <= Count(m)
    ensures Appended(m, InOrder(n)) == Parts(m, n)
  {
    if n > 0 {
      assert InOrder(n)[..n - 1] == InOrder(n - 1);
      InOrderIsParts(m, n - 1);
    }
  }

  /** The number of fragments depends on the length alone. */
  function Blank(length: nat, limit: pos): Message {
    Message(seq(length, _ => 0), limit)
  }

  predicate Within(arrivals: seq<nat>, n: nat) {
    forall k :: 0 <= k < |arrivals| ==> arrivals[k] < n
  }

  ghost predicate Rebuilds(data: seq<byte>, limit: pos, arrivals: seq<nat>)
    requires Within(arrivals, Count(Blank(|data|, limit)))
  {
    Appended(Message(data, limit), arrivals) == data
  }

  /** The arrivals rebuild every message of this length. */
  ghost predicate RebuildsAll(length: nat, limit: pos, arrivals: seq<nat>)
    requires Within(arrivals, Count(Blank(length, limit)))
  {
    forall data: seq<byte> {:trigger Rebuilds(data, limit, arrivals)} :: |data| == length ==> Rebuilds(data, limit, arrivals)
  }

  lemma FirstOutOfOrder(arrivals: seq<nat>, n: nat) returns (k: nat)
    requires arrivals != InOrder(n)
    ensures k <= |arrivals| && k <= n && arrivals[..k] == InOrder(k)
    ensures if k == n then k < |arrivals| else k == |arrivals| || arrivals[k] != k
  {
    k := 0;
    while k < n && k < |arrivals| && arrivals[k] == k
      invariant k <= |arrivals| && k <= n && forall i :: 0 <= i < k ==> arrivals[i] == i
    {
      k := k + 1;
    }
    assert arrivals[..k] == InOrder(k);
  }

  lemma {:induction false} BeginningStays(m: Message, arrivals: seq<nat>, k: nat)
    requires Within(arrivals, Count(m)) && k <= |arrivals|
    ensures Appended(m, arrivals[..k]) <= Appended(m, arrivals)
  {
    var last := |arrivals| - 1;
    if k == |arrivals| {
      assert arrivals[..k] == arrivals;
    } else {
      BeginningStays(m, arrivals[..last], k);
      assert arrivals[..last][..k] == arrivals[..k];
    }
  }

  lemma OneMore(m: Message, arrivals: seq<nat>, k: nat)
    requires Within(arrivals, Count(m)) && k < |arrivals|
    ensures Appended(m, arrivals[..k + 1]) == Appended(m, arrivals[..k]) + BodyOf(m, 0, arrivals[k]).data
  {
    assert arrivals[..k + 1][..k] == arrivals[..k];
  }

  /** Where the in-order beginning ends. */
  lemma InOrderEnds(m: Message, k: nat)
    requires |m.data| > m.limit && k <= Count(m)
    ensures Appended(m, InOrder(k)) == if k < Count(m) then m.data[..Min(Offset(m, k), |m.data|)] else m.data
    ensures k < Count(m) ==> Offset(m, k) < |m.data|
  {
    InOrderIsParts(m, k);
    if k == Count(m) {
      PiecesTile(m);
    } else {
      PieceBounds(m, k);
      if k > 0 {
        PartsArePrefix(m, k);
        PieceBounds(m, k - 1);
      }
    }
  }

  /** A message that shows the fault: one byte set, where fragment `k` begins. */
  function Probe(length: nat, at: nat): (data: seq<byte>)
    ensures |data| == length
  {
    seq(length, i => if i == at then 1 else 0)
  }

  lemma NextByte(whole: seq<byte>, front: seq<byte>, piece: seq<byte>)
    requires front + piece <= whole && piece != []
    ensures |whole| > |front| && whole[|front|] == piece[0]
  {
  }

  lemma FirstByte(m: Message, j: nat)
    requires |m.data| > m.limit && j < Count(m)
    ensures BodyOf(m, 0, j).data != [] && Offset(m, j) < |m.data| && BodyOf(m, 0, j).data[0] == m.data[Offset(m, j)]
  {
    PieceBounds(m, j);
  }

  lemma FrontIsLength(m: Message, k: nat)
    requires |m.data| > m.limit && k <= Count(m)
    ensures |Appended(m, InOrder(k))| == Front(m, k)
  {
    InOrderEnds(m, k);
  }

  /** After the in-order beginning, the byte that follows is the first of the fragment that came. */
  lemma ByteAfterBeginning(m: Message, arrivals: seq<nat>, k: nat)
    requires |m.data| > m.limit && Within(arrivals, Count(m)) && k < |arrivals| && k <= Count(m) && arrivals[..k] == InOrder(k)
    ensures |Appended(m, arrivals)| > Front(m, k) && Offset(m, arrivals[k]) < |m.data|
    ensures Appended(m, arrivals)[Front(m, k)] == m.data[Offset(m, arrivals[k])]
  {
    FrontIsLength(m, k);
    OneMore(m, arrivals, k);
    BeginningStays(m, arrivals, k + 1);
    FirstByte(m, arrivals[k]);
    NextByte(Appended(m, arrivals), Appended(m, InOrder(k)), BodyOf(m, 0, arrivals[k]).data);
  }

  lemma WrongByte(m: Message, arrivals: seq<nat>, k: nat)
    requires |m.data| > m.limit && Within(arrivals, Count(m)) && k < Count(m) && m.data == Probe(|m.data|, k * m.limit)
    requires k < |arrivals| && arrivals[..k] == InOrder(k) && arrivals[k] != k
    ensures Appended(m, arrivals) != m.data
  {
    ByteAfterBeginning(m, arrivals, k);
    ProbeShows(m, arrivals[k], k);
  }

  lemma SameCount(data: seq<byte>, limit: pos)
    ensures Count(Message(data, limit)) == Count(Blank(|data|, limit))
  {
  }

  lemma WrongByteShows(length: nat, limit: pos, arrivals: seq<nat>, k: nat)
    requires length > limit && Within(arrivals, Count(Blank(length, limit))) && k < Count(Blank(length, limit))
    requires k < |arrivals| && arrivals[..k] == InOrder(k) && arrivals[k] != k
    ensures !Rebuilds(Probe(length, k * limit), limit, arrivals)
  {
    SameCount(Probe(length, k * limit), limit);
    WrongByte(Message(Probe(length, k * limit), limit), arrivals, k);
  }

  lemma ProbeShows(m: Message, i: nat, k: nat)
    requires |m.data| > m.limit && k < Count(m) && i != k && Offset(m, i) < |m.data|
    requires m.data == Probe(|m.data|, k * m.limit)
    ensures Front(m, k) < |m.data| && m.data[Front(m, k)] == 1 && m.data[Offset(m, i)] == 0
  {
    PieceBounds(m, k);
    DifferentOffsets(i, k, m.limit);
  }

  lemma TooFewShow(length: nat, limit: pos, k: nat, at: nat)
    requires length > limit && k < Count(Blank(length, limit))
    ensures !Rebuilds(Probe(length, at), limit, InOrder(k))
  {
    var m := Message(Probe(length, at), limit);
    FrontIsLength(m, k);
    PieceBounds(m, k);
  }

  lemma TooManyShow(length: nat, limit: pos, arrivals: seq<nat>, at: nat)
    requires length > limit && Within(arrivals, Count(Blank(length, limit)))
    requires Count(Blank(length, limit)) < |arrivals|
    requires arrivals[..Count(Blank(length, limit))] == InOrder(Count(Blank(length, limit)))
    ensures !Rebuilds(Probe(length, at), limit, arrivals)
  {
    var m := Message(Probe(length, at), limit);
    ByteAfterBeginning(m, arrivals, Count(m));
  }

  lemma OutOfOrderFails(length: nat, limit: pos, arrivals: seq<nat>, k: nat)
    requires length > limit && Within(arrivals, Count(Blank(length, limit)))
    requires k <= |arrivals| && k <= Count(Blank(length, limit)) && arrivals[..k] == InOrder(k)
    requires if k == Count(Blank(length, limit)) then k < |arrivals| else k == |arrivals| || arrivals[k] != k
    ensures !Rebuilds(Probe(length, k * limit), limit, arrivals)
  {
    if k == |arrivals| {
      assert arrivals[..k] == arrivals;
      TooFewShow(length, limit, k, k * limit);
    } else if k == Count(Blank(length, limit)) {
      TooManyShow(length, limit, arrivals, k * limit);
    } else {
      WrongByteShows(length, limit, arrivals, k);
    }
  }

  lemma DifferentOffsets(i: nat, j: nat, l: pos)
    requires i != j
    ensures i * l != j * l
  {
  }

  lemma InTurnIffRebuilt(length: nat, limit: pos, kept: seq<nat>)
    requires length > limit && Within(kept, Count(Blank(length, limit)))
    ensures RebuildsAll(length, limit, kept) <==> kept == InOrder(Count(Blank(length, limit)))
  {
    var n := Count(Blank(length, limit));
    if kept == InOrder(n) {
      forall data: seq<byte> | |data| == length
        ensures Rebuilds(data, limit, kept)
      {
        InOrderEnds(Message(data, limit), n);
      }
    } else {
      var k := FirstOutOfOrder(kept, n);
      OutOfOrderFails(length, limit, kept, k);
    }
  }

  /** Keeping fragments in the order of arrival rebuilds a message of every content exactly when they all
      arrive and each arrives for the first time in its turn, whatever is repeated. */
  lemma ArrivalOrderIsRightIff(length: nat, limit: pos, arrivals: seq<nat>)
    requires length > limit && Within(arrivals, Count(Blank(length, limit)))
    ensures Within(FirstArrivals(arrivals), Count(Blank(length, limit)))
    ensures RebuildsAll(length, limit, FirstArrivals(arrivals)) <==>
            FirstArrivals(arrivals) == InOrder(Count(Blank(length, limit)))
  {
    InTurnIffRebuilt(length, limit, FirstArrivals(arrivals));
  }

  // --- the queue of what was delivered ---

  /** A new batch is put in front of what is waiting. */
  function PushedAsWritten<T>(waiting: seq<T>, batch: seq<T>): seq<T> {
    batch + waiting
  }

  /** With segments that are told apart, the order of delivery is kept exactly when nothing was waiting
      or nothing has come. */
  lemma PushKeepsOrderIff<T>(waiting: seq<T>, batch: seq<T>)
    requires forall i, j :: 0 <= i < |waiting| && 0 <= j < |batch| ==> waiting[i] != batch[j]
    ensures PushedAsWritten(waiting, batch) == waiting + batch <==> waiting == [] || batch == []
  {
    if waiting != [] && batch != [] {
      assert (batch + waiting)[0] == batch[0] && (waiting + batch)[0] == waiting[0];
    }
  }
}
