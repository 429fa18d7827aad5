/** The receiving half of a channel: the list of reliable commands that wait for their turn. */
module Inbox {
  import opened Numbers
  import opened Fragments

  /** `entries` is `incoming_reliable_commands_`, `incoming` the number of the last command
      delivered. */
  datatype Queue = Queue(entries: seq<Entry>, incoming: uint16)

  function DistanceOf(e: Entry, base: uint16): nat {
    Distance(e.number, base)
  }

  // --- insertion ---

  /** One step of the backward walk: does the entry numbered `m` come after a new number `n`,
      both counted from `base`? Written as the three comparisons that the walk makes. */
  predicate ComesAfter(m: uint16, n: uint16, base: uint16) {
    if n >= base && m < base then true
    else if n < base && m >= base then false
    else m > n
  }

  /** The comparisons compare the distances from the base. */
  lemma ComesAfterIsModular(m: uint16, n: uint16, base: uint16)
    ensures ComesAfter(m, n, base) <==> Distance(m, base) > Distance(n, base)
  {
  }

  /** Where the walk from the back stops: behind the last entry that does not come after `n`. */
  function Position(entries: seq<Entry>, n: uint16, base: uint16): (p: nat)
    ensures p <= |entries|
  {
    if entries == [] then 0
    else if ComesAfter(entries[|entries| - 1].number, n, base) then Position(entries[..|entries| - 1], n, base)
    else |entries|
  }

  function InsertAt(entries: seq<Entry>, p: nat, e: Entry): seq<Entry>
    requires p <= |entries|
  {
    entries[..p] + [e] + entries[p..]
  }

  /** `QueueIncomingCommand` for a reliable command: out of the window, equal to the number
      delivered last, or already in the list means it is discarded. */
  predicate Wanted(q: Queue, n: uint16) {
    && Acceptable(n, q.incoming)
    && n != q.incoming
    && var p := Position(q.entries, n, q.incoming);
       !(p > 0 && q.entries[p - 1].number == n)
  }

  function Insert(q: Queue, e: Entry): Queue {
    if Wanted(q, e.number)
    then q.(entries := InsertAt(q.entries, Position(q.entries, e.number, q.incoming), e))
    else q
  }

  // --- delivery ---

  /** The next entry can be delivered: it is complete and carries the 16-bit successor of the
      number delivered last. */
  predicate Ready(q: Queue) {
    && q.entries != []
    && q.entries[0].remaining == 0
    && q.entries[0].number == Successor(q.incoming)
  }

  /** The numbers that an entry takes: one, or one for each fragment. */
  function Span(e: Entry): nat {
    if e.count > 0 then e.count else 1
  }

  function AfterDelivery(q: Queue): Queue
    requires Ready(q)
  {
    Queue(q.entries[1..], Low16(q.entries[0].number + Span(q.entries[0]) - 1))
  }

  /** `NewIncomingReliableCommands`: the entries delivered and the list that is left. */
  function Drain(q: Queue): (r: (Queue, seq<Entry>))
    decreases |q.entries|
  {
    if Ready(q) then
      var rest := Drain(AfterDelivery(q));
      (rest.0, [q.entries[0]] + rest.1)
    else (q, [])
  }

  // --- fragments ---

  /** The entry with this number, or the length of the list. */
  function Find(entries: seq<Entry>, n: uint16): (i: nat)
    ensures i <= |entries|
    ensures i < |entries| ==> entries[i].number == n
    ensures forall k :: 0 <= k < i ==> entries[k].number != n
  {
    if entries == [] then 0
    else if entries[0].number == n then 0
    else 1 + Find(entries[1..], n)
  }

  /** What `ExtractFirstCommand` returns: no entry, an entry that cannot belong to the fragment, or the
      entry that it belongs to. */
  datatype Lookup = Missing | Mismatch | Found(at: nat)

  /** Meant: the entry whose number is the start number and whose total length and count match. */
  function FindEntry(entries: seq<Entry>, start: uint16, total: nat, count: nat): (r: Lookup)
    ensures r.Found? ==> r.at < |entries| && r.at == Find(entries, start)
  {
    var i := Find(entries, start);
    if i == |entries| then Missing
    else if entries[i].count != count || |entries[i].buffer| != total then Mismatch
    else Found(i)
  }

  datatype Outcome = Ok | Error

  /** `HandleSendFragment`: the list, the entries delivered, and whether the command was in order. */
  function ReceivePiece(q: Queue, b: Body): (Queue, seq<Entry>, Outcome)
    requires b.Piece?
  {
    if !Acceptable(b.start, q.incoming) then (q, [], Ok)
    else if !PieceValid(b) then (q, [], Error)
    else
      match FindEntry(q.entries, b.start, b.total, b.count)
      case Missing =>
        var e := EmptyEntry(b.start, b.count, b.total);
        if Wanted(q, b.start) then (Insert(q, Accept(e, b)), [], Ok) else (q, [], Error)
      case Mismatch => (q, [], Error)
      case Found(i) =>
        var e := q.entries[i];
        if |e.marks| < e.count then (q, [], Error)
        else if e.marks[b.index] || e.remaining == 0 then (q, [], Ok)
        else
          var filled := q.(entries := q.entries[i := Accept(e, b)]);
          if filled.entries[i].remaining == 0 then
            var d := Drain(filled);
            (d.0, d.1, Ok)
          else (filled, [], Ok)
  }

  /** `HandleSendReliable` when the peer takes commands in. */
  function ReceiveWhole(q: Queue, n: uint16, data: seq<byte>): (Queue, seq<Entry>) {
    Drain(Insert(q, WholeEntry(n, data)))
  }

  // --- order of the list ---

  /** Strictly increasing in distance from the number delivered last, each entry clear of the
      numbers that the one before it takes, and all inside the acceptance window. */
  ghost predicate Ordered(q: Queue) {
    && (forall i {:trigger DistanceOf(q.entries[i], q.incoming)} :: 0 <= i < |q.entries| ==>
          1 <= DistanceOf(q.entries[i], q.incoming) < 0x7000)
    && (forall i, j {:trigger DistanceOf(q.entries[i], q.incoming), DistanceOf(q.entries[j], q.incoming)} ::
          0 <= i < j < |q.entries| ==>
          DistanceOf(q.entries[i], q.incoming) + Span(q.entries[i]) <= DistanceOf(q.entries[j], q.incoming))
  }

  /** The new entry does not overlap the ones in the list; whole segments never do. */
  ghost predicate Clear(q: Queue, e: Entry) {
    forall i :: 0 <= i < |q.entries| ==>
      var d, f := DistanceOf(q.entries[i], q.incoming), DistanceOf(e, q.incoming);
      d == f || d + Span(q.entries[i]) <= f || f + Span(e) <= d
  }

  /** The walk stops between the entries that come before and those that come after. */
  lemma {:induction false} PositionSplits(entries: seq<Entry>, n: uint16, base: uint16)
    requires forall i, j :: 0 <= i < j < |entries| ==> DistanceOf(entries[i], base) < DistanceOf(entries[j], base)
    ensures var p := Position(entries, n, base);
            && (forall i :: 0 <= i < p ==> DistanceOf(entries[i], base) <= Distance(n, base))
            && (forall i :: p <= i < |entries| ==> DistanceOf(entries[i], base) > Distance(n, base))
  {
    if entries != [] {
      var last := |entries| - 1;
      ComesAfterIsModular(entries[last].number, n, base);
      if ComesAfter(entries[last].number, n, base) {
        PositionSplits(entries[..last], n, base);
      }
    }
  }

  /** A number is discarded as a duplicate exactly when it is in the list. */
  lemma WantedIffNew(q: Queue, n: uint16)
    requires Ordered(q)
    ensures Wanted(q, n) <==>
            Acceptable(n, q.incoming) && n != q.incoming && forall i :: 0 <= i < |q.entries| ==> q.entries[i].number != n
  {
    var p := Position(q.entries, n, q.incoming);
    PositionSplits(q.entries, n, q.incoming);
    forall i: nat | i + 1 < p
      ensures q.entries[i].number != n
    {
      assert DistanceOf(q.entries[i], q.incoming) < DistanceOf(q.entries[p - 1], q.incoming);
    }
  }

  /** Where the new entry goes, what is before it ends before it and what is behind it
      begins behind it. */
  lemma FitsIn(q: Queue, e: Entry)
    requires Ordered(q) && Clear(q, e) && Wanted(q, e.number)
    ensures var p := Position(q.entries, e.number, q.incoming);
            && 1 <= DistanceOf(e, q.incoming) < 0x7000
            && (forall i :: 0 <= i < p ==>
                  DistanceOf(q.entries[i], q.incoming) + Span(q.entries[i]) <= DistanceOf(e, q.incoming))
            && (forall i :: p <= i < |q.entries| ==>
                  DistanceOf(e, q.incoming) + Span(e) <= DistanceOf(q.entries[i], q.incoming))
  {
    WantedIffNew(q, e.number);
    AcceptanceWindow(e.number, q.incoming);
    PositionSplits(q.entries, e.number, q.incoming);
    forall i | 0 <= i < |q.entries|
      ensures DistanceOf(q.entries[i], q.incoming) != DistanceOf(e, q.incoming)
    {
      assert q.entries[i].number != e.number;
    }
  }

  /** Insertion keeps the list ordered. */
  lemma InsertKeepsOrder(q: Queue, e: Entry)
    requires Ordered(q) && Clear(q, e)
    ensures Ordered(Insert(q, e))
  {
    if Wanted(q, e.number) {
      FitsIn(q, e);
      var p := Position(q.entries, e.number, q.incoming);
      var r := Insert(q, e);
      forall i | 0 <= i < |r.entries|
        ensures 1 <= DistanceOf(r.entries[i], q.incoming) < 0x7000
      {
        InsertedAt(q.entries, p, e, i);
      }
      forall i, j | 0 <= i < j < |r.entries|
        ensures DistanceOf(r.entries[i], q.incoming) + Span(r.entries[i]) <= DistanceOf(r.entries[j], q.incoming)
      {
        InsertedAt(q.entries, p, e, i);
        InsertedAt(q.entries, p, e, j);
      }
    }
  }

  lemma InsertedAt(entries: seq<Entry>, p: nat, e: Entry, i: nat)
    requires p <= |entries| && i <= |entries|
    ensures InsertAt(entries, p, e)[i] == if i < p then entries[i] else if i == p then e else entries[i - 1]
  {
  }

  /** One delivery moves the base by the span of the entry and keeps the list ordered. */
  lemma DeliveryKeepsOrder(q: Queue)
    requires Ordered(q) && Ready(q)
    ensures Ordered(AfterDelivery(q))
    ensures forall i :: 1 <= i < |q.entries| ==>
              DistanceOf(q.entries[i], AfterDelivery(q).incoming) == DistanceOf(q.entries[i], q.incoming) - Span(q.entries[0])
  {
    var r, s := AfterDelivery(q), Span(q.entries[0]);
    forall i | 1 <= i < |q.entries|
      ensures DistanceOf(q.entries[i], r.incoming) == DistanceOf(q.entries[i], q.incoming) - s
      ensures DistanceOf(q.entries[i], r.incoming) >= 1
    {
      assert DistanceOf(q.entries[0], q.incoming) + s <= DistanceOf(q.entries[i], q.incoming);
      RebaseDistance(q.entries[i].number, q.incoming, s);
    }
    forall i, j | 0 <= i < j < |r.entries|
      ensures DistanceOf(r.entries[i], r.incoming) + Span(r.entries[i]) <= DistanceOf(r.entries[j], r.incoming)
    {
      assert r.entries[i] == q.entries[i + 1] && r.entries[j] == q.entries[j + 1];
    }
  }

  lemma RebaseDistance(n: uint16, base: uint16, step: nat)
    requires step <= Distance(n, base)
    ensures Distance(n, Low16(base + step)) == Distance(n, base) - step
  {
  }

  /** Draining keeps the list ordered, however many entries it delivers, and stops only
      when the next entry is not ready. */
  lemma {:induction false} DrainKeepsOrder(q: Queue)
    requires Ordered(q)
    ensures Ordered(Drain(q).0) && !Ready(Drain(q).0)
    decreases |q.entries|
  {
    if Ready(q) {
      DeliveryKeepsOrder(q);
      var r := AfterDelivery(q);
      DrainKeepsOrder(r);
      assert Drain(q).0 == Drain(r).0;
    } else {
      assert Drain(q).0 == q;
    }
  }

  /** What is delivered is a prefix of the list, what is left is the rest. */
  lemma {:induction false} DrainSplits(q: Queue)
    ensures q.entries == Drain(q).1 + Drain(q).0.entries
    decreases |q.entries|
  {
    if Ready(q) {
      DrainSplits(AfterDelivery(q));
      HeadAndRest(q.entries, Drain(AfterDelivery(q)).1, Drain(AfterDelivery(q)).0.entries);
    }
  }

  lemma HeadAndRest(s: seq<Entry>, a: seq<Entry>, b: seq<Entry>)
    requires s != [] && s[1..] == a + b
    ensures s == ([s[0]] + a) + b
  {
  }

  // --- when a fragment is refused ---

  /** A fragment is refused exactly when its start number is acceptable and its header is out of bounds, or
      the entry with that number is of another shape, or the number is that of the command delivered last.
      One that is refused changes nothing. */
  lemma PieceIsRefusedIff(q: Queue, b: Body)
    requires Ordered(q) && b.Piece?
    ensures ReceivePiece(q, b).2 == Error <==>
            && Acceptable(b.start, q.incoming)
            && (|| b.count > 0x10_0000 || b.index >= b.count || b.total > 0x200_0000 || b.offset + |b.data| > b.total
                || b.offset == b.total || b.start == q.incoming
                || exists i :: 0 <= i < |q.entries| && q.entries[i].number == b.start
                               && (q.entries[i].count != b.count || |q.entries[i].buffer| != b.total
                                   || |q.entries[i].marks| < b.count))
    ensures ReceivePiece(q, b).2 == Error ==> ReceivePiece(q, b).0 == q && ReceivePiece(q, b).1 == []
  {
    WantedIffNew(q, b.start);
    var i := Find(q.entries, b.start);
    forall j | 0 <= j < |q.entries| && q.entries[j].number == b.start
      ensures j == i && b.start != q.incoming
    {
      assert DistanceOf(q.entries[j], q.incoming) == DistanceOf(q.entries[i], q.incoming) >= 1;
    }
  }
}
