/** The receiving end of a channel against what the sender meant: `base` is the serial of the
    last command delivered, of which the program holds only 16 bits. */
module Receiver {
  import opened Numbers
  import opened Fragments
  import opened Inbox

  // --- the commands of a sequence of messages ---

  /** The serial of the first command of message `k`. */
  function First(ms: seq<Message>, k: nat): (s: nat)
    requires k <= |ms|
    ensures s >= 1
  {
    if k == 0 then 1 else First(ms, k - 1) + Count(ms[k - 1])
  }

  lemma {:induction false} FirstIncreases(ms: seq<Message>, j: nat, k: nat)
    requires j < k <= |ms|
    ensures First(ms, j) + Count(ms[j]) <= First(ms, k)
  {
    if j + 1 < k {
      FirstIncreases(ms, j, k - 1);
    }
  }

  lemma {:induction false} FirstExtends(ms: seq<Message>, m: Message, k: nat)
    requires k <= |ms|
    ensures First(ms + [m], k) == First(ms, k)
  {
    if k > 0 {
      FirstExtends(ms, m, k - 1);
    }
  }

  /** The body is command `i` of message `k` and carries this serial. */
  ghost predicate At(ms: seq<Message>, k: nat, i: nat, serial: nat, body: Body) {
    && k < |ms|
    && i < Count(ms[k])
    && serial == First(ms, k) + i
    && body == BodyOf(ms[k], First(ms, k), i)
  }

  ghost predicate Numbered(ms: seq<Message>, serial: nat, body: Body) {
    exists k: nat, i: nat :: At(ms, k, i, serial, body)
  }

  predicate Sendable(m: Message) {
    |m.data| <= MAXIMUM_SEGMENT_SIZE && Count(m) <= MAXIMUM_FRAGMENT_COUNT
  }

  // --- the receiver's state ---

  datatype View = View(queue: Queue, base: nat, delivered: seq<seq<byte>>)

  function SerialOf(v: View, e: Entry): nat {
    v.base + DistanceOf(e, v.queue.incoming)
  }

  ghost predicate IsWhole(m: Message) {
    |m.data| <= m.limit
  }

  /** The entry belongs to message `k`: the whole of it, or the pieces that have come in, none of
      which the sender has yet to send. */
  ghost predicate EntryFor(ms: seq<Message>, highest: int, v: View, e: Entry, k: nat) {
    && k < |ms|
    && First(ms, k) == SerialOf(v, e)
    && if IsWhole(ms[k])
       then e == WholeEntry(e.number, ms[k].data) && First(ms, k) <= highest
       else Filling(e, ms[k]) && forall j :: 0 <= j < e.count && e.marks[j] ==> First(ms, k) + j <= highest
  }

  ghost predicate Known(ms: seq<Message>, highest: int, v: View, e: Entry) {
    exists k :: |v.delivered| <= k < |ms| && EntryFor(ms, highest, v, e, k)
  }

  /** What has been delivered is a prefix of what was sent, and the list holds later messages. */
  ghost predicate Faithful(ms: seq<Message>, highest: int, v: View) {
    && v.queue.incoming == Low16(v.base)
    && v.base <= highest
    && |v.delivered| <= |ms|
    && v.base + 1 == First(ms, |v.delivered|)
    && (forall i :: 0 <= i < |v.delivered| ==> v.delivered[i] == ms[i].data)
    && Ordered(v.queue)
    && (forall i :: 0 <= i < |v.queue.entries| ==> Known(ms, highest, v, v.queue.entries[i]))
  }

  /** The command with this serial has been stored or delivered. */
  ghost predicate InEntry(v: View, e: Entry, serial: nat) {
    var f := SerialOf(v, e);
    if e.count == 0 then serial == f
    else f <= serial && serial - f < e.count && serial - f < |e.marks| && e.marks[serial - f]
  }

  ghost predicate Received(v: View, serial: nat) {
    serial <= v.base || exists i :: 0 <= i < |v.queue.entries| && InEntry(v, v.queue.entries[i], serial)
  }

  // --- delivery ---

  function Spans(out: seq<Entry>): nat {
    if out == [] then 0 else Span(out[0]) + Spans(out[1..])
  }

  function Buffers(out: seq<Entry>): seq<seq<byte>> {
    seq(|out|, i requires 0 <= i < |out| => out[i].buffer)
  }

  function Drained(v: View): View {
    var d := Drain(v.queue);
    View(d.0, v.base + Spans(d.1), v.delivered + Buffers(d.1))
  }

  function DeliverOne(v: View): View
    requires Ready(v.queue)
  {
    View(AfterDelivery(v.queue), v.base + Span(v.queue.entries[0]), v.delivered + [v.queue.entries[0].buffer])
  }

  lemma DrainedUnfolds(v: View)
    ensures Ready(v.queue) ==> Drained(v) == Drained(DeliverOne(v))
    ensures !Ready(v.queue) ==> Drained(v) == v
  {
    var d := Drain(v.queue);
    if Ready(v.queue) {
      var rest := Drain(AfterDelivery(v.queue));
      assert d.1 == [v.queue.entries[0]] + rest.1;
      assert d.1[1..] == rest.1;
      assert Buffers(d.1) == [v.queue.entries[0].buffer] + Buffers(rest.1);
    } else {
      assert Buffers(d.1) == [];
    }
  }

  /** The entry that is next in turn is the next message, complete. */
  lemma ReadyIsNext(ms: seq<Message>, highest: int, v: View)
    requires Faithful(ms, highest, v) && Ready(v.queue)
    ensures var e, g := v.queue.entries[0], |v.delivered|;
            && g < |ms| && EntryFor(ms, highest, v, e, g)
            && SerialOf(v, e) == v.base + 1
            && e.buffer == ms[g].data && Span(e) == Count(ms[g])
            && v.base + Span(e) <= highest
  {
    var e, g := v.queue.entries[0], |v.delivered|;
    assert Known(ms, highest, v, e);
    var k :| g <= k < |ms| && EntryFor(ms, highest, v, e, k);
    if g < k { FirstIncreases(ms, g, k); }
    if !IsWhole(ms[k]) {
      CompleteIsMessage(e, ms[k]);
      CompleteIffAllMarked(e);
      assert e.marks[e.count - 1];
    }
  }

  lemma SerialMoves(v: View, i: nat)
    requires Ordered(v.queue) && Ready(v.queue) && 1 <= i < |v.queue.entries|
    requires v.queue.incoming == Low16(v.base)
    ensures SerialOf(DeliverOne(v), v.queue.entries[i]) == SerialOf(v, v.queue.entries[i])
    ensures SerialOf(v, v.queue.entries[i]) >= SerialOf(v, v.queue.entries[0]) + Span(v.queue.entries[0])
  {
    DeliveryKeepsOrder(v.queue);
  }

  lemma KnownMoves(ms: seq<Message>, highest: int, v: View, i: nat)
    requires Faithful(ms, highest, v) && Ready(v.queue) && 1 <= i < |v.queue.entries|
    ensures Known(ms, highest, DeliverOne(v), v.queue.entries[i])
  {
    var w, e, g := DeliverOne(v), v.queue.entries[i], |v.delivered|;
    ReadyIsNext(ms, highest, v);
    SerialMoves(v, i);
    assert Known(ms, highest, v, e);
    var k :| g <= k < |ms| && EntryFor(ms, highest, v, e, k);
    assert EntryFor(ms, highest, w, e, k) && k != g;
  }

  lemma DeliverOneKeepsFaithful(ms: seq<Message>, highest: int, v: View)
    requires Faithful(ms, highest, v) && Ready(v.queue)
    ensures Faithful(ms, highest, DeliverOne(v))
  {
    var w, g := DeliverOne(v), |v.delivered|;
    forall i | 0 <= i < |w.queue.entries|
      ensures Known(ms, highest, w, w.queue.entries[i])
    {
      KnownMoves(ms, highest, v, i + 1);
      assert w.queue.entries[i] == v.queue.entries[i + 1];
    }
    ReadyIsNext(ms, highest, v);
    assert w.base + 1 == First(ms, g + 1);
    DeliveryKeepsOrder(v.queue);
    NextIncoming(v);
  }

  lemma NextIncoming(v: View)
    requires v.queue.incoming == Low16(v.base) && Ready(v.queue)
    ensures DeliverOne(v).queue.incoming == Low16(v.base + Span(v.queue.entries[0]))
  {
  }

  lemma DeliverOneKeepsReceived(ms: seq<Message>, highest: int, v: View, serial: nat)
    requires Faithful(ms, highest, v) && Ready(v.queue) && Received(v, serial)
    ensures Received(DeliverOne(v), serial)
  {
    var w := DeliverOne(v);
    ReadyIsNext(ms, highest, v);
    if serial > w.base {
      var i :| 0 <= i < |v.queue.entries| && InEntry(v, v.queue.entries[i], serial);
      assert i > 0;
      SerialMoves(v, i);
      assert w.queue.entries[i - 1] == v.queue.entries[i];
      assert InEntry(w, w.queue.entries[i - 1], serial);
    }
  }

  lemma {:induction false} DrainedKeepsFaithful(ms: seq<Message>, highest: int, v: View)
    requires Faithful(ms, highest, v)
    ensures Faithful(ms, highest, Drained(v)) && !Ready(Drained(v).queue)
    ensures Drained(v).base >= v.base && |Drained(v).delivered| >= |v.delivered|
    decreases |v.queue.entries|
  {
    DrainedUnfolds(v);
    if Ready(v.queue) {
      DeliverOneKeepsFaithful(ms, highest, v);
      DrainedKeepsFaithful(ms, highest, DeliverOne(v));
    }
  }

  lemma {:induction false} DrainedKeepsReceived(ms: seq<Message>, highest: int, v: View, serial: nat)
    requires Faithful(ms, highest, v) && Received(v, serial)
    ensures Received(Drained(v), serial)
    decreases |v.queue.entries|
  {
    DrainedUnfolds(v);
    if Ready(v.queue) {
      DeliverOneKeepsFaithful(ms, highest, v);
      DeliverOneKeepsReceived(ms, highest, v, serial);
      DrainedKeepsReceived(ms, highest, DeliverOne(v), serial);
    }
  }

  // --- arrival ---

  function WithQueue(v: View, q: Queue): View {
    v.(queue := q)
  }

  /** Entries of messages that are both ahead of the base do not overlap. */
  lemma KnownIsClear(ms: seq<Message>, highest: int, v: View, e: Entry, k: nat)
    requires Faithful(ms, highest, v) && EntryFor(ms, highest, v, e, k)
    ensures Clear(v.queue, e)
  {
    forall i | 0 <= i < |v.queue.entries|
      ensures var d, f := DistanceOf(v.queue.entries[i], v.queue.incoming), DistanceOf(e, v.queue.incoming);
              d == f || d + Span(v.queue.entries[i]) <= f || f + Span(e) <= d
    {
      var x := v.queue.entries[i];
      assert Known(ms, highest, v, x);
      var l :| |v.delivered| <= l < |ms| && EntryFor(ms, highest, v, x, l);
      assert Span(x) == Count(ms[l]) && Span(e) == Count(ms[k]);
      if l < k { FirstIncreases(ms, l, k); } else if k < l { FirstIncreases(ms, k, l); }
    }
  }

  /** Entries with the same number belong to the same message. */
  lemma SameNumberSameMessage(ms: seq<Message>, highest: int, v: View, e: Entry, k: nat, n: uint16)
    requires Faithful(ms, highest, v) && Known(ms, highest, v, e) && e.number == n
    requires k < |ms| && First(ms, k) == v.base + Distance(n, v.queue.incoming)
    ensures EntryFor(ms, highest, v, e, k)
  {
    var l :| |v.delivered| <= l < |ms| && EntryFor(ms, highest, v, e, l);
    if l < k { FirstIncreases(ms, l, k); } else if k < l { FirstIncreases(ms, k, l); }
  }

  lemma InsertKeepsFaithful(ms: seq<Message>, highest: int, v: View, e: Entry, k: nat)
    requires Faithful(ms, highest, v) && |v.delivered| <= k < |ms| && EntryFor(ms, highest, v, e, k)
    ensures Faithful(ms, highest, WithQueue(v, Insert(v.queue, e)))
  {
    KnownIsClear(ms, highest, v, e, k);
    InsertKeepsOrder(v.queue, e);
    var w := WithQueue(v, Insert(v.queue, e));
    if Wanted(v.queue, e.number) {
      var p := Position(v.queue.entries, e.number, v.queue.incoming);
      forall i | 0 <= i < |w.queue.entries|
        ensures Known(ms, highest, w, w.queue.entries[i])
      {
        InsertedAt(v.queue.entries, p, e, i);
        var x := w.queue.entries[i];
        if i == p {
          assert EntryFor(ms, highest, w, x, k);
        } else {
          assert Known(ms, highest, v, x);
          var l :| |v.delivered| <= l < |ms| && EntryFor(ms, highest, v, x, l);
          assert EntryFor(ms, highest, w, x, l);
        }
      }
    }
  }

  lemma InsertKeepsReceived(v: View, e: Entry, serial: nat)
    requires Received(v, serial)
    ensures Received(WithQueue(v, Insert(v.queue, e)), serial)
  {
    var w := WithQueue(v, Insert(v.queue, e));
    if serial > v.base && Wanted(v.queue, e.number) {
      var p := Position(v.queue.entries, e.number, v.queue.incoming);
      var i :| 0 <= i < |v.queue.entries| && InEntry(v, v.queue.entries[i], serial);
      var j := if i < p then i else i + 1;
      InsertedAt(v.queue.entries, p, e, j);
      assert InEntry(w, w.queue.entries[j], serial);
    }
  }

  lemma InsertReceives(v: View, e: Entry, serial: nat)
    requires Wanted(v.queue, e.number) && InEntry(v, e, serial)
    ensures Received(WithQueue(v, Insert(v.queue, e)), serial)
  {
    var w := WithQueue(v, Insert(v.queue, e));
    var p := Position(v.queue.entries, e.number, v.queue.incoming);
    InsertedAt(v.queue.entries, p, e, p);
    assert InEntry(w, w.queue.entries[p], serial);
  }

  // --- a whole segment arrives ---

  function ArrivedWhole(v: View, n: uint16, data: seq<byte>): View {
    Drained(WithQueue(v, Insert(v.queue, WholeEntry(n, data))))
  }

  /** `ReceiveWhole` is this step on the queue; `base` and `delivered` follow what it delivers. */
  lemma ArrivedWholeIsReceive(v: View, n: uint16, data: seq<byte>)
    ensures var r := ReceiveWhole(v.queue, n, data);
            ArrivedWhole(v, n, data) == View(r.0, v.base + Spans(r.1), v.delivered + Buffers(r.1))
  {
  }

  /** A copy of a command is behind the base by at most nine windows, counted from the first
      command of its message, and ahead of it by at most seven. */
  ghost predicate Timely(v: View, first: nat, serial: nat) {
    && v.base / WINDOW_SIZE <= first / WINDOW_SIZE + 9
    && serial / WINDOW_SIZE <= v.base / WINDOW_SIZE + 7
  }

  /** A serial that is not ahead of the base is discarded. */
  lemma OldIsUnwanted(v: View, serial: nat)
    requires v.queue.incoming == Low16(v.base)
    requires serial <= v.base && v.base / WINDOW_SIZE <= serial / WINDOW_SIZE + 9
    ensures !Wanted(v.queue, Low16(serial))
  {
    if serial < v.base { ReadBehind(serial, v.base); }
  }

  lemma NewIsRead(v: View, serial: nat)
    requires v.queue.incoming == Low16(v.base)
    requires serial > v.base && serial / WINDOW_SIZE <= v.base / WINDOW_SIZE + 7
    ensures Distance(Low16(serial), v.queue.incoming) == serial - v.base
    ensures Acceptable(Low16(serial), v.queue.incoming) <==> serial / WINDOW_SIZE <= v.base / WINDOW_SIZE + 6
    ensures AckSuppressed(Low16(serial), v.queue.incoming) <==> serial / WINDOW_SIZE == v.base / WINDOW_SIZE + 7
    ensures Low16(serial) != v.queue.incoming
  {
    assert serial < v.base + 0x10000;
    ReadAhead(serial, v.base);
  }

  lemma WholeKeepsFaithful(ms: seq<Message>, highest: int, v: View, k: nat)
    requires Faithful(ms, highest, v) && k < |ms| && IsWhole(ms[k])
    requires First(ms, k) <= highest && Timely(v, First(ms, k), First(ms, k))
    ensures var q := WithQueue(v, Insert(v.queue, WholeEntry(Low16(First(ms, k)), ms[k].data)));
            && Faithful(ms, highest, q)
            && (!Received(q, First(ms, k)) ==>
                  q == v && First(ms, k) > v.base && AckSuppressed(Low16(First(ms, k)), v.queue.incoming))
  {
    var s := First(ms, k);
    var n, e := Low16(s), WholeEntry(Low16(s), ms[k].data);
    if s <= v.base {
      OldIsUnwanted(v, s);
    } else {
      NewIsRead(v, s);
      assert EntryFor(ms, highest, v, e, k);
      if k < |v.delivered| { FirstIncreases(ms, k, |v.delivered|); }
      InsertKeepsFaithful(ms, highest, v, e, k);
      if Wanted(v.queue, n) {
        assert InEntry(v, e, s);
        InsertReceives(v, e, s);
      } else if Acceptable(n, v.queue.incoming) {
        WantedIffNew(v.queue, n);
        var i :| 0 <= i < |v.queue.entries| && v.queue.entries[i].number == n;
        SameNumberSameMessage(ms, highest, v, v.queue.entries[i], k, n);
        assert InEntry(v, v.queue.entries[i], s);
      }
    }
  }

  /** Ack soundness for a whole segment: after it has been handled, the received command is
      stored or delivered, or its number lies in the band that is not acknowledged. */
  lemma ArrivedWholeIsSound(ms: seq<Message>, highest: int, v: View, k: nat)
    requires Faithful(ms, highest, v) && !Ready(v.queue) && k < |ms| && IsWhole(ms[k])
    requires First(ms, k) <= highest && Timely(v, First(ms, k), First(ms, k))
    ensures var w := ArrivedWhole(v, Low16(First(ms, k)), ms[k].data);
            && Faithful(ms, highest, w) && !Ready(w.queue) && w.base >= v.base
            && (Received(w, First(ms, k)) || AckSuppressed(Low16(First(ms, k)), w.queue.incoming))
  {
    var s := First(ms, k);
    WholeKeepsFaithful(ms, highest, v, k);
    var q := WithQueue(v, Insert(v.queue, WholeEntry(Low16(s), ms[k].data)));
    DrainedKeepsFaithful(ms, highest, q);
    if Received(q, s) {
      DrainedKeepsReceived(ms, highest, q, s);
    } else {
      DrainedUnfolds(q);
    }
  }

  lemma ArrivedWholeKeepsReceived(ms: seq<Message>, highest: int, v: View, k: nat, serial: nat)
    requires Faithful(ms, highest, v) && k < |ms| && IsWhole(ms[k]) && Received(v, serial)
    requires First(ms, k) <= highest && Timely(v, First(ms, k), First(ms, k))
    ensures Received(ArrivedWhole(v, Low16(First(ms, k)), ms[k].data), serial)
  {
    var e := WholeEntry(Low16(First(ms, k)), ms[k].data);
    WholeKeepsFaithful(ms, highest, v, k);
    InsertKeepsReceived(v, e, serial);
    DrainedKeepsReceived(ms, highest, WithQueue(v, Insert(v.queue, e)), serial);
  }

  // --- a fragment arrives ---

  function ArrivedPiece(v: View, b: Body): View
    requires b.Piece?
  {
    var r := ReceivePiece(v.queue, b);
    View(r.0, v.base + Spans(r.1), v.delivered + Buffers(r.1))
  }

  /** The list with the fragment put into entry `i`. */
  function Filled(v: View, i: nat, b: Body): View
    requires i < |v.queue.entries| && b.Piece?
    requires var e := v.queue.entries[i]; b.index < |e.marks| && e.remaining > 0 && b.offset + |b.data| <= |e.buffer|
  {
    WithQueue(v, v.queue.(entries := v.queue.entries[i := Accept(v.queue.entries[i], b)]))
  }

  /** The list after a fragment was added: delivered from when the entry is complete. */
  function Settled(v: View, i: nat, b: Body): View
    requires i < |v.queue.entries| && b.Piece?
    requires var e := v.queue.entries[i]; b.index < |e.marks| && e.remaining > 0 && b.offset + |b.data| <= |e.buffer|
  {
    if Accept(v.queue.entries[i], b).remaining == 0 then Drained(Filled(v, i, b)) else Filled(v, i, b)
  }

  /** The four ways in which a fragment of a message can be taken. */
  datatype Taking = Ignored | Opened | Repeated(at: nat) | Added(into: nat)

  ghost predicate Takes(ms: seq<Message>, v: View, k: nat, j: nat, t: Taking)
    requires k < |ms| && j < Count(ms[k]) && !IsWhole(ms[k])
  {
    var b := BodyOf(ms[k], First(ms, k), j);
    match t
    case Ignored => ArrivedPiece(v, b) == v && !Acceptable(b.start, v.queue.incoming)
    case Opened =>
      EmptyIsFilling(ms[k], b.start);
      AcceptKeepsFilling(EmptyEntry(b.start, b.count, b.total), ms[k], First(ms, k), j);
      var e := Accept(EmptyEntry(b.start, b.count, b.total), b);
      && Wanted(v.queue, b.start) && ArrivedPiece(v, b) == WithQueue(v, Insert(v.queue, e))
    case Repeated(i) =>
      && i < |v.queue.entries| && v.queue.entries[i].number == b.start
      && ArrivedPiece(v, b) == v
      && Filling(v.queue.entries[i], ms[k]) && v.queue.entries[i].marks[j]
    case Added(i) =>
      && i < |v.queue.entries| && v.queue.entries[i].number == b.start
      && Filling(v.queue.entries[i], ms[k]) && !v.queue.entries[i].marks[j]
      && (AcceptKeepsFilling(v.queue.entries[i], ms[k], First(ms, k), j);
          ArrivedPiece(v, b) == Settled(v, i, b))
  }

  lemma NothingDelivered(v: View, q: Queue)
    ensures View(q, v.base + Spans([]), v.delivered + Buffers([])) == WithQueue(v, q)
  {
  }

  /** In every run a fragment is taken in one of the four ways: a fragment that opens an entry
      always finds room for it, and one that finds an entry finds that of its own message. */
  lemma PieceIsTaken(ms: seq<Message>, highest: int, v: View, k: nat, j: nat) returns (t: Taking)
    requires Faithful(ms, highest, v) && k < |ms| && j < Count(ms[k]) && !IsWhole(ms[k]) && Sendable(ms[k])
    requires First(ms, k) + j <= highest && Timely(v, First(ms, k), First(ms, k) + j)
    ensures Takes(ms, v, k, j, t)
    ensures t.Ignored? ==> First(ms, k) <= v.base || First(ms, k) / WINDOW_SIZE == v.base / WINDOW_SIZE + 7
    ensures !t.Ignored? ==> First(ms, k) > v.base && First(ms, k) == v.base + Distance(Low16(First(ms, k)), v.queue.incoming)
  {
    var s, b := First(ms, k), BodyOf(ms[k], First(ms, k), j);
    NothingDelivered(v, v.queue);
    PiecesAreValid(ms[k], s, j);
    if s <= v.base {
      if s < v.base { ReadBehind(s, v.base); }
      if s == v.base { StartIsNotBase(ms, highest, v, k); }
      t := Ignored;
    } else {
      NewIsRead(v, s);
      if !Acceptable(b.start, v.queue.incoming) {
        t := Ignored;
      } else {
        t := AcceptableIsTaken(ms, highest, v, k, j);
      }
    }
  }

  /** The number delivered last is never the first number of a fragmented message. */
  lemma StartIsNotBase(ms: seq<Message>, highest: int, v: View, k: nat)
    requires Faithful(ms, highest, v) && k < |ms| && !IsWhole(ms[k])
    ensures First(ms, k) != v.base
  {
    var g := |v.delivered|;
    SeveralPieces(ms[k]);
    if k < g { FirstIncreases(ms, k, g); }
    if g < k { FirstIncreases(ms, g, k); }
  }

  lemma NewPieceIsTaken(ms: seq<Message>, highest: int, v: View, k: nat, j: nat)
    requires Faithful(ms, highest, v) && k < |ms| && j < Count(ms[k]) && !IsWhole(ms[k]) && Sendable(ms[k])
    requires First(ms, k) == v.base + Distance(Low16(First(ms, k)), v.queue.incoming) && First(ms, k) > v.base
    requires Acceptable(Low16(First(ms, k)), v.queue.incoming)
    requires Find(v.queue.entries, Low16(First(ms, k))) == |v.queue.entries|
    ensures Takes(ms, v, k, j, Opened)
  {
    var s, b := First(ms, k), BodyOf(ms[k], First(ms, k), j);
    PiecesAreValid(ms[k], s, j);
    WantedIffNew(v.queue, b.start);
    EmptyIsFilling(ms[k], b.start);
    AcceptKeepsFilling(EmptyEntry(b.start, b.count, b.total), ms[k], s, j);
    NothingDelivered(v, Insert(v.queue, Accept(EmptyEntry(b.start, b.count, b.total), b)));
  }

  lemma FurtherPieceIsTaken(ms: seq<Message>, highest: int, v: View, k: nat, j: nat, i: nat) returns (t: Taking)
    requires Faithful(ms, highest, v) && k < |ms| && j < Count(ms[k]) && !IsWhole(ms[k]) && Sendable(ms[k])
    requires First(ms, k) == v.base + Distance(Low16(First(ms, k)), v.queue.incoming) && First(ms, k) > v.base
    requires Acceptable(Low16(First(ms, k)), v.queue.incoming)
    requires i == Find(v.queue.entries, Low16(First(ms, k))) < |v.queue.entries|
    ensures Takes(ms, v, k, j, t) && !t.Ignored?
  {
    var s, b, e := First(ms, k), BodyOf(ms[k], First(ms, k), j), v.queue.entries[i];
    PiecesAreValid(ms[k], s, j);
    NothingDelivered(v, v.queue);
    SameNumberSameMessage(ms, highest, v, e, k, b.start);
    if e.marks[j] {
      t := Repeated(i);
    } else {
      t := Added(i);
      AcceptKeepsFilling(e, ms[k], s, j);
      NothingDelivered(v, Filled(v, i, b).queue);
    }
  }

  lemma AcceptableIsTaken(ms: seq<Message>, highest: int, v: View, k: nat, j: nat) returns (t: Taking)
    requires Faithful(ms, highest, v) && k < |ms| && j < Count(ms[k]) && !IsWhole(ms[k]) && Sendable(ms[k])
    requires First(ms, k) == v.base + Distance(Low16(First(ms, k)), v.queue.incoming) && First(ms, k) > v.base
    requires Acceptable(Low16(First(ms, k)), v.queue.incoming)
    ensures Takes(ms, v, k, j, t) && !t.Ignored?
  {
    var i := Find(v.queue.entries, Low16(First(ms, k)));
    if i == |v.queue.entries| {
      NewPieceIsTaken(ms, highest, v, k, j);
      t := Opened;
    } else {
      t := FurtherPieceIsTaken(ms, highest, v, k, j, i);
    }
  }

  /** Putting a fragment into its entry keeps the list what it was, but for that fragment. */
  lemma FilledKeepsFaithful(ms: seq<Message>, highest: int, v: View, k: nat, j: nat, i: nat)
    requires Faithful(ms, highest, v) && k < |ms| && j < Count(ms[k]) && !IsWhole(ms[k])
    requires First(ms, k) + j <= highest && i < |v.queue.entries|
    requires |v.delivered| <= k && EntryFor(ms, highest, v, v.queue.entries[i], k) && !v.queue.entries[i].marks[j]
    ensures var e, b := v.queue.entries[i], BodyOf(ms[k], First(ms, k), j);
            && e.remaining > 0 && b.offset + |b.data| <= |e.buffer|
            && Faithful(ms, highest, Filled(v, i, b))
  {
    var e, b := v.queue.entries[i], BodyOf(ms[k], First(ms, k), j);
    AcceptKeepsFilling(e, ms[k], First(ms, k), j);
    var w := Filled(v, i, b);
    FilledKeepsOrder(v, i, b);
    forall l | 0 <= l < |w.queue.entries|
      ensures Known(ms, highest, w, w.queue.entries[l])
    {
      if l == i {
        assert EntryFor(ms, highest, w, w.queue.entries[i], k);
      } else {
        var x := v.queue.entries[l];
        assert Known(ms, highest, v, x);
        var m :| |v.delivered| <= m < |ms| && EntryFor(ms, highest, v, x, m);
        assert EntryFor(ms, highest, w, x, m);
      }
    }
  }

  lemma FilledKeepsOrder(v: View, i: nat, b: Body)
    requires Ordered(v.queue) && i < |v.queue.entries| && b.Piece?
    requires var e := v.queue.entries[i]; b.index < |e.marks| && e.remaining > 0 && b.offset + |b.data| <= |e.buffer|
    ensures Ordered(Filled(v, i, b).queue)
  {
    var w := Filled(v, i, b);
    forall l | 0 <= l < |w.queue.entries|
      ensures DistanceOf(w.queue.entries[l], w.queue.incoming) == DistanceOf(v.queue.entries[l], v.queue.incoming)
      ensures Span(w.queue.entries[l]) == Span(v.queue.entries[l])
    {
    }
  }

  lemma FilledKeepsReceived(v: View, i: nat, b: Body, serial: nat)
    requires i < |v.queue.entries| && b.Piece? && Received(v, serial)
    requires var e := v.queue.entries[i]; b.index < |e.marks| && e.remaining > 0 && b.offset + |b.data| <= |e.buffer|
    ensures Received(Filled(v, i, b), serial)
  {
    var w := Filled(v, i, b);
    if serial > v.base {
      var l :| 0 <= l < |v.queue.entries| && InEntry(v, v.queue.entries[l], serial);
      assert InEntry(w, w.queue.entries[l], serial);
    }
  }

  /** The entry that the first fragment of a message opens. */
  function OpenedEntry(m: Message, first: nat, j: nat): (e: Entry)
    requires !IsWhole(m) && j < Count(m)
    ensures Filling(e, m) && e.number == Low16(first) && e.remaining > 0
    ensures forall i :: 0 <= i < e.count ==> (e.marks[i] <==> i == j)
  {
    var b := BodyOf(m, first, j);
    SeveralPieces(m);
    EmptyIsFilling(m, b.start);
    AcceptKeepsFilling(EmptyEntry(b.start, b.count, b.total), m, first, j);
    Accept(EmptyEntry(b.start, b.count, b.total), b)
  }

  /** The command is stored or delivered, or it is not acknowledged. */
  ghost predicate Answered(w: View, serial: nat) {
    !AckSuppressed(Low16(serial), w.queue.incoming) ==> Received(w, serial)
  }

  /** Nothing that was received is lost. */
  ghost predicate Retains(v: View, w: View) {
    forall s: nat {:trigger Received(w, s)} :: Received(v, s) ==> Received(w, s)
  }

  /** The outcome of an arrival: everything that the whole-run proof needs of it. */
  ghost predicate SoundArrival(ms: seq<Message>, highest: int, v: View, w: View, serial: nat) {
    && Faithful(ms, highest, w)
    && !Ready(w.queue)
    && w.base >= v.base
    && Answered(w, serial)
    && Retains(v, w)
  }

  lemma IgnoredOutcome(ms: seq<Message>, highest: int, v: View, k: nat, j: nat, serial: nat)
    requires Faithful(ms, highest, v) && !Ready(v.queue) && k < |ms| && j < Count(ms[k])
    requires Timely(v, First(ms, k), serial)
    requires serial == First(ms, k) + j
    requires First(ms, k) <= v.base || First(ms, k) / WINDOW_SIZE == v.base / WINDOW_SIZE + 7
    ensures SoundArrival(ms, highest, v, v, serial)
  {
    var s, g := serial, |v.delivered|;
    if First(ms, k) <= v.base {
      if g < k { FirstIncreases(ms, g, k); }
      FirstIncreases(ms, k, g);
    } else {
      assert s / WINDOW_SIZE == v.base / WINDOW_SIZE + 7;
      NewIsRead(v, s);
    }
  }

  lemma OpenedOutcome(ms: seq<Message>, highest: int, v: View, k: nat, j: nat, serial: nat)
    requires Faithful(ms, highest, v) && !Ready(v.queue) && k < |ms| && j < Count(ms[k]) && !IsWhole(ms[k])
    requires serial == First(ms, k) + j <= highest && First(ms, k) > v.base
    requires First(ms, k) == v.base + Distance(Low16(First(ms, k)), v.queue.incoming)
    requires Wanted(v.queue, Low16(First(ms, k)))
    ensures SoundArrival(ms, highest, v, WithQueue(v, Insert(v.queue, OpenedEntry(ms[k], First(ms, k), j))), serial)
    ensures Received(WithQueue(v, Insert(v.queue, OpenedEntry(ms[k], First(ms, k), j))), serial)
  {
    var e, s := OpenedEntry(ms[k], First(ms, k), j), serial;
    var w := WithQueue(v, Insert(v.queue, e));
    if k < |v.delivered| { FirstIncreases(ms, k, |v.delivered|); }
    assert EntryFor(ms, highest, v, e, k);
    InsertKeepsFaithful(ms, highest, v, e, k);
    assert InEntry(v, e, s);
    InsertReceives(v, e, s);
    forall r: nat | Received(v, r)
      ensures Received(w, r)
    {
      InsertKeepsReceived(v, e, r);
    }
    var p := Position(v.queue.entries, e.number, v.queue.incoming);
    InsertedAt(v.queue.entries, p, e, 0);
  }

  lemma RepeatedOutcome(ms: seq<Message>, highest: int, v: View, k: nat, j: nat, i: nat, serial: nat)
    requires Faithful(ms, highest, v) && !Ready(v.queue) && k < |ms| && j < Count(ms[k])
    requires serial == First(ms, k) + j
    requires First(ms, k) == v.base + Distance(Low16(First(ms, k)), v.queue.incoming)
    requires i < |v.queue.entries| && v.queue.entries[i].number == Low16(First(ms, k))
    requires Filling(v.queue.entries[i], ms[k]) && v.queue.entries[i].marks[j]
    ensures SoundArrival(ms, highest, v, v, serial) && Received(v, serial)
  {
    assert InEntry(v, v.queue.entries[i], serial);
  }

  lemma AddedStep(ms: seq<Message>, highest: int, v: View, k: nat, j: nat, i: nat)
    requires Faithful(ms, highest, v) && !Ready(v.queue) && k < |ms| && j < Count(ms[k]) && !IsWhole(ms[k])
    requires First(ms, k) + j <= highest && First(ms, k) > v.base
    requires First(ms, k) == v.base + Distance(Low16(First(ms, k)), v.queue.incoming)
    requires i < |v.queue.entries| && v.queue.entries[i].number == Low16(First(ms, k))
    requires Filling(v.queue.entries[i], ms[k]) && !v.queue.entries[i].marks[j]
    ensures var e, b := v.queue.entries[i], BodyOf(ms[k], First(ms, k), j);
            && e.remaining > 0 && b.offset + |b.data| <= |e.buffer|
            && Faithful(ms, highest, Filled(v, i, b))
            && (Accept(e, b).remaining > 0 ==> !Ready(Filled(v, i, b).queue))
            && Received(Filled(v, i, b), First(ms, k) + j)
  {
    var e, b, s := v.queue.entries[i], BodyOf(ms[k], First(ms, k), j), First(ms, k) + j;
    SameNumberSameMessage(ms, highest, v, e, k, b.start);
    if k < |v.delivered| { FirstIncreases(ms, k, |v.delivered|); }
    FilledKeepsFaithful(ms, highest, v, k, j, i);
    var f := Filled(v, i, b);
    assert InEntry(f, f.queue.entries[i], s);
  }

  /** Delivering what is ready keeps an outcome. */
  lemma DrainedOutcome(ms: seq<Message>, highest: int, v: View, f: View, serial: nat)
    requires Faithful(ms, highest, f) && f.base == v.base && Received(f, serial)
    requires Retains(v, f)
    ensures SoundArrival(ms, highest, v, Drained(f), serial) && Received(Drained(f), serial)
  {
    DrainedKeepsFaithful(ms, highest, f);
    DrainedKeepsReceived(ms, highest, f, serial);
    forall r: nat | Received(v, r)
      ensures Received(Drained(f), r)
    {
      assert Received(f, r);
      DrainedKeepsReceived(ms, highest, f, r);
    }
  }

  lemma FilledReceivesMore(v: View, i: nat, b: Body)
    requires i < |v.queue.entries| && b.Piece?
    requires var e := v.queue.entries[i]; b.index < |e.marks| && e.remaining > 0 && b.offset + |b.data| <= |e.buffer|
    ensures Retains(v, Filled(v, i, b))
  {
    forall r: nat | Received(v, r)
      ensures Received(Filled(v, i, b), r)
    {
      FilledKeepsReceived(v, i, b, r);
    }
  }

  lemma SettledOutcome(ms: seq<Message>, highest: int, v: View, i: nat, b: Body, serial: nat)
    requires i < |v.queue.entries| && b.Piece?
    requires var e := v.queue.entries[i]; b.index < |e.marks| && e.remaining > 0 && b.offset + |b.data| <= |e.buffer|
    requires Faithful(ms, highest, Filled(v, i, b)) && Received(Filled(v, i, b), serial)
    requires Accept(v.queue.entries[i], b).remaining > 0 ==> !Ready(Filled(v, i, b).queue)
    ensures SoundArrival(ms, highest, v, Settled(v, i, b), serial) && Received(Settled(v, i, b), serial)
  {
    FilledReceivesMore(v, i, b);
    if Accept(v.queue.entries[i], b).remaining == 0 {
      DrainedOutcome(ms, highest, v, Filled(v, i, b), serial);
    }
  }

  lemma AddedOutcome(ms: seq<Message>, highest: int, v: View, k: nat, j: nat, i: nat, serial: nat)
    requires Faithful(ms, highest, v) && !Ready(v.queue) && k < |ms| && j < Count(ms[k]) && !IsWhole(ms[k])
    requires serial == First(ms, k) + j <= highest && First(ms, k) > v.base
    requires First(ms, k) == v.base + Distance(Low16(First(ms, k)), v.queue.incoming)
    requires i < |v.queue.entries| && v.queue.entries[i].number == Low16(First(ms, k))
    requires Filling(v.queue.entries[i], ms[k]) && !v.queue.entries[i].marks[j]
    ensures var e, b := v.queue.entries[i], BodyOf(ms[k], First(ms, k), j);
            && e.remaining > 0 && b.offset + |b.data| <= |e.buffer|
            && SoundArrival(ms, highest, v, Settled(v, i, b), serial) && Received(Settled(v, i, b), serial)
  {
    AddedStep(ms, highest, v, k, j, i);
    SettledOutcome(ms, highest, v, i, BodyOf(ms[k], First(ms, k), j), serial);
  }

  /** Ack soundness for a fragment, with all that a step must keep; a fragment of a message that begins
      less than seven windows ahead is stored even where its own number is not acknowledged. */
  lemma ArrivedPieceIsSound(ms: seq<Message>, highest: int, v: View, k: nat, j: nat, serial: nat)
    requires Faithful(ms, highest, v) && !Ready(v.queue)
    requires k < |ms| && j < Count(ms[k]) && !IsWhole(ms[k]) && Sendable(ms[k])
    requires serial == First(ms, k) + j <= highest && Timely(v, First(ms, k), serial)
    ensures SoundArrival(ms, highest, v, ArrivedPiece(v, BodyOf(ms[k], First(ms, k), j)), serial)
    ensures First(ms, k) > v.base && First(ms, k) / WINDOW_SIZE <= v.base / WINDOW_SIZE + 6 ==>
              Received(ArrivedPiece(v, BodyOf(ms[k], First(ms, k), j)), serial)
  {
    var t := PieceIsTaken(ms, highest, v, k, j);
    match t {
      case Ignored => IgnoredOutcome(ms, highest, v, k, j, serial);
      case Opened => OpenedOutcome(ms, highest, v, k, j, serial);
      case Repeated(i) => RepeatedOutcome(ms, highest, v, k, j, i, serial);
      case Added(i) => AddedOutcome(ms, highest, v, k, j, i, serial);
    }
  }

  /** The same for a whole segment. */
  lemma WholeOutcome(ms: seq<Message>, highest: int, v: View, k: nat)
    requires Faithful(ms, highest, v) && !Ready(v.queue) && k < |ms| && IsWhole(ms[k])
    requires First(ms, k) <= highest && Timely(v, First(ms, k), First(ms, k))
    ensures SoundArrival(ms, highest, v, ArrivedWhole(v, Low16(First(ms, k)), ms[k].data), First(ms, k))
  {
    var w := ArrivedWhole(v, Low16(First(ms, k)), ms[k].data);
    ArrivedWholeIsSound(ms, highest, v, k);
    forall r: nat | Received(v, r)
      ensures Received(w, r)
    {
      ArrivedWholeKeepsReceived(ms, highest, v, k, r);
    }
  }

  // --- what has been received is delivered ---

  /** An entry that holds a command of the next message in turn is the front entry. */
  lemma NextIsInFront(ms: seq<Message>, highest: int, v: View, x: nat, serial: nat)
    requires Faithful(ms, highest, v) && |v.delivered| < |ms| && x < |v.queue.entries|
    requires First(ms, |v.delivered|) <= serial < First(ms, |v.delivered| + 1)
    requires InEntry(v, v.queue.entries[x], serial)
    ensures x == 0 && EntryFor(ms, highest, v, v.queue.entries[0], |v.delivered|)
  {
    var k, e := |v.delivered|, v.queue.entries[x];
    assert Known(ms, highest, v, e);
    var l :| k <= l < |ms| && EntryFor(ms, highest, v, e, l);
    if k < l { FirstIncreases(ms, k, l); }
    assert DistanceOf(e, v.queue.incoming) == 1;
    assert DistanceOf(v.queue.entries[0], v.queue.incoming) >= 1;
  }

  lemma FrontHolds(ms: seq<Message>, highest: int, v: View, serial: nat)
    requires Faithful(ms, highest, v) && |v.delivered| < |ms| && Received(v, serial)
    requires First(ms, |v.delivered|) <= serial < First(ms, |v.delivered| + 1)
    ensures v.queue.entries != [] && InEntry(v, v.queue.entries[0], serial)
    ensures EntryFor(ms, highest, v, v.queue.entries[0], |v.delivered|)
  {
    var x :| 0 <= x < |v.queue.entries| && InEntry(v, v.queue.entries[x], serial);
    NextIsInFront(ms, highest, v, x, serial);
  }

  /** A message all of whose commands have been received does not wait: if it is the next in turn, the
      front of the list is ready. */
  lemma AllReceivedIsReady(ms: seq<Message>, highest: int, v: View)
    requires Faithful(ms, highest, v) && |v.delivered| < |ms|
    requires forall s: nat :: First(ms, |v.delivered|) <= s < First(ms, |v.delivered| + 1) ==> Received(v, s)
    ensures Ready(v.queue)
  {
    var k, first := |v.delivered|, First(ms, |v.delivered|);
    assert First(ms, k + 1) == first + Count(ms[k]);
    FrontHolds(ms, highest, v, first);
    var e := v.queue.entries[0];
    if !IsWhole(ms[k]) {
      forall i: nat | i < e.count
        ensures e.marks[i]
      {
        FrontHolds(ms, highest, v, first + i);
      }
      CompleteIffAllMarked(e);
    }
  }
}
