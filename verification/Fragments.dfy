/** Cutting a segment into fragments and putting it together again. */
module Fragments {
  import opened Numbers

  type byte = bv8
  type pos = n: nat | n > 0 witness 1

  const MAXIMUM_FRAGMENT_COUNT := 0x10_0000
  const MAXIMUM_SEGMENT_SIZE := 0x200_0000
  const MINIMUM_MTU := 576
  const PROTOCOL_HEADER_SIZE := 4
  const SEND_RELIABLE_SIZE := 6
  const SEND_FRAGMENT_SIZE := 24

  /** A segment handed to `Send`, with the fragment length in force at that moment. */
  datatype Message = Message(data: seq<byte>, limit: pos)

  /** The body of a reliable command as it travels: a whole segment, one fragment of a
      segment, or a command without payload. */
  datatype Body =
    | Whole(data: seq<byte>)
    | Piece(start: uint16, index: nat, count: nat, total: nat, offset: nat, data: seq<byte>)
    | Control(size: nat)

  function Min(a: nat, b: nat): nat {
    if a < b then a else b
  }

  /** The number of commands, hence of sequence numbers, that a message takes. */
  function Count(m: Message): (n: nat)
    ensures n > 0
  {
    if |m.data| <= m.limit then 1
    else
      CeilingIsPositive(|m.data|, m.limit);
      (|m.data| + m.limit - 1) / m.limit
  }

  function Offset(m: Message, i: nat): nat {
    i * m.limit
  }

  function End(m: Message, i: nat): nat {
    Min((i + 1) * m.limit, |m.data|)
  }

  /** Command number `i` of the message whose first serial is `first`. */
  function BodyOf(m: Message, first: nat, i: nat): Body
    requires i < Count(m)
  {
    if |m.data| <= m.limit then Whole(m.data)
    else
      PieceBounds(m, i);
      Piece(Low16(first), i, Count(m), |m.data|, Offset(m, i), m.data[Offset(m, i)..End(m, i)])
  }

  // --- arithmetic of the cut ---

  lemma CeilingIsPositive(d: nat, l: pos)
    requires d > 0
    ensures (d + l - 1) / l > 0
  {
  }

  lemma Ceiling(d: nat, l: pos, n: nat)
    requires n == (d + l - 1) / l
    ensures d <= n * l < d + l
  {
  }

  lemma Multiples(i: nat, j: nat, l: pos)
    requires i < j
    ensures (i + 1) * l <= j * l
    ensures (i + 1) * l == i * l + l
  {
  }

  /** Every piece is nonempty, lies inside the data and is no longer than the limit. */
  lemma PieceBounds(m: Message, i: nat)
    requires |m.data| > m.limit && i < Count(m)
    ensures Offset(m, i) < End(m, i) <= |m.data|
    ensures End(m, i) - Offset(m, i) <= m.limit
    ensures i + 1 == Count(m) ==> End(m, i) == |m.data|
    ensures i + 1 < Count(m) ==> End(m, i) == Offset(m, i + 1)
  {
    var n := Count(m);
    Ceiling(|m.data|, m.limit, n);
    Multiples(i, i + 1, m.limit);
    if i + 1 < n {
      Multiples(i + 1, n, m.limit);
      assert (n - 1) * m.limit + m.limit == n * m.limit;
      assert (i + 1) * m.limit <= (n - 1) * m.limit by {
        if i + 1 < n - 1 { Multiples(i + 1, n - 1, m.limit); }
      }
    }
  }

  /** A message that does not fit into one command takes at least two. */
  lemma SeveralPieces(m: Message)
    requires |m.data| > m.limit
    ensures Count(m) >= 2
  {
  }

  /** Different pieces do not overlap. */
  lemma PiecesApart(m: Message, i: nat, j: nat)
    requires |m.data| > m.limit && i < j < Count(m)
    ensures End(m, i) <= Offset(m, j)
  {
  }

  /** Every byte lies in one of the pieces. */
  lemma PiecesCover(m: Message, p: nat) returns (i: nat)
    requires |m.data| > m.limit && p < |m.data|
    ensures i < Count(m) && Offset(m, i) <= p < End(m, i)
  {
    i := p / m.limit;
    var r := p % m.limit;
    assert p == m.limit * i + r;
    Ceiling(|m.data|, m.limit, Count(m));
    assert (i + 1) * m.limit == i * m.limit + m.limit;
    if Count(m) < i { Multiples(Count(m), i, m.limit); }
  }

  /** How many bytes the first `k` pieces make. */
  function Front(m: Message, k: nat): nat {
    if k < Count(m) then Min(Offset(m, k), |m.data|) else |m.data|
  }

  lemma PieceIsFront(m: Message, first: nat, i: nat)
    requires i < Count(m)
    ensures Front(m, i) + |BodyOf(m, first, i).data| == Front(m, i + 1) <= |m.data|
    ensures !BodyOf(m, first, i).Control? && |BodyOf(m, first, i).data| <= m.limit
    ensures i + 1 < Count(m) ==> BodyOf(m, first, i).Piece? && |BodyOf(m, first, i).data| == m.limit
  {
    if |m.data| > m.limit { PieceBounds(m, i); }
  }

  /** The parts of the message, in order. */
  function Parts(m: Message, n: nat): seq<byte>
    requires n <= Count(m)
  {
    if n == 0 then [] else Parts(m, n - 1) + BodyOf(m, 0, n - 1).data
  }

  /** Tiling: the bodies of a message, laid end to end, are exactly its bytes. */
  lemma PiecesTile(m: Message)
    ensures Parts(m, Count(m)) == m.data
  {
    if |m.data| <= m.limit {
      assert Parts(m, 1) == Parts(m, 0) + m.data;
    } else {
      PartsArePrefix(m, Count(m));
      PieceBounds(m, Count(m) - 1);
    }
  }

  lemma {:induction false} PartsArePrefix(m: Message, n: nat)
    requires |m.data| > m.limit && 0 < n <= Count(m)
    ensures End(m, n - 1) <= |m.data| && Parts(m, n) == m.data[..End(m, n - 1)]
  {
    var piece := BodyOf(m, 0, n - 1).data;
    PieceBounds(m, n - 1);
    if n == 1 {
      assert Offset(m, 0) == 0 && Parts(m, 0) == [];
      assert [] + piece == m.data[..End(m, 0)];
    } else {
      PartsArePrefix(m, n - 1);
      PieceBounds(m, n - 2);
      JoinSlices(m.data, Offset(m, n - 1), End(m, n - 1));
    }
  }

  lemma JoinSlices(s: seq<byte>, i: nat, j: nat)
    requires i <= j <= |s|
    ensures s[..i] + s[i..j] == s[..j]
  {
  }

  /** The header of a piece passes the receiver's validity test. */
  predicate PieceValid(b: Body)
    requires b.Piece?
  {
    && b.count <= MAXIMUM_FRAGMENT_COUNT
    && b.index < b.count
    && b.total <= MAXIMUM_SEGMENT_SIZE
    && b.offset < b.total
    && |b.data| <= b.total - b.offset
  }

  lemma PiecesAreValid(m: Message, first: nat, i: nat)
    requires |m.data| > m.limit && i < Count(m)
    requires |m.data| <= MAXIMUM_SEGMENT_SIZE && Count(m) <= MAXIMUM_FRAGMENT_COUNT
    ensures PieceValid(BodyOf(m, first, i))
  {
    PieceBounds(m, i);
  }

  // --- the fragment bits and the buffer of a received segment ---

  /** A received command: `count` is 0 for a whole segment; otherwise `marks` holds the
      fragment bits (bit k % 32 of word k / 32 is `marks[k]`), `remaining` the counter beside
      them and `buffer` the bytes. */
  datatype Entry = Entry(number: uint16, count: nat, remaining: nat, marks: seq<bool>, buffer: seq<byte>)

  function WholeEntry(number: uint16, data: seq<byte>): Entry {
    Entry(number, 0, 0, [], data)
  }

  /** Bits are allocated in 32-bit words, four for every 32 fragments: the number of words is
      computed in bytes. */
  function WordBits(count: nat): (n: nat)
    ensures n >= count
  {
    (count + 31) / 32 * 4 * 32
  }

  function EmptyEntry(number: uint16, count: nat, total: nat): Entry {
    Entry(number, count, count, seq(WordBits(count), _ => false), seq(total, _ => 0))
  }

  function Mark(e: Entry, k: nat): Entry
    requires k < |e.marks| && e.remaining > 0
  {
    e.(marks := e.marks[k := true], remaining := e.remaining - 1)
  }

  function Patch(e: Entry, offset: nat, data: seq<byte>): Entry
    requires offset + |data| <= |e.buffer|
  {
    e.(buffer := e.buffer[..offset] + data + e.buffer[offset + |data|..])
  }

  /** How many of the first `n` bits are set. */
  function MarkCount(marks: seq<bool>, n: nat): (c: nat)
    requires n <= |marks|
    ensures c <= n
  {
    if n == 0 then 0 else MarkCount(marks, n - 1) + if marks[n - 1] then 1 else 0
  }

  /** The counter is the number of fragments whose bit is not set. */
  ghost predicate Counted(e: Entry) {
    e.count <= |e.marks| && e.remaining + MarkCount(e.marks, e.count) == e.count
  }

  lemma {:induction false} MarkCountUpdate(marks: seq<bool>, k: nat, n: nat)
    requires k < |marks| && n <= |marks| && !marks[k]
    ensures MarkCount(marks[k := true], n) == MarkCount(marks, n) + if k < n then 1 else 0
  {
    if n > 0 {
      MarkCountUpdate(marks, k, n - 1);
    }
  }

  lemma {:induction false} MarkCountNone(marks: seq<bool>, n: nat)
    requires n <= |marks| && forall k :: 0 <= k < n ==> !marks[k]
    ensures MarkCount(marks, n) == 0
  {
    if n > 0 {
      MarkCountNone(marks, n - 1);
    }
  }

  lemma {:induction false} MarkCountFull(marks: seq<bool>, n: nat)
    requires n <= |marks|
    ensures MarkCount(marks, n) == n <==> forall k :: 0 <= k < n ==> marks[k]
  {
    if n > 0 {
      MarkCountFull(marks, n - 1);
    }
  }

  /** The counter reaches zero exactly when every fragment bit is set. */
  lemma CompleteIffAllMarked(e: Entry)
    requires Counted(e)
    ensures e.remaining == 0 <==> forall k :: 0 <= k < e.count ==> e.marks[k]
  {
    MarkCountFull(e.marks, e.count);
  }

  /** A fragment that is tested before it is marked keeps the counter right. */
  lemma MarkKeepsCount(e: Entry, k: nat)
    requires Counted(e) && k < e.count && !e.marks[k]
    ensures e.remaining > 0 && Counted(Mark(e, k))
  {
    MarkCountUpdate(e.marks, k, e.count);
    CompleteIffAllMarked(e);
  }

  /** Marking a fragment a second time, without the test, breaks the counter. */
  lemma MarkTwiceBreaksCount(e: Entry, k: nat)
    requires Counted(e) && k < e.count && e.marks[k] && e.remaining > 0
    ensures !Counted(Mark(e, k))
  {
    assert e.marks[k := true] == e.marks;
  }

  // --- an entry that is being filled with the pieces of one message ---

  /** The piece `i` of `m` has arrived in the buffer. */
  ghost predicate Holds(e: Entry, m: Message, i: nat)
    requires |m.data| > m.limit && i < Count(m) && |e.buffer| == |m.data|
  {
    PieceBounds(m, i);
    e.buffer[Offset(m, i)..End(m, i)] == m.data[Offset(m, i)..End(m, i)]
  }

  ghost predicate Filling(e: Entry, m: Message) {
    && |m.data| > m.limit
    && e.count == Count(m)
    && |e.buffer| == |m.data|
    && Counted(e)
    && forall i :: 0 <= i < e.count && e.marks[i] ==> Holds(e, m, i)
  }

  /** One arriving piece puts its own bytes in place and leaves those of every other piece. */
  lemma AcceptKeepsHeld(e: Entry, m: Message, first: nat, i: nat, j: nat)
    requires Filling(e, m) && i < Count(m) && !e.marks[i]
    requires j < Count(m) && (j == i || e.marks[j])
    requires Offset(m, i) < End(m, i) <= |e.buffer| && e.remaining > 0
    ensures Offset(m, j) < End(m, j) <= |m.data|
    ensures Holds(Accept(e, BodyOf(m, first, i)), m, j)
  {
    PieceBounds(m, i);
    PieceBounds(m, j);
    var f := Accept(e, BodyOf(m, first, i));
    if j == i {
      assert f.buffer[Offset(m, i)..End(m, i)] == m.data[Offset(m, i)..End(m, i)];
    } else {
      if j < i { PiecesApart(m, j, i); } else { PiecesApart(m, i, j); }
      assert Holds(e, m, j);
      assert f.buffer[Offset(m, j)..End(m, j)] == e.buffer[Offset(m, j)..End(m, j)];
    }
  }

  /** What the receiver does with piece `i` of an entry that it has found. */
  function Accept(e: Entry, b: Body): Entry
    requires b.Piece? && b.index < |e.marks| && e.remaining > 0 && b.offset + |b.data| <= |e.buffer|
  {
    Patch(Mark(e, b.index), b.offset, b.data)
  }

  lemma EmptyIsFilling(m: Message, number: uint16)
    requires |m.data| > m.limit
    ensures Filling(EmptyEntry(number, Count(m), |m.data|), m)
  {
    var e := EmptyEntry(number, Count(m), |m.data|);
    MarkCountNone(e.marks, e.count);
  }

  lemma AcceptKeepsFilling(e: Entry, m: Message, first: nat, i: nat)
    requires Filling(e, m) && i < Count(m) && !e.marks[i]
    ensures e.remaining > 0 && Offset(m, i) < End(m, i) <= |e.buffer|
    ensures Filling(Accept(e, BodyOf(m, first, i)), m)
  {
    MarkKeepsCount(e, i);
    PieceBounds(m, i);
    var f := Accept(e, BodyOf(m, first, i));
    forall j | 0 <= j < f.count && f.marks[j]
      ensures Holds(f, m, j)
    {
      AcceptKeepsHeld(e, m, first, i, j);
    }
  }

  /** A complete entry holds exactly the bytes of the message. */
  lemma CompleteIsMessage(e: Entry, m: Message)
    requires Filling(e, m) && e.remaining == 0
    ensures e.buffer == m.data
  {
    CompleteIffAllMarked(e);
    forall p | 0 <= p < |m.data|
      ensures e.buffer[p] == m.data[p]
    {
      var i := PiecesCover(m, p);
      assert Holds(e, m, i);
      assert e.buffer[p] == e.buffer[Offset(m, i)..End(m, i)][p - Offset(m, i)];
      assert m.data[p] == m.data[Offset(m, i)..End(m, i)][p - Offset(m, i)];
    }
  }

  /** The entry after the pieces named in `arrivals` came in, each tested before it is marked. */
  function Assemble(m: Message, number: uint16, arrivals: seq<nat>): (e: Entry)
    requires |m.data| > m.limit
    requires forall k :: 0 <= k < |arrivals| ==> arrivals[k] < Count(m)
    ensures Filling(e, m)
    ensures forall i :: 0 <= i < Count(m) ==> (e.marks[i] <==> i in arrivals)
  {
    if arrivals == [] then
      EmptyIsFilling(m, number);
      EmptyEntry(number, Count(m), |m.data|)
    else
      var last := arrivals[|arrivals| - 1];
      var before := arrivals[..|arrivals| - 1];
      assert arrivals == before + [last];
      var e := Assemble(m, number, before);
      if e.marks[last] then e
      else
        AcceptKeepsFilling(e, m, 0, last);
        Accept(e, BodyOf(m, 0, last))
  }

  /** Round trip: in whatever order and with whatever repeats the fragments arrive, the entry
      is complete exactly when every fragment has arrived, and then it is the message. */
  lemma RoundTrip(m: Message, number: uint16, arrivals: seq<nat>)
    requires |m.data| > m.limit
    requires forall k :: 0 <= k < |arrivals| ==> arrivals[k] < Count(m)
    ensures var e := Assemble(m, number, arrivals);
            && (e.remaining == 0 <==> forall i: nat :: i < Count(m) ==> i in arrivals)
            && (e.remaining == 0 ==> e.buffer == m.data)
  {
    var e := Assemble(m, number, arrivals);
    CompleteIffAllMarked(e);
    if e.remaining == 0 {
      CompleteIsMessage(e, m);
    }
  }
}
