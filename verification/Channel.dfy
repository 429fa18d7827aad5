/** A channel of a peer, in place: the list of received commands and the window counters. */
module Channels {
  import opened Numbers
  import opened Fragments
  import opened Inbox
  import Pod

  class Channel {
    var entries: seq<Entry>
    var incoming: uint16
    /** `outgoing_reliable_sequence_number_` is `Low16(serial)`. */
    var serial: nat
    const windows: array<nat>
    /** Bit w of `used_reliable_windows_`. */
    var used: seq<bool>

    constructor ()
      ensures fresh(windows) && windows.Length == WINDOWS && Contents() == Queue([], 0) && Lane() == Pod.FreshLane()
    {
      entries, incoming, serial := [], 0, 0;
      windows := new nat[WINDOWS](_ => 0);
      used := seq(WINDOWS, _ => false);
      new;
      assert windows[..] == seq(WINDOWS, _ => 0);
    }

    function Contents(): Queue
      reads this`entries, this`incoming
    {
      Queue(entries, incoming)
    }

    function Lane(): Pod.Lane
      reads this`serial, this`used, windows
    {
      Pod.Lane(serial, windows[..], used)
    }

    ghost predicate WellFormed()
      reads this`used
    {
      windows.Length == WINDOWS && |used| == WINDOWS
    }

    method Reset()
      requires windows.Length == WINDOWS
      modifies this, windows
      ensures Contents() == Queue([], 0) && Lane() == Pod.FreshLane()
    {
      entries, incoming, serial := [], 0, 0;
      used := seq(WINDOWS, _ => false);
      forall i | 0 <= i < windows.Length {
        windows[i] := 0;
      }
      assert windows[..] == seq(WINDOWS, _ => 0);
    }

    // --- the sending side ---

    method IncrementOutgoingReliableSequenceNumber()
      modifies this`serial
      ensures serial == old(serial) + 1
    {
      serial := serial + 1;
    }

    /** `MarkReliableWindowAsUsed` and `IncrementReliableWindow`. */
    method UseWindow(w: nat)
      requires WellFormed() && w < WINDOWS
      modifies this`used, windows
      ensures WellFormed() && Lane() == Pod.UseWindow(old(Lane()), w)
    {
      used := used[w := true];
      windows[w] := windows[w] + 1;
    }

    /** `DecrementReliableWindow`, and `MarkReliableWindowAsUnused` when the counter has come to 0. */
    method ReleaseWindow(w: nat)
      requires WellFormed() && w < WINDOWS
      modifies this`used, windows
      ensures WellFormed() && Lane() == Pod.ReleaseWindow(old(Lane()), w)
    {
      if windows[w] > 0 {
        windows[w] := windows[w] - 1;
        if windows[w] == 0 { used := used[w := false]; }
      }
    }

    // --- the receiving side ---

    /** The window test and the walk from the back of the list to where the number belongs. */
    method FindPosition(n: uint16) returns (p: nat)
      ensures p == Position(entries, n, incoming)
    {
      p := |entries|;
      assert entries[..p] == entries;
      while p > 0 && ComesAfter(entries[p - 1].number, n, incoming)
        invariant p <= |entries|
        invariant Position(entries, n, incoming) == Position(entries[..p], n, incoming)
      {
        assert entries[..p][..p - 1] == entries[..p - 1];
        p := p - 1;
      }
      assert p > 0 ==> entries[..p][p - 1] == entries[p - 1];
    }

    method QueueIncomingCommand(e: Entry) returns (queued: bool)
      modifies this`entries
      ensures queued == old(Wanted(Contents(), e.number)) && Contents() == Insert(old(Contents()), e)
    {
      var ahead := e.number / WINDOW_SIZE + if e.number < incoming then WINDOWS else 0;
      var current := incoming / WINDOW_SIZE;
      if ahead < current || ahead >= current + FREE_WINDOWS - 1 { return false; }
      if e.number == incoming { return false; }
      var p := FindPosition(e.number);
      if p > 0 && entries[p - 1].number == e.number { return false; }
      entries := entries[..p] + [e] + entries[p..];
      queued := true;
    }

    method NewIncomingReliableCommands() returns (commands: seq<Entry>)
      modifies this`entries, this`incoming
      ensures (Contents(), commands) == Drain(old(Contents()))
    {
      commands := [];
      ghost var start := Contents();
      assert Drain(start).1 == [] + Drain(start).1;
      while entries != []
        invariant Drain(start) == (Drain(Contents()).0, commands + Drain(Contents()).1)
        decreases |entries|
      {
        var e := entries[0];
        if e.remaining > 0 || e.number != Successor(incoming) { break; }
        ghost var rest := Drain(AfterDelivery(Contents())).1;
        assert commands + ([e] + rest) == (commands + [e]) + rest;
        incoming := e.number;
        if e.count > 0 { incoming := Low16(incoming + e.count - 1); }
        commands := commands + [e];
        entries := entries[1..];
      }
      assert Drain(Contents()) == (Contents(), []) && commands + [] == commands;
    }

    /** `ExtractFirstCommand`: the entry that the first fragment has opened. */
    method ExtractFirstCommand(start: uint16, total: nat, count: nat) returns (r: Lookup)
      requires Ordered(Contents())
      ensures r == FindEntry(entries, start, total, count)
    {
      var i := |entries|;
      while i > 0 && entries[i - 1].number != start
        invariant 0 <= i <= |entries|
        invariant forall k :: i <= k < |entries| ==> entries[k].number != start
      {
        i := i - 1;
      }
      if i == 0 { return Missing; }
      OneWithNumber(Contents(), start, i - 1);
      if entries[i - 1].count != count || |entries[i - 1].buffer| != total { return Mismatch; }
      r := Found(i - 1);
    }

    method HandleSendReliable(n: uint16, data: seq<byte>) returns (commands: seq<Entry>)
      modifies this`entries, this`incoming
      ensures (Contents(), commands) == ReceiveWhole(old(Contents()), n, data)
    {
      var queued := QueueIncomingCommand(WholeEntry(n, data));
      commands := NewIncomingReliableCommands();
    }

    method HandleSendFragment(b: Body) returns (commands: seq<Entry>, outcome: Outcome)
      requires b.Piece? && Ordered(Contents())
      modifies this`entries, this`incoming
      ensures (Contents(), commands, outcome) == ReceivePiece(old(Contents()), b)
    {
      commands, outcome := [], Ok;
      if !Acceptable(b.start, incoming) { return; }
      if !PieceValid(b) { outcome := Error; return; }
      var found := ExtractFirstCommand(b.start, b.total, b.count);
      if found == Missing {
        var queued := QueueIncomingCommand(Accept(EmptyEntry(b.start, b.count, b.total), b));
        if !queued { outcome := Error; }
        return;
      }
      if found == Mismatch { outcome := Error; return; }
      var i, e := found.at, entries[found.at];
      if |e.marks| < e.count { outcome := Error; return; }
      if e.marks[b.index] || e.remaining == 0 { return; }
      entries := entries[i := Accept(e, b)];
      if entries[i].remaining == 0 { commands := NewIncomingReliableCommands(); }
    }
  }

  lemma OneWithNumber(q: Queue, n: uint16, i: nat)
    requires Ordered(q) && i < |q.entries| && q.entries[i].number == n
    ensures Find(q.entries, n) == i
  {
    var j := Find(q.entries, n);
    assert DistanceOf(q.entries[j], q.incoming) == DistanceOf(q.entries[i], q.incoming);
  }
}
