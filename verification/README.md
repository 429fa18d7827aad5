# Verification of the reliable-UDP engine

The repository's `lib/rudp` is a connection-oriented protocol over UDP. A peer has numbered reliable
channels; a channel numbers its commands with 16 bits, cuts large segments into fragments, sends again
what is not acknowledged, and delivers in order over a network that loses, repeats and reorders
datagrams. This project models that engine in Dafny and proves what it is for: exactly-once in-order
delivery, sound acknowledgements, true bookkeeping, rebuilt segments, bounded and fair bandwidth, and no
lost event. The text form of addresses (`lib/core/io/ip_address.cc`) is a second, small core.

## How the model is laid out

Every operation that the source performs step by step appears twice: as a function on values, which the
proofs about runs use, and as a method of a class that works in place and is proved equal to the function.

| file | content |
|---|---|
| Numbers, Clock | 16-bit sequence numbers against unbounded serials, windows, wrap-around time |
| Fragments | cutting a segment, the fragment bits, putting it together |
| Inbox, Receiver | the receive list, and what it means relative to what was sent |
| Pod, Bits, Books, InFlight | the sending half, its bit words, its invariant and what the invariant implies |
| Datagram, Loading, Timeout, Turn | the datagram under construction, which commands it takes, who is queued again and when the peer is given up, and one turn of the sending loop |
| Delivery | two endpoints and the network, whole runs |
| Runs, Lengths, Guarantees | runs built on purpose, which messages can be delivered, where the guarantees end |
| AsWritten | the departures of the text from its intent |
| Channel, CommandPod, Peer | the classes for both halves of a channel and for the peer that owns them |
| PeerState, PeerNet, Shares, Throttle | the bandwidth allocator |
| Lifecycle, Outcome, Hub | peer states, counters, the dispatch queue and events, and what the application gets to see |
| Address | reading and printing addresses |

The sender's counter is an unbounded `serial`; the program's number is `Low16(serial)`. In
`Delivery.System` the wire keeps every copy ever sent and every acknowledgement ever queued, so a step may
take any of them again, late, or never. A step may be refused only for two provisos on delay: a copy may
be at most nine windows of 0x1000 behind the receiver, counted from the first fragment of its segment, and
an acknowledgement less than 2^16 numbers behind the sender. `Numbers.ReadTooFarBehind` shows that nine is
sharp, `InFlight.LateAcknowledgementRemovesAnother` and the run of `Guarantees.LateAckInRun` that 2^16 is.
What is still in flight always meets the second proviso; it always meets the first for segments of at most
4097 fragments and not for longer ones (`Guarantees.AlwaysTimelyIff`, with a run that breaks it). How many
bytes may be in flight depends on the window that the throttle scales: it is a parameter of every loading
step, and `Lengths` states its results for every bound on it.

The clock, the random connect identifier, the content of the network and the answers of other objects are
parameters. `BandwidthThrottle` takes the clock that it reads as `now`, and ghost arguments that record
what the peers show when it starts.

## Corrections

The text departs from its own intent in the places below. The main model has what is meant; the departure
is kept in `AsWritten` or `Lifecycle`, with the exact condition under which it does no harm.

- `lib/rudp/channel.cc:28` adds 1 in `int`, so nothing follows 0xFFFF. Meant: 16-bit successor
  (`AsWritten.ReadyAgreesIff`, `DrainIsCutShortIff`, `NothingAfterTheLastNumber`).
- `lib/rudp/channel.cc:142-160` walks past the front of the list and reads what is not an entry. Meant:
  insertion at the front (`AsWritten.WalkFailsIff`).
- `lib/rudp/channel.cc:83-110` can return an unrelated entry, and `:102` compares the total length with the
  bytes appended so far. Meant: the entry with the start number, when total and count match
  (`AsWritten.LookupIsRightIff`, `HalfFilledIsFoundIff`).
- `lib/rudp/protocol/protocol.cc:445-451` heeds neither the error of that lookup nor an insertion that returns
  no entry, and dereferences null when the lookup has passed over an entry that is in the list. Meant: an error.
  With the lookup as meant this happens only to a start number equal to the number delivered last
  (`AsWritten.NoEntryIsMetIff`, `HalfFilledMeetsNoEntryIff`, `MeantMeetsNoEntryIff`, inputs in `NoEntryIsMet`),
  which in a run no fragment has (`Receiver.StartIsNotBase`, `PieceIsTaken`).
- `lib/rudp/command/command_pod.cc:101` copies a timed-out command and leaves it in the sent list. Meant:
  move (`AsWritten.TimeoutKeepsOnceIff`).
- `lib/rudp/command/command_pod.cc:316-317` and `:362-363` never search the commands that wait to be sent
  again, and read the next timeout before the command is taken out (`AsWritten.AcknowledgeIsRightIff`).
- `lib/rudp/peer/peer.cc:219` divides by the number of free windows instead of the window size
  (`AsWritten.AckBandIsRightIff`).
- `lib/rudp/protocol/protocol.cc:448` overwrites the number that is acknowledged afterwards
  (`AsWritten.FragmentAckIsRightIff`, `OverwrittenAckIsUnsound`).
- `lib/rudp/segment.cc:32-49` and `lib/rudp/segment.h:38-47` keep fragments in the order of arrival.
  Meant: at their offset (`AsWritten.ArrivalOrderIsRightIff`).
- `lib/rudp/chamber.cc:70` tests the payload the wrong way round, and `:67` subtracts without sign, so a
  datagram that has been overrun is stopped by slots alone (`AsWritten.SpaceTestIsRightIff`, `OverrunTakesAll`).
- `lib/rudp/peer/peer.h:132-137` pushes a new batch in front of what is waiting
  (`AsWritten.PushKeepsOrderIff`). In-order delivery is stated on the output of
  `NewIncomingReliableCommands`; `Hubs.DispatchHub.Deliver` keeps the text.
- `lib/rudp/peer/peer_pod.cc:148` resets a connected peer without taking it out of the counters, and
  `lib/rudp/protocol/protocol.cc:659-660` takes it out and leaves its state, on a test of the sent list
  that is inverted (`lib/rudp/command/command_pod.cc:290-291`). Meant: purge first; disconnect when
  nothing is left (`Lifecycle.DisconnectNowKeepsCountersIff`, `PurgeAfterLoadingKeepsCountersIff`).

## Further findings

These hold of the text and are kept in the model.

- A segment that a peer discards because it is disconnecting later, or because too much data is waiting, is
  acknowledged all the same and so never sent again (`Guarantees.AckIsSoundIffTakenIn`).
- `Send` takes segments of 32 MiB, so up to 61681 fragments, but not all of them can be delivered. Numbers
  seven windows ahead of the receiver are not acknowledged and none lies eight ahead, so a segment must end
  within the eighth window and its bytes in that window must fit the data window; one that does not blocks
  its channel for good, and every list of segments that do can be delivered (`Lengths.DeliverableIffFit`,
  `UnfitBlocksTheChannel`). That is at most 0x7FFF fragments, fewer behind a number inside a window.
- The pace of the sender follows from the test that the window before is full, not from the mask; the mask
  keeps the spread of what is in flight (`Delivery.FirstOfWindowKeepsPace`, `Books.WrapTestKeepsNear`).
- An acknowledgement is popped before the test for space, so the one that does not fit is dropped
  (`Datagram.AckIsLostIffFull`). The runs allow that: it is a lost acknowledgement.
- `lib/rudp/command/command_pod.cc:196-197` sets the next timeout when the sent list is not empty, where an
  empty list is meant (`AsWritten.SendingKeepsDeadlineIff`). No other result depends on it.
- Skipped commands use up slots of the datagram (`lib/rudp/command/command_pod.cc:127-128`); the model does
  the same, and progress is proved with it.
- A peer that has never been marked looks as if it had been when the clock reads 0. It is passed over: it keeps
  its limits and is told all that it asks for. What is told stays within the bandwidth for all demands exactly
  when there is no such peer (`Throttle.ToldFitsIff`, with `NewPeerAtClockZero`).
- What a peer that is disconnecting later has received is never reported before its queues are reset
  (`Lifecycle.DisconnectLaterIsNeverReported`); what a connected peer has received always is in the end
  (`Lifecycle.DeliveredIsReportedIff`).
- The mask of the window test, which looks at eight windows ahead modulo 16, is a test of one window nine back
  (`LoadingOrder.WrapTestIsWindowTest`).
- A timeout that is doubled up to 2^31 milliseconds becomes 0, and the command would be given a first timeout
  again (`Timeouts.RequeueKeepsTimedIff`).
- The limits are not told again when a connected peer is disconnected from here, only when polling reports
  that it has left (`Outcomes.RecalculateIff`).
- The guard of the ping sees to its bytes and not to its command slot (`Turns.PingGoesOutIff`).
- Unreliable commands that the throttle holds back stay in the list and are tried again
  (`lib/rudp/command/command_pod.cc:245-268`).
- Data totals are never reset (`lib/rudp/protocol/protocol.cc:97-98` adds 0), so the allocator works on
  totals since the start.
- `::` without a dotted quad behind it stands for one group too few, which shows exactly when some group
  behind it is not 0 (`Addresses.HexGapIsRightIff`, with ::1).

## Model

| member | source | states |
|---|---|---|
| Numbers.WindowsAheadIsModular | lib/rudp/channel.cc:122-127 | the corrected window difference is a function of the modular distance from the number delivered last |
| Numbers.AcceptanceWindow | lib/rudp/channel.cc:126-130 | a number is accepted iff the base's place in its window plus the distance is below 0x7000: every distance up to 0x6000 is, none from 0x7000 on |
| Numbers.AckBand | lib/rudp/peer/peer.cc:214-226 | nothing is acknowledged in the two windows behind the acceptance window, and everything elsewhere |
| Numbers.WindowSlot | lib/rudp/command/command_pod.cc:136 | the counter that a 16-bit number selects is the window of its unbounded serial modulo 16 |
| Numbers.ReadAhead | lib/rudp/channel.cc:122-127 | a number that stands for a serial less than 2^16 ahead is read at its true distance and true window difference, across the wrap |
| Numbers.ReadBehind | lib/rudp/channel.cc:126-138 | a serial at most nine windows behind is never accepted as new and never equals the base |
| Numbers.ReadTooFarBehind | lib/rudp/channel.cc:126-130 | nine windows is sharp: from ten windows behind on, the old number is accepted as new |
| Clock.ClockIsTrue | lib/rudp/macro.h:8-15 | for true times under a day apart the wrap-around comparison is the true order and the difference the true distance |
| Clock.RebuildRecent | lib/rudp/protocol/protocol.cc:333-337 | the echoed 16-bit time is rebuilt exactly for every age up to 0x8000 ms, across 16- and 32-bit wraps |
| Clock.RebuildOldFails | lib/rudp/protocol/protocol.cc:333-337 | for every age above 0x8000 ms (under a day) there is a current time at which the rebuilt time is wrong |
| Clock.RebuildExactIffRecent | lib/rudp/protocol/protocol.cc:333-337 | the rebuilt time is right for every current time iff the age is at most 0x8000 ms |
| Clock.EchoGivesElapsedTime | lib/rudp/protocol/protocol.cc:333-345 | so the acknowledgement passes the future test and its round-trip time is the true elapsed time |
| Fragments.PieceBounds | lib/rudp/peer/peer.cc:380-401 | every fragment is nonempty, inside the data, no longer than the limit, and begins where the one before ends |
| Fragments.PiecesApart | lib/rudp/peer/peer.cc:380-401 | different fragments do not overlap |
| Fragments.PiecesCover | lib/rudp/peer/peer.cc:380-401 | every byte of the segment lies in a fragment |
| Fragments.PiecesTile | lib/rudp/peer/peer.cc:358-413 | the commands of a segment, laid end to end, are exactly its bytes |
| Fragments.PiecesAreValid | lib/rudp/protocol/protocol.cc:439-443 | no fragment that is sent is rejected by the receiver's header tests |
| Fragments.MarkKeepsCount | lib/rudp/command/incoming_command.h:32-41 | marking a fragment that is not marked keeps remaining plus set bits equal to the count |
| Fragments.MarkTwiceBreaksCount | lib/rudp/command/incoming_command.h:32-41 | marking a fragment twice breaks that count, so callers must test first |
| Fragments.CompleteIffAllMarked | lib/rudp/command/incoming_command.h:16-30 | the remaining counter is 0 iff every fragment bit is set |
| Fragments.AcceptKeepsFilling | lib/rudp/protocol/protocol.cc:458-467 | placing a new fragment at its offset keeps every fragment placed before |
| Fragments.CompleteIsMessage | lib/rudp/protocol/protocol.cc:469-471 | a complete entry holds exactly the bytes of the segment |
| Fragments.RoundTrip | lib/rudp/protocol/protocol.cc:433-472 | for fragments arriving in any order with any repeats, the entry is complete iff all have arrived, and then it is the segment |
| Inbox.ComesAfterIsModular | lib/rudp/channel.cc:146-160 | the three comparisons of the backward walk compare modular distances from the base |
| Inbox.PositionSplits | lib/rudp/channel.cc:140-161 | the walk stops between the entries that come before the new number and those that come after it |
| Inbox.WantedIffNew | lib/rudp/channel.cc:126-160 | on an ordered list a number is queued iff it is in the window, is not the base and is not in the list |
| Inbox.InsertKeepsOrder | lib/rudp/channel.cc:113-251 | insertion keeps the list strictly increasing in distance, free of overlaps, inside 1..0x6FFF |
| Inbox.DeliveryKeepsOrder | lib/rudp/channel.cc:28-40 | delivering the front moves the base by the span of the entry and every distance down by as much |
| Inbox.DrainKeepsOrder | lib/rudp/channel.cc:17-47 | draining keeps the order and ends only when the front is not ready |
| Inbox.DrainSplits | lib/rudp/channel.cc:17-47 | what is delivered followed by what is left is the list as it was |
| Inbox.PieceIsRefusedIff | lib/rudp/protocol/protocol.cc:430-456 | a fragment is refused, changing nothing, iff its start number is acceptable and its header is out of bounds, its entry has another shape, or it begins with the number delivered last |
| Receiver.ReadyIsNext | lib/rudp/channel.cc:23-41 | in every run the ready front is the next message after those delivered, complete and byte for byte |
| Receiver.DrainedKeepsFaithful | lib/rudp/channel.cc:17-47 | draining keeps: delivered is a prefix of what was sent, the list holds later messages |
| Receiver.DrainedKeepsReceived | lib/rudp/channel.cc:17-47 | draining forgets no command that was received |
| Receiver.OldIsUnwanted | lib/rudp/channel.cc:126-138 | a command that was delivered at most nine windows ago is discarded |
| Receiver.NewIsRead | lib/rudp/peer/peer.cc:216-227 | up to seven windows ahead a new number is accepted exactly in windows 0..6 and its acknowledgement suppressed exactly in window 7 |
| Receiver.ArrivedWholeIsReceive | lib/rudp/protocol/protocol.cc:477-503 | the step that the runs use is the handler on the list, with base and output following what it delivers |
| Receiver.ArrivedWholeIsSound | lib/rudp/protocol/protocol.cc:477-503 | after a whole segment has been handled, it is stored or delivered, or its number is not acknowledged |
| Receiver.StartIsNotBase | lib/rudp/protocol/protocol.cc:422-431 | the start number of a fragmented segment never equals the number delivered last |
| Receiver.PieceIsTaken | lib/rudp/protocol/protocol.cc:415-475 | in every run, with the lookup and the insertion as they are meant, a fragment is ignored, opens its entry, repeats, or joins the entry of its own segment; it never meets a foreign entry or a failed insertion |
| Receiver.FilledKeepsFaithful | lib/rudp/protocol/protocol.cc:458-472 | putting a fragment into its entry keeps the list what it was but for that fragment |
| Receiver.ArrivedPieceIsSound | lib/rudp/protocol/protocol.cc:415-475 | a fragment that has been handled is stored or delivered, or its own number is not acknowledged, and nothing received before is lost; a fragment of a message that begins less than seven windows ahead is always stored |
| Receiver.WholeOutcome | lib/rudp/protocol/protocol.cc:477-503 | the same for a whole segment, with everything a step must keep |
| Receiver.AllReceivedIsReady | lib/rudp/channel.cc:23-41 | a message all of whose commands have been received does not wait: when it is next in turn the front of the list is ready |
| Bits.WrapMaskIsEightWindows | lib/rudp/command/command_pod.cc:26-29 | the shift mask has exactly the bits of windows w..w+7 modulo 16 |
| Bits.MaskTestIsAheadInUse | lib/rudp/command/command_pod.cc:26-29 | the mask test on the word of window bits is the test of the eight windows from w on, which the model makes |
| Bits.WordFollowsFlags | lib/rudp/channel.h:59-69 | marking a window as used or unused in the word changes one flag and no other |
| Bits.WordsAreFlags | lib/rudp/command/incoming_command.h:16-41 | the fragment words answer as the flags do, and marking a fragment sets one flag and no other |
| Books.TransmitKeepsTransit | lib/rudp/command/command_pod.cc:208-217 | sending keeps the data in transit equal to the payload bytes of the sent list |
| Books.RequeueKeepsTransit | lib/rudp/command/command_pod.cc:94-101 | so does requeueing, and the counter does not go below 0 |
| Books.AcknowledgeKeepsTransit | lib/rudp/command/command_pod.cc:355-376 | so does an acknowledgement, found in either list or in none |
| Books.TransmitKeepsWindows | lib/rudp/command/command_pod.cc:183-186 | every counter stays the number of its channel's commands in that window that were sent and not acknowledged; the bit is set iff it is positive |
| Books.RequeueKeepsWindows | lib/rudp/command/command_pod.cc:94-101 | requeueing leaves every counter true |
| Books.AcknowledgeKeepsWindows | lib/rudp/command/command_pod.cc:346-353 | an acknowledgement lowers exactly the counter of its command |
| Books.TransmitKeepsShape | lib/rudp/command/command_pod.cc:217-218 | retransmits stay a prefix of the waiting list when a command is sent |
| Books.RequeueKeepsShape | lib/rudp/command/command_pod.cc:101 | and when one is requeued at the front |
| Books.TransmitKeepsOnce | lib/rudp/command/command_pod.cc:217-218 | sending moves the command: every (channel, serial) stays in one place |
| Books.RequeueKeepsOnce | lib/rudp/command/command_pod.cc:94-101 | requeueing moves the command |
| Books.AcknowledgeKeepsOnce | lib/rudp/command/command_pod.cc:370-375 | an acknowledgement removes one place and creates none |
| Books.LoadOneCases | lib/rudp/command/command_pod.cc:126-218 | one turn of the loop leaves the lists alone or sends the command, and then the wrap test allowed it and, on a channel, it is the first of the list |
| Books.NineWindowsBack | lib/rudp/command/command_pod.cc:26-29 | nine windows back is the last of the eight bits that the mask tests |
| Books.WrapTestKeepsNear | lib/rudp/command/command_pod.cc:14-33 | a first number of a window passes the test only when nothing nine windows back is in flight |
| Books.TransmitKeepsFlight | lib/rudp/command/command_pod.cc:126-219 | after every transmission the first transmissions are in sequence order and nothing in flight is more than eight windows behind the newest |
| Books.SetupKeepsSound | lib/rudp/command/command_pod.cc:415-476 | queueing a command keeps the whole invariant of the sending half |
| Books.TransmitKeepsSound | lib/rudp/command/command_pod.cc:183-218 | sending a command that may be sent keeps it |
| Books.LoadKeepsSound | lib/rudp/command/command_pod.cc:116-222 | loading a datagram keeps it, whatever is skipped, blocked or full |
| Books.RequeueKeepsSound | lib/rudp/command/command_pod.cc:94-108 | requeueing one command keeps it |
| Books.TimeoutKeepsSound | lib/rudp/command/command_pod.cc:64-111 | the timeout loop keeps it, also when the peer is given up half-way |
| Books.AcknowledgeKeepsSound | lib/rudp/command/command_pod.cc:300-378 | an acknowledgement of any number on any channel keeps it |
| Books.Conservation | lib/rudp/command/command_pod.cc:64-378 | over both lists, loading and timing out neither lose nor double a command, queueing adds one, an acknowledgement takes away the one it removes: for any weight of what commands are, so for names and for payload bytes |
| InFlight.FlightSpansNineWindows | lib/rudp/command/command_pod.cc:14-33 | the serials in flight on a channel never spread over more than nine windows |
| InFlight.NumberNamesOneCommand | lib/rudp/command/command_pod.cc:309-318 | (channel, 16-bit number) names at most one command in flight |
| InFlight.FirstTransmissionIsNext | lib/rudp/command/command_pod.cc:126-219 | whatever is sent for the first time carries the serial after the highest sent before |
| InFlight.RemovesIffFlying | lib/rudp/command/command_pod.cc:300-378 | an acknowledgement removes a command iff one in flight bears its channel and number |
| InFlight.AcknowledgementIsExact | lib/rudp/command/command_pod.cc:300-378 | an acknowledgement less than 2^16 behind removes exactly the command it was given for, or nothing when that one is gone |
| InFlight.AcknowledgementIsExactIff | lib/rudp/command/command_pod.cc:300-378 | an acknowledgement, however old, does exactly that iff no other serial with the same 16 bits is in flight on the channel |
| InFlight.LateAcknowledgementRemovesAnother | lib/rudp/command/command_pod.cc:300-378 | 2^16 is sharp: when the serial 2^16 later is in flight, the acknowledged command is gone and that one is removed instead |
| InFlight.CounterIsBounded | lib/rudp/channel.h:26-58 | a window counter never exceeds 0x1000, so its 16 bits are enough |
| Datagram.PayloadSlotIsThere | lib/rudp/chamber.cc:24-62 | while a command slot is free there are buffer slots for the command and its payload |
| Datagram.LoadRestKeepsBound | lib/rudp/command/command_pod.cc:126-219 | loading reliable commands never lets the datagram exceed the MTU |
| Datagram.AcksAreSentInOrder | lib/rudp/protocol/protocol.cc:607-644 | acknowledgements leave in order within the MTU; at most one is lost, iff another round is asked for |
| Datagram.AckIsLostIffFull | lib/rudp/protocol/protocol.cc:607-626 | one is lost (popped before the test for space) iff not all of them fit |
| Datagram.CommandsOfMessagesAreSmall | lib/rudp/peer/peer.cc:345-383 | every command of a segment, also the largest fragment, fits an empty datagram |
| Datagram.NothingFlies | lib/rudp/command/command_pod.cc:126-186 | with an empty sent list and a fresh head all window counters and bits are clear |
| Datagram.HeadIsLoaded | lib/rudp/command/command_pod.cc:35-40 | with an empty sent list the head of the waiting list is always sent: neither the data window nor the sequence windows block it |
| LoadingOrder.WrapTestByCounts | lib/rudp/command/command_pod.cc:17-36 | a command is held back iff it was never sent, is the first number of a window, and more than 0xFFE commands of the window before, or any of the eight windows from its own on, modulo 16, are in flight |
| LoadingOrder.WrapTestIsWindowTest | lib/rudp/command/command_pod.cc:17-36 | for the next command of a channel, in true windows: iff more than 0xFFE commands of the window before, or any of the window nine back, are in flight |
| LoadingOrder.HeadTurn | lib/rudp/command/command_pod.cc:126-219 | the head goes iff no window holds it back and there is room; else it is passed over, or the loop stops |
| LoadingOrder.BlockedTurn | lib/rudp/command/command_pod.cc:146-174 | once a payload has been held back all others are, and commands without one go while there is room |
| LoadingOrder.LoadTakes | lib/rudp/command/command_pod.cc:116-222 | a datagram takes the commands from the head on, in order, up to the first that a window holds back, then those without payload as far as there is room; with their stamps, and what is left keeps its order |
| LoadingOrder.HeadGoesIff | lib/rudp/command/command_pod.cc:116-222 | the head goes, and goes first, iff its window is open by counts, its bytes fit the data window and the datagram has room, whatever else is in flight |
| Timeouts.TimeoutSorts | lib/rudp/command/command_pod.cc:64-111 | up to the command at which the peer is given up, or the end, the commands younger than their timeout stay in order and the others are queued again in front, the last one first, with twice the timeout in 32 bits; their number is what was lost |
| Timeouts.TimeoutWithoutEnd | lib/rudp/command/command_pod.cc:64-111 | the peer is given up iff some late command finds the oldest late one beyond the maximum, or its own timeout at its limit and the oldest beyond the minimum; if not, all late commands are queued again and all others stay |
| Timeouts.LateIsOld | lib/rudp/command/command_pod.cc:74-75 | in true times a command is late iff it has been in flight for its timeout |
| Timeouts.OldestIsLeast | lib/rudp/command/command_pod.cc:77-78 | in true times the earliest timeout is the least of the times at which late commands were sent |
| Timeouts.OldestOfLate | lib/rudp/command/command_pod.cc:77-78 | the same when nothing was late before |
| Timeouts.TransmitKeepsTimed | lib/rudp/command/command_pod.cc:187-199 | the first sending gives a command its timeout and the limit of that, later ones leave both |
| Timeouts.LoadKeepsTimed | lib/rudp/command/command_pod.cc:116-222 | over a datagram, commands have a timeout iff they have been sent |
| Timeouts.RequeueKeepsTimedIff | lib/rudp/command/command_pod.cc:99 | doubling keeps that iff the timeout is not 2^31 milliseconds |
| Turns.LooseKeepsBound | lib/rudp/command/command_pod.cc:224-287 | loading unreliable commands never lets the datagram exceed the MTU |
| Turns.LooseConserves | lib/rudp/command/command_pod.cc:224-287 | an unreliable command that is loaded leaves the waiting list, one that is throttled stays, and exactly those with a payload are kept as sent, in order |
| Turns.TurnIsBounded | lib/rudp/peer/peer_pod.cc:465-513 | over a whole turn (acknowledgements, timeouts, reliable commands, ping, unreliable commands) the datagram stays within the MTU and its slots, and the books of the sender stay true |
| Turns.PingOnlyWhenIdle | lib/rudp/peer/peer_pod.cc:496-500 | a ping is thought of only when no reliable command was waiting |
| Turns.PingGoesOutIff | lib/rudp/peer/peer_pod.cc:496-504 | a ping that the guard lets through goes out in the same datagram iff a command slot is left |
| Turns.TimeoutsWhenDue | lib/rudp/peer/peer_pod.cc:486-490 | in true times the timeouts are looked at iff that is asked for, something is in flight and the next timeout has come |
| Turns.TurnLoads | lib/rudp/peer/peer_pod.cc:474-511 | a turn that gives the peer up loads acknowledgements only; another loads what the timeouts left waiting, and pings iff that is due, nothing waits or flies and there are bytes for it |
| Turns.LooseGoesIff | lib/rudp/command/command_pod.cc:224-273 | with room an unreliable command goes iff it does not begin a segment or the counter, 7 further modulo 32, has not passed the throttle |
| Turns.ThrottleCounts | lib/rudp/command/command_pod.cc:238-270 | of segments that all have room exactly those go whose counter has not passed the throttle |
| Turns.ThrottleLetsThrough | lib/rudp/peer/peer_net.cc:126-131 | of 32 segments in a row the throttle lets through exactly one more than its value |
| Turns.FullThrottleHoldsNothing | lib/rudp/command/command_pod.cc:224-287 | with a throttle of 31 or 32 what goes is the beginning of what waits |
| Delivery.SomeAcknowledged | lib/rudp/command/command_pod.cc:22-24 | when the window before is not full, some number of it has been acknowledged |
| Delivery.FirstOfWindowKeepsPace | lib/rudp/command/command_pod.cc:22-24 | so the first number of a window lies at most seven windows ahead of the receiver |
| Delivery.TransmitKeepsPace | lib/rudp/command/command_pod.cc:141-150 | no command is sent more than seven windows ahead of the receiver |
| Delivery.AckNamesItsCommand | lib/rudp/command/command_pod.cc:309-318 | an acknowledgement that is not too old names the serial it was given for |
| Delivery.AcknowledgeKeepsSender | lib/rudp/command/command_pod.cc:300-378 | after an acknowledgement every sent serial is still in flight or acknowledged by the receiver |
| Delivery.QueueFromKeepsSender | lib/rudp/peer/peer.cc:411-413 | queueing the fragments gives them consecutive serials from the first on |
| Delivery.SendKeepsInvariant | lib/rudp/peer/peer.cc:337-443 | sending a segment keeps the invariant of the two endpoints and the network |
| Delivery.LoadKeepsInvariant | lib/rudp/command/command_pod.cc:116-222 | loading a datagram and putting it on the wire keeps it |
| Delivery.ArrivalIsSound | lib/rudp/peer/peer_pod.cc:321-431 | any copy that was ever sent and is not too old is handled soundly, however often it arrives |
| Delivery.ArriveKeepsInvariant | lib/rudp/peer/peer_pod.cc:321-431 | its arrival and the acknowledgement that follows keep the invariant |
| Delivery.AckKeepsInvariant | lib/rudp/protocol/protocol.cc:354-355 | the arrival of any acknowledgement that is not too old keeps it |
| Delivery.StepKeepsInvariant | lib/rudp/peer/peer_pod.cc:453-580 | every step of the system keeps it |
| Delivery.DeliveredIsPrefixOfSent | lib/rudp/channel.cc:17-47 | in every run, under loss, repetition, reordering and retransmission, what was delivered is the data of the first messages sent, without gap or repeat |
| Delivery.AcksAreForReceivedCommands | lib/rudp/peer/peer.cc:213-241 | in every run every acknowledgement ever queued is for a command that the receiver has stored or delivered |
| Guarantees.CopiesInFlightAreTimely | lib/rudp/command/command_pod.cc:14-33 | a copy in flight meets the proviso on copies when its message has at most 4097 fragments; an acknowledgement of a command in flight always meets the proviso on acknowledgements |
| Guarantees.LatePieceInFlight | lib/rudp/command/command_pod.cc:14-33 | a run after which a fragment of a message of 4098 is still in flight ten windows behind the receiver, and its start number would be accepted as new |
| Guarantees.AlwaysTimelyIff | lib/rudp/command/command_pod.cc:14-33 | in every run all copies in flight of messages of at most n fragments meet the proviso iff n is at most 4097 |
| Guarantees.LateAckInRun | lib/rudp/command/command_pod.cc:300-378 | a run after which an acknowledgement 2^16 behind the sender removes a command that has not arrived, and nothing is in flight any more |
| Lengths.TransmitKeepsInWindow | lib/rudp/command/command_pod.cc:152-168 | a command is sent for the first time only when nothing waits to be sent again, so what is in flight stays within the data window |
| Lengths.StepKeepsInWindow | lib/rudp/command/command_pod.cc:35-40 | in every step the bytes sent and not acknowledged, whether sent or waiting to be sent again, stay within the largest data window seen |
| Lengths.SentIsFit | lib/rudp/peer/peer.cc:216-227 | a message all of which was sent while the receiver was not past it ends within the eighth window, and its bytes in that window fit the data window |
| Lengths.DeliveredMessagesFit | lib/rudp/channel.cc:17-47 | in every run every message that was delivered fits in that sense |
| Lengths.DeliverableIffFit | lib/rudp/peer/peer.cc:337-443 | messages cut for an MTU within the data window can all be delivered by some run iff each of them fits |
| Lengths.UnfitBlocksTheChannel | lib/rudp/peer/peer.cc:358-362 | in every run a message that does not fit blocks its channel: neither it nor any behind it is ever delivered |
| Lengths.Boundary | lib/rudp/peer/peer.cc:358-362 | up to 0x6000 fragments always fit; with a data window as large as the message it is 0x7FFF less the place of the number before it in its window |
| Lengths.MostPieces | lib/rudp/peer/peer.cc:358-362 | a segment that Send takes has at most 61681 fragments |
| Runs.HeadMayGo | lib/rudp/command/command_pod.cc:14-33 | a first number of a window is let pass when at most one command, one to eight windows behind, is in flight |
| Runs.OnlyHeadIsLoaded | lib/rudp/command/command_pod.cc:116-222 | a datagram that the head fills is loaded with the head and nothing else |
| Runs.SendNext | lib/rudp/peer/peer.cc:213-241 | before the edge a fragment can be sent, stored and acknowledged; beyond it, sent and stored |
| Runs.SendMessage | lib/rudp/command/command_pod.cc:116-222 | a message that fits can be sent and delivered in a run |
| Runs.DeliverMessages | lib/rudp/channel.cc:17-47 | and so can any list of messages that fit, one after the other |
| Guarantees.AckIsSoundIffTakenIn | lib/rudp/peer/peer.cc:260-264 | a new segment in reach is always acknowledged, and it has been received iff the peer takes commands in |
| AsWritten.ReadyAgreesIff | lib/rudp/channel.cc:28 | the int successor finds the next entry ready iff the base is not 0xFFFF |
| AsWritten.DrainIsCutShortIff | lib/rudp/channel.cc:23-41 | what the text delivers is a beginning of what is meant, and all of it iff no proper beginning of what is meant ends on 0xFFFF |
| AsWritten.NothingAfterTheLastNumber | lib/rudp/channel.cc:28 | once 0xFFFF has been delivered nothing is delivered any more |
| AsWritten.WalkFailsIff | lib/rudp/channel.cc:140-161 | the backward walk leaves the list iff the new number comes before every entry; otherwise it stops where meant |
| AsWritten.WalkFails | lib/rudp/channel.cc:140-161 | an input on which it does |
| AsWritten.LookupAbove | lib/rudp/channel.cc:83-108 | for a start number not below the base the walk returns nothing or the first entry, whatever its number |
| AsWritten.LookupBelow | lib/rudp/channel.cc:83-108 | for a start number below the base the walk stops at the last entry not above it: it finds it, refuses it by the tests on kind, length and count, misses it, or falls through to the first entry |
| AsWritten.LookupIsRightIff | lib/rudp/channel.cc:74-111 | the lookup returns what is meant iff a stated condition on the list, the bytes appended so far and the header holds |
| AsWritten.HalfFilledIsFoundIff | lib/rudp/channel.cc:100-110 | a fragment finds its own half-filled entry iff that is the first of the list and, its number not being below the base, no second entry is |
| AsWritten.LookupFails | lib/rudp/channel.cc:100-104 | an input on which the half-filled entry is refused |
| AsWritten.NoEntryIffUnwanted | lib/rudp/channel.cc:113-160 | the queueing returns no entry iff the number is out of the window, is the base, or is in the list |
| AsWritten.NoEntryIsMetIff | lib/rudp/protocol/protocol.cc:445-451 | the fragment handler dereferences a null entry iff the lookup returns none and the start number is the base or in the list; and iff a stated condition on list, appended bytes and header holds |
| AsWritten.HalfFilledMeetsNoEntryIff | lib/rudp/protocol/protocol.cc:445-451 | a further fragment of a half-filled entry does so iff that entry is not the first, or neither the only one nor saved by a number below the base |
| AsWritten.MeantMeetsNoEntryIff | lib/rudp/protocol/protocol.cc:445-451 | with the lookup as meant, and its error heeded, the null entry is met iff the start number is the number delivered last |
| AsWritten.NoEntryIsMet | lib/rudp/protocol/protocol.cc:445-451 | two inputs on which the null entry is met, one with numbers that wrap and one without |
| AsWritten.FragmentAckIsRightIff | lib/rudp/protocol/protocol.cc:448-449 | the overwritten number is the command's own iff the fragment number is a multiple of 2^16 |
| AsWritten.OverwrittenAckIsUnsound | lib/rudp/protocol/protocol.cc:448-451 | after the entry has been inserted, the fragment that is then acknowledged has been received iff it is the one that came |
| AsWritten.AckBandIsRightIff | lib/rudp/peer/peer.cc:218-226 | the suppressed band is the right one iff the base is below 8; otherwise a refused number is acknowledged |
| AsWritten.SpaceTestIsRightIff | lib/rudp/chamber.cc:66-80 | the space test is right iff neither a payload overruns the MTU behind a header that fits, nor the datagram is overrun already and the unsigned space left has wrapped round to enough |
| AsWritten.OverrunTakesAll | lib/rudp/chamber.cc:66-80 | once the datagram is overrun nothing but the lack of slots stops the loop, up to 2^16 bytes |
| AsWritten.SpaceTestFails | lib/rudp/chamber.cc:66-80 | an input for each of the two |
| AsWritten.TimeoutKeepsOnceIff | lib/rudp/command/command_pod.cc:69-108 | every command stays in one place iff no command that has timed out is queued again |
| AsWritten.AcknowledgeIsRightIff | lib/rudp/command/command_pod.cc:304-378 | the right command is removed iff it is in the sent list or in neither; then lists and counters are right |
| AsWritten.SendingKeepsDeadlineIff | lib/rudp/command/command_pod.cc:196-197 | the next timeout stays that of the oldest command iff the new command's is the same |
| AsWritten.AcknowledgeSetsDeadline | lib/rudp/command/command_pod.cc:365-368 | an acknowledgement that removes a command sets the next timeout to that of the oldest command left |
| AsWritten.RequeueKeepsDeadline | lib/rudp/command/command_pod.cc:106-107 | requeueing keeps it there |
| AsWritten.ArrivalOrderIsRightIff | lib/rudp/segment.h:38-47 | appending fragments as they first arrive rebuilds every content iff all arrive and each arrives for the first time in its turn, whatever is repeated |
| AsWritten.PushKeepsOrderIff | lib/rudp/peer/peer.h:131-137 | pushing a batch in front keeps the order iff nothing was waiting or nothing came |
| Channels.Channel.UseWindow | lib/rudp/command/command_pod.cc:183-186 | marks the window as used and counts the command |
| Channels.Channel.ReleaseWindow | lib/rudp/command/command_pod.cc:346-353 | counts down and clears the bit exactly at 0 |
| Channels.Channel.FindPosition | lib/rudp/channel.cc:140-161 | the backward loop finds the specified place |
| Channels.Channel.QueueIncomingCommand | lib/rudp/channel.cc:113-260 | the list becomes the specified insertion; the result says whether the command was wanted |
| Channels.Channel.NewIncomingReliableCommands | lib/rudp/channel.cc:17-47 | list, base and output become those of the specified drain |
| Channels.Channel.ExtractFirstCommand | lib/rudp/channel.cc:74-111 | returns the entry that suits the fragment, a mismatch when the entry with its number has another total or count, or none |
| Channels.Channel.HandleSendReliable | lib/rudp/protocol/protocol.cc:477-503 | queue and drain as specified |
| Channels.Channel.HandleSendFragment | lib/rudp/protocol/protocol.cc:415-475 | list, output and outcome are those of the specified fragment step |
| CommandPods.Datagram.SendingContinues | lib/rudp/chamber.cc:42-81 | full iff a slot is missing or header and payload do not fit the MTU |
| CommandPods.CommandPod.SetupOutgoingCommand | lib/rudp/command/command_pod.cc:415-476 | the command gets the next serial of its channel and joins the end of the waiting list |
| CommandPods.CommandPod.Send | lib/rudp/command/command_pod.cc:183-218 | moves the command to the sent list with its attempts, times, window and data in transit |
| CommandPods.CommandPod.Skips | lib/rudp/command/command_pod.cc:141-168 | the two window tests with their sticky flags |
| CommandPods.CommandPod.LoadReliableCommandsIntoChamber | lib/rudp/command/command_pod.cc:116-222 | pod, channels, datagram, ping flag and loaded commands are those of the specified loading |
| CommandPods.CommandPod.LoadUnreliableCommandsIntoChamber | lib/rudp/command/command_pod.cc:224-298 | lists, counter and datagram are those of the specified loading; the result tells whether a peer that is disconnecting later has nothing left |
| CommandPods.CommandPod.Timeout | lib/rudp/command/command_pod.cc:64-111 | pod, give-up flag and number of lost commands are those of the specified loop |
| CommandPods.CommandPod.TakeTurn | lib/rudp/peer/peer_pod.cc:474-511 | one turn of the sending loop for a peer is the specified turn |
| CommandPods.Datagram.SendAcknowledgements | lib/rudp/protocol/protocol.cc:607-644 | the acknowledgements that go, the one that is lost and those left are those of the specified loop |
| CommandPods.CommandPod.FindRequeuedCommand | lib/rudp/command/command_pod.cc:323-338 | searches the retransmits at the front of the waiting list |
| CommandPods.CommandPod.RemoveSentReliableCommand | lib/rudp/command/command_pod.cc:300-378 | pod, channels and removed command are those of the specified acknowledgement |
| Peers.CutIntoFragments | lib/rudp/peer/peer.cc:378-409 | the loop with its running offset and shrinking length yields exactly the numbered fragments |
| Peers.Peer.Send | lib/rudp/peer/peer.cc:337-443 | succeeds iff connected, the channel exists and the segment is at most 32 MiB; then commands with the next serials are queued whose payloads are its bytes, each of which fits an empty datagram at the MTU, every fragment but the last exactly, and it is cut iff it would not fit behind the header of a fragment |
| Peers.QueueCarries | lib/rudp/peer/peer.cc:345-413 | the commands of a segment carry it in that sense |
| Peers.LongestIsSendable | lib/rudp/peer/peer.cc:362-365 | the limit on fragments never refuses a segment that is not too long |
| Peers.Peer.QueueAcknowledgement | lib/rudp/peer/peer.cc:213-241 | queues the acknowledgement unless the number lies in the suppressed band of its channel |
| Peers.Peer.TakeSegment | lib/rudp/peer/peer.cc:255-275 | a segment is taken in or discarded by the two tests of the peer, and acknowledged in either case |
| Peers.Peer.TakeFragment | lib/rudp/peer/peer_pod.cc:360-431 | a fragment is handled as specified and its own number acknowledged unless the handler failed |
| Shares.SpentGap | lib/rudp/protocol/protocol.cc:149-171 | between two thresholds every further demand that is granted is at most the higher threshold |
| Shares.PassStaysBelow | lib/rudp/protocol/protocol.cc:149-171 | a pass never raises the limit above a balanced one |
| Shares.EveryoneIsGranted | lib/rudp/protocol/protocol.cc:149-171 | when the limit grants every demand there is no balanced limit |
| Shares.ShareTotal | lib/rudp/protocol/protocol.cc:174-190 | what the peers are told sums to the granted demands plus the limit times the others |
| Shares.ShareIsMaxMin | lib/rudp/protocol/protocol.cc:139-172 | max-min fairness: giving a peer held to the limit more than the rounding allows takes from a peer that has no more than the limit |
| Throttle.NextThreshold | lib/rudp/protocol/protocol.cc:149-151 | the limit never decreases between passes and never passes a balanced one |
| Throttle.GrantOne | lib/rudp/protocol/protocol.cc:160-169 | granting a demand below the limit never underflows the bandwidth and leaves enough for the others |
| Throttle.GrantPass | lib/rudp/protocol/protocol.cc:153-170 | a pass marks exactly the connected peers, but for those that bear the mark already, whose demand is 0 or below the limit |
| Throttle.ShareIncoming | lib/rudp/protocol/protocol.cc:145-172 | on exit the limit is the least balanced threshold, exactly the demands below it are granted, and the shares fit the bandwidth, where a peer that bears the mark already counts as asking for more than there is; the loop ends |
| Throttle.ScaleCovers | lib/rudp/protocol/protocol.cc:68-71 | the bandwidth covers the scaled data of all who are counted in the total |
| Throttle.ScaleIsLargest | lib/rudp/protocol/protocol.cc:68-71 | the scale is the largest, up to 32, at which the scaled total fits the bandwidth |
| Throttle.ScaleSettles | lib/rudp/protocol/protocol.cc:110-117 | so is the final one for what is left of data and bandwidth when the held peers are taken out |
| Throttle.HoldOne | lib/rudp/protocol/protocol.cc:96-105 | marking a slow peer underflows neither bandwidth nor total, keeps their difference, and the total still covers the rest |
| Throttle.OwnLimitHolds | lib/rudp/protocol/protocol.cc:87-91 | a held peer's limit is the largest at which its scaled data fits its own bandwidth, or 1 when none is |
| Throttle.HoldTurn | lib/rudp/protocol/protocol.cc:73-105 | one peer is held iff its scaled data exceeds what it can take; one that bears the mark already keeps its limits |
| Throttle.HoldPass | lib/rudp/protocol/protocol.cc:73-106 | a pass holds peers only with need and keeps the accounts; without a new mark nobody needs holding |
| Throttle.HoldSlowPeers | lib/rudp/protocol/protocol.cc:65-107 | the loop ends, and then every peer left fits its own bandwidth at the final scale |
| Throttle.ScaleOthers | lib/rudp/protocol/protocol.cc:113-134 | all other connected peers, and only they, get the same limit and a throttle within it |
| Throttle.ScaleOutgoing | lib/rudp/protocol/protocol.cc:61-134 | held bandwidths plus scaled data never exceed the host's bandwidth, and the common scale is the largest at which they do not; a held peer has the largest limit of its own that fits, or 1; every throttle is cut down to its limit and no further |
| Throttle.TellPeers | lib/rudp/protocol/protocol.cc:139-194 | every connected peer is told its share, and one that bears the mark already its own demand |
| Throttle.NoneStaleIsFair | lib/rudp/protocol/protocol.cc:139-194 | when no connected peer bears the mark of this moment beforehand, all are told their fair share |
| Throttle.ToldFitsIff | lib/rudp/protocol/protocol.cc:145-194 | what is told stays within the bandwidth for all demands iff no connected peer bears the mark of this moment beforehand |
| Throttle.TotalData | lib/rudp/protocol/protocol.cc:49-59 | the summing loop yields the data of all connected peers |
| Throttle.Allocator.BandwidthThrottle | lib/rudp/protocol/protocol.cc:24-196 | when due, all of the above together, with peers that bear the mark of this moment beforehand passed over; when not due, nothing changes |
| Throttle.NewPeerAtClockZero | lib/rudp/protocol/protocol.cc:145-194 | a peer never marked, when the clock reads 0, is told ten times what the host has |
| Lifecycle.DispatchIsAccounted | lib/rudp/dispatch/dispatch_hub.cc:50-60 | dispatching a state keeps the counters true and has the peer in the queue |
| Lifecycle.ConnectIsAccounted | lib/rudp/dispatch/dispatch_hub.cc:62-78 | a peer that connects is counted at once or owes the event from the queue |
| Lifecycle.VerifyIsAccounted | lib/rudp/protocol/protocol.cc:505-560 | the same for VERIFY_CONNECT, accepted or refused, with the bandwidth it brings |
| Lifecycle.AckIsAccounted | lib/rudp/protocol/protocol.cc:357-375 | the same for acknowledgements in every state |
| Lifecycle.HandleDisconnectIsAccounted | lib/rudp/protocol/protocol.cc:562-595 | the same for DISCONNECT in every state |
| Lifecycle.DisconnectIsAccounted | lib/rudp/peer/peer_pod.cc:70-104 | the same for a local disconnect |
| Lifecycle.DeliveryIsAccounted | lib/rudp/protocol/protocol.cc:286-308 | a peer with deliverable segments is in the queue |
| Lifecycle.HandlerKeepsGood | lib/rudp/dispatch/dispatch_hub.cc:13-104 | every handler keeps exact counters and loses no event |
| Lifecycle.PollSettles | lib/rudp/protocol/protocol.cc:226-284 | polling keeps that; what it reports is owed and settled, and it reports nothing only when nobody owes anything |
| Lifecycle.PollReportsIffOwed | lib/rudp/protocol/protocol.cc:226-284 | an event comes iff some peer owes one |
| Lifecycle.NoEventIsLost | lib/rudp/protocol/protocol.cc:226-308 | in every run the counters are the true counts and an event comes iff some peer owes one |
| Lifecycle.DisconnectNowKeepsCountersIff | lib/rudp/peer/peer_pod.cc:125-151 | resetting at once keeps the counters iff the peer was not counted |
| Lifecycle.PurgeAfterLoadingKeepsCountersIff | lib/rudp/protocol/protocol.cc:654-661 | purging after loading keeps them iff the branch is not taken |
| Lifecycle.DisconnectLaterIsNeverReported | lib/rudp/protocol/protocol.cc:229-281 | no run reports a segment of a peer that is disconnecting later before its queues are reset, and until then the peer keeps all that it holds |
| Lifecycle.DeliveredIsOwedIff | lib/rudp/protocol/protocol.cc:257-262 | segments that become deliverable are owed iff the peer is connected and not disconnecting later |
| Lifecycle.DeliveredIsReportedIff | lib/rudp/protocol/protocol.cc:226-284 | and polling reports one in the end iff so |
| Outcomes.WhatIsOwedComes | lib/rudp/protocol/protocol.cc:226-284 | polling brings exactly what a peer owes before any other event of it, and nothing when it owes nothing |
| Outcomes.BringsOne | lib/rudp/protocol/protocol.cc:226-284 | what polling brings is unique |
| Outcomes.ServedInTurn | lib/rudp/protocol/protocol.cc:226-284 | a peer at place p of the queue has its event within p + 1 polls |
| Outcomes.HandlersQueueAtTheEnd | lib/rudp/dispatch/dispatch_hub.cc:50-60 | a handler puts its peer at the end of the queue or leaves the queue alone |
| Outcomes.ReplyOutcome | lib/rudp/protocol/protocol.cc:505-560 | a reply to CONNECT is reported as a connection iff it was accepted and as a disconnection iff it was refused; with an event at hand the peer is connected at once iff it was accepted |
| Outcomes.AcknowledgeOutcome | lib/rudp/protocol/protocol.cc:357-375 | by state: the acknowledgement of VERIFY_CONNECT brings the peer, that of DISCONNECT reports that it has left, the last one awaited starts the disconnection; nothing else changes anything |
| Outcomes.DisconnectedOutcome | lib/rudp/protocol/protocol.cc:562-595 | by state: what a DISCONNECT of the peer makes polling report, at once or when its acknowledgement has been sent |
| Outcomes.LocalDisconnectOutcome | lib/rudp/peer/peer_pod.cc:70-104 | by state: a connected peer leaves the counters and waits, another is reset; nothing is reported |
| Outcomes.OtherDisconnectsOutcome | lib/rudp/peer/peer_pod.cc:106-151 | disconnecting later waits iff the peer is connected and something waits; disconnecting at once resets the peer in any state |
| Outcomes.ConnectOutcome | lib/rudp/protocol/protocol.cc:390-402 | nothing is reported before a handshake is over |
| Outcomes.RecalculateIff | lib/rudp/dispatch/dispatch_hub.cc:62-104 | the limits are told again iff a handshake is completed, one is broken off by the peer, or polling reports that a peer has left |
| Outcomes.DataOnlyFromPeersThatCame | lib/rudp/protocol/protocol.cc:226-284 | in every run a segment of a peer is reported only after the peer has come, and not after it has left |
| Hubs.DispatchHub.MergePeer | lib/rudp/dispatch/dispatch_hub.cc:13-24 | counts the peer unless it is counted |
| Hubs.DispatchHub.PurgePeer | lib/rudp/dispatch/dispatch_hub.cc:26-37 | uncounts it if it is counted |
| Hubs.DispatchHub.ChangeState | lib/rudp/dispatch/dispatch_hub.cc:39-48 | counters and state change together |
| Hubs.DispatchHub.DispatchState | lib/rudp/dispatch/dispatch_hub.cc:50-60 | and the peer is queued unless it is marked as queued |
| Hubs.DispatchHub.NotifyConnect | lib/rudp/dispatch/dispatch_hub.cc:62-78 | reports the connection or queues the peer |
| Hubs.DispatchHub.NotifyDisconnect | lib/rudp/dispatch/dispatch_hub.cc:80-104 | resets the peer or queues it as a zombie |
| Hubs.DispatchHub.HandleVerifyConnect | lib/rudp/protocol/protocol.cc:505-560 | the handler is its specified step |
| Hubs.DispatchHub.HandleDisconnect | lib/rudp/protocol/protocol.cc:562-595 | the handler is its specified step |
| Hubs.DispatchHub.HandleAcknowledge | lib/rudp/protocol/protocol.cc:357-375 | the handler's part after the removal is its specified step |
| Hubs.DispatchHub.Deliver | lib/rudp/protocol/protocol.cc:286-308 | the batch is put in front of what waits and the peer is queued |
| Hubs.DispatchHub.Disconnect | lib/rudp/peer/peer_pod.cc:70-104 | the peer leaves the counters, or is reset |
| Hubs.DispatchHub.DisconnectLater | lib/rudp/peer/peer_pod.cc:106-123 | waits for what is outstanding, or disconnects |
| Hubs.DispatchHub.DisconnectNow | lib/rudp/peer/peer_pod.cc:125-151 | the peer is purged and reset |
| Hubs.DispatchHub.ResetPeer | lib/rudp/protocol/protocol.cc:597-605 | the peer leaves the counters and is reset |
| Hubs.DispatchHub.Receive | lib/rudp/peer/peer.cc:317-335 | the first waiting segment is taken and the peer queued again iff more is waiting |
| Hubs.DispatchHub.DispatchIncomingCommands | lib/rudp/protocol/protocol.cc:226-284 | the loop is the specified polling: it keeps the host good and settles what it reports |
| Addresses.DigitsValue | lib/core/io/ip_address.cc:167-192 | printed digits, decimal or hexadecimal, read back as the number |
| Addresses.QuadRoundTrip | lib/core/io/ip_address.cc:53-81 | a printed dotted quad reads back as its four bytes |
| Addresses.ScanParts | lib/core/io/ip_address.cc:94-128 | the scanning loop finds the parts as specified |
| Addresses.ScanIsByFields | lib/core/io/ip_address.cc:94-128 | scanning a text character by character is scanning its fields |
| Addresses.ParseHex | lib/core/io/ip_address.cc:12-51 | the digit loop reads at most four characters up to a colon |
| Addresses.FillGroups | lib/core/io/ip_address.cc:136-152 | the loop over the parts fills the groups as specified |
| Addresses.ParseIpv6 | lib/core/io/ip_address.cc:83-153 | both loops together are the specified reading |
| Addresses.ParseIsByFields | lib/core/io/ip_address.cc:83-153 | reading a text is reading its fields between colons |
| Addresses.GroupsParse | lib/core/io/ip_address.cc:83-153 | eight groups of one to four hexadecimal digits read as their sixteen bytes |
| Addresses.PrintParses | lib/core/io/ip_address.cc:167-192 | what is printed for any sixteen bytes, mapped or not, reads back as the same bytes |
| Addresses.PrintIsCanonical | lib/core/io/ip_address.cc:167-192 | an IPv4 address is printed as four decimal numbers between dots, any other as eight hexadecimal ones between colons, in lower case without zeros in front |
| Addresses.CanonicalIsDigits | lib/core/io/ip_address.cc:167-192 | and those digits are the only such ones with that value |
| Addresses.DottedIsAddressIff | lib/core/io/ip_address.cc:53-80 | a text of decimal numbers between dots is an address iff there are four, each counted modulo 256 |
| Addresses.GapParsesAsExpanded | lib/core/io/ip_address.cc:130-152 | any spelling with a double colon that ends in a dotted quad reads like the spelling with the missing groups written out |
| Addresses.HexGapBytes | lib/core/io/ip_address.cc:130-152 | without a dotted quad the double colon stands for one group too few and the last group is left 0 |
| Addresses.HexGapIsRightIff | lib/core/io/ip_address.cc:130-152 | such a spelling reads like the spelling with the missing groups written out iff every group behind the double colon has value 0 |
| Addresses.GapBeforeDigitsIsShort | lib/core/io/ip_address.cc:138-143 | ::1 is misread |

## Left out

- Sockets, name resolution, logging, signals, singletons and the command line: foreign calls and I/O.
- Parsing of raw datagrams, byte order, compression and checksums: a datagram is a sequence of parsed commands.
- Receiving unreliable and unsequenced commands, throttle configuration and `HandleBandwidthLimit`: stubs on the receiving side. Queueing unreliable commands in `Send`: their numbers are taken as given.
- The round-trip estimator and loss statistics, with the assignment of a round-trip time to the throttle in `lib/rudp/protocol/protocol.cc:347`: the first timeout of a command and the scaled window are inputs.
- Negotiation of MTU, window size and session identifiers in the handshake: clamps and copies; the life cycle takes the outcome (accepted or not, bandwidth) as given.
- `Flush` inside `Disconnect` and `DisconnectNow`: its effects are separate steps of the run.
- Repeated CONNECT detection across peer slots: a CONNECT takes a free peer.
- The content of `event_data_` and of events beyond their kind and peer.
- `send_attempts_` is not cut to 16 bits: a command is given up long before 65536 attempts because its timeout doubles.
- Buffers of a datagram: only their number and size are kept, not their bytes.
- Commands and entries are values in the lists; the source shares objects between lists and callers. `AsWritten.TimeoutKeepsOnceIff` models the one place where that sharing shows.
- The word of used windows and the words of fragment bits are sequences of flags in the runs; `Bits` proves that the words answer and change alike.
- Throttle.Allocator.BandwidthThrottle: requires that no 32-bit product overflows and that the hub's counters are exact.
- Delivery.DeliveredIsPrefixOfSent: under the two provisos on delay named above, without resets of the queues during the run.
- Addresses.GapParsesAsExpanded: for spellings that end in a dotted quad; texts that `stoi` rejects, or that write outside the eight groups, are a refusal in the model.
- Addresses.Octet: reads a field that begins with a digit; leading blanks and signs that `stoi` also takes are not modelled.
- Comparison operators of addresses, getters and setters: too easy alone.
