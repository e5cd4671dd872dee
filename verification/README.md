# Verified model of the cocoa-way relay, clock arithmetic and small cores

A Dafny 4.11 project. `dafny verify dfyconfig.toml` checks everything.

## What is modelled

**The multiplexed container relay.** Host and guest speak OPEN/DATA/CLOSE frames
with a nine-byte big-endian header over two byte channels.

* `Wire` gives a stream of bytes its meaning one byte at a time (`Scan`), so the
  meaning cannot depend on how a transport splits it. `Lanes` says what one stream
  id may see: nothing, then OPEN, bytes, at most one CLOSE, nothing more.
* `HostLog` and `GuestLog` are the two ends as logs: bytes consumed, frames sent,
  bytes written, and per stream what was read from, accepted for and written to the
  local socket. Every step keeps their invariants, whatever bytes arrive.
* `Composition` puts the two logs over two FIFO channels; a run is any interleaving.
* `Bridge` (host pump), `PublishRelay` and `StdioRelay` (the two Perl guests) are
  the programs: classes whose methods have the source's branches, limits, deadlines
  and error paths, on top of `Queues`, `Backlogs` and `Roster`. Each method is
  proved to be a sequence of log steps. Descriptors are replaced by the outcomes of
  the calls on them (`World`), so short reads and writes, EAGAIN, EOF and errors
  occur in any pattern; time is an integer.
* `RelayRuns` lets the host object and a guest object take turns in any order and
  carries the composed theorems over to them. `Waits` says what waits for what in two
  such objects, and `Rotation` in which order the pump serves its peers.

**Clock-offset intervals.** `Clocks`, `OffsetIndex`, `Calibrating`, `Knots`,
`Crossings` and `Latency`: the envelope index, the summary, the knot check and where
it falls short, and what the numbers mean for two clocks whose offset `theta(t)`
drifts at most at the budgeted rate. Times are exact integers and rates exact
fractions; the true times are reals.

**Smaller cores.** `TransferBudget` (atomic counters under any interleaving of
threads), `ImageWorker` (single-flight worker over two channels of capacity one),
`Redaction` (the one-pass pattern redactor), `Traces` (the bounded streaming
analyser), `Profiles` (the profile printer used as an identity signature).

## What the code turned out to do

* `pack('N', $id)` keeps 32 bits while `$next_id` grows without bound, so after
  2^32 opens an id repeats on the wire (`Wire.StreamIdsWrap`). The composed theorems
  hold for every run with fewer opens, and fail with one more
  (`RelayRuns.BoundIsTight`).
* The comment at the knot check (scripts/analyze-input-probe.py:300-301) says that
  feasibility can change only at raw timestamps. That is so for the exact envelopes
  (`Knots.ExactKnots`), but the code compares rounded bounds, and those can cross
  between knots that pass, by at most 1 ns (`Knots.RoundedKnots`). For a rate n/d in
  lowest terms, send and receive errors e0 and e3 and an event's error e, let a and b
  be the remainders of n*e0 and n*e3 by d. No calibration that is accepted has bounds
  that cross at an event in its measurement if and only if a = 0, or b = 0, or
  d - 1 - max(a, b) < 2*n*e (`Crossings.KnotCheckExact`). With zero errors the check
  is exact; with 50 ppm and errors of one microsecond it is not, and the event is then
  refused as inconsistent (`Crossings.PracticalCrossing`; a small instance is
  `Crossings.SmallCrossing`).
* In both guest relays a connection can be accepted in the same pass in which the
  transport reached its end, after it. The relay then ends with status 0 and that
  stream open (`LeavesAStreamOpen` in both). A drained end without the child's exit
  leaves open exactly the streams that the turn which read the end accepted after it;
  none if in that turn no connection waited or the listening socket did not stand
  behind the transport in the order of ready descriptors (`RunPublishRelay`,
  `RunStdioRelay`).
* A guest that is ending (the child exited, or the transport ended) reads no more but
  waits until its frames are written. If the host meanwhile has to refuse a stream and
  has no room for the CLOSE, it reads no more either, and the two wait for each other
  (`Waits.DeadlockReached`). Waits run in a circle in no other situation, and then the
  host wakes up and gives up at its queue deadline (`Waits.PublishedWaits`,
  `Waits.StdioWaits`).
* The rotation counter of the pump wraps around at 2^64. Every peer comes first within
  as many turns as there are peers, exactly if no wrap falls between or the number of
  peers divides 2^64 (`Rotation.FairExactly`).
* A value that begins with the mask itself is covered only as far as the mask
  (`Redaction.MaskEndsTheValue`). Of any other bare or header value of a sensitive key
  no byte survives, and of a quoted one only the quotes, escapes and unclosed quotes
  included (`BareValueHidden`, `HeaderValueHidden`, `QuotedValueHidden`). A flag needs no
  separator before its value.

## Model

| member | source | states |
|---|---|---|
| `Wire.Be32RoundTrip` | src/apple_container_transport.rs:263-265 | reading back the four big-endian bytes of a 32-bit number gives that number |
| `Wire.ScanAppend` | src/apple_container_transport.rs:286-308 | scanning a stream in two parts is scanning it whole: framing depends on the bytes, not on how reads split them |
| `Wire.ScanEncoded` | src/apple_container_transport.rs:177-184 | the bytes of one acceptable frame, scanned between frames, say exactly what the frame says and leave the parser between frames |
| `Wire.ScanEncodedAll` | src/apple_container_transport.rs:177-184 | the same for any sequence of frames: encoding and scanning are inverse |
| `Wire.ScanOfPrefix` | src/apple_container_transport.rs:286-385 | any prefix of well-formed frames scans without a bad header, to a prefix of what they say |
| `Wire.StreamIdsWrap` | src/container_sessions.rs:980-984 | the encoding forgets everything of an id beyond 32 bits |
| `Lanes.OpenedOnce` | src/apple_container_transport.rs:324-331 | on an orderly lane an id is opened once |
| `HostLog.InvStep` | src/apple_container_transport.rs:286-385 | every step of the host, for every sequence of incoming bytes, keeps: framing equals the scan of the bytes consumed; accepted bytes equal the DATA payloads since the OPEN; written is a prefix of accepted; the frames sent for an OPEN are exactly the bytes read, then at most one CLOSE (none if the guest closed first), then nothing |
| `HostLog.InvAll` | src/apple_container_transport.rs:465-651 | the same over any sequence of steps |
| `GuestLog.InvStep` | src/container_sessions.rs:1380-1570 | the same for a guest: ids handed out once in order, OPEN first, then exactly the bytes read, then CLOSE if owed; accepted equals payloads between open and close |
| `GuestLog.QuietStays` | src/container_sessions.rs:1037-1040 | once every stream is closing, only a new accept can change that |
| `GuestLog.OwedStays` | src/container_sessions.rs:1037-1047 | a CLOSE once owed stays owed or was sent |
| `Composition.RunInv` | src/apple_container_transport.rs:440-652 | over every interleaving of host and guest steps both invariants hold, and each end has consumed a prefix of what the other wrote |
| `Composition.EndToEnd` | src/apple_container_transport.rs:616-650 | in every state of every run, in both directions, the bytes written to a stream's socket are a prefix of those read from its other end |
| `Composition.ClosedStreamsAreComplete` | src/apple_container_transport.rs:496-510 | a stream removed after the other side's CLOSE was delivered in full, unless a local write failed |
| `Composition.DrainedStreamsAreComplete` | src/apple_container_transport.rs:511-515 | with a channel drained and the queue written out, everything read was delivered |
| `Composition.NoProtocolError` | src/apple_container_transport.rs:314-331 | whatever part of a channel is read next, neither end sees a header it refuses, and the host never sees an OPEN of an id it has decided on |
| `RelayRuns.SessionReached` | src/apple_container_transport.rs:465-651 | turns of the two programs, with a transport that hands over only what was written, are a run of the composed system in which neither program has refused a frame; turns that fail for a local reason included |
| `RelayRuns.HostNeverRefuses` | src/apple_container_transport.rs:314-331 | "invalid frame header" and "duplicate relay stream id" cannot be justified in a reached state |
| `RelayRuns.GuestNeverRefuses` | src/container_sessions.rs:1530-1535 | in a reached state no bytes the host has written make a guest's parser see a header it refuses |
| `RelayRuns.GuestTurnKeeps` | src/container_sessions.rs:1525-1536 | a turn of a guest program over an honest transport keeps the run and does not end for an invalid frame header |
| `RelayRuns.BoundIsTight` | src/container_sessions.rs:980-984 | a reached state with one open more than 2^32 - 1 in which the host serves a stream the guest does not know |
| `RelayRuns.PublishedSession` | src/container_sessions.rs:1441-1570 | host pump and published-socket relay over any schedule of turns, a finished or failed end letting its turns pass: the history ends at the two programs returned; after every turn every stream has delivered a prefix of what was read at its other end, and neither program has failed for a malformed frame or a second OPEN |
| `RelayRuns.StdioSession` | src/container_sessions.rs:1098-1200 | the same with the stdio relay |
| `Waits.CircleExactly` | src/apple_container_transport.rs:270-283 | waits among lanes, return lanes and sockets run in a circle exactly if the guest is ending with frames to write and the host is stalled with no socket to explain it |
| `Waits.ChainEnds` | src/apple_container_transport.rs:270-283 | otherwise waits lead, in at most four steps, to a socket with bytes queued, a lane that is read or an empty return lane |
| `Waits.PublishedWaits` | src/container_sessions.rs:1393-1398 | in any two valid states of pump and published-socket relay every stall is explained, waits run in a circle exactly in that situation, and then the pump wakes up by the time it gives up on its return lane |
| `Waits.StdioWaits` | src/container_sessions.rs:1069-1077 | the same with the stdio relay |
| `Waits.DeadlockReached` | src/apple_container_transport.rs:339-348 | a pump and a relay, with logs a run of the composed system reaches, that wait for each other |
| `Rotation.FairExactly` | src/apple_container_transport.rs:537-543 | with the same peers, each comes first within as many turns as there are peers, if and only if the counter does not wrap around meanwhile or their number divides 2^64 |
| `Rotation.FirstWithinTwice` | src/apple_container_transport.rs:537-543 | in any case within twice as many turns |
| `Queues.PushKeeps` | src/apple_container_transport.rs:75-88 | a push that fits keeps both limits and exact charge and adds its bytes at the end of what is pending |
| `Queues.WriteKeeps` | src/apple_container_transport.rs:90-107 | a write takes the next pending bytes in order, keeps the rest, releases charge only with a whole chunk |
| `Bridge.Bridge.PushFrame` | src/apple_container_transport.rs:75-88 | a frame that fits goes to the end of the return lane, which stays within its limits; written plus queued bytes are the frames sent |
| `Bridge.Bridge.WriteTransport` | src/apple_container_transport.rs:90-107 | one write of the return lane of any outcome: the bytes taken go to the wire, the rest stay queued; it fails exactly on an error or a zero write |
| `Bridge.Bridge.ReadTransport` | src/apple_container_transport.rs:286-385 | one Input::read, with any outcome of its at most two reads: it is a sequence of log steps, consumes exactly the bytes taken, keeps the pump valid, and refuses a frame only when those bytes justify it; clean EOF only between frames |
| `Bridge.FragmentationIndependent` | src/apple_container_transport.rs:286-385 | two pumps that took the same bytes, in whatever fragments, stand at the same place in the same frame; written plus queued bytes of a live peer are exactly the DATA payload since the latest OPEN of its id |
| `Bridge.Bridge.TakePayload` | src/apple_container_transport.rs:355-381 | DATA payload: at most what is outstanding, one chunk and the destination's room; fails only on EOF or a read error |
| `Bridge.Bridge.ActOnHeader` | src/apple_container_transport.rs:309-354 | acting on a complete header: OPEN accepted, refused or a duplicate, CLOSE, DATA, malformed |
| `Bridge.Bridge.FinishReject` | src/apple_container_transport.rs:339-348 | the CLOSE of a refused OPEN is queued once there is room |
| `Bridge.Reconnect` | src/apple_container_transport.rs:466-475 | every due peer, and no other, gets the outcome of its retry; queues, flags and age stay |
| `Bridge.Bridge.RetirePeers` | src/apple_container_transport.rs:496-510 | only peers with an empty queue and one side done are removed; afterwards none such is left unless the return lane has no room for a CLOSE; nothing becomes overdue by it |
| `Bridge.Bridge.BeforePoll` | src/apple_container_transport.rs:466-515 | the part before the poll: times out exactly when a queue, a frame or a connect is past its deadline; done exactly when drained, with no removable peer left |
| `Bridge.EarliestOf` | src/apple_container_transport.rs:569-586 | the wakeup is no later than any peer's deadlines and is one of them |
| `Bridge.PollTimeout` | src/apple_container_transport.rs:168-175 | -1 exactly without a deadline; otherwise never early and less than a millisecond late, up to the clamp |
| `Bridge.Bridge.Prepare` | src/apple_container_transport.rs:516-589 | what one poll is asked for: transport reads, writes, per-peer interest, the wakeup and the timeout made of it; the peers in ascending order from where the rotation stands, which moves on by one |
| `Bridge.Bridge.NoSilentStall` | src/apple_container_transport.rs:270-283 | if the transport is not read, the queue it waits on is nonempty and armed for writing or awaiting a timed connect retry; poll's timeout is -1 exactly when no frame is partial, nothing is queued and no peer is connecting or retrying |
| `Bridge.Bridge.ServicePeer` | src/apple_container_transport.rs:616-650 | one ready peer: a finished connect is noted, an error or a hangup with bytes queued fails, a writable peer is offered its next bytes |
| `Bridge.Bridge.ReadReady` | src/apple_container_transport.rs:636-649 | a peer is read exactly when it is ready, both sides are open and the return lane has room for more than a header |
| `Bridge.Bridge.WritePeer` | src/apple_container_transport.rs:633-635 | one write to a local socket moves exactly the bytes taken from the queue to the stream's record |
| `Bridge.Bridge.ReadPeer` | src/apple_container_transport.rs:636-649 | one read becomes one DATA frame that fits the return lane, or marks the end |
| `Bridge.Bridge.ResourceBounds` | src/apple_container_transport.rs:67-88 | in every valid state peers, bytes and chunks are within their limits and charged bytes are the exact sums |
| `Bridge.Bridge.Iterate` | src/apple_container_transport.rs:465-651 | one turn of the pump in any world: only log steps, refusals are the offered bytes' fault, a fed header is taken, a timeout only when overdue, and an orderly end has flushed everything and left no removable peer |
| `Bridge.BridgeWithLimits` | src/apple_container_transport.rs:440-515 | any finite run: unusable limits are refused without a pump; otherwise the history of logs ends at the returned pump, which is valid unless it failed and keeps the host invariant; Ok means every accepted byte was delivered, every frame written and no removable peer left |
| `Backlogs.WriteKeeps` | src/container_sessions.rs:1441-1475 | a partial or whole write takes the next bytes and leaves the rest in order |
| `Backlogs.AppendKeeps` | src/container_sessions.rs:1538-1545 | filling up the last chunk before starting a new one keeps the bytes in order and every chunk but the last full |
| `Backlogs.AtMostFiveChunks` | src/container_sessions.rs:1541-1550 | 256 KiB pending never spread over more than five chunks, whatever the front offset |
| `Roster.Written` | src/container_sessions.rs:1461-1475 | bytes leave a peer's queue for its socket: totals, records and bounds of all peers stay exact |
| `Roster.HostClose` | src/container_sessions.rs:1536-1536 | a CLOSE from the host stops a stream and keeps its queue |
| `Roster.HeaderSays` | src/container_sessions.rs:1525-1537 | nine header bytes, in any fragments, mean what the scan says, or are refused for being malformed |
| `Roster.EndPassOnce` | src/container_sessions.rs:1478-1524 | the log after a pass that read the transport's end determines where in it the end was, and the pass leaves no stream running exactly if none was accepted after it |
| `PublishRelay.PublishRelay.SendFrame` | src/container_sessions.rs:1324-1334 | queues one frame; the limits it would die on are a precondition that every caller is proved to meet |
| `PublishRelay.PublishRelay.ClosingPeer` | src/container_sessions.rs:1336-1347 | closing_peer: the entry and the log close together, and a discard releases exactly the peer's bytes |
| `PublishRelay.PublishRelay.RetirePeers` | src/container_sessions.rs:1349-1360 | drops finished peers and only those; afterwards, with an empty return lane, none is left |
| `PublishRelay.PublishRelay.ReadTransport` | src/container_sessions.rs:1501-1554 | one read of any outcome: log steps only; an invalid header is the fault of the bytes taken, any other failure of the read; the end between frames closes every peer |
| `PublishRelay.PublishRelay.WritePeer` | src/container_sessions.rs:1458-1476 | one write to a local socket, or the close and discard after a failure |
| `PublishRelay.PublishRelay.ReadPeer` | src/container_sessions.rs:1557-1570 | one read of a local socket into a frame, or the close after its end |
| `PublishRelay.PublishRelay.ReadOne` | src/container_sessions.rs:1485-1570 | a waiting connection is accepted exactly when it was polled for and there is room; a readable local socket is read; once the transport's end was read in a pass, accepting connections is all that happens in it |
| `PublishRelay.PublishRelay.ResourceBounds` | src/container_sessions.rs:1288-1295 | peers, input, output and per-peer limits hold, counters are exact sums, at most five chunks a peer |
| `PublishRelay.PublishRelay.WritePhase` | src/container_sessions.rs:1441-1477 | the ready descriptors in any order: a transport write that takes something moves the wire on, one that fails ends the relay |
| `PublishRelay.PublishRelay.PausedOnLocal` | src/container_sessions.rs:1393-1398 | a paused transport lane means some local socket has bytes queued |
| `PublishRelay.PublishRelay.Iterate` | src/container_sessions.rs:1380-1571 | one turn in any world; every failure is to be blamed on what the world did; the transport's end is read exactly if it is there between frames, the turn is not interrupted and neither end is known, and the log at that moment is told: every stream was shut, and only connections were accepted after it, none unless the listening socket stood behind the transport, and one if it did, a connection waited and there was room |
| `PublishRelay.RunPublishRelay` | src/container_sessions.rs:1380-1571 | any finite run: the history of logs ends at the returned relay; the guest invariant holds however it ends; a drained end wrote every accepted byte unless a local write failed; without the child's exit there was a turn that read the transport's end, told by the worlds and the logs, and exactly the streams accepted after it in that turn are left open |
| `PublishRelay.LeavesAStreamOpen` | src/container_sessions.rs:1478-1524 | turns of the relay after which it is drained and a stream is still open |
| `StdioRelay.StdioRelay.SendFrame` | src/container_sessions.rs:980-989 | queues one frame; the limits it would die on are a precondition that every caller is proved to meet |
| `StdioRelay.StdioRelay.PeerReadSize` | src/container_sessions.rs:991-996 | what it allows always fits the return lane with a header |
| `StdioRelay.StdioRelay.ReadTransport` | src/container_sessions.rs:1131-1184 | one read of any outcome: log steps only; an invalid header is the fault of the bytes taken, any other failure of the read; the end between frames closes every peer |
| `StdioRelay.StdioRelay.WritePeer` | src/container_sessions.rs:1103-1111 | one write to a local socket; whole chunks stay charged until written out |
| `StdioRelay.StdioRelay.ReadOne` | src/container_sessions.rs:1116-1199 | a waiting connection is accepted exactly when it was polled for and there is room; a readable local socket is read; once the transport's end was read in a pass, accepting connections is all that happens in it |
| `StdioRelay.StdioRelay.ReadPeer` | src/container_sessions.rs:1186-1198 | one read of a local socket becomes one DATA frame, or the close after its end |
| `StdioRelay.StdioRelay.NoticeExit` | src/container_sessions.rs:1037-1040 | the child's exit closes every stream and owes each one present a CLOSE |
| `StdioRelay.StdioRelay.Expiry` | src/container_sessions.rs:1052-1068 | reports lateness exactly when a partial frame or a queue's front is past its deadline; otherwise the wait reaches the earliest deadline and passes none |
| `StdioRelay.StdioRelay.ResourceBounds` | src/container_sessions.rs:950-955 | peers, input, output and per-peer limits hold and counters are exact sums |
| `StdioRelay.StdioRelay.BeforePoll` | src/container_sessions.rs:1036-1068 | the part before the poll: late exactly when a frame or a queue's front is overdue, drained exactly when nothing is queued after the child's exit or the transport's end |
| `StdioRelay.StdioRelay.WritePhase` | src/container_sessions.rs:1098-1112 | the ready descriptors in any order: a transport write that takes something moves the wire on, one that fails ends the relay |
| `StdioRelay.StdioRelay.PausedOnLocal` | src/container_sessions.rs:1073-1076 | a paused transport lane means some local socket has bytes queued |
| `StdioRelay.StdioRelay.Iterate` | src/container_sessions.rs:1036-1200 | one turn in any world; every failure is to be blamed on what the world did, late only when overdue; the transport's end is read exactly if it is there between frames, the turn is not interrupted and neither end is known, and the log at that moment is told: every stream was shut, and only connections were accepted after it, none unless the listening socket stood behind the transport, and one if it did, a connection waited and there was room |
| `StdioRelay.RunStdioRelay` | src/container_sessions.rs:1036-1200 | any finite run: the history of logs ends at the returned relay; status 0 after the child's exit means every stream open in the log of the first turn that saw the exit has, last of its frames, exactly one CLOSE, all flushed, and none was accepted since; without the exit, exactly the streams are left open that the turn which read the transport's end accepted after it |
| `StdioRelay.LeavesAStreamOpen` | src/container_sessions.rs:1113-1153 | turns of the relay after which it is drained and a stream is still open |
| `Clocks.BruteIsTightest` | scripts/measure-clock-offset.py:176-179 | the brute-force intersection is one of the samples' bounds and none is tighter |
| `Clocks.DriftBounds` | scripts/measure-clock-offset.py:76-78 | drift_ns is the least whole number not below the exact drift |
| `Clocks.OffsetIntervalIsBound` | scripts/measure-clock-offset.py:100-107 | base plus or minus rounded drift equals one outward-rounded division of the whole numerator: the two scripts agree on each sample |
| `OffsetIndex.Sort` | scripts/analyze-input-probe.py:197-197 | a sorted permutation of the points |
| `OffsetIndex.MakeEnvelope` | scripts/analyze-input-probe.py:186-204 | the in-place passes leave the running extremes of the sorted points on both sides |
| `OffsetIndex.BisectRight` | scripts/analyze-input-probe.py:208-208 | everything before the position is at most h, everything from it on is above |
| `OffsetIndex.RoundedOnce` | scripts/analyze-input-probe.py:211-216 | rounding the extreme once equals the extreme of the values rounded one by one |
| `OffsetIndex.RawOffsetIndex.Endpoint` | scripts/analyze-input-probe.py:206-216 | for every host time and error, the indexed answer equals the brute-force intersection over all samples |
| `OffsetIndex.RawOffsetIndex.Bounds` | scripts/analyze-input-probe.py:218-222 | both ends, refused exactly when they cross |
| `Latency.BaseHolds` | scripts/measure-clock-offset.py:104-105 | for every clock pair within the drift budget, a sample's raw constraints hold at its own send and receive |
| `Latency.BoundsHold` | scripts/analyze-input-probe.py:218-222 | for every such pair the bounds contain the true offset at every host time, so they are never inconsistent |
| `Latency.Receipt` | scripts/analyze-input-probe.py:317-333 | the verdict is the one over the tightest bounds any sample gives; for every such pair and every receipt, its interval contains the true latency and stays in the validity window, and neither arithmetic error is raised |
| `Latency.GuestToHost` | scripts/analyze-input-probe.py:336-352 | the same in the other direction |
| `Calibrating.OneWayNeverEmpty` | scripts/measure-clock-offset.py:135-153 | once the summary is consistent, no valid sample gives an empty one-way interval |
| `Calibrating.OneWayHolds` | scripts/measure-clock-offset.py:135-153 | the one-way intervals contain the true forward and reverse delays |
| `Calibrating.Intersect` | scripts/measure-clock-offset.py:178-179 | the folded max and min are the brute-force intersection |
| `Calibrating.Summarize` | scripts/measure-clock-offset.py:162-195 | the offset interval is the index's answer at the middle of the measured window; a consistent summary gives every valid sample its one-way bounds; for every clock pair behind the samples it is consistent, its interval contains the offset and the one-way bounds the true delays |
| `Knots.ExactKnots` | scripts/analyze-input-probe.py:299-304 | exact envelopes that do not cross at any send timestamp never cross |
| `Knots.RoundedKnots` | scripts/analyze-input-probe.py:299-304 | if the check passes, rounded bounds cross nowhere by more than 1 ns, for any event error |
| `Knots.ExactKnotCheck` | scripts/analyze-input-probe.py:299-304 | for any samples: if the check passes and the condition holds for every pair of their errors, bounds cross nowhere |
| `Knots.CheckKnots` | scripts/analyze-input-probe.py:302-304 | the loop passes exactly when both knots of every sample do |
| `Crossings.KnotCheckExact` | scripts/analyze-input-probe.py:252-304 | for every rate in lowest terms, error budgets and event error: no accepted calibration (100 to 10000 ordered samples, all knots and the reference passing) has bounds that cross at an event in its measurement, if and only if the condition holds |
| `Crossings.KnotCheckExact64` | scripts/analyze-input-probe.py:83-84 | the same for calibrations of 64-bit numbers: the condition suffices for all rates and errors, and is necessary where they are small enough for a crossing to fit |
| `Crossings.SmallCrossing` | scripts/analyze-input-probe.py:299-304 | an accepted calibration of 100 samples with rate 1/2 and errors of 1 ns whose bounds cross at host time 1 |
| `Crossings.PracticalCrossing` | scripts/analyze-input-probe.py:317-325 | an accepted calibration with 50 ppm and errors of one microsecond, and an event in its measurement whose bounds cross at that error |
| `TransferBudget.InvStep` | src/clipboard_transfer.rs:242-257 | every atomic operation of any thread, spurious exchange failures included, keeps both limits and both counters exact |
| `TransferBudget.NoUnderflow` | src/clipboard_transfer.rs:333-338 | what a thread gives back it holds, so fetch_sub never wraps |
| `TransferBudget.EveryRun` | src/clipboard_transfer.rs:287-338 | over every interleaving, at most 8 transfers and 128 MiB, counters exact, both zero whenever no thread is inside |
| `TransferBudget.SawTheCounter` | src/clipboard_transfer.rs:242-257 | the value a refusal rests on is one the counter had |
| `ImageWorker.InvStep` | src/clipboard_transfer.rs:118-197 | every step of caller or worker, death of the worker included, keeps the invariant |
| `ImageWorker.SingleFlight` | src/clipboard_transfer.rs:129-178 | while the worker lives, queued plus running plus unread is 1 exactly when a job is in flight; try_send is never full, the result send never blocks, a result carries the token in flight |
| `ImageWorker.OrderlyHistory` | src/clipboard_transfer.rs:105-197 | starts and completions alternate with the same token, and every start takes the latest pending job |
| `ImageWorker.HostImageWorker.ReplacePending` | src/clipboard_transfer.rs:105-107 | the pending job is replaced and nothing else changes |
| `ImageWorker.HostImageWorker.StartPending` | src/clipboard_transfer.rs:129-178 | a job is started only with none in flight; it is lost only if no thread could be spawned or the worker is gone |
| `ImageWorker.HostImageWorker.PollResult` | src/clipboard_transfer.rs:181-197 | a completion carries the token in flight and frees the slot; one comes whenever a result is unread or the worker died |
| `Redaction.Idempotent` | src/diagnostic_redaction.rs:258-344 | redacting a redacted text changes nothing, for every text and every choice of sensitive keys |
| `Redaction.FirstStays` | src/diagnostic_redaction.rs:258-344 | redaction keeps the first byte and emptiness |
| `Redaction.BareValueHidden` | src/diagnostic_redaction.rs:292-341 | a sensitive key's bare value, whatever it is, leaves no trace: the result is the same for every value; after a separator, or after a flag without one |
| `Redaction.LookOnly` | src/diagnostic_redaction.rs:292-310 | every value the scanner finds is one of these: behind a quote, blanks, a separator and blanks, or behind a flag without the separator |
| `Redaction.MaskEndsTheValue` | src/diagnostic_redaction.rs:313-314 | a value that starts with the mask ends with it: what follows is ordinary text |
| `Redaction.HeaderValueHidden` | src/diagnostic_redaction.rs:311-341 | the same for authorization and cookie headers, to the end of the line |
| `Redaction.QuotedValueHidden` | src/diagnostic_redaction.rs:316-341 | of a quoted value only the quotes survive: up to the first quote that no odd number of backslashes escapes, or to the end of the text |
| `Redaction.UrlOf` | src/diagnostic_redaction.rs:265-279 | a URL's userinfo gives way to the mask, its host stays |
| `Redaction.FindQuotedEnd` | src/diagnostic_redaction.rs:243-256 | the index loop finds the end of a quoted value |
| `Redaction.FindValue` | src/diagnostic_redaction.rs:292-310 | where a key's value starts, if it has one |
| `Redaction.RedactPatterns` | src/diagnostic_redaction.rs:258-344 | the two-cursor loop computes the recursive rewriting; it always advances, never copies past the point being written, and its result is stable |
| `Redaction.RedactText` | src/diagnostic_redaction.rs:9-33 | the same with the keys the program calls sensitive |
| `Traces.InvRecord` | scripts/analyze-latency.py:153-201 | one more record keeps: every event counted in exactly one place, retained groups exact for the whole trace, nothing omitted below capacity, totals per session |
| `Traces.Analyze` | scripts/analyze-latency.py:89-202 | the one pass ends in a state that satisfies all of that for the whole trace |
| `Traces.Complete` | scripts/analyze-latency.py:153-196 | below capacity every session and every correlation is retained |
| `Traces.OrderIndependent` | scripts/analyze-latency.py:204-240 | below capacity two orders of the same lines give the same sessions, the same totals, groups no metric can tell apart, and the same outcome of every group for every span |
| `Traces.Metrics` | scripts/analyze-latency.py:218-239 | each clock's list holds, as a multiset, exactly the samples of the groups that have one |
| `Profiles.EscapePrefix` | src/container_sessions.rs:2141-2153 | an escaped text up to its closing quote can be read back from the front of anything |
| `Profiles.JoinedInjective` | src/container_sessions.rs:2133-2139 | different lists print differently |
| `Profiles.HexInjective` | src/profile_identity.rs:32-38 | different identities print differently |
| `Profiles.LinesInjective` | src/container_sessions.rs:1709-1790 | equal text means equal fields, absent ones included |
| `Profiles.SessionToToml` | src/container_sessions.rs:1709-1790 | the appended text is the printed form |
| `Profiles.SignatureInjective` | src/container_sessions.rs:1709-1790 | two profiles print alike exactly when they agree in every field, an empty optional counting as absent |
| `Profiles.ResolveIsUnedited` | src/container_sessions.rs:76-89 | a captured profile resolves only to one that agrees with it in every field, and to none only if none does |

## Left out

- Descriptors and system calls (poll, fcntl, connect, POLLNVAL, poll errors other than EINTR) are nondeterministic outcomes; the V2 zero-byte disconnect probe and the handshake line are not modelled.
- Process lifecycle around the relays: fork, exec, the audio child, TERM and KILL, socket paths, test statistics.
- One clock reading per turn stands for the several the programs make; Perl's fractional seconds are whole milliseconds in `StdioRelay`.
- The order in which ready descriptors are served is arbitrary in the guests; their read cursor is not modelled.
- Queues inside `Bridge` and the guests are values updated in place in fields, because the sources own them without sharing.
- `checked_add` of the host's deadline to the current time: integers are unbounded, so that refusal of limits does not occur.
- Composition.EndToEnd: for runs with at most 2^32 - 1 opens, because the wire format keeps 32 bits of an id (`RelayRuns.BoundIsTight`).
- Crossings.KnotCheckExact64: for rates and errors beyond `Small` (roughly denominators above 2 * 10^9) necessity is proved only without the 64-bit bound (`KnotCheckExact`).
- Waits.PublishedWaits: what the operating system buffers between the two programs is not part of a wait; it only delays one.
- Rotation.FairExactly: speaks of an unchanging set of peers.
- Latency.Receipt: calibration schema checks before the arithmetic are not modelled.
- Redaction.BareValueHidden: is stated from the key on, where the scanner stands; what precedes the key is rewritten before.
- Calibrating.Summarize: does not model quantiles, observed drift and midpoint, which are report fields.
- Traces.Analyze: JSON decoding, schema checks, session headers and capture metadata (last writer wins) are not modelled; records arrive decoded, and spans of stages are any nonempty sequence of names.
- Redaction.RedactPatterns: JSON spans and known secrets, handled elsewhere in that file, are not modelled.
- TransferBudget.EveryRun: threads are a state machine over atomic operations, not objects; the 64 MiB check and spawning are its first step.
- ImageWorker.OrderlyHistory: the conversion and the wake callback are not modelled.
- Profiles.SessionToToml: the eighteen conditional appends are a loop over a table of fields.
- Container runtime checks, launch, image probes, AppKit, Metal and audio files, control protocol, audit and bench scripts: outside the modelled cores.
