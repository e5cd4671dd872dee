/** What waits for what while host and guest are both running: a lane that is paused waits
    for a local socket or for its program's return lane, a return lane with bytes in it
    for the reader at its other end.  Such waits run in a circle in one situation only, and
    then the host's own deadline ends it. */
module Waits {
  import opened Basics
  import opened Wire
  import opened Outcomes
  import B = Bridge
  import R = Roster
  import P = PublishRelay
  import S = StdioRelay
  import opened Queues
  import Backlogs
  import RelayRuns
  import H = HostLog
  import G = GuestLog
  import opened Composition

  datatype Node = HostLane | HostReturn | HostSocket(id: nat) | GuestLane | GuestReturn | GuestSocket(id: nat)

  /** What decides the waits.  A lane is stalled if its program does not read it for want
      of room; the sockets are those with bytes queued, on the host only the one the frame
      at hand is for.  A guest that is ending reads no more and waits until it has written
      everything out. */
  datatype View = View(
    hostStalled: bool, hostSockets: set<nat>, hostQueued: bool,
    guestStalled: bool, guestSockets: set<nat>, guestQueued: bool, ending: bool)

  /** a waits for b.  A stalled lane whose stall no socket explains waits for its own
      program's return lane. */
  predicate Waits(v: View, a: Node, b: Node) {
    match a
    case GuestReturn => v.guestQueued && b.HostLane?
    case HostLane =>
      v.hostStalled && if v.hostSockets == {} then b.HostReturn? else b.HostSocket? && b.id in v.hostSockets
    case HostReturn => v.hostQueued && b.GuestLane?
    case GuestLane =>
      || ((v.guestStalled || v.ending) && b.GuestSocket? && b.id in v.guestSockets)
      || (v.guestStalled && v.guestSockets == {} && b.GuestReturn?)
      || (v.ending && v.guestQueued && b.GuestReturn?)
    case _ => false
  }

  predicate Walk(v: View, path: seq<Node>) {
    path != [] && forall i | 0 <= i < |path| - 1 :: Waits(v, path[i], path[i + 1])
  }

  predicate Circle(v: View, path: seq<Node>) { Walk(v, path) && |path| > 1 && path[0] == path[|path| - 1] }

  /** The one situation: the guest is ending with frames still to write, and the host has
      to refuse a stream before it reads on, with no room to say so. */
  predicate Deadlocked(v: View) { v.ending && v.guestQueued && v.hostStalled && v.hostSockets == {} }

  /** What the programs guarantee. */
  predicate Explained(v: View) {
    && (v.hostStalled && v.hostSockets == {} ==> v.hostQueued)
    && (v.guestStalled ==> v.guestSockets != {})
  }

  /** Outside that situation every wait goes down in rank. */
  function Rank(v: View, n: Node): nat {
    var shift := v.ending && v.guestQueued;
    match n
    case GuestReturn => if shift then 2 else 4
    case HostLane => if shift then 1 else 3
    case HostReturn => if shift then 4 else 2
    case GuestLane => if shift then 3 else 1
    case _ => 0
  }

  lemma {:induction false} Descends(v: View, path: seq<Node>)
    requires Explained(v) && !Deadlocked(v) && Walk(v, path)
    ensures Rank(v, path[|path| - 1]) + |path| - 1 <= Rank(v, path[0])
  {
    if |path| > 1 {
      var front := path[..|path| - 1];
      assert Waits(v, path[|path| - 2], path[|path| - 1]);
      forall i | 0 <= i < |front| - 1 ensures Waits(v, front[i], front[i + 1]) {
        assert Waits(v, path[i], path[i + 1]);
      }
      Descends(v, front);
    }
  }

  /** Where a chain of waits ends: at a socket that has bytes queued, at a lane that is
      read, or at an empty return lane. */
  predicate AtEnd(v: View, n: Node) {
    match n
    case HostLane => !v.hostStalled
    case HostReturn => !v.hostQueued
    case GuestLane => !v.guestStalled && !(v.ending && (v.guestQueued || v.guestSockets != {}))
    case GuestReturn => !v.guestQueued
    case HostSocket(id) => id in v.hostSockets
    case GuestSocket(id) => id in v.guestSockets
  }

  /** Every node but a socket nobody waits for is at an end or waits for another. */
  lemma GoesOn(v: View, n: Node) returns (next: Node)
    requires Explained(v) && !AtEnd(v, n) && !n.HostSocket? && !n.GuestSocket?
    ensures Waits(v, n, next)
  {
    match n
    case GuestReturn => next := HostLane;
    case HostReturn => next := GuestLane;
    case HostLane =>
      if v.hostSockets == {} {
        next := HostReturn;
      } else {
        var id :| id in v.hostSockets;
        next := HostSocket(id);
      }
    case GuestLane =>
      if v.guestSockets == {} {
        next := GuestReturn;
      } else {
        var id :| id in v.guestSockets;
        next := GuestSocket(id);
      }
  }

  /** From every node waits lead, in at most four steps, to an end, unless the programs are
      deadlocked. */
  lemma {:induction false} ChainEnds(v: View, path: seq<Node>) returns (whole: seq<Node>)
    requires Explained(v) && !Deadlocked(v) && Walk(v, path)
    requires (path[0].HostSocket? || path[0].GuestSocket?) ==> AtEnd(v, path[0])
    ensures Walk(v, whole) && path <= whole && |whole| <= 5 && AtEnd(v, whole[|whole| - 1])
    decreases 5 - |path|
  {
    Descends(v, path);
    var last := path[|path| - 1];
    whole := path;
    if !AtEnd(v, last) {
      if |path| > 1 { assert Waits(v, path[|path| - 2], last); }
      var next := GoesOn(v, last);
      var longer := path + [next];
      forall i | 0 <= i < |longer| - 1 ensures Waits(v, longer[i], longer[i + 1]) {
        if i < |path| - 1 { assert Waits(v, path[i], path[i + 1]); }
      }
      Descends(v, longer);
      whole := ChainEnds(v, longer);
    }
  }

  /** Waits run in a circle exactly in that situation. */
  lemma CircleExactly(v: View)
    requires Explained(v)
    ensures (exists path :: Circle(v, path)) <==> Deadlocked(v)
  {
    if Deadlocked(v) {
      assert Circle(v, [GuestReturn, HostLane, HostReturn, GuestLane, GuestReturn]);
    } else {
      forall path | Circle(v, path) ensures false { Descends(v, path); }
    }
  }

  // ------------------------------------------------------------- in the programs

  /** The socket a DATA frame at hand is for, if it has bytes queued and poll is asked to
      watch it for writing, or wakes up for its next connect. */
  ghost function Pending(host: B.Bridge, plan: B.Plan): set<nat>
    requires host.input.header.Length == HEADER && plan.arms.Keys == host.peers.Keys
    reads host, host.input, host.input.header
  {
    set id | id in host.peers && id == host.input.Id() && host.input.Kind() == KIND_DATA
             && !host.peers[id].input.Empty()
             && (plan.arms[id].write ||
                 (host.peers[id].retryAt.Some? && B.By(plan.wake, host.peers[id].retryAt.value)))
  }

  /** Local sockets of a guest with bytes queued, which poll is asked to watch. */
  function PublishedSockets(guest: P.PublishRelay): set<nat>
    reads guest
  {
    set id | id in guest.Armed(false) && guest.peers[id].bytes > 0
  }

  function StdioSockets(guest: S.StdioRelay): set<nat>
    reads guest
  {
    set id | id in guest.Armed(false) && guest.peers[id].bytes > 0
  }

  ghost function Published(host: B.Bridge, plan: B.Plan, guest: P.PublishRelay): View
    requires host.input.header.Length == HEADER && plan.arms.Keys == host.peers.Keys && |guest.header| < HEADER
    reads host, host.input, host.input.header, guest
  {
    View(!plan.canRead, Pending(host, plan), !host.output.Empty() && plan.armWriter, guest.Paused(),
         PublishedSockets(guest), guest.outputBytes > 0, guest.transportEof || guest.childExited)
  }

  ghost function Stdio(host: B.Bridge, plan: B.Plan, guest: S.StdioRelay): View
    requires host.input.header.Length == HEADER && plan.arms.Keys == host.peers.Keys && |guest.header| < HEADER
    reads host, host.input, host.input.header, guest
  {
    View(!plan.canRead, Pending(host, plan), !host.output.Empty() && plan.armWriter, guest.Paused(),
         StdioSockets(guest), guest.output != [], guest.transportEof || guest.childExited)
  }

  /** The pump is stuck with a refusal it cannot queue, and wakes up no later than when it
      gives up on the front of its return lane. */
  ghost predicate GivesUp(host: B.Bridge, plan: B.Plan)
    reads host, host.input
  {
    && host.input.rejectedOpen && !host.output.Empty() && plan.armWriter
    && var due := host.output.chunks[0].queued + host.limits.deadline; B.By(plan.wake, due) && host.Overdue(due)
  }

  lemma HostExplained(host: B.Bridge, plan: B.Plan, now: int)
    requires host.Valid() && host.Planned(plan, now)
    ensures !plan.canRead && Pending(host, plan) == {} ==> GivesUp(host, plan)
  {
    host.NoSilentStall(plan, now);
    if !plan.canRead && host.input.Kind() == KIND_DATA { assert host.input.Id() in Pending(host, plan); }
  }

  lemma PublishedExplained(guest: P.PublishRelay)
    requires guest.Valid()
    ensures guest.Paused() ==> PublishedSockets(guest) != {}
  {
    if guest.Paused() {
      var id := guest.PausedOnLocal();
      assert id in PublishedSockets(guest);
    }
  }

  lemma StdioExplained(guest: S.StdioRelay)
    requires guest.Valid()
    ensures guest.Paused() ==> StdioSockets(guest) != {}
  {
    if guest.Paused() {
      var id := guest.PausedOnLocal();
      assert id in StdioSockets(guest);
    }
  }

  /** What is proved of a pair of programs: waits run in a circle exactly if the guest is
      ending with frames to write while the pump has a refusal to queue and no room; and
      then the pump gives up at a time it wakes up for. */
  ghost predicate NoEndlessWait(v: View, host: B.Bridge, plan: B.Plan)
    reads host, host.input
  {
    && Explained(v) && ((exists path :: Circle(v, path)) <==> Deadlocked(v))
    && (Deadlocked(v) ==> GivesUp(host, plan))
  }

  /** In any two valid states of pump and published-socket relay. */
  lemma PublishedWaits(host: B.Bridge, guest: P.PublishRelay, plan: B.Plan, now: int)
    requires host.Valid() && host.Planned(plan, now) && guest.Valid()
    ensures NoEndlessWait(Published(host, plan, guest), host, plan)
  {
    var v := Published(host, plan, guest);
    HostExplained(host, plan, now);
    PublishedExplained(guest);
    assert Explained(v);
    CircleExactly(v);
  }

  /** The same with the stdio relay. */
  lemma StdioWaits(host: B.Bridge, guest: S.StdioRelay, plan: B.Plan, now: int)
    requires host.Valid() && host.Planned(plan, now) && guest.Valid()
    ensures NoEndlessWait(Stdio(host, plan, guest), host, plan)
  {
    var v := Stdio(host, plan, guest);
    HostExplained(host, plan, now);
    StdioExplained(guest);
    assert Explained(v);
    CircleExactly(v);
  }

  // ------------------------------------------------------- the situation is reached

  /** The guest takes a connection and writes the OPEN. */
  method OpenOne(guest: P.PublishRelay, ghost was: seq<G.Act>) returns (ghost acts: seq<G.Act>)
    requires guest.Valid() && guest.outputBytes == 0 && |guest.peers| < 2 && G.DoAll(G.EMPTY, was) == Some(guest.log)
    modifies guest
    ensures guest.Valid() && guest.outputBytes == 0 && |guest.peers| <= old(|guest.peers|) + 1
    ensures G.DoAll(G.EMPTY, acts) == Some(guest.log) && guest.log.nextId == old(guest.log.nextId) + 1
    ensures guest.log.wire == guest.log.encoded == old(guest.log.encoded) + Encoded(Open(old(guest.log.nextId)))
    ensures guest.log.consumed == old(guest.log.consumed)
    ensures guest.childExited == old(guest.childExited) && guest.transportEof == old(guest.transportEof)
  {
    ghost var l := guest.log;
    Backlogs.PendingFits(guest.output);
    guest.AcceptPeer();
    G.DoSnoc(G.EMPTY, was, l, G.Accept);
    ghost var m := guest.log;
    guest.Emit(HEADER);
    G.DoSnoc(G.EMPTY, was + [G.Accept], m, G.WriteWire(HEADER));
    acts := was + [G.Accept] + [G.WriteWire(HEADER)];
    P.Flushed(guest.output, guest.log);
  }

  /** A header arrives whole that opens a stream. */
  method TakeOpen(input: B.Input, id: nat, bytes: seq<Byte>)
    requires input.header.Length == HEADER && id < U32 && bytes == Encoded(Open(id))
    modifies input, input.header
    ensures input.header[..] == bytes && input.used == HEADER && input.started.Some?
    ensures input.rejectedOpen == old(input.rejectedOpen)
    ensures input.Kind() == KIND_OPEN && input.Id() == id && input.Length() == 0
  {
    Be32RoundTrip(id);
    Be32RoundTrip(0);
    forall i | 0 <= i < HEADER { input.header[i] := bytes[i]; }
    input.used, input.started := HEADER, Some(0);
    assert input.header[..] == bytes;
    assert input.header[1..5] == Be32(id) && input.header[5..9] == Be32(0);
  }

  /** ... and the host refuses it. */
  method RefuseOne(host: B.Bridge, id: nat, bytes: seq<Byte>)
    requires host.Valid() && host.input.used == 0 && host.peers == map[] && id < U32 && bytes == Encoded(Open(id))
    modifies host, host.input, host.input.header
    ensures host.Valid() && host.input.rejectedOpen && host.input.used == HEADER && host.peers == map[]
    ensures host.input.Id() == id && host.input.Kind() == KIND_OPEN && host.output == old(host.output)
    ensures var a := H.Decide(bytes, id, false); H.Can(old(host.log), a) && host.log == H.Do(old(host.log), a)
  {
    assert [] + bytes == bytes;
    TakeOpen(host.input, id, bytes);
    host.RejectOpen(bytes);
  }

  /** It queues the CLOSE, for which there was room; there is none for another. */
  method AnswerOne(host: B.Bridge, ghost bytes: seq<Byte>)
    returns (ghost acts: seq<H.Act>)
    requires host.Valid() && host.input.rejectedOpen && host.peers == map[] && bytes == Encoded(Open(1))
    requires host.input.Id() == 1 && host.output == Buffer([], 0, HEADER + 1, 1)
    requires H.Can(H.EMPTY, H.Decide(bytes, 1, false)) && host.log == H.Do(H.EMPTY, H.Decide(bytes, 1, false))
    modifies host, host.input, host.input.header
    ensures host.Valid() && host.input.used == 0 && host.peers == map[] && host.output.Room() < HEADER
    ensures H.DoAll(H.EMPTY, acts) == Some(host.log) && host.log.consumed == bytes
  {
    acts := [H.Decide(bytes, 1, false)];
    H.DoOne(H.EMPTY, acts[0]);
    assert [] + bytes == bytes;
    ghost var l := host.log;
    host.FinishReject(0);
    H.DoSnoc(H.EMPTY, acts, l, H.Refuse(1));
    acts := acts + [H.Refuse(1)];
  }

  /** The host refuses two streams, and has room for one CLOSE only. */
  method RefuseTwo() returns (host: B.Bridge, ghost acts: seq<H.Act>)
    ensures fresh(host) && fresh(host.input) && fresh(host.input.header) && host.Valid() && host.peers == map[]
    ensures host.input.rejectedOpen && host.input.Kind() == KIND_OPEN && !host.Readable()
    ensures H.DoAll(H.EMPTY, acts) == Some(host.log) && host.log.consumed == Encoded(Open(1)) + Encoded(Open(2))
  {
    host := new B.Bridge(B.Limits(1, 1, HEADER + 1, 1, 1));
    RefuseOne(host, 1, Encoded(Open(1)));
    acts := AnswerOne(host, Encoded(Open(1)));
    ghost var l, b := host.log, Encoded(Open(2));
    RefuseOne(host, 2, Encoded(Open(2)));
    H.DoSnoc(H.EMPTY, acts, l, H.Decide(b, 2, false));
    acts := acts + [H.Decide(b, 2, false)];
  }

  /** A third is queued, and the child exits. */
  method ExitNow(guest: P.PublishRelay, ghost was: seq<G.Act>) returns (ghost acts: seq<G.Act>)
    requires guest.Valid() && !guest.Full() && G.DoAll(G.EMPTY, was) == Some(guest.log)
    modifies guest
    ensures guest.Valid() && guest.childExited && guest.outputBytes > 0
    ensures G.DoAll(G.EMPTY, acts) == Some(guest.log)
    ensures guest.log.consumed == old(guest.log.consumed) && guest.log.wire == old(guest.log.wire)
  {
    ghost var l := guest.log;
    guest.AcceptPeer();
    G.DoSnoc(G.EMPTY, was, l, G.Accept);
    acts := was + [G.Accept];
    ghost var m, more := guest.log, [];
    guest.childExited := true;
    more := guest.CloseAll(false);
    G.DoAppend(G.EMPTY, acts, m, more);
    acts := acts + more;
  }

  /** The guest has written two OPENs and queued a third when the child exits. */
  method ExitWithFrame() returns (guest: P.PublishRelay, ghost acts: seq<G.Act>)
    ensures fresh(guest) && guest.Valid() && guest.childExited && guest.outputBytes > 0
    ensures G.DoAll(G.EMPTY, acts) == Some(guest.log) && guest.log.consumed == []
    ensures guest.log.wire == Encoded(Open(1)) + Encoded(Open(2))
  {
    guest := new P.PublishRelay();
    assert [] + Encoded(Open(1)) == Encoded(Open(1));
    acts := OpenOne(guest, []);
    acts := OpenOne(guest, acts);
    Backlogs.PendingFits(guest.output);
    acts := ExitNow(guest, acts);
  }

  /** Then it does not read on, and no socket explains it. */
  method StuckHost() returns (host: B.Bridge, plan: B.Plan, ghost acts: seq<H.Act>)
    ensures fresh(host) && fresh(host.input) && fresh(host.input.header) && host.Valid() && host.Planned(plan, 0)
    ensures !plan.canRead && Pending(host, plan) == {}
    ensures H.DoAll(H.EMPTY, acts) == Some(host.log) && host.log.consumed == Encoded(Open(1)) + Encoded(Open(2))
  {
    host, acts := RefuseTwo();
    plan := host.Prepare(0);
  }

  /** A reached state of pump and relay in which waits run in a circle. */
  method DeadlockReached() returns (host: B.Bridge, guest: P.PublishRelay, plan: B.Plan)
    ensures host.Valid() && guest.Valid() && host.Planned(plan, 0)
    ensures Deadlocked(Published(host, plan, guest)) && RelayRuns.Reached(System(host.log, guest.log))
  {
    ghost var h, g;
    host, plan, h := StuckHost();
    guest, g := ExitWithFrame();
    assert RelayRuns.Reached(System(host.log, guest.log)) by {
      RelayRuns.ReachedInit();
      RelayRuns.GuestActs(INIT, g);
      RelayRuns.HostActs(System(H.EMPTY, guest.log), h);
    }
  }
}
