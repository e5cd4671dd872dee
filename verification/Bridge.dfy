/** The host end of the relay: the incremental frame parser and the nonblocking
    pump of src/apple_container_transport.rs.  Sockets are replaced by the
    outcomes of the calls on them, time by an integer clock in nanoseconds.

    `log` records what was done; `Valid` ties every field to it, so a method that
    keeps `Valid` has lost, duplicated and reordered nothing. */
module Bridge {
  import opened Basics
  import opened Wire
  import opened Outcomes
  import opened Lanes
  import opened Queues
  import opened Keys
  import opened Rotation
  import H = HostLog

  /** connect(2): immediate, in progress, worth a retry, or refused for good. */
  datatype Connect = Connected | InProgress | Later | Refused

  datatype Error =
    | InvalidLimits | InvalidHeader | DuplicateStream(id: nat) | Truncated
    | Io | TimedOut | BrokenPipe | ConnectionAborted

  datatype ReadResult = More | CleanEof | Err(error: Error)

  datatype Limits = Limits(peers: nat, peerBytes: nat, transportBytes: nat, chunks: nat, deadline: nat)

  predicate Usable(l: Limits) {
    l.peers != 0 && l.peerBytes != 0 && l.transportBytes > HEADER && l.chunks != 0 && l.deadline != 0
  }

  const RETRY_NS := 50_000_000

  datatype Peer = Peer(input: Buffer, connecting: bool, retryAt: Option<int>, since: int,
                       hostEof: bool, guestClosed: bool)

  class Input {
    const header: array<Byte>
    var used: nat
    var remaining: Option<nat>
    var started: Option<int>
    var rejectedOpen: bool

    constructor ()
      ensures fresh(header) && header.Length == HEADER
      ensures used == 0 && remaining == None && started == None && !rejectedOpen
    {
      header := new Byte[HEADER](_ => 0);
      used, remaining, started, rejectedOpen := 0, None, None, false;
    }

    function Kind(): Byte
      requires header.Length == HEADER
      reads header
    {
      header[0]
    }

    function Id(): nat
      requires header.Length == HEADER
      reads header
    {
      FromBe32(header[1..5])
    }

    function Length(): nat
      requires header.Length == HEADER
      reads header
    {
      FromBe32(header[5..9])
    }

    /** Where the parser stands between two reads. */
    ghost function Standing(): Place
      requires header.Length == HEADER
      reads this, header
    {
      if used < HEADER then Head(header[..used])
      else if remaining.Some? && Kind() == KIND_DATA then Body(Id(), remaining.value)
      else Head([])
    }

    /** A complete header is kept only while DATA payload is outstanding or the
        CLOSE of a refused OPEN is waiting for room. */
    ghost predicate Valid()
      reads this, header
    {
      && header.Length == HEADER
      && used <= HEADER
      && (used < HEADER ==> remaining == None && !rejectedOpen)
      && (used == HEADER ==> remaining.Some?)
      && (used == HEADER && rejectedOpen ==> Kind() == KIND_OPEN)
      && (used == HEADER && !rejectedOpen ==> Kind() == KIND_DATA && 0 < remaining.value <= MAX_FRAME)
      && (started.Some? <==> used > 0)
    }

    method Reset()
      requires header.Length == HEADER
      modifies this, header
      ensures Valid() && used == 0 && started == None
    {
      forall i | 0 <= i < HEADER { header[i] := 0; }
      used, remaining, started, rejectedOpen := 0, None, None, false;
    }

    /** The bytes of one read go to the end of the header buffer. */
    method Store(taken: seq<Byte>, now: int)
      requires Valid() && 0 < |taken| <= HEADER - used
      modifies this, header
      ensures header.Length == HEADER && used == old(used) + |taken|
      ensures header[..used] == old(header[..used]) + taken
      ensures remaining == None && !rejectedOpen
      ensures started == if old(started).Some? then old(started) else Some(now)
    {
      for i := 0 to |taken|
        modifies header
        invariant header[..used] == old(header[..used])
        invariant header[used..used + i] == taken[..i]
      {
        header[used + i] := taken[i];
      }
      assert header[..used + |taken|] == header[..used] + header[used..used + |taken|];
      used := used + |taken|;
      started := if started.Some? then started else Some(now);
    }
  }

  // ---------------------------------------------------- the pump and its log

  predicate Sized(b: Buffer, limit: nat, chunkLimit: nat) { b.limit == limit && b.chunkLimit == chunkLimit }

  /** Peer `id` as the log says it should be: within its limits, and what was
      written and what is queued is exactly what the host undertook to deliver. */
  ghost predicate Served(id: nat, p: Peer, l: H.Log, limits: Limits) {
    && p.input.Valid() && Sized(p.input, limits.peerBytes, limits.chunks)
    && H.IsLive(l, id)
    && l.streams[id].toPeer + Pending(p.input.chunks) == l.streams[id].accepted
    && p.guestClosed == l.streams[id].closed
  }

  ghost predicate AllServed(ps: map<nat, Peer>, l: H.Log, limits: Limits) {
    && |ps| <= limits.peers
    && (forall id {:trigger Served(id, ps[id], l, limits)} | id in ps :: Served(id, ps[id], l, limits))
    && (forall id {:trigger H.IsLive(l, id)} | H.IsLive(l, id) :: id in ps)
  }

  /** The transport queue: within its limits, and written plus queued bytes are
      exactly the frames sent. */
  ghost predicate Sending(out: Buffer, l: H.Log, limits: Limits) {
    && out.Valid() && Sized(out, limits.transportBytes, limits.chunks)
    && l.wire + Pending(out.chunks) == l.encoded
  }

  /** An id is being refused exactly while the parser remembers it. */
  ghost predicate Refusing(l: H.Log, refused: Option<nat>) {
    && (forall id | id in l.streams :: l.streams[id].phase.Rejecting? <==> refused == Some(id))
    && (refused.Some? ==> refused.value in l.streams)
  }

  /** A change of one stream's record that leaves the other peers served. */
  lemma OthersServed(ps: map<nat, Peer>, l: H.Log, limits: Limits, id: nat, p: Peer, m: H.Log)
    requires AllServed(ps, l, limits) && id in ps
    requires id in m.streams && m.streams == l.streams[id := m.streams[id]]
    requires Served(id, p, m, limits)
    ensures AllServed(ps[id := p], m, limits)
  {
    var qs := ps[id := p];
    assert |qs| == |ps| by { assert qs.Keys == ps.Keys; }
    forall i | i in qs ensures Served(i, qs[i], m, limits) {
      if i != id { assert Served(i, ps[i], l, limits); }
    }
    forall i | H.IsLive(m, i) ensures i in qs {
      if i != id { assert H.IsLive(l, i); }
    }
  }

  /** A step that touches no stream's record. */
  lemma SameServed(ps: map<nat, Peer>, l: H.Log, limits: Limits, m: H.Log)
    requires AllServed(ps, l, limits) && m.streams == l.streams
    ensures AllServed(ps, m, limits)
  {
    forall i | i in ps ensures Served(i, ps[i], m, limits) { assert Served(i, ps[i], l, limits); }
    forall i | H.IsLive(m, i) ensures i in ps { assert H.IsLive(l, i); }
  }

  /** A new peer for an id that had none. */
  lemma NewlyServed(ps: map<nat, Peer>, l: H.Log, limits: Limits, id: nat, p: Peer, m: H.Log)
    requires AllServed(ps, l, limits) && id !in ps && |ps| < limits.peers
    requires id in m.streams && m.streams == l.streams[id := m.streams[id]]
    requires Served(id, p, m, limits)
    ensures AllServed(ps[id := p], m, limits)
  {
    var qs := ps[id := p];
    assert |qs| == |ps| + 1 by { assert qs.Keys == ps.Keys + {id}; }
    forall i | i in qs ensures Served(i, qs[i], m, limits) {
      if i != id { assert Served(i, ps[i], l, limits); }
    }
    forall i | H.IsLive(m, i) ensures i in qs {
      if i != id { assert H.IsLive(l, i); }
    }
  }

  /** A record that is not, and does not become, a live one. */
  lemma OutsiderServed(ps: map<nat, Peer>, l: H.Log, limits: Limits, id: nat, m: H.Log)
    requires AllServed(ps, l, limits) && id !in ps
    requires id in m.streams && m.streams == l.streams[id := m.streams[id]] && !m.streams[id].phase.Live?
    ensures AllServed(ps, m, limits)
  {
    forall i | i in ps ensures Served(i, ps[i], m, limits) { assert Served(i, ps[i], l, limits); }
    forall i | H.IsLive(m, i) ensures i in ps { assert H.IsLive(l, i); }
  }

  /** A peer removed together with its record's life. */
  lemma RemovedServed(ps: map<nat, Peer>, l: H.Log, limits: Limits, id: nat, m: H.Log)
    requires AllServed(ps, l, limits) && id in ps
    requires id in m.streams && m.streams == l.streams[id := m.streams[id]] && !m.streams[id].phase.Live?
    ensures AllServed(ps - {id}, m, limits)
  {
    var qs := ps - {id};
    assert |qs| == |ps| - 1 by { assert qs.Keys == ps.Keys - {id}; }
    forall i | i in qs ensures Served(i, qs[i], m, limits) { assert Served(i, ps[i], l, limits); }
    forall i | H.IsLive(m, i) ensures i in qs { assert H.IsLive(l, i); }
  }

  /** Which bytes justify refusing a frame: only a header no host accepts, or an
      OPEN of an id that is open. */
  ghost predicate Justified(e: Error, l: H.Log, bytes: seq<Byte>) {
    && (e.InvalidHeader? ==> ScanFrom(true, l.scanned, bytes).place.Bad?)
    && (e.DuplicateStream? ==>
          H.IsLive(l, e.id) && ScanFrom(true, l.scanned, bytes).events == l.scanned.events + [Opened(e.id)])
  }

  /** An error that no frame is to blame for. */
  predicate Local(e: Error) { !e.InvalidHeader? && !e.DuplicateStream? }

  /** DATA queued for a peer that still takes it. */
  lemma PushServed(ps: map<nat, Peer>, l: H.Log, limits: Limits, id: nat, bytes: seq<Byte>, now: int)
    requires AllServed(ps, l, limits) && id in ps && !ps[id].guestClosed
    requires H.Can(l, H.TakeData(id, bytes)) && |bytes| <= ps[id].input.Room()
    ensures AllServed(ps[id := ps[id].(input := ps[id].input.Pushed(bytes, now))], H.Do(l, H.TakeData(id, bytes)),
                      limits)
  {
    var p := ps[id];
    assert Served(id, p, l, limits);
    PushKeeps(p.input, bytes, now);
    Reassociate(l.streams[id].toPeer, Pending(p.input.chunks), bytes);
    OthersServed(ps, l, limits, id, p.(input := p.input.Pushed(bytes, now)), H.Do(l, H.TakeData(id, bytes)));
  }

  /** A write to a peer's socket. */
  lemma WriteServed(ps: map<nat, Peer>, l: H.Log, limits: Limits, id: nat, o: WriteOutcome)
    requires AllServed(ps, l, limits) && id in ps
    ensures var a := H.WritePeer(id, ps[id].input.Count(o));
            H.Can(l, a) && AllServed(ps[id := ps[id].(input := ps[id].input.Written(o))], H.Do(l, a), limits)
  {
    var p := ps[id];
    assert Served(id, p, l, limits);
    var s := l.streams[id];
    WriteKeeps(p.input, o);
    Advance(s.toPeer, Pending(p.input.chunks), p.input.Taken(o), Pending(p.input.Written(o).chunks), s.accepted);
    assert Served(id, p.(input := p.input.Written(o)), H.Do(l, H.WritePeer(id, p.input.Count(o))), limits);
    OthersServed(ps, l, limits, id, p.(input := p.input.Written(o)), H.Do(l, H.WritePeer(id, p.input.Count(o))));
  }

  /** A peer the pump may remove: nothing left to write to it, and one side done. */
  predicate Retirable(p: Peer) { p.input.Empty() && (p.guestClosed || p.hostEof) }

  lemma RetireServed(ps: map<nat, Peer>, l: H.Log, limits: Limits, id: nat, refused: Option<nat>)
    requires AllServed(ps, l, limits) && id in ps && Retirable(ps[id]) && Refusing(l, refused)
    ensures H.Can(l, H.Retire(id)) && l.streams[id].closed == ps[id].guestClosed
    ensures AllServed(ps - {id}, H.Do(l, H.Retire(id)), limits)
    ensures Refusing(H.Do(l, H.Retire(id)), refused)
    ensures var m := H.Do(l, H.Retire(id));
            m.wire == l.wire && m.encoded == l.encoded + if ps[id].guestClosed then [] else Encoded(Close(id))
  {
    assert Served(id, ps[id], l, limits);
    NothingPending(ps[id].input);
    Unit(l.streams[id].toPeer);
    RemovedServed(ps, l, limits, id, H.Do(l, H.Retire(id)));
  }

  predicate Waiting(p: Peer) { p.connecting || p.retryAt.Some? }

  /** Two peers that differ only in how their connection stands. */
  predicate SameTraffic(p: Peer, q: Peer) {
    p.input == q.input && p.guestClosed == q.guestClosed && p.hostEof == q.hostEof && p.since == q.since
  }

  predicate Due(p: Peer, now: int) { p.retryAt.Some? && now >= p.retryAt.value }

  /** The outcome of one retry: a new descriptor for the same peer. */
  function Reconnected(p: Peer, c: Connect, now: int): Peer {
    if !Due(p, now) then p
    else p.(connecting := c.InProgress?, retryAt := if c.Later? then Some(now + RETRY_NS) else None)
  }

  method Reconnect(ps: map<nat, Peer>, retry: nat -> Connect, now: int) returns (ok: bool, qs: map<nat, Peer>)
    ensures qs.Keys == ps.Keys && forall id | id in qs :: SameTraffic(qs[id], ps[id])
    ensures ok <==> forall id | id in ps :: Due(ps[id], now) ==> !retry(id).Refused?
    ensures ok ==> forall id | id in qs :: qs[id] == Reconnected(ps[id], retry(id), now)
  {
    ok, qs := true, ps;
    var left := ps.Keys;
    while left != {}
      invariant left <= qs.Keys == ps.Keys
      invariant forall id | id in ps && id !in left :: qs[id] == Reconnected(ps[id], retry(id), now)
      invariant forall id | id in ps && id !in left :: Due(ps[id], now) ==> !retry(id).Refused?
      invariant forall id | id in qs :: SameTraffic(qs[id], ps[id])
      decreases |left|
    {
      var id := Smallest(left);
      if Due(ps[id], now) && retry(id).Refused? {
        return false, qs;
      }
      qs := qs[id := Reconnected(ps[id], retry(id), now)];
      left := left - {id};
    }
  }

  lemma TrafficServed(ps: map<nat, Peer>, l: H.Log, limits: Limits, qs: map<nat, Peer>)
    requires AllServed(ps, l, limits) && qs.Keys == ps.Keys
    requires forall id | id in qs :: qs[id].input == ps[id].input && qs[id].guestClosed == ps[id].guestClosed
    ensures AllServed(qs, l, limits)
  {
    assert |qs| == |ps| by { assert |qs.Keys| == |ps.Keys|; }
    forall i | i in qs ensures Served(i, qs[i], l, limits) { assert Served(i, ps[i], l, limits); }
  }

  /** What poll is asked to watch for on one descriptor. */
  datatype Arm = Arm(read: bool, write: bool)

  /** One call of poll: whether the transport is read, whether it is watched for
      writing, the peers in service order, when to wake without an event, and the
      timeout that says so. */
  datatype Plan = Plan(canRead: bool, armWriter: bool, ids: seq<nat>, arms: map<nat, Arm>, wake: Option<int>,
                       timeout: int)

  function ArmOf(p: Peer, eof: bool, room: nat): Arm {
    Arm(!eof && !Waiting(p) && !p.hostEof && !p.guestClosed && room > HEADER,
        p.retryAt.None? && (p.connecting || !p.input.Empty()))
  }

  function Arms(ps: map<nat, Peer>, eof: bool, room: nat): map<nat, Arm> {
    map id | id in ps :: ArmOf(ps[id], eof, room)
  }

  function Earlier(wake: Option<int>, t: int): Option<int> {
    if wake.Some? && wake.value <= t then wake else Some(t)
  }

  predicate By(wake: Option<int>, t: int) { wake.Some? && wake.value <= t }

  /** The deadlines one peer has: its oldest chunk, its connect, its retry. */
  predicate PeerDeadline(p: Peer, deadline: nat, t: int) {
    || (!p.input.Empty() && t == p.input.chunks[0].queued + deadline)
    || (Waiting(p) && t == p.since + deadline)
    || p.retryAt == Some(t)
  }

  /** A wakeup no later than any of them. */
  predicate Covers(wake: Option<int>, p: Peer, deadline: nat) {
    && (!p.input.Empty() ==> By(wake, p.input.chunks[0].queued + deadline))
    && (Waiting(p) ==> By(wake, p.since + deadline))
    && (p.retryAt.Some? ==> By(wake, p.retryAt.value))
  }

  function PeerWake(p: Peer, deadline: nat, wake: Option<int>): Option<int> {
    var a := if p.input.Empty() then wake else Earlier(wake, p.input.chunks[0].queued + deadline);
    var b := if Waiting(p) then Earlier(a, p.since + deadline) else a;
    if p.retryAt.Some? then Earlier(b, p.retryAt.value) else b
  }

  /** The loop over the peers' deadlines: the result is no later than the base and
      every peer's deadlines, and is the base or one of them. */
  method EarliestOf(ps: map<nat, Peer>, ids: seq<nat>, deadline: nat, base: Option<int>) returns (wake: Option<int>)
    requires forall k :: k in ids <==> k in ps
    ensures base.Some? ==> By(wake, base.value)
    ensures forall id | id in ps :: Covers(wake, ps[id], deadline)
    ensures wake.Some? ==> wake == base || exists id | id in ps :: PeerDeadline(ps[id], deadline, wake.value)
  {
    wake := base;
    for i := 0 to |ids|
      invariant base.Some? ==> By(wake, base.value)
      invariant forall j | 0 <= j < i :: Covers(wake, ps[ids[j]], deadline)
      invariant wake.Some? ==> wake == base || exists j | 0 <= j < i :: PeerDeadline(ps[ids[j]], deadline, wake.value)
    {
      wake := PeerWake(ps[ids[i]], deadline, wake);
    }
  }

  /** Peers that want no timed wakeup. */
  predicate Idle(ps: map<nat, Peer>) { forall id | id in ps :: ps[id].input.Empty() && !Waiting(ps[id]) }

  const INT_MAX := 0x7fff_ffff

  /** poll's timeout argument in milliseconds: it never wakes early, and at most a
      millisecond late unless the clamp to a C int applies. */
  function PollTimeout(wake: Option<int>, now: int): (ms: int)
    ensures wake.None? <==> ms == -1
    ensures wake.Some? && wake.value > now && ms < INT_MAX ==>
              wake.value <= now + ms * 1_000_000 < wake.value + 1_000_000
    ensures wake.Some? && wake.value <= now ==> ms == 0
  {
    match wake
    case None => -1
    case Some(t) =>
      var nanos := if t > now then t - now else 0;
      var ceil := (nanos + 999_999) / 1_000_000;
      if ceil < INT_MAX then ceil else INT_MAX
  }

  /** Everything outside the pump that one turn of its loop meets. */
  datatype World = World(
    now: int, retry: nat -> Connect,                    // the clock, and connect retries
    resumed: ReadOutcome, interrupted: bool,            // payload read before the poll; EINTR
    transport: Ready, header: ReadOutcome, body: ReadOutcome, connect: Connect,
    writer: Ready, write: WriteOutcome,
    ready: nat -> Ready, connectError: nat -> bool, peerWrite: nat -> WriteOutcome, peerRead: nat -> ReadOutcome)

  datatype Turn = Again | Done | Fail(error: Error)

  class Bridge {
    const limits: Limits
    var peers: map<nat, Peer>
    var output: Buffer
    const input: Input
    var transportEof: bool
    var rotation: nat
    ghost var log: H.Log

    ghost predicate Sound()
      reads this
    {
      Usable(limits) && Sending(output, log, limits) && AllServed(peers, log, limits)
    }

    /** Framing depends only on the bytes taken so far, however they were split. */
    ghost predicate Framed()
      reads this, input, input.header
    {
      && input.Valid()
      && input.Standing() == log.scanned.place
      && Refusing(log, if input.rejectedOpen then Some(input.Id()) else None)
    }

    ghost predicate Valid()
      reads this, input, input.header
    {
      Sound() && Framed()
    }

    constructor (limits: Limits)
      requires Usable(limits)
      ensures Valid() && this.limits == limits && log == H.EMPTY && peers == map[] && !transportEof
      ensures input.used == 0 && output == Buffer([], 0, limits.transportBytes, limits.chunks)
      ensures fresh(input) && fresh(input.header)
    {
      this.limits := limits;
      peers, transportEof, rotation, log := map[], false, 0, H.EMPTY;
      output := Buffer([], 0, limits.transportBytes, limits.chunks);
      var inp := new Input();
      input := inp;
    }

    /** The limits hold in every valid state, and what is charged is exactly what is
        held: whole chunks until their last byte is written. */
    lemma ResourceBounds(id: nat)
      requires Valid()
      ensures |peers| <= limits.peers
      ensures output.bytes == Charged(output.chunks) <= limits.transportBytes && |output.chunks| <= limits.chunks
      ensures id in peers ==> peers[id].input.bytes == Charged(peers[id].input.chunks) <= limits.peerBytes
      ensures id in peers ==> |peers[id].input.chunks| <= limits.chunks
    {
      assert id in peers ==> Served(id, peers[id], log, limits);
    }

    // ------------------------------------------------------ reading the transport

    /** Whether the parser may be given more transport bytes: it waits for room in
        the destination of a DATA frame, or for the CLOSE of a refused OPEN. */
    predicate Readable()
      requires input.header.Length == HEADER
      reads this, input, input.header
    {
      if input.used < HEADER then true
      else if input.Kind() == KIND_DATA then
        input.Id() !in peers || peers[input.Id()].guestClosed || peers[input.Id()].input.Room() > 0
      else if input.Kind() == KIND_OPEN then !input.rejectedOpen || output.Room() >= HEADER
      else true
    }

    /** A header is complete but not yet acted on: `taken` are its last bytes. */
    ghost predicate Completed(taken: seq<Byte>)
      reads this, input, input.header
    {
      && input.header.Length == HEADER && input.used == HEADER
      && !input.rejectedOpen && input.started.Some?
      && taken != []
      && log.scanned.place.Head?
      && log.scanned.place.bytes + taken == input.header[..]
      && Refusing(log, None)
    }

    /** The scan of a completed header, in terms of the parser's fields. */
    lemma ScanCompleted(taken: seq<Byte>)
      requires Completed(taken)
      ensures var d := Decoded(true, input.header[..]);
              ScanFrom(true, log.scanned, taken) == Scanned(d.place, log.scanned.events + d.events)
      ensures input.header[..][0] == input.Kind()
      ensures FromBe32(input.header[..][1..5]) == input.Id()
      ensures FromBe32(input.header[..][5..9]) == input.Length()
    {
      H.HeaderComplete(log, taken);
      assert input.header[..][1..5] == input.header[1..5] && input.header[..][5..9] == input.header[5..9];
    }

    lemma ScanOpen(taken: seq<Byte>)
      requires Completed(taken) && input.Kind() == KIND_OPEN && input.Length() == 0
      ensures ScanFrom(true, log.scanned, taken) == Scanned(Head([]), log.scanned.events + [Opened(input.Id())])
    {
      ScanCompleted(taken);
    }

    lemma ScanClose(taken: seq<Byte>)
      requires Completed(taken) && input.Kind() == KIND_CLOSE && input.Length() == 0
      ensures ScanFrom(true, log.scanned, taken) == Scanned(Head([]), log.scanned.events + [Closed(input.Id())])
    {
      ScanCompleted(taken);
    }

    lemma ScanData(taken: seq<Byte>)
      requires Completed(taken) && input.Kind() == KIND_DATA && input.Length() <= MAX_FRAME
      ensures ScanFrom(true, log.scanned, taken) ==
              Scanned(if input.Length() == 0 then Head([]) else Body(input.Id(), input.Length()), log.scanned.events)
    {
      ScanCompleted(taken);
    }

    predicate Malformed(kind: Byte, length: nat) {
      length > MAX_FRAME || kind !in {KIND_OPEN, KIND_DATA, KIND_CLOSE} || (kind != KIND_DATA && length != 0)
    }

    lemma ScanBad(taken: seq<Byte>)
      requires Completed(taken) && Malformed(input.Kind(), input.Length())
      ensures ScanFrom(true, log.scanned, taken).place.Bad?
    {
      ScanCompleted(taken);
    }

    /** OPEN taken on: a new peer with an empty queue of its own. */
    method AcceptOpen(taken: seq<Byte>, connect: Connect, now: int)
      requires Sound() && Completed(taken) && input.Kind() == KIND_OPEN && input.Length() == 0
      requires input.Id() !in peers && |peers| < limits.peers && !connect.Refused?
      modifies this, input, input.header
      ensures var a := H.Decide(taken, old(input.Id()), true); H.Can(old(log), a) && log == H.Do(old(log), a)
      ensures Valid() && input.used == 0 && transportEof == old(transportEof)
    {
      var id := input.Id();
      ScanOpen(taken);
      assert !H.IsLive(log, id);
      ghost var m := H.Do(log, H.Decide(taken, id, true));
      var peer := Peer(Buffer([], 0, limits.peerBytes, limits.chunks), connect.InProgress?,
                       if connect.Later? then Some(now + RETRY_NS) else None, now, false, false);
      NewlyServed(peers, log, limits, id, peer, m);
      peers := peers[id := peer];
      log := m;
      input.Reset();
    }

    /** OPEN refused: only the decision is recorded, so a blocked CLOSE does not
        retry the connect. */
    method RejectOpen(taken: seq<Byte>)
      requires Sound() && Completed(taken) && input.Kind() == KIND_OPEN && input.Length() == 0
      requires input.Id() !in peers
      modifies this, input
      ensures var a := H.Decide(taken, input.Id(), false); H.Can(old(log), a) && log == H.Do(old(log), a)
      ensures Valid() && input.rejectedOpen && peers == old(peers) && transportEof == old(transportEof)
      ensures input.used == HEADER && output == old(output)
    {
      var id := input.Id();
      ScanOpen(taken);
      assert !H.IsLive(log, id);
      ghost var m := H.Do(log, H.Decide(taken, id, false));
      OutsiderServed(peers, log, limits, id, m);
      input.remaining, input.rejectedOpen := Some(0), true;
      log := m;
    }

    /** The CLOSE of a refused OPEN, once the return lane has room for it. */
    method FinishReject(now: int)
      requires Valid() && input.rejectedOpen && output.Room() >= HEADER
      modifies this, input, input.header
      ensures var a := H.Refuse(old(input.Id())); H.Can(old(log), a) && log == H.Do(old(log), a)
      ensures Valid() && input.used == 0 && peers == old(peers) && transportEof == old(transportEof)
      ensures output == old(output).Pushed(Encoded(Close(old(input.Id()))), now)
    {
      var id := input.Id();
      ghost var m := H.Do(log, H.Refuse(id));
      assert id in peers ==> Served(id, peers[id], log, limits);
      OutsiderServed(peers, log, limits, id, m);
      PushFrame(Close(id), now, m);
      log := m;
      input.Reset();
    }

    /** Queue one frame, for the step that takes the log to m. */
    method PushFrame(f: Frame, now: int, ghost m: H.Log)
      requires Usable(limits) && Sending(output, log, limits) && |Encoded(f)| <= output.Room()
      requires m.wire == log.wire && m.encoded == log.encoded + Encoded(f)
      modifies this`output
      ensures Sending(output, m, limits)
      ensures output == old(output).Pushed(Encoded(f), now)
    {
      PushKeeps(output, Encoded(f), now);
      Reassociate(log.wire, Pending(output.chunks), Encoded(f));
      output := output.Pushed(Encoded(f), now);
    }

    /** CLOSE from the guest: the peer takes no more DATA but keeps its queue. */
    method TakeClose(taken: seq<Byte>)
      requires Sound() && Completed(taken) && input.Kind() == KIND_CLOSE && input.Length() == 0
      modifies this, input, input.header
      ensures var a := H.TakeClose(taken, old(input.Id())); H.Can(old(log), a) && log == H.Do(old(log), a)
      ensures Valid() && input.used == 0 && transportEof == old(transportEof)
    {
      var id := input.Id();
      ScanClose(taken);
      ghost var m := H.Do(log, H.TakeClose(taken, id));
      if id in peers {
        assert Served(id, peers[id], log, limits);
        OthersServed(peers, log, limits, id, peers[id].(guestClosed := true), m);
        peers := peers[id := peers[id].(guestClosed := true)];
      } else {
        assert !H.IsLive(log, id);
        SameServed(peers, log, limits, m);
      }
      log := m;
      input.Reset();
    }

    /** A DATA header; an empty frame ends at once. */
    method TakeDataHeader(taken: seq<Byte>)
      requires Sound() && Completed(taken) && input.Kind() == KIND_DATA && input.Length() <= MAX_FRAME
      modifies this, input, input.header
      ensures var a := H.Take(taken); H.Can(old(log), a) && log == H.Do(old(log), a)
      ensures Valid() && peers == old(peers) && transportEof == old(transportEof)
      ensures old(input.Length()) == 0 ==> input.used == 0
      ensures old(input.Length()) != 0 ==> input.used == HEADER && input.Kind() == KIND_DATA && !input.rejectedOpen
    {
      ScanData(taken);
      ghost var m := H.Do(log, H.Take(taken));
      SameServed(peers, log, limits, m);
      var length := input.Length();
      log := m;
      if length == 0 {
        input.Reset();
      } else {
        input.remaining := Some(length);
      }
    }

    /** Where DATA for `id` would go. */
    predicate Destined(id: nat)
      reads this
    {
      id in peers && !peers[id].guestClosed
    }

    function PayloadRoom(id: nat): nat
      reads this
    {
      if Destined(id) then peers[id].input.Room() else CHUNK
    }

    /** Payload bytes to the destination's queue, or dropped if there is none. */
    method Deliver(bytes: seq<Byte>, now: int)
      requires Valid() && input.used == HEADER && input.Kind() == KIND_DATA
      requires 0 < |bytes| <= input.remaining.value && |bytes| <= PayloadRoom(input.Id())
      modifies this, input, input.header
      ensures var a := H.TakeData(old(input.Id()), bytes); H.Can(old(log), a) && log == H.Do(old(log), a)
      ensures Valid() && transportEof == old(transportEof)
    {
      var id, length := input.Id(), input.remaining.value;
      H.PayloadFragment(log, bytes);
      ghost var m := H.Do(log, H.TakeData(id, bytes));
      if id in peers && !peers[id].guestClosed {
        var p := peers[id].(input := peers[id].input.Pushed(bytes, now));
        PushServed(peers, log, limits, id, bytes, now);
        peers := peers[id := p];
      } else {
        assert id in peers ==> Served(id, peers[id], log, limits);
        SameServed(peers, log, limits, m);
      }
      log := m;
      if |bytes| == length {
        input.Reset();
      } else {
        input.remaining := Some(length - |bytes|);
      }
    }

    /** One read of DATA payload: at most what is outstanding, one chunk, and the
        room in the destination. */
    method TakePayload(o: ReadOutcome, now: int)
      returns (r: ReadResult, ghost acts: seq<H.Act>, ghost taken: seq<Byte>)
      requires Valid() && input.used == HEADER && input.Kind() == KIND_DATA
      modifies this, input, input.header
      ensures H.DoAll(old(log), acts) == Some(log)
      ensures taken <= Offered(o) && log.consumed == old(log).consumed + taken
      ensures r.Err? <==> old(PayloadRoom(input.Id())) > 0 && (o.Eof? || o.ReadFailed?)
      ensures r.Err? ==> r.error == Truncated || r.error == Io
      ensures !r.CleanEof? && (r.More? ==> Valid()) && transportEof == old(transportEof)
    {
      r, acts, taken := More, [], [];
      Unit(log.consumed);
      var id, length := input.Id(), input.remaining.value;
      var room := PayloadRoom(id);
      if room == 0 {
        return;
      }
      match o
      case Eof => r := Err(Truncated);
      case ReadFailed => r := Err(Io);
      case ReadBlocked =>
      case Avail(_, _) =>
        var size := if length <= CHUNK then length else CHUNK;
        var bytes := Got(o, if size <= room then size else room);
        acts := [H.TakeData(id, bytes)];
        ghost var was := log;
        Deliver(bytes, now);
        H.DoOne(was, acts[0]);
        taken := bytes;
    }

    /** Act on a header that has just been completed by `taken`. */
    method ActOnHeader(taken: seq<Byte>, connect: Connect, now: int) returns (r: ReadResult, ghost acts: seq<H.Act>)
      requires Sound() && Completed(taken)
      modifies this, input, input.header
      ensures H.DoAll(old(log), acts) == Some(log)
      ensures r.More? ==> Valid() && log.consumed == old(log).consumed + taken
      ensures r.Err? ==> log == old(log) && Justified(r.error, old(log), taken) && r.error != TimedOut
      ensures !r.CleanEof? && transportEof == old(transportEof)
    {
      r, acts := More, [];
      ghost var was := log;
      var id := input.Id();
      if Malformed(input.Kind(), input.Length()) {
        ScanBad(taken);
        r := Err(InvalidHeader);
      } else if input.Kind() == KIND_OPEN {
        if id in peers {
          assert Served(id, peers[id], log, limits);
          ScanOpen(taken);
          r := Err(DuplicateStream(id));
        } else if |peers| < limits.peers && !connect.Refused? {
          AcceptOpen(taken, connect, now);
          acts := [H.Decide(taken, id, true)];
          H.DoOne(was, acts[0]);
        } else {
          RejectOpen(taken);
          acts := [H.Decide(taken, id, false)];
          H.DoOne(was, acts[0]);
        }
      } else if input.Kind() == KIND_CLOSE {
        TakeClose(taken);
        acts := [H.TakeClose(taken, id)];
        H.DoOne(was, acts[0]);
      } else {
        TakeDataHeader(taken);
        acts := [H.Take(taken)];
        H.DoOne(was, acts[0]);
      }
    }

    /** The header part of Input::read. */
    method ReadHeader(o: ReadOutcome, connect: Connect, now: int)
      returns (r: ReadResult, ghost acts: seq<H.Act>, ghost taken: seq<Byte>)
      requires Valid() && input.used < HEADER
      modifies this, input, input.header
      ensures H.DoAll(old(log), acts) == Some(log)
      ensures taken == if o.Avail? then Got(o, HEADER - old(input.used)) else []
      ensures !r.Err? ==> Valid() && log.consumed == old(log).consumed + taken
      ensures r.Err? ==> log == old(log) && Justified(r.error, old(log), taken) && r.error != TimedOut
      ensures r.CleanEof? <==> old(input.used) == 0 && o.Eof?
      ensures r.CleanEof? ==> acts == [] && log.scanned.place == Head([])
      ensures transportEof == old(transportEof)
    {
      r, acts, taken := More, [], [];
      Unit(log.consumed);
      match o
      case Eof =>
        r := if input.used == 0 then CleanEof else Err(Truncated);
        assert input.used == 0 ==> input.header[..0] == [];
      case ReadBlocked =>
      case ReadFailed => r := Err(Io);
      case Avail(_, _) =>
        ghost var was := log;
        var bytes := Got(o, HEADER - input.used);
        input.Store(bytes, now);
        taken := bytes;
        if input.used < HEADER {
          H.HeaderFragment(log, bytes);
          SameServed(peers, log, limits, H.Do(log, H.Take(bytes)));
          log := H.Do(log, H.Take(bytes));
          acts := [H.Take(bytes)];
          H.DoOne(was, acts[0]);
        } else {
          assert input.header[..HEADER] == input.header[..];
          r, acts := ActOnHeader(bytes, connect, now);
        }
    }

    /** The rest of Input::read, for a complete header that is still in hand. */
    method Continue(body: ReadOutcome, now: int)
      returns (r: ReadResult, ghost acts: seq<H.Act>, ghost taken: seq<Byte>)
      requires Valid() && input.used == HEADER
      modifies this, input, input.header
      ensures H.DoAll(old(log), acts) == Some(log)
      ensures taken <= Offered(body) && log.consumed == old(log).consumed + taken
      ensures r.More? ==> Valid()
      ensures r.Err? ==> r.error == Truncated || r.error == Io
      ensures !r.CleanEof? && transportEof == old(transportEof)
    {
      r, acts, taken := More, [], [];
      Unit(log.consumed);
      if input.Kind() == KIND_DATA {
        r, acts, taken := TakePayload(body, now);
      } else if output.Room() >= HEADER {
        ghost var was, id := log, input.Id();
        FinishReject(now);
        acts := [H.Refuse(id)];
        H.DoOne(was, acts[0]);
      }
    }

    /** Input::read.  The bytes taken are those of at most two reads, one of the
        header and one of payload; whatever they are, the pump is valid again
        unless the frame is refused, and then the refusal is the bytes' fault. */
    method ReadTransport(header: ReadOutcome, body: ReadOutcome, connect: Connect, now: int)
      returns (r: ReadResult, ghost acts: seq<H.Act>, ghost head: seq<Byte>, ghost tail: seq<Byte>)
      requires Valid() && !transportEof
      modifies this, input, input.header
      ensures H.DoAll(old(log), acts) == Some(log)
      ensures head == if header.Avail? && old(input.used) < HEADER then Got(header, HEADER - old(input.used)) else []
      ensures tail <= Offered(body)
      ensures !r.Err? ==> Valid() && log.consumed == old(log).consumed + head + tail
      ensures r.Err? ==> Justified(r.error, old(log), head) && Justified(r.error, log, head) && r.error != TimedOut
      ensures r.Err? && old(input.used) == HEADER ==> r.error == Truncated || r.error == Io
      ensures r.CleanEof? <==> old(input.used) == 0 && header.Eof?
      ensures r.CleanEof? ==> acts == [] && log.scanned.place == Head([])
      ensures transportEof == old(transportEof)
    {
      head, tail := [], [];
      if input.used == HEADER {
        Unit(log.consumed);
        r, acts, tail := Continue(body, now);
        return;
      }
      r, acts, head := ReadHeader(header, connect, now);
      Unit(log.consumed);
      if r.More? && input.used == HEADER {
        ghost var mid := log;
        ghost var more;
        r, more, tail := Continue(body, now);
        H.DoAppend(old(log), acts, mid, more);
        acts := acts + more;
      }
    }

    // -------------------------------------------------------- the top of the loop

    /** Replace the descriptor of every peer whose retry is due, keeping its queue. */
    method RetryConnects(retry: nat -> Connect, now: int) returns (ok: bool)
      requires Valid()
      modifies this`peers
      ensures Valid() && peers.Keys == old(peers).Keys
      ensures forall id | id in peers :: SameTraffic(peers[id], old(peers)[id])
      ensures ok <==> forall id | id in old(peers) :: Due(old(peers)[id], now) ==> !retry(id).Refused?
      ensures ok ==> forall id | id in peers :: peers[id] == Reconnected(old(peers)[id], retry(id), now)
    {
      var was := peers;
      ok, peers := Reconnect(peers, retry, now);
      TrafficServed(was, log, limits, peers);
    }

    /** A channel exceeded its queue, frame or connect deadline. */
    predicate Overdue(now: int)
      reads this, input
    {
      || output.Expired(now, limits.deadline)
      || (input.started.Some? && now - input.started.value >= limits.deadline)
      || exists id | id in peers ::
           || peers[id].input.Expired(now, limits.deadline)
           || (Waiting(peers[id]) && now - peers[id].since >= limits.deadline)
    }

    /** Remove one peer, telling the guest unless it closed first. */
    method RetireOne(id: nat, now: int)
      requires Valid() && id in peers && Retirable(peers[id])
      requires peers[id].guestClosed || output.Room() >= HEADER
      modifies this`peers, this`output, this`log
      ensures H.Can(old(log), H.Retire(id)) && log == H.Do(old(log), H.Retire(id))
      ensures Valid() && peers == old(peers) - {id}
      ensures output == if old(peers)[id].guestClosed then old(output) else old(output).Pushed(Encoded(Close(id)), now)
    {
      RetireServed(peers, log, limits, id, if input.rejectedOpen then Some(input.Id()) else None);
      ghost var m := H.Do(log, H.Retire(id));
      Farewell(id, !peers[id].guestClosed, now, m);
      peers := peers - {id};
      log := m;
    }

    /** The CLOSE a removed peer is owed, if any. */
    method Farewell(id: nat, owed: bool, now: int, ghost m: H.Log)
      requires Usable(limits) && Sending(output, log, limits) && (owed ==> output.Room() >= HEADER)
      requires m.wire == log.wire && m.encoded == log.encoded + if owed then Encoded(Close(id)) else []
      modifies this`output
      ensures Sending(output, m, limits)
      ensures output == if owed then old(output).Pushed(Encoded(Close(id)), now) else old(output)
    {
      if owed {
        PushFrame(Close(id), now, m);
      } else {
        Unit(log.encoded);
      }
    }

    /** The retirement of one id; `stop` if its CLOSE has no room. */
    method RetireIfDone(id: nat, now: int, ghost start: H.Log, ghost was: seq<H.Act>)
      returns (stop: bool, ghost acts: seq<H.Act>)
      requires Valid() && id in peers && H.DoAll(start, was) == Some(log)
      modifies this`peers, this`output, this`log
      ensures Valid() && H.DoAll(start, acts) == Some(log)
      ensures stop ==> output.Room() < HEADER
      ensures peers == if !stop && Retirable(old(peers)[id]) then old(peers) - {id} else old(peers)
      ensures !old(output).Expired(now, limits.deadline) ==> !output.Expired(now, limits.deadline)
    {
      stop, acts := false, was;
      if Retirable(peers[id]) {
        if !peers[id].guestClosed && output.Room() < HEADER {
          stop := true;
        } else {
          RetireOne(id, now);
          H.DoSnoc(start, was, old(log), H.Retire(id));
          acts := acts + [H.Retire(id)];
        }
      }
    }

    /** The retirement pass.  It stops at the first peer whose CLOSE has no room;
        otherwise no removable peer is left. */
    method RetirePeers(now: int) returns (ghost acts: seq<H.Act>)
      requires Valid()
      modifies this`peers, this`output, this`log
      ensures H.DoAll(old(log), acts) == Some(log)
      ensures Valid()
      ensures forall id | id in peers :: id in old(peers) && peers[id] == old(peers)[id]
      ensures forall id | id in old(peers) && id !in peers :: Retirable(old(peers)[id])
      ensures output.Room() < HEADER || forall id | id in peers :: !Retirable(peers[id])
      ensures !old(Overdue(now)) ==> !Overdue(now)
    {
      acts := [];
      var left, stop := peers.Keys, false;
      while left != {} && !stop
        invariant left <= peers.Keys && Valid() && H.DoAll(old(log), acts) == Some(log)
        invariant forall id | id in peers :: id in old(peers) && peers[id] == old(peers)[id]
        invariant forall id | id in old(peers) && id !in peers :: Retirable(old(peers)[id])
        invariant forall id | id in peers && id !in left :: stop || !Retirable(peers[id])
        invariant stop ==> output.Room() < HEADER
        invariant !old(Overdue(now)) ==> !output.Expired(now, limits.deadline)
        decreases |left|
      {
        var id := Smallest(left);
        stop, acts := RetireIfDone(id, now, old(log), acts);
        left := left - {id};
      }
    }

    // ------------------------------------------------------------ before the poll

    /** The earliest time at which a partial frame, a queued chunk, a connect or a
        retry comes due: no later than any of these, and one of them. */
    ghost predicate IsWake(wake: Option<int>)
      reads this, input
    {
      && (input.started.Some? ==> By(wake, input.started.value + limits.deadline))
      && (!output.Empty() ==> By(wake, output.chunks[0].queued + limits.deadline))
      && (forall id | id in peers :: Covers(wake, peers[id], limits.deadline))
      && (wake.Some? ==>
            || (input.started.Some? && wake.value == input.started.value + limits.deadline)
            || (!output.Empty() && wake.value == output.chunks[0].queued + limits.deadline)
            || exists id | id in peers :: PeerDeadline(peers[id], limits.deadline, wake.value))
    }

    method NextDeadline(ids: seq<nat>) returns (wake: Option<int>)
      requires forall k :: k in ids <==> k in peers
      ensures IsWake(wake)
    {
      wake := if input.started.Some? then Some(input.started.value + limits.deadline) else None;
      if !output.Empty() {
        wake := Earlier(wake, output.chunks[0].queued + limits.deadline);
      }
      wake := EarliestOf(peers, ids, limits.deadline, wake);
    }

    /** What one poll is asked for. */
    ghost predicate Planned(plan: Plan, now: int)
      requires input.header.Length == HEADER
      reads this, input, input.header
    {
      && plan.canRead == Readable()
      && plan.armWriter == !output.Empty()
      && plan.arms == Arms(peers, transportEof, output.Room())
      && (forall id :: id in plan.ids <==> id in peers)
      && IsWake(plan.wake)
      && plan.timeout == PollTimeout(plan.wake, now)
    }

    /** The ids of the peers in ascending order. */
    ghost predicate Ordered(ids: seq<nat>, ps: map<nat, Peer>) {
      (forall k :: k in ids <==> k in ps) && forall i, j | 0 <= i < j < |ids| :: ids[i] < ids[j]
    }

    /** Everything decided before one poll: the peers are served in ascending order from
        where the rotation stands, which moves on by one. */
    method Prepare(now: int) returns (plan: Plan)
      requires Valid()
      modifies this`rotation
      ensures Planned(plan, now)
      ensures exists ids :: Ordered(ids, peers) && plan.ids == Rotated(ids, old(rotation))
      ensures rotation == if plan.ids == [] then old(rotation) else TurnsOn(old(rotation), 1)
    {
      var ids := Ascending(peers.Keys);
      var wake := NextDeadline(ids);
      plan := Plan(Readable(), !output.Empty(), Rotated(ids, rotation),
                   Arms(peers, transportEof, output.Room()), wake, PollTimeout(wake, now));
      if ids != [] {
        rotation := (rotation + 1) % WORD;
      }
      assert Ordered(ids, peers);
    }

    /** What a paused transport lane waits for. */
    ghost predicate Awaited(plan: Plan)
      requires input.header.Length == HEADER && plan.arms.Keys == peers.Keys
      reads this, input, input.header
    {
      if input.Kind() == KIND_DATA then
        && input.Id() in peers
        && !peers[input.Id()].input.Empty()
        && (plan.arms[input.Id()].write ||
            (peers[input.Id()].retryAt.Some? && By(plan.wake, peers[input.Id()].retryAt.value)))
      else input.Kind() == KIND_OPEN && !output.Empty() && plan.armWriter
    }

    /** No silent stall, in any valid state.  If the transport is not read, then
        what it waits for is queued and either watched for writing or due at a
        known time; and poll may sleep for ever only when no frame is partial, no
        chunk is queued and no peer is connecting or to be retried. */
    lemma NoSilentStall(plan: Plan, now: int)
      requires Valid() && Planned(plan, now)
      ensures !plan.canRead ==> Awaited(plan)
      ensures plan.timeout == -1 <==> input.used == 0 && output.Empty() && Idle(peers)
    {
      if !plan.canRead && input.Kind() == KIND_DATA {
        var p := peers[input.Id()];
        assert Served(input.Id(), p, log, limits);
        assert Covers(plan.wake, p, limits.deadline);
      }
    }

    // ------------------------------------------------------------- after the poll

    method WriteTransport(o: WriteOutcome) returns (ok: bool, ghost count: nat)
      requires Valid()
      modifies this`output, this`log
      ensures H.Can(old(log), H.WriteWire(count)) && log == H.Do(old(log), H.WriteWire(count))
      ensures count == old(output).Count(o) && output == old(output).Written(o)
      ensures Valid() && (ok <==> !old(output).Fails(o))
    {
      ok, count := !output.Fails(o), output.Count(o);
      WriteKeeps(output, o);
      Advance(log.wire, Pending(output.chunks), output.Taken(o), Pending(output.Written(o).chunks), log.encoded);
      ghost var m := H.Do(log, H.WriteWire(count));
      SameServed(peers, log, limits, m);
      output := output.Written(o);
      log := m;
    }

    method WritePeer(id: nat, o: WriteOutcome) returns (ok: bool, ghost count: nat)
      requires Valid() && id in peers
      modifies this`peers, this`log
      ensures H.Can(old(log), H.WritePeer(id, count)) && log == H.Do(old(log), H.WritePeer(id, count))
      ensures count == old(peers)[id].input.Count(o)
      ensures peers == old(peers)[id := old(peers)[id].(input := old(peers)[id].input.Written(o))]
      ensures Valid() && (ok <==> !old(peers)[id].input.Fails(o))
    {
      var p := peers[id];
      ok, count := !p.input.Fails(o), p.input.Count(o);
      WriteServed(peers, log, limits, id, o);
      log := H.Do(log, H.WritePeer(id, count));
      peers := peers[id := p.(input := p.input.Written(o))];
    }

    /** A DATA frame of bytes read from a local socket. */
    method SendData(id: nat, data: seq<Byte>, now: int)
      requires Valid() && id in peers && 0 < |data| <= CHUNK && HEADER + |data| <= output.Room()
      modifies this`output, this`log
      ensures H.Can(old(log), H.ReadPeer(id, data)) && log == H.Do(old(log), H.ReadPeer(id, data))
      ensures Valid()
    {
      assert Served(id, peers[id], log, limits);
      ghost var m := H.Do(log, H.ReadPeer(id, data));
      assert peers[id := peers[id]] == peers;
      OthersServed(peers, log, limits, id, peers[id], m);
      PushFrame(Data(id, data), now, m);
      log := m;
    }

    /** One read of a local socket into a DATA frame that fits the return lane. */
    method ReadPeer(id: nat, o: ReadOutcome, now: int) returns (ok: bool, ghost acts: seq<H.Act>)
      requires Valid() && id in peers && !peers[id].hostEof && !peers[id].guestClosed && output.Room() > HEADER
      modifies this`peers, this`output, this`log
      ensures H.DoAll(old(log), acts) == Some(log)
      ensures acts == [] || exists data: seq<Byte> :: 0 < |data| && data <= Offered(o) && acts == [H.ReadPeer(id, data)]
      ensures o.Avail? <==> acts != []
      ensures Valid() && (ok <==> !o.ReadFailed?)
      ensures peers == old(peers)[id := old(peers)[id].(hostEof := o.Eof?)]
    {
      ok, acts := true, [];
      var p := peers[id];
      assert peers[id := p] == peers;
      match o
      case Eof =>
        TrafficServed(peers, log, limits, peers[id := p.(hostEof := true)]);
        peers := peers[id := p.(hostEof := true)];
      case ReadBlocked =>
      case ReadFailed => ok := false;
      case Avail(_, _) =>
        var size := if CHUNK <= output.Room() - HEADER then CHUNK else output.Room() - HEADER;
        var data := Got(o, size);
        ghost var was := log;
        SendData(id, data, now);
        acts := [H.ReadPeer(id, data)];
        H.DoOne(was, acts[0]);
    }

    /** Read a ready peer, if the return lane has room for more than a header. */
    method ReadReady(id: nat, ready: Ready, read: ReadOutcome, now: int) returns (ok: bool, ghost acts: seq<H.Act>)
      requires Valid() && id in peers
      modifies this`peers, this`output, this`log
      ensures H.DoAll(old(log), acts) == Some(log)
      ensures Valid() && peers.Keys == old(peers).Keys
      ensures acts != [] <==> old(WantsRead(peers[id], ready)) && read.Avail?
      ensures peers[id].hostEof <==> old(peers)[id].hostEof || (old(WantsRead(peers[id], ready)) && read.Eof?)
      ensures !ok <==> old(WantsRead(peers[id], ready)) && read.ReadFailed?
    {
      ok, acts := true, [];
      if WantsRead(peers[id], ready) {
        ok, acts := ReadPeer(id, read, now);
      }
    }

    predicate WantsRead(p: Peer, ready: Ready)
      reads this
    {
      (ready.readable || ready.hangup) && !transportEof && !p.hostEof && !p.guestClosed && output.Room() > HEADER
    }

    /** Write to a connected peer, then read from it. */
    method ServiceConnected(id: nat, ready: Ready, write: WriteOutcome, read: ReadOutcome, now: int)
      returns (ok: bool, ghost acts: seq<H.Act>)
      requires Valid() && id in peers
      modifies this`peers, this`output, this`log
      ensures H.DoAll(old(log), acts) == Some(log)
      ensures Valid() && peers.Keys == old(peers).Keys
      ensures ready.writable ==> acts != [] && acts[0] == H.WritePeer(id, old(peers)[id].input.Count(write))
      ensures ready.writable && old(peers)[id].input.Fails(write) ==> !ok
    {
      ok, acts := true, [];
      if ready.writable {
        ghost var count;
        ok, count := WritePeer(id, write);
        acts := [H.WritePeer(id, count)];
        H.DoOne(old(log), acts[0]);
      }
      if ok {
        ghost var mid := log;
        ghost var more;
        ok, more := ReadReady(id, ready, read, now);
        H.DoAppend(old(log), acts, mid, more);
        acts := acts + more;
      }
    }

    /** One ready peer: finish its connect, or write to it and read from it once. */
    method ServicePeer(id: nat, ready: Ready, connectError: bool, write: WriteOutcome, read: ReadOutcome, now: int)
      returns (e: Option<Error>, ghost acts: seq<H.Act>)
      requires Valid() && id in peers
      modifies this`peers, this`output, this`log
      ensures H.DoAll(old(log), acts) == Some(log)
      ensures Valid() && peers.Keys == old(peers).Keys && (e.Some? ==> Local(e.value) && e.value != TimedOut)
      ensures old(peers)[id].connecting && e.None? ==>
                peers[id] == old(peers)[id].(connecting := !(ready.writable || ready.error || ready.hangup))
      ensures !old(peers)[id].connecting && (ready.error || (ready.hangup && !old(peers)[id].input.Empty())) ==>
                e == Some(BrokenPipe)
      ensures !old(peers)[id].connecting && e.None? && ready.writable ==>
                acts != [] && acts[0] == H.WritePeer(id, old(peers)[id].input.Count(write))
    {
      e, acts := None, [];
      var p := peers[id];
      assert peers[id := p] == peers;
      if p.connecting {
        if ready.writable || ready.error || ready.hangup {
          if connectError {
            e := Some(Io);
          } else {
            TrafficServed(peers, log, limits, peers[id := p.(connecting := false)]);
            peers := peers[id := p.(connecting := false)];
          }
        }
      } else if ready.error || (ready.hangup && !p.input.Empty()) {
        e := Some(BrokenPipe);
      } else {
        var ok;
        ok, acts := ServiceConnected(id, ready, write, read, now);
        e := if ok then None else Some(Io);
      }
    }

    method ServicePeers(plan: Plan, w: World) returns (e: Option<Error>, ghost acts: seq<H.Act>)
      requires Valid()
      modifies this`peers, this`output, this`log
      ensures H.DoAll(old(log), acts) == Some(log)
      ensures Valid() && peers.Keys == old(peers).Keys && (e.Some? ==> Local(e.value) && e.value != TimedOut)
    {
      e, acts := None, [];
      for i := 0 to |plan.ids|
        invariant e.None? && Valid() && H.DoAll(old(log), acts) == Some(log) && peers.Keys == old(peers).Keys
      {
        var id := plan.ids[i];
        if id in peers && id in plan.arms && (plan.arms[id].read || plan.arms[id].write) {
          ghost var mid := log;
          ghost var more;
          e, more := ServicePeer(id, w.ready(id), w.connectError(id), w.peerWrite(id), w.peerRead(id), w.now);
          H.DoAppend(old(log), acts, mid, more);
          acts := acts + more;
          if e.Some? {
            return;
          }
        }
      }
    }

    predicate Drained()
      reads this
    {
      transportEof && output.Empty() && forall id | id in peers :: peers[id].input.Empty()
    }

    /** Work that needs no poll: due connects, and a complete header that waited. */
    method Resume(w: World) returns (r: Turn, ghost acts: seq<H.Act>)
      requires Valid()
      modifies this, input, input.header
      ensures H.DoAll(old(log), acts) == Some(log)
      ensures !r.Done? && (r.Again? ==> Valid() && transportEof == old(transportEof))
      ensures r.Fail? ==> r.error == Io || r.error == Truncated
      ensures old(input.used) < HEADER ==> input.used == old(input.used)
    {
      r, acts := Again, [];
      var ok := RetryConnects(w.retry, w.now);
      if !ok {
        r := Fail(Io);
      } else if !transportEof && input.used == HEADER && Readable() {
        var rr;
        ghost var head, tail;
        rr, acts, head, tail := ReadTransport(ReadBlocked, w.resumed, w.connect, w.now);
        r := if rr.Err? then Fail(rr.error) else Again;
      }
    }

    /** The part of a turn before the poll. */
    method BeforePoll(w: World) returns (r: Turn, ghost acts: seq<H.Act>)
      requires Valid()
      modifies this, input, input.header
      ensures H.DoAll(old(log), acts) == Some(log)
      ensures !r.Fail? ==> Valid() && transportEof == old(transportEof)
      ensures r.Fail? ==> Local(r.error)
      ensures (r == Fail(TimedOut) ==> Overdue(w.now)) && (!r.Fail? ==> !Overdue(w.now))
      ensures old(input.used) < HEADER ==> input.used == old(input.used)
      ensures r.Done? <==> !r.Fail? && Drained()
      ensures r.Done? ==> forall id | id in peers :: !Retirable(peers[id])
    {
      r, acts := Resume(w);
      if r.Fail? {
        return;
      }
      if Overdue(w.now) {
        r := Fail(TimedOut);
        return;
      }
      ghost var mid := log;
      ghost var more := RetirePeers(w.now);
      H.DoAppend(old(log), acts, mid, more);
      acts := acts + more;
      if Drained() {
        r := Done;
      }
    }

    /** The transport descriptor after the poll. */
    method ReadPhase(plan: Plan, w: World) returns (r: Turn, ghost acts: seq<H.Act>, ghost refused: seq<Byte>)
      requires Valid()
      modifies this, input, input.header
      ensures H.DoAll(old(log), acts) == Some(log)
      ensures (r.Fail? ==> Justified(r.error, log, refused) && r.error != TimedOut) && refused <= Offered(w.header)
      ensures !r.Done? && (r.Again? ==> Valid())
      ensures r.Again? && transportEof && !old(transportEof) ==> log == old(log) && log.scanned.place == Head([])
      ensures r.Again? && !old(transportEof) && w.transport.readable && old(input.used) < HEADER && w.header.Avail? ==>
                old(log).consumed + Got(w.header, HEADER - old(input.used)) <= log.consumed
    {
      r, acts, refused := Again, [], [];
      if !transportEof && (w.transport.readable || w.transport.hangup || w.transport.error) {
        if !plan.canRead {
          r := Fail(ConnectionAborted);
          return;
        }
        var rr;
        ghost var head, tail;
        rr, acts, head, tail := ReadTransport(w.header, w.body, w.connect, w.now);
        if rr.Err? {
          refused := head;
          r := Fail(rr.error);
        } else {
          transportEof := rr.CleanEof?;
        }
      }
    }

    /** The writer descriptor after the poll. */
    method WritePhase(plan: Plan, w: World) returns (r: Turn, ghost acts: seq<H.Act>)
      requires Valid()
      modifies this`output, this`log
      ensures H.DoAll(old(log), acts) == Some(log)
      ensures !r.Done? && Valid() && (r.Fail? ==> Local(r.error) && r.error != TimedOut)
      ensures r.Again? && plan.armWriter && w.writer.writable ==> acts == [H.WriteWire(old(output).Count(w.write))]
    {
      r, acts := Again, [];
      if (!transportEof || !output.Empty()) && (w.writer.error || w.writer.hangup) {
        r := Fail(BrokenPipe);
      } else if plan.armWriter && w.writer.writable {
        var ok, count := WriteTransport(w.write);
        acts := [H.WriteWire(count)];
        H.DoOne(old(log), acts[0]);
        r := if ok then Again else Fail(Io);
      }
    }

    /** A fresh header could be read and bytes of it were there. */
    predicate Fed(w: World)
      reads this, input
    {
      !transportEof && w.transport.readable && input.used < HEADER && w.header.Avail?
    }

    /** The part of a turn after the poll. */
    method AfterPoll(plan: Plan, w: World) returns (r: Turn, ghost acts: seq<H.Act>, ghost refused: seq<Byte>)
      requires Valid()
      modifies this, input, input.header
      ensures H.DoAll(old(log), acts) == Some(log)
      ensures (r.Fail? ==> Justified(r.error, log, refused) && r.error != TimedOut) && refused <= Offered(w.header)
      ensures !r.Done? && (r.Again? ==> Valid())
      ensures r.Again? && old(Fed(w)) ==> |old(log).consumed| < |log.consumed|
    {
      r, acts, refused := ReadPhase(plan, w);
      if r.Again? {
        ghost var read, more := log, [];
        r, more := WriteAndServe(plan, w);
        H.TakesMore(read, more);
        H.DoAppend(old(log), acts, read, more);
        acts := acts + more;
      }
    }

    /** The writer descriptor, then every ready peer. */
    method WriteAndServe(plan: Plan, w: World) returns (r: Turn, ghost acts: seq<H.Act>)
      requires Valid()
      modifies this`peers, this`output, this`log
      ensures H.DoAll(old(log), acts) == Some(log)
      ensures !r.Done? && Valid() && (r.Fail? ==> Local(r.error) && r.error != TimedOut)
    {
      r, acts := WritePhase(plan, w);
      if r.Again? {
        ghost var mid := log;
        ghost var more;
        var e;
        e, more := ServicePeers(plan, w);
        H.DoAppend(old(log), acts, mid, more);
        acts := acts + more;
        r := if e.Some? then Fail(e.value) else Again;
      }
    }

    /** Nothing queued is left: every frame was written and every live peer was given
        all that was accepted for it. */
    lemma DrainedIsDelivered()
      requires Valid() && Drained()
      ensures log.wire == log.encoded
      ensures forall id | H.IsLive(log, id) :: log.streams[id].toPeer == log.streams[id].accepted
    {
      NothingPending(output);
      Unit(log.wire);
      forall id | H.IsLive(log, id) ensures log.streams[id].toPeer == log.streams[id].accepted {
        assert Served(id, peers[id], log, limits);
        NothingPending(peers[id].input);
        Unit(log.streams[id].toPeer);
      }
    }

    /** One turn of the pump, whatever the world does.  All it did is in the log; it
        refuses a frame only for the bytes of that frame (`refused`); and it ends well
        only when everything sent has been written, every peer has been given all that
        was accepted for it, and no peer is left to retire. */
    method Iterate(w: World) returns (r: Turn, ghost acts: seq<H.Act>, ghost refused: seq<Byte>)
      requires Valid()
      modifies this, input, input.header
      ensures H.DoAll(old(log), acts) == Some(log)
      ensures (r.Fail? ==> Justified(r.error, log, refused)) && refused <= Offered(w.header)
      ensures !r.Fail? ==> Valid()
      ensures r == Fail(TimedOut) ==> Overdue(w.now)
      ensures r.Again? && !w.interrupted && old(Fed(w)) ==> |old(log).consumed| < |log.consumed|
      ensures r.Done? ==> transportEof && log.wire == log.encoded
      ensures r.Done? ==> forall id | id in peers :: !Retirable(peers[id])
      ensures r.Done? ==> forall id | H.IsLive(log, id) :: log.streams[id].toPeer == log.streams[id].accepted
    {
      r, acts := BeforePoll(w);
      refused := [];
      H.TakesMore(old(log), acts);
      if r.Done? {
        DrainedIsDelivered();
      }
      if r.Again? {
        var plan := Prepare(w.now);
        if !w.interrupted {
          ghost var mid := log;
          ghost var more;
          r, more, refused := AfterPoll(plan, w);
          H.DoAppend(old(log), acts, mid, more);
          acts := acts + more;
        }
      }
    }
  }

  /** However the transport split the stream into reads: two pumps that took the same
      bytes stand at the same place in the same frame, and what a live peer was
      given plus what is queued for it is exactly the DATA payload for its id since
      the latest OPEN of that id (and before its CLOSE). */
  lemma FragmentationIndependent(a: Bridge, b: Bridge, id: nat)
    requires a.Valid() && b.Valid() && H.Inv(a.log) && H.Inv(b.log) && a.log.consumed == b.log.consumed
    ensures a.input.Standing() == b.input.Standing()
    ensures id in a.peers ==>
              && id in a.log.streams
              && var s, ev := a.log.streams[id], Scan(true, a.log.consumed).events;
              && 1 <= s.openedAt <= |ev| && ev[s.openedAt - 1] == Opened(id) && Opened(id) !in ev[s.openedAt..]
              && s.toPeer + Pending(a.peers[id].input.chunks) == StreamBytes(id, H.Window(s, ev))
  {
    if id in a.peers {
      assert Served(id, a.peers[id], a.log, a.limits);
      assert H.StreamOk(id, a.log.streams[id], a.log.scanned.events, a.log.sent);
    }
  }

  /** A log reached by steps of the host. */
  ghost predicate Reaches(l: H.Log, m: H.Log) { exists acts :: H.DoAll(l, acts) == Some(m) }

  /** The logs after each of at most `turns` turns, from the start. */
  ghost predicate IsHistory(logs: seq<H.Log>, turns: nat) {
    && 0 < |logs| <= turns + 1 && logs[0] == H.EMPTY
    && forall i | 0 <= i < |logs| - 1 :: Reaches(logs[i], logs[i + 1])
  }

  lemma ExtendHistory(logs: seq<H.Log>, turns: nat, acts: seq<H.Act>, l: H.Log)
    requires IsHistory(logs, turns) && |logs| <= turns && H.DoAll(logs[|logs| - 1], acts) == Some(l)
    ensures IsHistory(logs + [l], turns)
  {
    var more := logs + [l];
    assert Reaches(logs[|logs| - 1], l);
    forall i | 0 <= i < |more| - 1 ensures Reaches(more[i], more[i + 1]) {
      if i < |logs| - 1 { assert Reaches(logs[i], logs[i + 1]); }
    }
  }

  /** Between turns: whatever the run has come to. */
  ghost predicate OnCourse(bridge: Bridge, r: Turn)
    reads bridge, bridge.input, bridge.input.header
  {
    && H.Inv(bridge.log)
    && (!r.Fail? ==> bridge.Valid())
    && (r.Done? ==> bridge.transportEof && bridge.log.wire == bridge.log.encoded)
    && (r.Done? ==> forall id | id in bridge.peers :: !Retirable(bridge.peers[id]))
    && (r.Done? ==> forall id | H.IsLive(bridge.log, id) ::
          bridge.log.streams[id].toPeer == bridge.log.streams[id].accepted)
  }

  /** One more turn, with the log after it. */
  method TakeTurn(bridge: Bridge, worlds: seq<World>, i: nat, ghost logs: seq<H.Log>)
    returns (r: Turn, ghost more: seq<H.Log>)
    requires i < |worlds| && OnCourse(bridge, Again)
    requires IsHistory(logs, |worlds|) && |logs| == i + 1 && logs[i] == bridge.log
    modifies bridge, bridge.input, bridge.input.header
    ensures OnCourse(bridge, r)
    ensures IsHistory(more, |worlds|) && |more| == i + 2 && more[i + 1] == bridge.log
  {
    ghost var acts, refused;
    r, acts, refused := bridge.Iterate(worlds[i]);
    H.InvAll(old(bridge.log), acts);
    ExtendHistory(logs, |worlds|, acts, bridge.log);
    more := logs + [bridge.log];
  }

  /** A pump that ended well gave every stream all its payload. */
  lemma AllDelivered(bridge: Bridge)
    requires OnCourse(bridge, Done)
    ensures forall id | id in bridge.log.streams && !bridge.log.streams[id].phase.Rejecting? ::
              var s := bridge.log.streams[id]; s.toPeer == StreamBytes(id, H.Window(s, bridge.log.scanned.events))
  {
    var log := bridge.log;
    forall id | id in log.streams && !log.streams[id].phase.Rejecting?
      ensures log.streams[id].toPeer == StreamBytes(id, H.Window(log.streams[id], log.scanned.events))
    {
      assert H.StreamOk(id, log.streams[id], log.scanned.events, log.sent);
      assert H.IsLive(log, id) || log.streams[id].phase.Retired?;
    }
  }

  /** The pump over any finite sequence of turns, with its logs after each of them. */
  method Start(limits: Limits, ghost turns: nat) returns (pump: Bridge, ghost logs: seq<H.Log>)
    requires Usable(limits)
    ensures fresh(pump) && fresh(pump.input) && fresh(pump.input.header) && OnCourse(pump, Again)
    ensures logs == [pump.log] && IsHistory(logs, turns)
  {
    pump := new Bridge(limits);
    H.InvInit();
    logs := [pump.log];
  }

  method RunPump(limits: Limits, worlds: seq<World>) returns (r: Turn, pump: Bridge, ghost logs: seq<H.Log>)
    requires Usable(limits)
    ensures fresh(pump) && OnCourse(pump, r)
    ensures IsHistory(logs, |worlds|) && logs[|logs| - 1] == pump.log && (r.Again? ==> |logs| == |worlds| + 1)
  {
    pump, logs := Start(limits, |worlds|);
    r := Again;
    var i := 0;
    while i < |worlds| && r.Again?
      invariant 0 <= i <= |worlds| && fresh(pump) && fresh(pump.input) && fresh(pump.input.header)
      invariant IsHistory(logs, |worlds|) && |logs| == i + 1 && logs[i] == pump.log && OnCourse(pump, r)
    {
      r, logs := TakeTurn(pump, worlds, i, logs);
      i := i + 1;
    }
  }

  /** bridge_with_limits.  Unusable limits are refused before there is a pump;
      otherwise the pump's logs after each turn are ones the steps of HostLog can
      produce, so its invariant holds however the run ends, and an orderly end has
      delivered every byte accepted for every stream, written every frame sent and
      left no removable peer. */
  method BridgeWithLimits(limits: Limits, worlds: seq<World>) returns (r: Turn, bridge: Bridge?, ghost logs: seq<H.Log>)
    ensures bridge == null <==> !Usable(limits)
    ensures bridge == null ==> r == Fail(InvalidLimits)
    ensures bridge != null ==> fresh(bridge) && IsHistory(logs, |worlds|) && logs[|logs| - 1] == bridge.log
    ensures bridge != null && r.Again? ==> |logs| == |worlds| + 1
    ensures bridge != null ==> H.Inv(bridge.log) && (!r.Fail? ==> bridge.Valid())
    ensures bridge != null && r.Done? ==> bridge.transportEof && bridge.log.wire == EncodedAll(bridge.log.sent)
    ensures bridge != null && r.Done? ==> forall id | id in bridge.peers :: !Retirable(bridge.peers[id])
    ensures bridge != null && r.Done? ==>
              forall id | id in bridge.log.streams && !bridge.log.streams[id].phase.Rejecting? ::
                var s := bridge.log.streams[id]; s.toPeer == StreamBytes(id, H.Window(s, bridge.log.scanned.events))
  {
    if !Usable(limits) {
      return Fail(InvalidLimits), null, [];
    }
    var pump;
    r, pump, logs := RunPump(limits, worlds);
    bridge := pump;
    if r.Done? {
      AllDelivered(pump);
    }
  }
}
