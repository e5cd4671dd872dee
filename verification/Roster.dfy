/** The peers of a guest relay and how they stand to its log.  Both Perl relays
    keep a hash of entries { queue, bytes, closing, notify }; they differ in how a
    queue stores and charges its bytes, which a `Kind` tells. */
module Roster {
  import opened Basics
  import opened Wire
  import opened Outcomes
  import opened Keys
  import G = GuestLog

  const PEER_LIMIT := 256 * 1024
  const INPUT_LIMIT := 4 * 1024 * 1024
  const MAX_PEERS := 128

  datatype Peer<Q> = Peer(queue: Q, bytes: nat, closing: bool, notify: bool) {
    predicate Finished() { closing && bytes == 0 }

    /** closing_peer: stop accepting, remember a CLOSE that is owed, and drop what
        is queued if the local socket failed. */
    function Shut(notify': bool, discard: bool, empty: Q): Peer<Q> {
      Peer(if discard then empty else queue, if discard then 0 else bytes, true, notify || notify')
    }
  }

  /** What a queue still has to write, when it and its charge are in order, and the
      empty queue. */
  datatype Kind<!Q(!new)> = Kind(pending: Q -> seq<Byte>, ok: (Q, nat) -> bool, empty: Q) {
    ghost predicate Sound() {
      && pending(empty) == [] && ok(empty, 0)
      && forall q {:trigger ok(q, 0)} | ok(q, 0) :: pending(q) == []
    }
  }

  /** One entry and its record.  What was written and what is queued is exactly
      what was accepted, unless the queue was discarded after a failed write. */
  ghost predicate Tracked<Q(!new)>(k: Kind<Q>, id: nat, p: Peer<Q>, l: G.Log) {
    && k.ok(p.queue, p.bytes)
    && G.InPeers(l, id)
    && var s := l.streams[id];
    && (p.closing <==> s.phase.Closing?)
    && (p.closing ==> p.notify == s.phase.notify)
    && (!p.closing ==> !p.notify)
    && if p.closing && s.phase.discarded then k.pending(p.queue) == [] && s.toPeer <= s.accepted
       else s.toPeer + k.pending(p.queue) == s.accepted
  }

  function SizeOf<Q>(p: Peer<Q>): nat { p.bytes }

  /** The peers, the bytes charged for all of them, and the log. */
  ghost predicate Peering<Q(!new)>(k: Kind<Q>, ps: map<nat, Peer<Q>>, total: nat, l: G.Log) {
    && k.Sound()
    && |ps| <= MAX_PEERS
    && total == Total(ps, SizeOf) <= INPUT_LIMIT
    && (forall id {:trigger Tracked(k, id, ps[id], l)} | id in ps :: Tracked(k, id, ps[id], l))
    && (forall id {:trigger G.InPeers(l, id)} | G.InPeers(l, id) :: id in ps)
    && (forall id | id in l.streams :: id < l.nextId)
  }

  // ------------------------------------------------------- one entry changes

  /** One entry and its record change; nothing else does. */
  lemma Change<Q(!new)>(k: Kind<Q>, ps: map<nat, Peer<Q>>, total: nat, l: G.Log, id: nat, q: Peer<Q>, total': int,
                        m: G.Log)
    requires Peering(k, ps, total, l) && id in ps && Tracked(k, id, q, m)
    requires total' == total - ps[id].bytes + q.bytes <= INPUT_LIMIT
    requires m.nextId == l.nextId && id in l.streams && m.streams == l.streams[id := m.streams[id]]
    ensures 0 <= total' && Peering(k, ps[id := q], total', m)
  {
    TotalUpdate(ps, SizeOf, id, q);
    var qs := ps[id := q];
    assert |qs| == |ps| by { assert qs.Keys == ps.Keys; }
    forall i | i in qs ensures Tracked(k, i, qs[i], m) {
      if i != id { assert Tracked(k, i, ps[i], l); }
    }
    forall i | G.InPeers(m, i) ensures i in qs {
      if i != id { assert G.InPeers(l, i); }
    }
  }

  /** A step of the log that concerns no peer. */
  lemma Idle<Q(!new)>(k: Kind<Q>, ps: map<nat, Peer<Q>>, total: nat, l: G.Log, m: G.Log)
    requires Peering(k, ps, total, l) && m.streams == l.streams && m.nextId == l.nextId
    ensures Peering(k, ps, total, m)
  {
    forall i | i in ps ensures Tracked(k, i, ps[i], m) { assert Tracked(k, i, ps[i], l); }
    forall i | G.InPeers(m, i) ensures i in ps { assert G.InPeers(l, i); }
  }

  lemma Retire<Q(!new)>(k: Kind<Q>, ps: map<nat, Peer<Q>>, total: nat, l: G.Log, id: nat)
    requires Peering(k, ps, total, l) && id in ps && ps[id].Finished()
    ensures G.Can(l, G.Retire(id)) && l.streams[id].phase.notify == ps[id].notify
    ensures Peering(k, ps - {id}, total, G.Do(l, G.Retire(id)))
  {
    assert Tracked(k, id, ps[id], l);
    Unit(l.streams[id].toPeer);
    var m, qs := G.Do(l, G.Retire(id)), ps - {id};
    TotalRemove(ps, SizeOf, id);
    assert |qs| <= |ps| by { assert qs.Keys == ps.Keys - {id}; }
    forall i | i in qs ensures Tracked(k, i, qs[i], m) { assert Tracked(k, i, ps[i], l); }
    forall i | G.InPeers(m, i) ensures i in qs { assert G.InPeers(l, i); }
  }

  /** A new entry with a new record. */
  lemma Join<Q(!new)>(k: Kind<Q>, ps: map<nat, Peer<Q>>, total: nat, l: G.Log, id: nat, p: Peer<Q>, m: G.Log)
    requires Peering(k, ps, total, l) && id !in ps && |ps| < MAX_PEERS && Tracked(k, id, p, m) && p.bytes == 0
    requires m.nextId > l.nextId && id < m.nextId && m.streams == l.streams[id := m.streams[id]]
    ensures Peering(k, ps[id := p], total, m)
  {
    TotalAdd(ps, SizeOf, id, p);
    var qs := ps[id := p];
    assert |qs| == |ps| + 1 by { assert qs.Keys == ps.Keys + {id}; }
    forall i | i in qs ensures Tracked(k, i, qs[i], m) {
      if i != id { assert Tracked(k, i, ps[i], l); }
    }
    forall i | G.InPeers(m, i) ensures i in qs {
      if i != id { assert G.InPeers(l, i); }
    }
  }

  lemma Accept<Q(!new)>(k: Kind<Q>, ps: map<nat, Peer<Q>>, total: nat, l: G.Log)
    requires Peering(k, ps, total, l) && |ps| < MAX_PEERS
    ensures l.nextId !in ps
    ensures var m := G.Do(l, G.Accept);
            && m.scanned == l.scanned && m.wire == l.wire && m.nextId == l.nextId + 1
            && m.encoded == l.encoded + Encoded(Open(l.nextId))
    ensures Peering(k, ps[l.nextId := Peer(k.empty, 0, false, false)], total, G.Do(l, G.Accept))
  {
    var p, m := Peer(k.empty, 0, false, false), G.Do(l, G.Accept);
    assert l.nextId in ps ==> Tracked(k, l.nextId, ps[l.nextId], l);
    Unit(m.streams[l.nextId].toPeer);
    Join(k, ps, total, l, l.nextId, p, m);
  }

  lemma Closing<Q(!new)>(k: Kind<Q>, ps: map<nat, Peer<Q>>, total: nat, l: G.Log, id: nat, notify: bool, discard: bool,
                         total': int)
    requires Peering(k, ps, total, l) && id in ps
    requires total' == if discard then total - ps[id].bytes else total
    ensures G.Can(l, G.BeginClose(id, notify, discard)) && 0 <= total'
    ensures SameRest(l, G.Do(l, G.BeginClose(id, notify, discard)))
    ensures Peering(k, ps[id := ps[id].Shut(notify, discard, k.empty)], total',
                    G.Do(l, G.BeginClose(id, notify, discard)))
  {
    assert Tracked(k, id, ps[id], l);
    Change(k, ps, total, l, id, ps[id].Shut(notify, discard, k.empty), total',
           G.Do(l, G.BeginClose(id, notify, discard)));
  }

  /** Payload for a peer that is not closing, now at the end of its queue. */
  lemma Append<Q(!new)>(k: Kind<Q>, ps: map<nat, Peer<Q>>, total: nat, l: G.Log, id: nat, data: seq<Byte>, queue: Q)
    requires Peering(k, ps, total, l) && id in ps && !ps[id].closing && G.Can(l, G.TakeData(id, data))
    requires k.pending(queue) == k.pending(ps[id].queue) + data && total + |data| <= INPUT_LIMIT
    requires k.ok(queue, ps[id].bytes + |data|)
    ensures Peering(k, ps[id := ps[id].(queue := queue, bytes := ps[id].bytes + |data|)], total + |data|,
                    G.Do(l, G.TakeData(id, data)))
  {
    assert Tracked(k, id, ps[id], l);
    Reassociate(l.streams[id].toPeer, k.pending(ps[id].queue), data);
    Change(k, ps, total, l, id, ps[id].(queue := queue, bytes := ps[id].bytes + |data|), total + |data|,
           G.Do(l, G.TakeData(id, data)));
  }

  /** Payload for nobody: no such peer, or one that is closing. */
  lemma Drop<Q(!new)>(k: Kind<Q>, ps: map<nat, Peer<Q>>, total: nat, l: G.Log, id: nat, data: seq<Byte>)
    requires Peering(k, ps, total, l) && (id in ps ==> ps[id].closing) && G.Can(l, G.TakeData(id, data))
    ensures Peering(k, ps, total, G.Do(l, G.TakeData(id, data)))
  {
    assert id in ps ==> Tracked(k, id, ps[id], l);
    Idle(k, ps, total, l, G.Do(l, G.TakeData(id, data)));
  }

  /** A CLOSE from the host. */
  lemma HostClose<Q(!new)>(k: Kind<Q>, ps: map<nat, Peer<Q>>, total: nat, l: G.Log, id: nat, bytes: seq<Byte>)
    requires Peering(k, ps, total, l) && G.Can(l, G.TakeClose(bytes, id))
    ensures id in ps ==> Peering(k, ps[id := ps[id].(closing := true)], total, G.Do(l, G.TakeClose(bytes, id)))
    ensures id !in ps ==> Peering(k, ps, total, G.Do(l, G.TakeClose(bytes, id)))
  {
    var m := G.Do(l, G.TakeClose(bytes, id));
    if id in ps {
      assert Tracked(k, id, ps[id], l);
      var p := ps[id];
      Change(k, ps, total, l, id, p.(closing := true), total, m);
    } else {
      assert !G.InPeers(l, id);
      Idle(k, ps, total, l, m);
    }
  }

  /** Bytes leave a queue for the local socket; `released` is the charge that goes. */
  lemma Written<Q(!new)>(k: Kind<Q>, ps: map<nat, Peer<Q>>, total: nat, l: G.Log, id: nat, taken: seq<Byte>, queue: Q,
                         bytes: nat, total': int)
    requires Peering(k, ps, total, l) && id in ps && k.pending(ps[id].queue) == taken + k.pending(queue)
    requires bytes <= ps[id].bytes && total' == total - (ps[id].bytes - bytes)
    requires k.ok(queue, bytes)
    ensures 0 <= total' && G.Can(l, G.WritePeer(id, |taken|)) && SameRest(l, G.Do(l, G.WritePeer(id, |taken|)))
    ensures Peering(k, ps[id := ps[id].(queue := queue, bytes := bytes)], total', G.Do(l, G.WritePeer(id, |taken|)))
  {
    var p := ps[id];
    assert Tracked(k, id, p, l);
    WriteTracked(k, id, p, l, taken, queue, bytes);
    Change(k, ps, total, l, id, p.(queue := queue, bytes := bytes), total', G.Do(l, G.WritePeer(id, |taken|)));
  }

  lemma WriteTracked<Q(!new)>(k: Kind<Q>, id: nat, p: Peer<Q>, l: G.Log, taken: seq<Byte>, queue: Q, bytes: nat)
    requires Tracked(k, id, p, l) && k.pending(p.queue) == taken + k.pending(queue)
    requires k.ok(queue, bytes)
    ensures G.Can(l, G.WritePeer(id, |taken|))
    ensures Tracked(k, id, p.(queue := queue, bytes := bytes), G.Do(l, G.WritePeer(id, |taken|)))
  {
    var s, rest := l.streams[id], k.pending(queue);
    if p.closing && s.phase.discarded {
      assert taken == [] && rest == [];
    } else {
      Regroup(s.toPeer, taken, rest);
    }
  }

  lemma Regroup<T>(a: seq<T>, b: seq<T>, c: seq<T>)
    ensures (a + (b + c))[..|a| + |b|] == a + b && a + (b + c) == a + b + c
  {
  }

  /** Bytes read from a local socket. */
  lemma ReadFrom<Q(!new)>(k: Kind<Q>, ps: map<nat, Peer<Q>>, total: nat, l: G.Log, id: nat, data: seq<Byte>)
    requires Peering(k, ps, total, l) && id in ps && !ps[id].closing && 0 < |data| <= CHUNK
    ensures G.Can(l, G.ReadPeer(id, data)) && Peering(k, ps, total, G.Do(l, G.ReadPeer(id, data)))
  {
    assert Tracked(k, id, ps[id], l);
    Change(k, ps, total, l, id, ps[id], total, G.Do(l, G.ReadPeer(id, data)));
    assert ps[id := ps[id]] == ps;
  }

  /** Every queue is written out when nothing is charged. */
  lemma NothingQueued<Q(!new)>(k: Kind<Q>, ps: map<nat, Peer<Q>>, l: G.Log, id: nat)
    requires Peering(k, ps, 0, l) && id in ps && id in l.streams
    ensures ps[id].bytes == 0 && G.Drained(l.streams[id])
  {
    TotalUpdate(ps, SizeOf, id, ps[id]);
    assert Tracked(k, id, ps[id], l);
    Unit(l.streams[id].toPeer);
  }

  // ------------------------------------------------------- the incoming lane

  /** The DATA frame whose payload is being received. */
  datatype Incoming = Incoming(id: nat, left: nat)

  /** The parser's variables say where the bytes consumed so far have come to. */
  ghost predicate Framed(header: seq<Byte>, incoming: Option<Incoming>, l: G.Log) {
    match incoming
    case None => |header| < HEADER && l.scanned.place == Head(header)
    case Some(i) => header == [] && i.left > 0 && l.scanned.place == Body(i.id, i.left)
  }

  /** What a header says, once it is complete. */
  datatype Said = Nothing | Invalid | CloseOf(id: nat) | DataOf(id: nat, length: nat)

  function Says(h: seq<Byte>): Said
    requires |h| <= HEADER
  {
    if |h| < HEADER then Nothing
    else
      var kind, id, length := h[0], FromBe32(h[1..5]), FromBe32(h[5..9]);
      if length > MAX_FRAME then Invalid
      else if (kind != KIND_DATA && kind != KIND_CLOSE) || (kind == KIND_CLOSE && length != 0) then Invalid
      else if kind == KIND_CLOSE then CloseOf(id) else DataOf(id, length)
  }

  function Expected(id: nat, left: nat): Option<Incoming> { if left == 0 then None else Some(Incoming(id, left)) }

  /** The step a header's last bytes are. */
  function StepOf(said: Said, data: seq<Byte>): G.Act {
    if said.CloseOf? then G.TakeClose(data, said.id) else G.Take(data)
  }

  /** What the parser's variables become. */
  function HeaderAfter(said: Said, header: seq<Byte>, data: seq<Byte>): seq<Byte> {
    if said.Nothing? then header + data else []
  }

  function IncomingAfter(said: Said): Option<Incoming> {
    if said.DataOf? then Expected(said.id, said.length) else None
  }

  /** Two logs that sent and wrote the same frames. */
  ghost predicate SameSent(l: G.Log, m: G.Log) { m.wire == l.wire && m.encoded == l.encoded && m.nextId == l.nextId }

  /** ... and took the same bytes. */
  ghost predicate SameRest(l: G.Log, m: G.Log) { SameSent(l, m) && m.scanned == l.scanned }

  /** The log after header bytes that say this, and where the parser then stands. */
  ghost predicate Obeyed(l: G.Log, data: seq<Byte>, said: Said, rest: seq<Byte>) {
    && G.Can(l, StepOf(said, data))
    && var m := G.Do(l, StepOf(said, data));
       SameSent(l, m) && m.consumed == l.consumed + data && Framed(rest, IncomingAfter(said), m)
  }

  lemma HeaderSays(l: G.Log, header: seq<Byte>, data: seq<Byte>, said: Said)
    requires Framed(header, None, l) && 0 < |data| <= HEADER - |header| && said == Says(header + data)
    ensures said.Invalid? ==> ScanFrom(false, l.scanned, data).place.Bad?
    ensures !said.Invalid? ==> Obeyed(l, data, said, HeaderAfter(said, header, data))
  {
    if |header + data| < HEADER {
      FragmentSays(l, header, data);
    } else {
      WholeHeaderSays(l, header, data, said);
    }
  }

  lemma FragmentSays(l: G.Log, header: seq<Byte>, data: seq<Byte>)
    requires Framed(header, None, l) && |data| < HEADER - |header|
    ensures Obeyed(l, data, Nothing, header + data)
  {
    G.HeaderFragment(l, data);
  }

  lemma WholeHeaderSays(l: G.Log, header: seq<Byte>, data: seq<Byte>, said: Said)
    requires Framed(header, None, l) && 0 < |data| == HEADER - |header| && said == Says(header + data)
    ensures said.Invalid? ==> ScanFrom(false, l.scanned, data).place.Bad?
    ensures !said.Invalid? ==> Obeyed(l, data, said, [])
  {
    G.HeaderComplete(l, data, header + data);
  }

  lemma PayloadSays(l: G.Log, i: Incoming, data: seq<Byte>)
    requires Framed([], Some(i), l) && 0 < |data| <= i.left
    ensures G.Can(l, G.TakeData(i.id, data))
    ensures Framed([], Expected(i.id, i.left - |data|), G.Do(l, G.TakeData(i.id, data)))
    ensures SameSent(l, G.Do(l, G.TakeData(i.id, data)))
  {
    G.PayloadFragment(l, data);
  }

  /** How much of a read may go to the peer of the current DATA frame: all of it if
      there is no peer to take it. */
  function Space<Q>(ps: map<nat, Peer<Q>>, total: nat, id: nat, size: nat): int {
    if id !in ps || ps[id].closing then size
    else
      var space := PEER_LIMIT - ps[id].bytes;
      var least := if INPUT_LIMIT - total < space then INPUT_LIMIT - total else space;
      if least < size then least else size
  }

  /** What the relay asks the transport for now; nothing if it must wait. */
  function Wanted<Q>(ps: map<nat, Peer<Q>>, total: nat, header: seq<Byte>, incoming: Option<Incoming>): int
    requires |header| < HEADER
  {
    match incoming
    case None => HEADER - |header|
    case Some(i) => Space(ps, total, i.id, if i.left > CHUNK then CHUNK else i.left)
  }

  // --------------------------------------------------------------- the outside

  /** Why a relay ends with status 1: a header it must refuse, a read that failed or
      ended inside a frame, a write that failed, an error poll reported, a deadline. */
  datatype Cause = BadHeader | BadRead | BadWrite | BadPoll | Late

  /** How the loop goes on or ends: status 0 once drained or when the transport hung
      up, status 1 on any failure. */
  datatype Turn = Again | Drained | HungUp | Failed(cause: Cause)

  /** A ready descriptor. */
  datatype Source = Server | Transport | Local(id: nat)

  /** Everything outside the relay that one turn of its loop meets: the clock,
      whether the child was reaped, what poll reported, the order in which ready
      descriptors are visited, and what each call then did. */
  datatype World = World(
    now: int, childGone: bool, interrupted: bool, hangup: bool, failed: bool,
    writes: seq<Source>, write: WriteOutcome, peerWrite: nat -> WriteOutcome,
    order: seq<Source>, connection: bool, read: ReadOutcome, peerRead: nat -> ReadOutcome)

  /** What any failure but lateness is to be blamed on; `between` says that the turn began
      between two frames. */
  predicate Blamed(cause: Cause, w: World, between: bool) {
    match cause
    case BadHeader => w.read.Avail?
    case BadRead => w.read.ReadFailed? || (w.read.Eof? && !between)
    case BadWrite => Fails(w.write)
    case BadPoll => w.failed || w.hangup
    case Late => false
  }

  /** A write that took nothing for good. */
  predicate Fails(o: WriteOutcome) { o.WriteFailed? || o == Wrote(0) }

  /** How many of `size` offered bytes a write took. */
  function Count(o: WriteOutcome, size: nat): nat { if !o.Wrote? then 0 else if o.count < size then o.count else size }

  // -------------------------------------------------------------- the child's end

  /** Once the child is known to be gone no stream is taken on any more. */
  ghost predicate Exited(gone: bool, present: set<nat>, l: G.Log) {
    gone ==> G.Quiet(l) && forall id | id in present :: G.Owed(l, id)
  }

  lemma ExitedStays(gone: bool, present: set<nat>, l: G.Log, acts: seq<G.Act>)
    requires Exited(gone, present, l) && G.DoAll(l, acts).Some? && (gone ==> G.DoAll(l, acts).value.nextId == l.nextId)
    requires forall id | id in l.streams :: id < l.nextId
    ensures Exited(gone, present, G.DoAll(l, acts).value)
  {
    if gone {
      G.QuietStays(l, acts);
      forall id | id in present ensures G.Owed(G.DoAll(l, acts).value, id) {
        G.OwedStays(l, acts, id);
      }
    }
  }

  /** Once every entry is closing, no stream is running. */
  lemma AllShut<Q(!new)>(k: Kind<Q>, ps: map<nat, Peer<Q>>, total: nat, l: G.Log)
    requires Peering(k, ps, total, l) && forall id | id in ps :: ps[id].closing
    ensures G.Quiet(l)
    ensures forall id | id in ps && ps[id].notify :: G.Owed(l, id)
  {
    forall id | id in l.streams ensures !l.streams[id].phase.Running? {
      if G.InPeers(l, id) { assert Tracked(k, id, ps[id], l); }
    }
    forall id | id in ps && ps[id].notify ensures G.Owed(l, id) { assert Tracked(k, id, ps[id], l); }
  }

  /** The peer is there, closing, and its queue is written out. */
  predicate Waiting<Q>(ps: map<nat, Peer<Q>>, id: nat) { id in ps && ps[id].Finished() }

  ghost predicate NobodyWaits<Q(!new)>(ps: map<nat, Peer<Q>>) { forall id :: !Waiting(ps, id) }

  /** What a retirement pass may do: drop finished entries, and only those. */
  ghost predicate Thinned<Q(!new)>(was: map<nat, Peer<Q>>, ps: map<nat, Peer<Q>>) {
    && (forall id | id in ps :: id in was && ps[id] == was[id])
    && (forall id | id in was && id !in ps :: Waiting(was, id))
  }

  /** With nothing charged, no stream running and no finished entry left, there is
      no entry at all. */
  lemma NobodyLeft<Q(!new)>(k: Kind<Q>, ps: map<nat, Peer<Q>>, l: G.Log)
    requires Peering(k, ps, 0, l) && G.Quiet(l) && NobodyWaits(ps)
    ensures ps == map[] && AllGone(l)
  {
    forall id | id in ps ensures false {
      assert Tracked(k, id, ps[id], l) && !Waiting(ps, id);
      NothingQueued(k, ps, l, id);
    }
    forall id | id in l.streams ensures l.streams[id].phase.Gone? {
      assert G.InPeers(l, id) ==> id in ps;
    }
  }

  // ---------------------------------------------------------- the transport's end

  /** After the transport's end, until the child's exit: the entries there were when
      it was read are closing; those accepted later in the same pass wait untouched. */
  ghost predicate Sealed<Q(!new)>(eof: bool, gone: bool, eofId: nat, nextId: nat, ps: map<nat, Peer<Q>>) {
    eof && !gone ==>
      && eofId <= nextId
      && (forall id | id in ps :: if id < eofId then ps[id].closing else !ps[id].closing && ps[id].bytes == 0)
      && (forall id | eofId <= id < nextId :: id in ps)
  }

  lemma SealedThinned<Q(!new)>(eof: bool, gone: bool, eofId: nat, nextId: nat, was: map<nat, Peer<Q>>,
                               ps: map<nat, Peer<Q>>)
    requires Sealed(eof, gone, eofId, nextId, was) && Thinned(was, ps)
    ensures Sealed(eof, gone, eofId, nextId, ps)
  {
  }

  /** A write changes only an entry with bytes queued, and reopens nothing. */
  lemma SealedWrite<Q(!new)>(eof: bool, gone: bool, eofId: nat, nextId: nat, ps: map<nat, Peer<Q>>, id: nat, q: Peer<Q>)
    requires Sealed(eof, gone, eofId, nextId, ps) && id in ps && ps[id].bytes > 0 && (ps[id].closing ==> q.closing)
    ensures Sealed(eof, gone, eofId, nextId, ps[id := q])
  {
    var qs := ps[id := q];
    assert forall i | i in qs && i != id :: qs[i] == ps[i];
  }

  lemma SealedAccept<Q(!new)>(eof: bool, gone: bool, eofId: nat, nextId: nat, ps: map<nat, Peer<Q>>, empty: Q)
    requires Sealed(eof, gone, eofId, nextId, ps) && nextId !in ps
    ensures Sealed(eof, gone, eofId, nextId + 1, ps[nextId := Peer(empty, 0, false, false)])
  {
    var qs := ps[nextId := Peer(empty, 0, false, false)];
    assert forall i | i in qs && i != nextId :: qs[i] == ps[i];
  }

  /** Ids stay below the next one. */
  lemma Numbered<Q(!new)>(k: Kind<Q>, ps: map<nat, Peer<Q>>, total: nat, l: G.Log)
    requires Peering(k, ps, total, l)
    ensures forall id | id in ps :: id < l.nextId
  {
    forall id | id in ps ensures id < l.nextId { assert Tracked(k, id, ps[id], l); }
  }

  /** Once all is written out after the transport's end, exactly the streams accepted
      after it are left. */
  lemma LeftOpen<Q(!new)>(k: Kind<Q>, ps: map<nat, Peer<Q>>, l: G.Log, eofId: nat)
    requires Peering(k, ps, 0, l) && Sealed(true, false, eofId, l.nextId, ps) && NobodyWaits(ps)
    ensures AllGone(l) <==> l.nextId == eofId
  {
    forall id | id in ps ensures eofId <= id < l.nextId {
      assert Tracked(k, id, ps[id], l) && !Waiting(ps, id);
      NothingQueued(k, ps, l, id);
    }
    if l.nextId == eofId {
      forall id | id in l.streams ensures l.streams[id].phase.Gone? {
        assert G.InPeers(l, id) ==> id in ps;
      }
    } else {
      assert Tracked(k, eofId, ps[eofId], l);
    }
  }

  lemma ThinnedStep<Q(!new)>(was: map<nat, Peer<Q>>, ps: map<nat, Peer<Q>>, id: nat)
    requires Thinned(was, ps) && Waiting(ps, id)
    ensures Thinned(was, ps - {id}) && Waiting(was, id)
  {
  }

  lemma ThinnedNone<Q(!new)>(was: map<nat, Peer<Q>>, ps: map<nat, Peer<Q>>)
    requires Thinned(was, ps)
    ensures NobodyWaits(was) ==> ps == was
  {
    if NobodyWaits(was) {
      forall id | id in was ensures id in ps { assert !Waiting(was, id); }
    }
  }

  // ------------------------------------------------- the pass that reads the end

  /** n connections accepted one after the other. */
  function AfterAccepts(l: G.Log, n: nat): (m: G.Log)
    ensures m.nextId == l.nextId + n
  {
    if n == 0 then l else G.Do(AfterAccepts(l, n - 1), G.Accept)
  }

  /** The streams that run are exactly those from this id on. */
  predicate RunFrom(l: G.Log, id: nat) {
    && (forall i | i in l.streams && l.streams[i].phase.Running? :: id <= i)
    && (forall i | id <= i < l.nextId :: i in l.streams && l.streams[i].phase.Running?)
  }

  lemma RunFromAccept(l: G.Log, id: nat)
    requires RunFrom(l, id) && id <= l.nextId
    ensures RunFrom(G.Do(l, G.Accept), id)
  {
    var m := G.Do(l, G.Accept);
    assert forall i | i in m.streams && i != l.nextId :: i in l.streams && m.streams[i] == l.streams[i];
  }

  /** After a moment in which every stream was shut, exactly those accepted since run. */
  lemma {:induction false} AcceptsOpen(l: G.Log, n: nat)
    requires G.Quiet(l)
    ensures RunFrom(AfterAccepts(l, n), l.nextId)
  {
    if n > 0 {
      AcceptsOpen(l, n - 1);
      RunFromAccept(AfterAccepts(l, n - 1), l.nextId);
    }
  }

  /** Among the first n descriptors the listening socket stands behind the transport. */
  predicate ServerAfter(order: seq<Source>, n: nat)
    requires n <= |order|
  {
    exists q {:trigger LaneAmong(order, q)} | 0 <= q < n :: order[q].Server? && LaneAmong(order, q)
  }

  lemma ServerNext(order: seq<Source>, n: nat)
    requires n < |order|
    ensures ServerAfter(order, n + 1) <==> ServerAfter(order, n) || (order[n].Server? && LaneAmong(order, n))
  {
  }

  /** A pass over the first n ready descriptors, begun at `start`, read the transport's
      end when the log was `at`: every stream was shut then, and since then connections
      were accepted and nothing else happened; and only if the listening socket stood
      behind the transport and a connection waited. */
  ghost predicate EndPass(start: G.Log, at: G.Log, l: G.Log, w: World, n: nat)
    requires n <= |w.order|
  {
    && Reaches(start, at) && G.Quiet(at)
    && at.nextId <= l.nextId && l == AfterAccepts(at, l.nextId - at.nextId)
    && (at.nextId < l.nextId ==> w.connection && ServerAfter(w.order, n))
  }

  /** The next descriptor, with a connection accepted at it or without. */
  lemma EndPassNext(start: G.Log, at: G.Log, l: G.Log, w: World, n: nat)
    requires n < |w.order| && EndPass(start, at, l, w, n)
    ensures EndPass(start, at, l, w, n + 1)
    ensures w.connection && w.order[n].Server? && LaneAmong(w.order, n) ==>
              EndPass(start, at, G.Do(l, G.Accept), w, n + 1)
  {
    ServerNext(w.order, n);
    assert AfterAccepts(at, l.nextId + 1 - at.nextId) == G.Do(l, G.Accept);
  }

  lemma EndPassFrom(start: G.Log, acts: seq<G.Act>, mid: G.Log, at: G.Log, l: G.Log, w: World, n: nat)
    requires n <= |w.order| && G.DoAll(start, acts) == Some(mid) && EndPass(mid, at, l, w, n)
    ensures EndPass(start, at, l, w, n)
  {
    var more :| G.DoAll(mid, more) == Some(at);
    G.DoAppend(start, acts, mid, more);
  }

  /** The pass itself tells where that was: the streams it left open are those accepted
      after the end. */
  lemma EndPassOnce(start: G.Log, at: G.Log, at': G.Log, l: G.Log, w: World, n: nat)
    requires n <= |w.order| && EndPass(start, at, l, w, n) && EndPass(start, at', l, w, n)
    ensures at.nextId == at'.nextId && (G.Quiet(l) <==> at.nextId == l.nextId)
  {
    AcceptsOpen(at, l.nextId - at.nextId);
    AcceptsOpen(at', l.nextId - at'.nextId);
    assert at.nextId < l.nextId ==> at.nextId in l.streams;
    assert at'.nextId < l.nextId ==> at'.nextId in l.streams;
  }

  /** The end of the transport is there to be read in this turn: between frames, with
      the transport among the ready descriptors. */
  predicate Finds(w: World, l: G.Log) { EndReady(w) && l.scanned.place == Head([]) }

  predicate EndReady(w: World) { w.read.Eof? && !w.interrupted && LaneAmong(w.order, |w.order|) }

  /** The transport is the first to be read. */
  predicate EndLeads(w: World) { w.order != [] && w.order[0].Transport? }

  /** In turn k the transport's end was read: it was there for the first time, and the
      child had not exited. */
  ghost predicate EndTurn(worlds: seq<World>, logs: seq<G.Log>, k: nat) {
    && k < |worlds| && k < |logs| && Finds(worlds[k], logs[k]) && !ExitBy(worlds, k + 1)
    && forall j | 0 <= j < k :: !Finds(worlds[j], logs[j])
  }

  /** What is known of the end of the transport between turns. */
  ghost predicate EndNoted(eof: bool, at: G.Log, nextId: nat, worlds: seq<World>, logs: seq<G.Log>, end: nat)
    requires 0 < |logs| <= |worlds| + 1
  {
    if eof then
      && end < |logs| - 1 && EndTurn(worlds, logs, end) && logs[end + 1].nextId == nextId
      && EndPass(logs[end], at, logs[end + 1], worlds[end], |worlds[end].order|)
    else forall k | 0 <= k < |logs| - 1 && !ExitBy(worlds, k + 1) :: !Finds(worlds[k], logs[k])
  }

  /** Some later turns, whose ends are the logs behind the first `count`. */
  lemma EndNotedLater(at: G.Log, nextId: nat, worlds: seq<World>, logs: seq<G.Log>, end: nat, more: seq<G.Log>)
    requires 0 < |logs| <= |more| <= |worlds| + 1 && logs <= more && EndNoted(true, at, nextId, worlds, logs, end)
    ensures EndNoted(true, at, nextId, worlds, more, end)
  {
    assert more[end] == logs[end] && more[end + 1] == logs[end + 1];
    forall j | 0 <= j < end ensures !Finds(worlds[j], more[j]) { assert more[j] == logs[j]; }
  }

  /** One more turn, which ends with the log l: it reads the end exactly if the end is
      there and the child has not exited. */
  lemma EndNotedNext(eof: bool, at: G.Log, nextId: nat, worlds: seq<World>, logs: seq<G.Log>, end: nat, eof': bool,
                     at': G.Log, l: G.Log, gone: bool)
    returns (end': nat)
    requires 0 < |logs| <= |worlds| && EndNoted(eof, at, nextId, worlds, logs, end)
    requires gone <==> ExitBy(worlds, |logs|)
    requires eof' <==> eof || (Finds(worlds[|logs| - 1], logs[|logs| - 1]) && !gone)
    requires eof ==> at' == at && l.nextId == nextId
    requires !eof && eof' ==> EndPass(logs[|logs| - 1], at', l, worlds[|logs| - 1], |worlds[|logs| - 1].order|)
    ensures EndNoted(eof', at', l.nextId, worlds, logs + [l], end')
  {
    var i, more := |logs| - 1, logs + [l];
    end' := if eof then end else i;
    if eof {
      EndNotedLater(at, nextId, worlds, logs, end, more);
    } else {
      forall k | 0 <= k < i && !ExitBy(worlds, k + 1) ensures !Finds(worlds[k], more[k]) {
        assert more[k] == logs[k];
      }
      assert more[i] == logs[i] && more[i + 1] == l;
      if eof' {
        forall k | 0 <= k < i ensures !Finds(worlds[k], more[k]) { assert !ExitBy(worlds, k + 1); }
      }
    }
  }

  /** Which streams a drained end without the child's exit leaves open: those that the
      turn which read the transport's end (from log a to log b) accepted after it.  There
      are none if no connection waited in that turn, or if the listening socket did not
      stand behind the transport. */
  ghost predicate LeavesOpen(l: G.Log, at: G.Log, a: G.Log, b: G.Log, w: World) {
    && EndPass(a, at, b, w, |w.order|)
    && (AllGone(l) <==> b.nextId == at.nextId) && (AllGone(l) <==> G.Quiet(b))
    && (!w.connection || !ServerAfter(w.order, |w.order|) ==> AllGone(l))
  }

  /** Which streams a drained run without the child's exit leaves open, in terms of the
      turn that read the transport's end; there was one. */
  ghost predicate Decided(l: G.Log, at: G.Log, worlds: seq<World>, logs: seq<G.Log>) {
    && |logs| <= |worlds| + 1 && (exists k | 0 <= k < |logs| - 1 :: EndTurn(worlds, logs, k))
    && (forall k | 0 <= k < |logs| - 1 && EndTurn(worlds, logs, k) ::
          LeavesOpen(l, at, logs[k], logs[k + 1], worlds[k]))
  }

  lemma EndDecides(l: G.Log, at: G.Log, worlds: seq<World>, logs: seq<G.Log>, end: nat)
    requires 0 < |logs| <= |worlds| + 1 && EndNoted(true, at, l.nextId, worlds, logs, end)
    requires AllGone(l) <==> l.nextId == at.nextId
    ensures Decided(l, at, worlds, logs)
  {
    assert EndTurn(worlds, logs, end);
    forall k | 0 <= k < |logs| - 1 && EndTurn(worlds, logs, k)
      ensures LeavesOpen(l, at, logs[k], logs[k + 1], worlds[k])
    {
      assert k == end;
      EndPassOnce(logs[k], at, at, logs[k + 1], worlds[k], |worlds[k].order|);
    }
  }

  // ------------------------------------------------------------------ whole runs

  ghost predicate AllGone(l: G.Log) { forall id | id in l.streams :: l.streams[id].phase.Gone? }

  ghost predicate Reaches(l: G.Log, m: G.Log) { exists acts :: G.DoAll(l, acts) == Some(m) }

  /** The logs after each of at most `turns` turns, from the start. */
  ghost predicate IsHistory(logs: seq<G.Log>, turns: nat) {
    && 0 < |logs| <= turns + 1 && logs[0] == G.EMPTY
    && forall i | 0 <= i < |logs| - 1 :: Reaches(logs[i], logs[i + 1])
  }

  lemma ExtendHistory(logs: seq<G.Log>, turns: nat, acts: seq<G.Act>, l: G.Log)
    requires IsHistory(logs, turns) && |logs| <= turns && G.DoAll(logs[|logs| - 1], acts) == Some(l)
    ensures IsHistory(logs + [l], turns)
  {
    var more := logs + [l];
    assert Reaches(logs[|logs| - 1], l);
    forall i | 0 <= i < |more| - 1 ensures Reaches(more[i], more[i + 1]) {
      if i < |logs| - 1 { assert Reaches(logs[i], logs[i + 1]); }
    }
  }

  /** With nothing charged, every stream was given all that was accepted for it. */
  lemma AllWritten<Q(!new)>(k: Kind<Q>, ps: map<nat, Peer<Q>>, l: G.Log)
    requires Peering(k, ps, 0, l) && G.Inv(l)
    ensures forall id | id in l.streams :: G.Drained(l.streams[id])
  {
    forall id | id in l.streams ensures G.Drained(l.streams[id]) {
      assert G.StreamOk(id, l.streams[id], l.scanned.events, l.sent);
      if G.InPeers(l, id) { NothingQueued(k, ps, l, id); }
    }
  }

  /** The child was reaped in one of the first n turns. */
  predicate ExitBy(worlds: seq<World>, n: nat)
    requires n <= |worlds|
  {
    exists i | 0 <= i < n :: worlds[i].childGone
  }

  lemma ExitNext(worlds: seq<World>, n: nat)
    requires n < |worlds|
    ensures ExitBy(worlds, n + 1) <==> ExitBy(worlds, n) || worlds[n].childGone
  {
  }

  /** The transport is among the first n descriptors. */
  predicate LaneAmong(targets: seq<Source>, n: nat)
    requires n <= |targets|
  {
    exists i | 0 <= i < n :: targets[i].Transport?
  }

  lemma LaneNext(targets: seq<Source>, n: nat)
    requires n < |targets|
    ensures LaneAmong(targets, n + 1) <==> LaneAmong(targets, n) || targets[n].Transport?
    ensures Transport in targets ==> LaneAmong(targets, |targets|)
  {
  }
}
