/** The stdio guest relay: the Perl program embedded in src/container_sessions.rs
    by guest_relay_perl.  Unlike the published-socket relay it charges whole chunks
    until they are written out, keeps no chunk past a deadline, and on the child's
    exit owes every stream a CLOSE. */
module StdioRelay {
  import opened Basics
  import opened Wire
  import opened Outcomes
  import opened Lanes
  import opened Queues
  import opened Keys
  import opened Roster
  import G = GuestLog

  const OUTPUT_LIMIT := 256 * 1024
  const CHUNKS_LIMIT := 256
  const DEADLINE := 10_000
  const IDLE_WAIT := 250

  function PendingOf(q: seq<Chunk>): seq<Byte> { Pending(q) }

  /** A peer's queue: charged exactly, within both limits. */
  ghost predicate QueueOk(q: seq<Chunk>, bytes: nat) { Buffer(q, bytes, PEER_LIMIT, CHUNKS_LIMIT).Valid() }

  ghost const KIND := Kind(PendingOf, QueueOk, [])

  lemma KindSound()
    ensures KIND.Sound()
  {
    forall q | QueueOk(q, 0) ensures PendingOf(q) == [] { ChargeBound(q, 0); }
  }

  lemma ChargeBound(q: seq<Chunk>, bytes: nat)
    requires Orderly(q) && bytes == Charged(q)
    ensures bytes == 0 <==> q == []
    ensures q == [] ==> Pending(q) == []
  {
    if q != [] {
      assert q == [q[0]] + q[1..];
      PendingFront(q[0], q[1..]);
    }
  }

  ghost predicate Sending(out: seq<Chunk>, bytes: nat, l: G.Log) {
    Buffer(out, bytes, OUTPUT_LIMIT, CHUNKS_LIMIT).Valid() && l.wire + Pending(out) == l.encoded
  }

  lemma Flushed(out: seq<Chunk>, l: G.Log)
    requires Sending(out, 0, l)
    ensures l.wire == l.encoded
  {
    ChargeBound(out, 0);
    Unit(l.wire);
  }

  /** n bytes of the front frame written to the transport. */
  lemma WriteSending(out: seq<Chunk>, bytes: nat, l: G.Log, n: nat)
    requires Sending(out, bytes, l) && out != [] && 0 < n <= |Rest(out[0])|
    ensures Released(out, n) <= bytes && G.Can(l, G.WriteWire(n))
    ensures var m := G.Do(l, G.WriteWire(n));
            m.scanned == l.scanned && m.nextId == l.nextId && Sending(Advanced(out, n), bytes - Released(out, n), m)
  {
    AdvanceKeeps(out, n);
    Advance(l.wire, Pending(out), Rest(out[0])[..n], Pending(Advanced(out, n)), l.encoded);
  }

  /** One frame at the end of the return lane. */
  lemma PushSending(out: seq<Chunk>, bytes: nat, l: G.Log, f: Frame, now: int, m: G.Log)
    requires Sending(out, bytes, l) && bytes + |Encoded(f)| <= OUTPUT_LIMIT && |out| < CHUNKS_LIMIT
    requires m.wire == l.wire && m.encoded == l.encoded + Encoded(f)
    ensures Sending(out + [Chunk(Encoded(f), 0, now)], bytes + |Encoded(f)|, m)
  {
    PushKeeps(Buffer(out, bytes, OUTPUT_LIMIT, CHUNKS_LIMIT), Encoded(f), now);
    Reassociate(l.wire, Pending(out), Encoded(f));
  }

  /** Payload for a peer that is not closing. */
  lemma AppendPeering(ps: map<nat, Peer<seq<Chunk>>>, total: nat, l: G.Log, id: nat, data: seq<Byte>, now: int)
    requires Peering(KIND, ps, total, l) && id in ps && !ps[id].closing && G.Can(l, G.TakeData(id, data))
    requires 0 < |data| && |ps[id].queue| < CHUNKS_LIMIT
    requires ps[id].bytes + |data| <= PEER_LIMIT && total + |data| <= INPUT_LIMIT
    ensures Peering(KIND,
                    ps[id := ps[id].(queue := ps[id].queue + [Chunk(data, 0, now)], bytes := ps[id].bytes + |data|)],
                    total + |data|, G.Do(l, G.TakeData(id, data)))
  {
    assert Tracked(KIND, id, ps[id], l);
    PushKeeps(Buffer(ps[id].queue, ps[id].bytes, PEER_LIMIT, CHUNKS_LIMIT), data, now);
    Append(KIND, ps, total, l, id, data, ps[id].queue + [Chunk(data, 0, now)]);
  }

  /** n bytes of the front chunk written to a local socket. */
  lemma WritePeering(ps: map<nat, Peer<seq<Chunk>>>, total: nat, l: G.Log, id: nat, n: nat, released: nat)
    requires Peering(KIND, ps, total, l) && id in ps && ps[id].queue != [] && 0 < n <= |Rest(ps[id].queue[0])|
    requires released == Released(ps[id].queue, n)
    ensures released <= ps[id].bytes && released <= total && G.Can(l, G.WritePeer(id, n))
    ensures SameRest(l, G.Do(l, G.WritePeer(id, n)))
    ensures Peering(KIND, ps[id := ps[id].(queue := Advanced(ps[id].queue, n), bytes := ps[id].bytes - released)],
                    total - released, G.Do(l, G.WritePeer(id, n)))
  {
    var p := ps[id];
    assert Tracked(KIND, id, p, l);
    AdvanceKeeps(p.queue, n);
    Written(KIND, ps, total, l, id, Rest(p.queue[0])[..n], Advanced(p.queue, n), p.bytes - released, total - released);
  }

  lemma QueueCharged(ps: map<nat, Peer<seq<Chunk>>>, total: nat, l: G.Log, id: nat)
    requires Peering(KIND, ps, total, l) && id in ps && ps[id].bytes > 0
    ensures ps[id].queue != [] && 0 < |Rest(ps[id].queue[0])|
  {
    assert Tracked(KIND, id, ps[id], l);
    ChargeBound(ps[id].queue, ps[id].bytes);
  }

  /** A chunk that has waited too long. */
  predicate Stale(q: seq<Chunk>, now: int) { q != [] && q[0].queued + DEADLINE <= now }

  function Shorter(wait: int, remaining: int): int { if remaining < wait then remaining else wait }

  class StdioRelay {
    var peers: map<nat, Peer<seq<Chunk>>>
    var nextId: nat
    var output: seq<Chunk>
    var outputBytes: nat
    var inputBytes: nat
    var header: seq<Byte>
    var incoming: Option<Incoming>
    var frameStarted: Option<int>
    var transportEof: bool
    var childExited: bool
    ghost var present: set<nat>
    ghost var atEnd: G.Log // when the transport's end was read
    ghost var log: G.Log

    ghost predicate Valid()
      reads this
    {
      && Sending(output, outputBytes, log)
      && Peering(KIND, peers, inputBytes, log)
      && Framed(header, incoming, log)
      && nextId == log.nextId
      && (frameStarted.Some? <==> header != [] || incoming.Some?)
    }

    constructor ()
      ensures Valid() && log == G.EMPTY && peers == map[] && !transportEof && !childExited && present == {}
      ensures output == [] && outputBytes == 0 && inputBytes == 0 && header == [] && incoming == None
    {
      peers, nextId := map[], 1;
      output, outputBytes, inputBytes := [], 0, 0;
      header, incoming, transportEof, childExited := [], None, false, false;
      frameStarted, present, atEnd, log := None, {}, G.EMPTY, G.EMPTY;
      new;
      KindSound();
    }

    /** The limits hold in every valid state, and the counters are exact sums. */
    lemma ResourceBounds(id: nat)
      requires Valid()
      ensures |peers| <= MAX_PEERS && inputBytes == Total(peers, SizeOf) <= INPUT_LIMIT
      ensures outputBytes == Charged(output) <= OUTPUT_LIMIT && |output| <= CHUNKS_LIMIT
      ensures id in peers ==>
                peers[id].bytes == Charged(peers[id].queue) <= PEER_LIMIT && |peers[id].queue| <= CHUNKS_LIMIT
    {
      assert id in peers ==> Tracked(KIND, id, peers[id], log);
    }

    /** The transport is not read for want of room where its bytes must go. */
    predicate Paused()
      requires |header| < HEADER
      reads this
    {
      || Wanted(peers, inputBytes, header, incoming) <= 0
      || (incoming.Some? && !Slots(incoming.value.id))
    }

    /** Then some local socket has bytes queued, and so is watched for writing; the
        return lane plays no part. */
    lemma PausedOnLocal() returns (id: nat)
      requires Valid() && Paused()
      ensures id in peers && peers[id].bytes > 0 && forall polled :: id in Armed(polled)
    {
      id := incoming.value.id;
      assert Tracked(KIND, id, peers[id], log);
      ChargeBound(peers[id].queue, peers[id].bytes);
      if peers[id].bytes == 0 {
        id := TotalPositive(peers, SizeOf);
      }
    }

    // ------------------------------------------------------ opening and closing

    /** send_frame, for the step that owes it: the limits it would die on are its
        precondition. */
    method SendFrame(f: Frame, now: int, ghost m: G.Log)
      requires Sending(output, outputBytes, log) && m.wire == log.wire && m.encoded == log.encoded + Encoded(f)
      requires outputBytes + |Encoded(f)| <= OUTPUT_LIMIT && |output| < CHUNKS_LIMIT
      modifies this`output, this`outputBytes
      ensures Sending(output, outputBytes, m) && outputBytes == old(outputBytes) + |Encoded(f)|
      ensures output == old(output) + [Chunk(Encoded(f), 0, now)]
    {
      PushSending(output, outputBytes, log, f, now, m);
      output := output + [Chunk(Encoded(f), 0, now)];
      outputBytes := outputBytes + |Encoded(f)|;
    }

    method ClosingPeer(id: nat, notify: bool, discard: bool)
      requires Valid() && id in peers
      modifies this`peers, this`inputBytes, this`log
      ensures G.Can(old(log), G.BeginClose(id, notify, discard))
      ensures log == G.Do(old(log), G.BeginClose(id, notify, discard))
      ensures Valid() && peers == old(peers)[id := old(peers)[id].Shut(notify, discard, KIND.empty)]
      ensures !discard ==> inputBytes == old(inputBytes)
    {
      var p := peers[id];
      var q := p.(closing := true, notify := p.notify || notify);
      var total := inputBytes;
      if discard {
        total := total - p.bytes;
        q := q.(bytes := 0, queue := []);
      }
      Closing(KIND, peers, inputBytes, log, id, notify, discard, total);
      Reseat(peers[id := q], total, G.Do(log, G.BeginClose(id, notify, discard)));
    }

    /** The peers after the step that takes the log to m. */
    method Reseat(ps: map<nat, Peer<seq<Chunk>>>, total: nat, ghost m: G.Log)
      requires Valid() && Peering(KIND, ps, total, m) && SameRest(log, m)
      modifies this`peers, this`inputBytes, this`log
      ensures Valid() && log == m && peers == ps && inputBytes == total
    {
      inputBytes := total;
      peers := ps;
      log := m;
    }

    /** Whether a CLOSE or OPEN frame can be queued now. */
    predicate HasRoom()
      reads this
    {
      outputBytes + HEADER <= OUTPUT_LIMIT && |output| < CHUNKS_LIMIT
    }

    method RetireOne(id: nat, now: int)
      requires Valid() && id in peers && peers[id].Finished() && (peers[id].notify ==> HasRoom())
      modifies this`peers, this`output, this`outputBytes, this`log
      ensures G.Can(old(log), G.Retire(id)) && log == G.Do(old(log), G.Retire(id))
      ensures Valid() && peers == old(peers) - {id} && old(outputBytes) <= outputBytes
    {
      Retire(KIND, peers, inputBytes, log, id);
      ghost var m := G.Do(log, G.Retire(id));
      if peers[id].notify {
        SendFrame(Close(id), now, m);
      }
      peers := peers - {id};
      log := m;
    }

    /** The retirement of one id: a finished peer is kept only if the
        CLOSE it is owed has no room. */
    method RetireIfFinished(id: nat, now: int, ghost start: G.Log, ghost was: seq<G.Act>,
                            ghost from: map<nat, Peer<seq<Chunk>>>)
      returns (ghost acts: seq<G.Act>)
      requires Valid() && G.DoAll(start, was) == Some(log) && Thinned(from, peers)
      modifies this`peers, this`output, this`outputBytes, this`log
      ensures Valid() && G.DoAll(start, acts) == Some(log)
      ensures Thinned(from, peers) && (peers == old(peers) || peers == old(peers) - {id})
      ensures outputBytes == 0 ==> old(outputBytes) == 0 && !Waiting(peers, id)
      ensures NobodyWaits(from) ==> output == old(output) && outputBytes == old(outputBytes) && log == old(log)
    {
      acts := was;
      if Waiting(peers, id) {
        ThinnedStep(from, peers, id);
        if peers[id].notify && !HasRoom() {
          ChargeBound(output, outputBytes);
        } else {
          RetireOne(id, now);
          G.DoSnoc(start, was, old(log), G.Retire(id));
          acts := acts + [G.Retire(id)];
        }
      }
    }

    /** The retirement pass: afterwards a finished peer is left only for want of room. */
    method RetirePeers(now: int) returns (ghost acts: seq<G.Act>)
      requires Valid()
      modifies this`peers, this`output, this`outputBytes, this`log
      ensures G.DoAll(old(log), acts) == Some(log)
      ensures Valid()
      ensures outputBytes == 0 ==> NobodyWaits(peers)
      ensures Thinned(old(peers), peers)
      ensures NobodyWaits(old(peers)) ==> output == old(output) && outputBytes == old(outputBytes) && log == old(log)
    {
      acts := [];
      var left := peers.Keys;
      while left != {}
        invariant Valid() && G.DoAll(old(log), acts) == Some(log)
        invariant outputBytes == 0 ==> forall id :: Waiting(peers, id) ==> id in left
        invariant Thinned(old(peers), peers)
        invariant NobodyWaits(old(peers)) ==>
                    output == old(output) && outputBytes == old(outputBytes) && log == old(log)
        decreases |left|
      {
        var id := Smallest(left);
        acts := RetireIfFinished(id, now, old(log), acts, old(peers));
        left := left - {id};
      }
    }

    /** A waiting local connection, if there is room to announce it. */
    method AcceptPeer(now: int)
      requires Valid() && |peers| < MAX_PEERS && HasRoom()
      modifies this`peers, this`nextId, this`output, this`outputBytes, this`log
      ensures G.Can(old(log), G.Accept) && log == G.Do(old(log), G.Accept)
      ensures Valid() && nextId == old(nextId) + 1 && old(nextId) !in old(peers)
      ensures peers == old(peers)[old(nextId) := Peer([], 0, false, false)]
      ensures outputBytes == old(outputBytes) + HEADER
      ensures output == old(output) + [Chunk(Encoded(Open(old(nextId))), 0, now)]
    {
      Accept(KIND, peers, inputBytes, log);
      ghost var m := G.Do(log, G.Accept);
      var id := nextId;
      SendFrame(Open(id), now, m);
      Admit(peers[id := Peer([], 0, false, false)], m);
    }

    /** A new entry under the next id, with the step that takes the log to m. */
    method Admit(ps: map<nat, Peer<seq<Chunk>>>, ghost m: G.Log)
      requires Sending(output, outputBytes, m) && Peering(KIND, ps, inputBytes, m) && Framed(header, incoming, m)
      requires m.nextId == nextId + 1 && (frameStarted.Some? <==> header != [] || incoming.Some?)
      modifies this`peers, this`nextId, this`log
      ensures Valid() && log == m && peers == ps && nextId == old(nextId) + 1
    {
      nextId := nextId + 1;
      peers := ps;
      log := m;
    }

    /** closing_peer($_, notify, 0) for every peer. */
    method CloseAll(notify: bool) returns (ghost acts: seq<G.Act>)
      requires Valid()
      modifies this`peers, this`inputBytes, this`log
      ensures G.DoAll(old(log), acts) == Some(log)
      ensures Valid() && peers.Keys == old(peers).Keys
      ensures forall id | id in peers :: peers[id].closing && (notify ==> peers[id].notify)
      ensures inputBytes == old(inputBytes)
    {
      acts := [];
      var left := peers.Keys;
      while left != {}
        invariant Valid() && G.DoAll(old(log), acts) == Some(log)
        invariant left <= peers.Keys == old(peers).Keys && inputBytes == old(inputBytes)
        invariant forall id | id in peers && id !in left :: peers[id].closing && (notify ==> peers[id].notify)
        decreases |left|
      {
        var id := Smallest(left);
        ghost var mid := log;
        ClosingPeer(id, notify, false);
        G.DoSnoc(old(log), acts, mid, G.BeginClose(id, notify, false));
        acts := acts + [G.BeginClose(id, notify, false)];
        left := left - {id};
      }
    }

    // --------------------------------------------------------------- the transport

    /** The peer of the current DATA frame, if any takes it, has a chunk slot left. */
    predicate Slots(id: nat)
      reads this
    {
      id in peers && !peers[id].closing ==> |peers[id].queue| < CHUNKS_LIMIT
    }

    /** Payload bytes to their peer's queue, or dropped. */
    method Enqueue(id: nat, data: seq<Byte>, now: int)
      requires Peering(KIND, peers, inputBytes, log) && G.Can(log, G.TakeData(id, data))
      requires 0 < |data| <= Space(peers, inputBytes, id, |data|) && Slots(id)
      modifies this`peers, this`inputBytes
      ensures Peering(KIND, peers, inputBytes, G.Do(log, G.TakeData(id, data)))
    {
      if id in peers && !peers[id].closing {
        AppendPeering(peers, inputBytes, log, id, data, now);
        var p := peers[id];
        inputBytes := inputBytes + |data|;
        peers := peers[id := p.(queue := p.queue + [Chunk(data, 0, now)], bytes := p.bytes + |data|)];
      } else {
        Drop(KIND, peers, inputBytes, log, id, data);
      }
    }

    method TakePayload(data: seq<Byte>, now: int)
      requires Valid() && incoming.Some? && 0 < |data| <= incoming.value.left && Slots(incoming.value.id)
      requires |data| <= Space(peers, inputBytes, incoming.value.id, |data|)
      modifies this`peers, this`inputBytes, this`header, this`incoming, this`frameStarted, this`log
      ensures var a := G.TakeData(old(incoming).value.id, data); G.Can(old(log), a) && log == G.Do(old(log), a)
      ensures Valid()
    {
      var id, left := incoming.value.id, incoming.value.left;
      PayloadSays(log, incoming.value, data);
      Enqueue(id, data, now);
      incoming := Expected(id, left - |data|);
      Proceed([], now, G.Do(log, G.TakeData(id, data)));
    }

    /** A frame's clock runs from its first byte to its last. */
    method NoteFrame(now: int)
      modifies this`frameStarted
      ensures frameStarted.Some? <==> header != [] || incoming.Some?
      ensures frameStarted.Some? && old(frameStarted).Some? ==> frameStarted == old(frameStarted)
    {
      if header == [] && incoming.None? {
        frameStarted := None;
      } else if frameStarted.None? {
        frameStarted := Some(now);
      }
    }

    /** What a complete header asks for. */
    method Obey(said: Said, data: seq<Byte>)
      requires Peering(KIND, peers, inputBytes, log) && incoming.None? && G.Can(log, StepOf(said, data))
      modifies this`peers, this`incoming
      ensures Peering(KIND, peers, inputBytes, G.Do(log, StepOf(said, data)))
      ensures incoming == IncomingAfter(said)
    {
      match said
      case CloseOf(id) =>
        HostClose(KIND, peers, inputBytes, log, id, data);
        if id in peers {
          peers := peers[id := peers[id].(closing := true)];
        }
      case DataOf(id, length) =>
        Idle(KIND, peers, inputBytes, log, G.Do(log, StepOf(said, data)));
        incoming := Expected(id, length);
      case _ =>
        Idle(KIND, peers, inputBytes, log, G.Do(log, StepOf(said, data)));
    }

    /** Header bytes; a complete header is acted on at once. */
    method TakeHeader(data: seq<Byte>, now: int) returns (ok: bool, ghost acts: seq<G.Act>)
      requires Valid() && incoming.None? && 0 < |data| <= HEADER - |header|
      modifies this`peers, this`header, this`incoming, this`frameStarted, this`log
      ensures G.DoAll(old(log), acts) == Some(log)
      ensures ok ==> Valid() && log.consumed == old(log).consumed + data
      ensures !ok ==> log == old(log) && ScanFrom(false, old(log).scanned, data).place.Bad?
    {
      var said := Says(header + data);
      HeaderSays(log, header, data, said);
      ok, acts := !said.Invalid?, [];
      if said.Invalid? {
        return;
      }
      acts := [StepOf(said, data)];
      G.DoOne(log, acts[0]);
      Obey(said, data);
      Proceed(HeaderAfter(said, header, data), now, G.Do(log, StepOf(said, data)));
    }

    /** The parser goes on from the step that takes the log to m. */
    method Proceed(rest: seq<Byte>, now: int, ghost m: G.Log)
      requires Sending(output, outputBytes, log) && nextId == log.nextId && SameSent(log, m)
      requires Peering(KIND, peers, inputBytes, m) && Framed(rest, incoming, m)
      modifies this`header, this`frameStarted, this`log
      ensures Valid() && log == m
    {
      header := rest;
      NoteFrame(now);
      log := m;
    }

    /** The transport's end, between frames: every peer begins to close. */
    method EndTransport() returns (ghost acts: seq<G.Act>)
      requires Valid()
      modifies this`peers, this`inputBytes, this`transportEof, this`atEnd, this`log
      ensures G.DoAll(old(log), acts) == Some(log)
      ensures Valid() && transportEof && atEnd == log && G.Quiet(log) && forall id | id in peers :: peers[id].closing
      ensures peers.Keys == old(peers).Keys && inputBytes == old(inputBytes)
    {
      transportEof := true;
      acts := CloseAll(false);
      AllShut(KIND, peers, inputBytes, log);
      atEnd := log;
    }

    /** One read of the transport.  A frame is refused only for its own bytes. */
    method ReadTransport(o: ReadOutcome, now: int) returns (r: Turn, ghost acts: seq<G.Act>, ghost taken: seq<Byte>)
      requires Valid() && !transportEof
      modifies this`peers, this`inputBytes, this`header, this`incoming, this`frameStarted, this`transportEof,
          this`atEnd, this`log
      ensures G.DoAll(old(log), acts) == Some(log)
      ensures taken <= Offered(o)
      ensures r.Again? ==> Valid()
      ensures !r.Again? ==> r.Failed? && log == old(log)
      ensures r == Failed(BadHeader) ==> ScanFrom(false, log.scanned, taken).place.Bad?
      ensures r.Failed? ==>
                || (r.cause == BadHeader && o.Avail?)
                || (r.cause == BadRead && (o.ReadFailed? || (o.Eof? && !(old(header) == [] && old(incoming).None?))))
      ensures r.Again? ==> (transportEof <==> o.Eof? && old(header) == [] && old(incoming).None?)
      ensures o.Eof? && old(header) == [] && old(incoming).None? ==> r.Again?
      ensures r.Again? && transportEof ==> atEnd == log && G.Quiet(log) && forall id | id in peers :: peers[id].closing
      ensures r.Again? && o.Eof? ==> header == old(header) && incoming == old(incoming)
      ensures r.Again? && o.Eof? ==> peers.Keys == old(peers).Keys && inputBytes == old(inputBytes)
    {
      r, acts, taken := Again, [], [];
      if Paused() {
        return;
      }
      var size := Wanted(peers, inputBytes, header, incoming);
      match o
      case ReadBlocked =>
      case ReadFailed => r := Failed(BadRead);
      case Eof =>
        if header != [] || incoming.Some? {
          r := Failed(BadRead);
        } else {
          acts := EndTransport();
        }
      case Avail(_, _) =>
        var data := Got(o, size);
        taken := data;
        if incoming.None? {
          var ok;
          ok, acts := TakeHeader(data, now);
          r := if ok then Again else Failed(BadHeader);
        } else {
          acts := [G.TakeData(incoming.value.id, data)];
          TakePayload(data, now);
          G.DoOne(old(log), acts[0]);
        }
    }

    // ---------------------------------------------------------- writes and reads

    /** The return lane after the step that takes the log to m. */
    method Adopt(out: seq<Chunk>, bytes: nat, ghost m: G.Log)
      requires Valid() && Sending(out, bytes, m) && Peering(KIND, peers, inputBytes, m)
      requires m.scanned == log.scanned && m.nextId == log.nextId
      modifies this`output, this`outputBytes, this`log
      ensures Valid() && log == m && output == out && outputBytes == bytes
    {
      outputBytes := bytes;
      output := out;
      log := m;
    }

    method Emit(n: nat)
      requires Valid() && output != [] && 0 < n <= |Rest(output[0])|
      modifies this`output, this`outputBytes, this`log
      ensures G.Can(old(log), G.WriteWire(n)) && log == G.Do(old(log), G.WriteWire(n))
      ensures Valid() && outputBytes == old(outputBytes) - Released(old(output), n)
    {
      WriteSending(output, outputBytes, log, n);
      ghost var m := G.Do(log, G.WriteWire(n));
      Idle(KIND, peers, inputBytes, log, m);
      Adopt(Advanced(output, n), outputBytes - Released(output, n), m);
    }

    /** How much of the front chunk one write offers. */
    function Offer(q: seq<Chunk>): nat
      requires q != []
    {
      if |Rest(q[0])| > CHUNK then CHUNK else |Rest(q[0])|
    }

    /** What stays charged after one write. */
    function StillCharged(q: seq<Chunk>, bytes: nat, o: WriteOutcome): int
      requires q != []
    {
      var n := Count(o, Offer(q));
      if n == 0 then bytes else bytes - Released(q, n)
    }

    method WriteTransport(o: WriteOutcome) returns (ok: bool, ghost acts: seq<G.Act>)
      requires Valid() && output != []
      modifies this`output, this`outputBytes, this`log
      ensures G.DoAll(old(log), acts) == Some(log)
      ensures Valid() && (ok <==> !Fails(o))
      ensures outputBytes == StillCharged(old(output), old(outputBytes), o)
      ensures ok && o.Wrote? ==> |old(log).wire| < |log.wire|
      ensures |old(log).wire| <= |log.wire| && log.encoded == old(log).encoded
    {
      acts := [];
      var n := Count(o, Offer(output));
      ok := o.WriteBlocked? || n > 0;
      if n > 0 {
        Emit(n);
        acts := [G.WriteWire(n)];
        G.DoOne(old(log), acts[0]);
      }
    }

    method Drain(id: nat, n: nat)
      requires Valid() && id in peers && peers[id].queue != [] && 0 < n <= |Rest(peers[id].queue[0])|
      modifies this`peers, this`inputBytes, this`log
      ensures G.Can(old(log), G.WritePeer(id, n)) && log == G.Do(old(log), G.WritePeer(id, n))
      ensures Valid() && peers.Keys == old(peers).Keys && peers == old(peers)[id := peers[id]]
      ensures peers[id].closing == old(peers)[id].closing
    {
      var p := peers[id];
      var released := Released(p.queue, n);
      WritePeering(peers, inputBytes, log, id, n, released);
      Reseat(peers[id := p.(queue := Advanced(p.queue, n), bytes := p.bytes - released)], inputBytes - released,
             G.Do(log, G.WritePeer(id, n)));
    }

    /** One write to a local socket; a failure closes the stream and drops its
        queue. */
    method WritePeer(id: nat, o: WriteOutcome) returns (ghost acts: seq<G.Act>)
      requires Valid() && id in peers && peers[id].bytes > 0
      modifies this`peers, this`inputBytes, this`log
      ensures G.DoAll(old(log), acts) == Some(log)
      ensures Valid()
      ensures o.WriteBlocked? ==> acts == []
      ensures (o.WriteFailed? || o == Wrote(0)) ==> acts == [G.BeginClose(id, true, true)]
      ensures o.Wrote? && o.count > 0 ==> exists n | 0 < n <= o.count :: acts == [G.WritePeer(id, n)]
      ensures peers.Keys == old(peers).Keys && peers == old(peers)[id := peers[id]]
      ensures (old(peers)[id].closing ==> peers[id].closing)
      ensures log.wire == old(log).wire && log.encoded == old(log).encoded
    {
      acts := [];
      assert peers[id := peers[id]] == peers;
      if o.WriteBlocked? {
        return;
      }
      QueueCharged(peers, inputBytes, log, id);
      var n := Count(o, Offer(peers[id].queue));
      if n == 0 {
        ClosingPeer(id, true, true);
        acts := [G.BeginClose(id, true, true)];
      } else {
        Drain(id, n);
        acts := [G.WritePeer(id, n)];
      }
      G.DoOne(old(log), acts[0]);
    }

    method SendData(id: nat, data: seq<Byte>, now: int)
      requires Valid() && id in peers && !peers[id].closing && 0 < |data| <= CHUNK
      requires outputBytes + |data| + HEADER <= OUTPUT_LIMIT && |output| < CHUNKS_LIMIT
      modifies this`output, this`outputBytes, this`log
      ensures G.Can(old(log), G.ReadPeer(id, data)) && log == G.Do(old(log), G.ReadPeer(id, data))
      ensures Valid()
    {
      ReadFrom(KIND, peers, inputBytes, log, id, data);
      ghost var m := G.Do(log, G.ReadPeer(id, data));
      SendFrame(Data(id, data), now, m);
      log := m;
    }

    /** peer_read_size: what one DATA frame may carry now. */
    function PeerReadSize(): (r: nat)
      reads this
      ensures r <= CHUNK && (r > 0 ==> outputBytes + HEADER + r <= OUTPUT_LIMIT && |output| < CHUNKS_LIMIT)
    {
      var size := OUTPUT_LIMIT - outputBytes - HEADER;
      if |output| >= CHUNKS_LIMIT || size <= 0 then 0 else if size < CHUNK then size else CHUNK
    }

    /** One read of a local socket into a frame that fits the return lane. */
    method ReadPeer(id: nat, o: ReadOutcome, now: int) returns (ghost acts: seq<G.Act>)
      requires Valid() && id in peers && !peers[id].closing && PeerReadSize() > 0
      modifies this`peers, this`inputBytes, this`output, this`outputBytes, this`log
      ensures G.DoAll(old(log), acts) == Some(log)
      ensures Valid()
      ensures o.ReadBlocked? ==> acts == []
      ensures o.Eof? || o.ReadFailed? ==> acts == [G.BeginClose(id, true, false)]
      ensures o.Avail? ==> acts == [G.ReadPeer(id, Got(o, old(PeerReadSize())))]
    {
      acts := [];
      match o
      case ReadBlocked =>
      case Avail(_, _) =>
        var data := Got(o, PeerReadSize());
        SendData(id, data, now);
        acts := [G.ReadPeer(id, data)];
        G.DoOne(old(log), acts[0]);
      case _ =>
        ClosingPeer(id, true, false);
        acts := [G.BeginClose(id, true, false)];
        G.DoOne(old(log), acts[0]);
    }

    // -------------------------------------------------------------------- the loop

    /** A local socket may be read: it is open and the return lane has room. */
    predicate Readable(id: nat)
      reads this
    {
      id in peers && !peers[id].closing && PeerReadSize() > 0
    }

    ghost predicate SealedNow()
      reads this
    {
      Sealed(transportEof, childExited, atEnd.nextId, nextId, peers) && (transportEof ==> Between())
    }

    /** The ids poll was asked about: none of them was accepted after the transport's
        end. */
    ghost predicate Watched(armed: set<nat>)
      reads this
    {
      forall id | id in armed :: id < nextId && (transportEof && !childExited ==> id < atEnd.nextId)
    }

    /** The return lane is as it was. */
    predicate SameLane(out: seq<Chunk>, bytes: nat)
      reads this
    {
      output == out && outputBytes == bytes
    }

    /** The parser is between two frames. */
    predicate Between()
      reads this
    {
      header == [] && incoming.None?
    }

    /** No connection can be taken now. */
    predicate Full()
      reads this
    {
      |peers| >= MAX_PEERS || !HasRoom()
    }

    /** Where a pass over ready descriptors has come to after the first n of them: if the
        transport's end was among what it read (it was `between` frames before), the log
        tells when; and if no connection was taken since although one waited, there is no
        room for it. */
    ghost predicate Passed(start: G.Log, between: bool, w: World, n: nat)
      requires n <= |w.order|
      reads this
    {
      && (transportEof <==> between && w.read.Eof? && LaneAmong(w.order, n))
      && (w.read.Eof? ==> between == (header == [] && incoming.None?))
      && (transportEof ==> EndPass(start, atEnd, log, w, n))
      && (transportEof && nextId == atEnd.nextId && w.connection && ServerAfter(w.order, n) ==> Full())
    }

    /** A connection taken during a pass: the transport's end, if it was read, is still where
        it was, and the new peer was not polled for. */
    method TakeConnection(ghost armed: set<nat>, now: int) returns (ghost acts: seq<G.Act>)
      requires Valid() && SealedNow() && Watched(armed) && !Full()
      modifies this`peers, this`nextId, this`output, this`outputBytes, this`log
      ensures acts == [G.Accept] && G.DoAll(old(log), acts) == Some(log) && log == G.Do(old(log), G.Accept)
      ensures Valid() && SealedNow() && Watched(armed) && nextId == old(nextId) + 1
    {
      ghost var ps := peers;
      acts := [G.Accept];
      assert G.DoAll(log, acts) == Some(G.Do(log, G.Accept)) by { G.DoOne(log, G.Accept); }
      AcceptPeer(now);
      assert SealedNow() by {
        SealedAccept(transportEof, childExited, atEnd.nextId, old(nextId), ps, []);
      }
    }

    /** The listening socket: a waiting connection is taken if it was polled for and
        there is room to announce it. */
    method ReadServer(polled: bool, ghost armed: set<nat>, w: World, ghost i: nat, ghost start: G.Log,
                      ghost between: bool)
      returns (ghost acts: seq<G.Act>)
      requires Valid() && SealedNow() && Watched(armed)
      requires i < |w.order| && w.order[i].Server? && (polled ==> Passed(start, between, w, i))
      modifies this`peers, this`nextId, this`output, this`outputBytes, this`log
      ensures G.DoAll(old(log), acts) == Some(log)
      ensures Valid() && SealedNow() && Watched(armed) && (polled ==> Passed(start, between, w, i + 1))
      ensures acts == if polled && !old(Full()) && w.connection then [G.Accept] else []
      ensures nextId == old(nextId) + |acts| && (acts == [] ==> log == old(log))
    {
      acts := [];
      LaneNext(w.order, i);
      ServerNext(w.order, i);
      if polled && transportEof {
        EndPassNext(start, atEnd, log, w, i);
      }
      if polled && !Full() && w.connection {
        acts := TakeConnection(armed, w.now);
      }
    }

    /** The transport, if it was polled for. */
    method ReadLane(polled: bool, ghost armed: set<nat>, w: World, ghost i: nat, ghost start: G.Log,
                    ghost was: seq<G.Act>, ghost between: bool)
      returns (r: Turn, ghost acts: seq<G.Act>, ghost refused: seq<Byte>)
      requires Valid() && SealedNow() && Watched(armed) && G.DoAll(start, was) == Some(log)
      requires i < |w.order| && w.order[i].Transport? && (polled ==> Passed(start, between, w, i))
      modifies this`peers, this`inputBytes, this`header, this`incoming, this`frameStarted, this`transportEof,
               this`atEnd, this`log
      ensures G.DoAll(old(log), acts) == Some(log)
      ensures r.Again? ==> Valid() && SealedNow() && Watched(armed) && (polled ==> Passed(start, between, w, i + 1))
      ensures r.Again? || (r.Failed? && Blamed(r.cause, w, between))
      ensures r == Failed(BadHeader) ==> ScanFrom(false, log.scanned, refused).place.Bad? && refused <= Offered(w.read)
      ensures !polled ==>
                && transportEof == old(transportEof) && atEnd == old(atEnd)
                && peers == old(peers) && inputBytes == old(inputBytes) && log == old(log)
      ensures polled && r.Again? && transportEof ==> atEnd == if old(transportEof) then old(atEnd) else log
    {
      r, acts, refused := Again, [], [];
      LaneNext(w.order, i);
      ServerNext(w.order, i);
      if polled && !transportEof {
        r, acts, refused := ReadTransport(w.read, w.now);
        if r.Again? {
          Numbered(KIND, peers, inputBytes, log);
          G.DoAppend(start, was, old(log), acts);
        }
      }
    }

    /** A local socket, if it was polled for and still may be read.  After the
        transport's end it may not. */
    method ReadLocal(id: nat, ghost polled: bool, armed: set<nat>, w: World, ghost i: nat, ghost start: G.Log,
                     ghost between: bool)
      returns (ghost acts: seq<G.Act>)
      requires Valid() && SealedNow() && Watched(armed)
      requires i < |w.order| && w.order[i] == Local(id) && (polled ==> !childExited && Passed(start, between, w, i))
      modifies this`peers, this`inputBytes, this`output, this`outputBytes, this`log
      ensures G.DoAll(old(log), acts) == Some(log)
      ensures Valid() && SealedNow() && Watched(armed) && (polled ==> Passed(start, between, w, i + 1))
      ensures id in armed && old(Readable(id)) && !w.peerRead(id).ReadBlocked? ==> acts != []
      ensures transportEof && !childExited ==> log == old(log)
    {
      acts := [];
      LaneNext(w.order, i);
      ServerNext(w.order, i);
      if id in armed && Readable(id) {
        acts := ReadPeer(id, w.peerRead(id), w.now);
      }
    }

    /** The next ready descriptor; `polled` says the transport and the listening socket
        were polled for, `armed` which local sockets were. */
    method ReadOne(w: World, i: nat, polled: bool, armed: set<nat>, ghost start: G.Log, ghost was: seq<G.Act>,
                   ghost between: bool)
      returns (r: Turn, ghost acts: seq<G.Act>, ghost refused: seq<Byte>)
      requires Valid() && SealedNow() && Watched(armed) && G.DoAll(start, was) == Some(log)
      requires i < |w.order| && (polled ==> !childExited && Passed(start, between, w, i))
      modifies this`peers, this`nextId, this`output, this`outputBytes, this`inputBytes, this`header, this`incoming,
               this`frameStarted, this`transportEof, this`atEnd, this`log
      ensures G.DoAll(start, acts) == Some(log)
      ensures r.Again? ==> Valid() && SealedNow() && Watched(armed) && (polled ==> Passed(start, between, w, i + 1))
      ensures r.Again? || (r.Failed? && Blamed(r.cause, w, between))
      ensures r == Failed(BadHeader) ==> ScanFrom(false, log.scanned, refused).place.Bad? && refused <= Offered(w.read)
      ensures !polled ==> nextId == old(nextId) && transportEof == old(transportEof) && atEnd == old(atEnd)
      ensures !polled && transportEof && !childExited ==> log == old(log)
      ensures w.order[i].Server? ==>
                acts == was +
                  if polled && !old(Full()) && w.connection then [G.Accept] else []
      ensures w.order[i].Local? && w.order[i].id in armed && old(Readable(w.order[i].id)) ==>
                w.peerRead(w.order[i].id).ReadBlocked? || acts != was
      ensures r.Again? && transportEof && polled ==>
                old(nextId) <= nextId && atEnd.nextId == if old(transportEof) then old(atEnd).nextId else old(nextId)
    {
      r, refused := Again, [];
      ghost var more := [];
      match w.order[i] {
        case Server => more := ReadServer(polled, armed, w, i, start, between);
        case Transport => r, more, refused := ReadLane(polled, armed, w, i, start, was, between);
        case Local(id) => more := ReadLocal(id, polled, armed, w, i, start, between);
      }
      G.DoAppend(start, was, old(log), more);
      acts := was + more;
    }

    /** The descriptors ready for reading, in any order; the steps go on from `was`. */
    method ReadPhase(polled: bool, armed: set<nat>, w: World, ghost start: G.Log, ghost was: seq<G.Act>)
      returns (r: Turn, ghost acts: seq<G.Act>, ghost refused: seq<Byte>)
      requires Valid() && SealedNow() && Watched(armed) && (polled ==> !transportEof && !childExited)
      requires G.DoAll(start, was) == Some(log)
      modifies this`peers, this`nextId, this`output, this`outputBytes, this`inputBytes, this`header, this`incoming,
               this`frameStarted, this`transportEof, this`atEnd, this`log
      ensures G.DoAll(start, acts) == Some(log)
      ensures r.Again? ==> Valid() && SealedNow()
      ensures r.Again? || (r.Failed? && Blamed(r.cause, w, old(Between())))
      ensures r == Failed(BadHeader) ==> ScanFrom(false, log.scanned, refused).place.Bad? && refused <= Offered(w.read)
      ensures !polled ==> nextId == old(nextId) && transportEof == old(transportEof) && atEnd == old(atEnd)
      ensures !polled && transportEof && !childExited ==> log == old(log)
      ensures r.Again? && polled ==> Passed(start, old(Between()), w, |w.order|)
      ensures r.Again? && polled && transportEof && EndLeads(w) ==> atEnd.nextId == old(nextId)
    {
      r, acts, refused := Again, was, [];
      for i := 0 to |w.order|
        invariant r.Again? && Valid() && SealedNow() && Watched(armed) && G.DoAll(start, acts) == Some(log)
        invariant !polled ==> nextId == old(nextId) && transportEof == old(transportEof) && atEnd == old(atEnd)
        invariant !polled && transportEof && !childExited ==> log == old(log)
        invariant polled ==> Passed(start, old(Between()), w, i)
        invariant i == 0 ==> nextId == old(nextId)
        invariant polled && transportEof && EndLeads(w) ==> atEnd.nextId == old(nextId)
      {
        assert i > 0 && w.order[0].Transport? ==> LaneAmong(w.order, i);
        r, acts, refused := ReadOne(w, i, polled, armed, start, acts, old(Between()));
        if !r.Again? {
          return;
        }
      }
    }

    /** The transport, when something is queued for it. */
    method WriteLane(w: World) returns (r: Turn, ghost acts: seq<G.Act>)
      requires Valid()
      modifies this`output, this`outputBytes, this`log
      ensures G.DoAll(old(log), acts) == Some(log)
      ensures Valid() && |old(log).wire| <= |log.wire| && log.encoded == old(log).encoded
      ensures r == if old(output != []) && Fails(w.write) then Failed(BadWrite) else Again
      ensures old(output != []) && w.write.Wrote? && r.Again? ==> |old(log).wire| < |log.wire|
    {
      r, acts := Again, [];
      if output != [] {
        var ok;
        ok, acts := WriteTransport(w.write);
        r := if ok then Again else Failed(BadWrite);
      }
    }

    /** A local socket, when something is queued for it. */
    method WriteLocal(id: nat, w: World) returns (ghost acts: seq<G.Act>)
      requires Valid() && SealedNow()
      modifies this`peers, this`inputBytes, this`log
      ensures G.DoAll(old(log), acts) == Some(log)
      ensures Valid() && SealedNow() && log.wire == old(log).wire && log.encoded == old(log).encoded
      ensures acts != [] <==> id in old(peers) && old(peers)[id].bytes > 0 && !w.peerWrite(id).WriteBlocked?
    {
      acts := [];
      if id in peers && peers[id].bytes > 0 {
        ghost var ps := peers;
        acts := WritePeer(id, w.peerWrite(id));
        SealedWrite(transportEof, childExited, atEnd.nextId, nextId, ps, id, peers[id]);
      }
    }

    /** One descriptor ready for writing. */
    method WriteOne(target: Source, w: World) returns (r: Turn, ghost acts: seq<G.Act>)
      requires Valid() && SealedNow()
      modifies this`peers, this`inputBytes, this`output, this`outputBytes, this`log
      ensures G.DoAll(old(log), acts) == Some(log)
      ensures Valid() && SealedNow() && |old(log).wire| <= |log.wire| && log.encoded == old(log).encoded
      ensures r == if target.Transport? && old(output != []) && Fails(w.write) then Failed(BadWrite) else Again
      ensures target.Transport? && old(output != []) && w.write.Wrote? && r.Again? ==> |old(log).wire| < |log.wire|
      ensures !target.Transport? ==> output == old(output) && outputBytes == old(outputBytes)
    {
      r, acts := Again, [];
      match target
      case Server =>
      case Transport => r, acts := WriteLane(w);
      case Local(id) => acts := WriteLocal(id, w);
    }

    /** What a write phase that began with `start` has come to; `seen` says that the
        transport had its turn. */
    ghost predicate Progress(start: G.Log, out: seq<Chunk>, bytes: nat, w: World, seen: bool, acts: seq<G.Act>)
      reads this
    {
      && G.DoAll(start, acts) == Some(log) && |start.wire| <= |log.wire| && log.encoded == start.encoded
      && (!seen ==> output == out && outputBytes == bytes)
      && (seen && out != [] && w.write.Wrote? ==> |start.wire| < |log.wire|)
    }

    /** The next of them. */
    method WriteNext(target: Source, w: World, ghost start: G.Log, ghost out: seq<Chunk>, ghost bytes: nat,
                     ghost seen: bool, ghost was: seq<G.Act>)
      returns (r: Turn, ghost acts: seq<G.Act>)
      requires Valid() && SealedNow() && Progress(start, out, bytes, w, seen, was)
      modifies this`peers, this`inputBytes, this`output, this`outputBytes, this`log
      ensures Valid() && SealedNow() && (r.Again? || r == Failed(BadWrite)) && G.DoAll(start, acts) == Some(log)
      ensures |start.wire| <= |log.wire| && log.encoded == start.encoded
      ensures r.Again? ==> Progress(start, out, bytes, w, seen || target.Transport?, acts)
      ensures r.Again? && !seen && target.Transport? && out != [] ==> !Fails(w.write)
      ensures r.Failed? ==> Fails(w.write)
    {
      ghost var mid, more := log, [];
      r, more := WriteOne(target, w);
      G.DoAppend(start, was, mid, more);
      acts := was + more;
    }

    /** The descriptors ready for writing, in any order. */
    method WritePhase(w: World) returns (r: Turn, ghost acts: seq<G.Act>)
      requires Valid() && SealedNow()
      modifies this`peers, this`inputBytes, this`output, this`outputBytes, this`log
      ensures G.DoAll(old(log), acts) == Some(log)
      ensures Valid() && SealedNow() && (r.Again? || r == Failed(BadWrite))
      ensures LaneAmong(w.writes, |w.writes|) && old(output != []) && Fails(w.write) ==> r == Failed(BadWrite)
      ensures LaneAmong(w.writes, |w.writes|) && old(output != []) && w.write.Wrote? && r.Again? ==>
                |old(log).wire| < |log.wire|
      ensures r.Failed? ==> Fails(w.write)
      ensures |old(log).wire| <= |log.wire| && log.encoded == old(log).encoded
    {
      r, acts := Again, [];
      ghost var seen := false;
      for i := 0 to |w.writes|
        invariant r.Again? && Valid() && SealedNow()
        invariant Progress(old(log), old(output), old(outputBytes), w, seen, acts)
        invariant seen <==> LaneAmong(w.writes, i)
        invariant seen && old(output != []) ==> !Fails(w.write)
      {
        r, acts := WriteNext(w.writes[i], w, old(log), old(output), old(outputBytes), seen, acts);
        if !r.Again? {
          return;
        }
        LaneNext(w.writes, i);
        seen := seen || w.writes[i].Transport?;
      }
    }

    /** The child's exit, when it is noticed, closes every stream and owes each of
        them a CLOSE. */
    method NoticeExit(w: World) returns (ghost acts: seq<G.Act>)
      requires Valid() && Exited(childExited, present, log) && SealedNow()
      modifies this`peers, this`inputBytes, this`childExited, this`present, this`log
      ensures G.DoAll(old(log), acts) == Some(log)
      ensures Valid() && Exited(childExited, present, log) && SealedNow()
      ensures childExited == (old(childExited) || w.childGone)
      ensures present == if old(childExited) || !childExited then old(present) else old(peers).Keys
      ensures old(childExited) || !w.childGone ==>
                peers == old(peers) && inputBytes == old(inputBytes) && log == old(log)
    {
      acts := [];
      if !childExited && w.childGone {
        childExited := true;
        present := peers.Keys;
        acts := CloseAll(true);
        AllShut(KIND, peers, inputBytes, log);
      }
    }

    /** Finished peers are retired; neither end is undone by it. */
    method Thin(now: int) returns (ghost acts: seq<G.Act>)
      requires Valid() && Exited(childExited, present, log) && SealedNow()
      modifies this`peers, this`output, this`outputBytes, this`log
      ensures G.DoAll(old(log), acts) == Some(log)
      ensures Valid() && Exited(childExited, present, log) && SealedNow()
      ensures outputBytes == 0 ==> NobodyWaits(peers)
      ensures NobodyWaits(old(peers)) ==>
                peers == old(peers) && log == old(log) && SameLane(old(output), old(outputBytes))
    {
      ghost var ps := peers;
      acts := RetirePeers(now);
      assert SealedNow() by { SealedThinned(transportEof, childExited, atEnd.nextId, nextId, ps, peers); }
      assert NobodyWaits(ps) ==> peers == ps by { ThinnedNone(ps, peers); }
      ExitedStays(childExited, present, old(log), acts);
    }

    /** The child's exit is noticed, and finished peers are retired. */
    method Clear(w: World) returns (ghost acts: seq<G.Act>)
      requires Valid() && Exited(childExited, present, log) && SealedNow()
      modifies this`peers, this`inputBytes, this`output, this`outputBytes, this`childExited, this`present, this`log
      ensures G.DoAll(old(log), acts) == Some(log)
      ensures Valid() && Exited(childExited, present, log) && SealedNow()
      ensures childExited == (old(childExited) || w.childGone)
      ensures present == if old(childExited) || !childExited then old(present) else old(peers).Keys
      ensures outputBytes == 0 ==> NobodyWaits(peers)
      ensures (old(childExited) || !w.childGone) && NobodyWaits(old(peers)) ==>
                && peers == old(peers) && inputBytes == old(inputBytes) && log == old(log)
                && SameLane(old(output), old(outputBytes))
    {
      acts := NoticeExit(w);
      ghost var mid, more := log, [];
      more := Thin(w.now);
      G.DoAppend(old(log), acts, mid, more);
      acts := acts + more;
    }

    /** The top of the loop: notice the child's exit, retire, and see whether all is
        done.  Done means that no peer is left, except those accepted after the
        transport's end while the child still runs. */
    method Settle(w: World) returns (r: Turn, ghost acts: seq<G.Act>)
      requires Valid() && Exited(childExited, present, log) && SealedNow()
      modifies this`peers, this`inputBytes, this`output, this`outputBytes, this`childExited, this`present, this`log
      ensures G.DoAll(old(log), acts) == Some(log)
      ensures Valid() && Exited(childExited, present, log) && SealedNow()
      ensures childExited == (old(childExited) || w.childGone)
      ensures present == if old(childExited) || !childExited then old(present) else old(peers).Keys
      ensures r == if (transportEof || childExited) && inputBytes == 0 && outputBytes == 0 then Drained else Again
      ensures r.Drained? ==> log.wire == log.encoded
      ensures r.Drained? ==> (AllGone(log) <==> childExited || nextId == atEnd.nextId)
      ensures (old(childExited) || !w.childGone) && NobodyWaits(old(peers)) ==>
                && peers == old(peers) && inputBytes == old(inputBytes) && log == old(log)
                && SameLane(old(output), old(outputBytes))
    {
      r := Again;
      acts := Clear(w);
      if (transportEof || childExited) && inputBytes == 0 && outputBytes == 0 {
        r := Drained;
        Flushed(output, log);
        if childExited {
          NobodyLeft(KIND, peers, log);
        } else {
          LeftOpen(KIND, peers, log, atEnd.nextId);
        }
      }
    }

    /** A partial frame or a queued chunk is past its deadline. */
    predicate Overdue(now: int)
      reads this
    {
      || (frameStarted.Some? && frameStarted.value + DEADLINE <= now)
      || Stale(output, now)
      || exists id | id in peers :: Stale(peers[id].queue, now)
    }

    /** The deadlines: exceeded, or how long poll may wait without missing one. */
    method Expiry(now: int) returns (late: bool, wait: int)
      ensures late <==> Overdue(now)
      ensures !late ==> 0 < wait <= IDLE_WAIT && !Overdue(now + wait - 1)
      ensures !late && wait < IDLE_WAIT ==> Overdue(now + wait)
    {
      wait := IDLE_WAIT;
      if frameStarted.Some? {
        wait := Shorter(wait, frameStarted.value + DEADLINE - now);
      }
      if output != [] {
        wait := Shorter(wait, output[0].queued + DEADLINE - now);
      }
      var left := peers.Keys;
      while left != {}
        invariant left <= peers.Keys && wait <= IDLE_WAIT
        invariant frameStarted.Some? ==> now + wait <= frameStarted.value + DEADLINE
        invariant !Stale(output, now + wait - 1)
        invariant forall id | id in peers && id !in left :: !Stale(peers[id].queue, now + wait - 1)
        invariant wait < IDLE_WAIT ==> Overdue(now + wait)
        decreases |left|
      {
        var id := Smallest(left);
        if peers[id].queue != [] {
          wait := Shorter(wait, peers[id].queue[0].queued + DEADLINE - now);
        }
        left := left - {id};
      }
      late := wait <= 0;
    }

    /** The ids poll is asked about. */
    function Armed(polled: bool): set<nat>
      reads this
    {
      set id | id in peers && (peers[id].bytes > 0 || (polled && Readable(id)))
    }

    /** The transport and the listening socket are polled for. */
    predicate Polls()
      reads this
    {
      !transportEof && !childExited
    }

    /** The local sockets poll is asked about. */
    method Arm(polled: bool) returns (armed: set<nat>)
      requires Valid() && SealedNow() && (polled ==> !transportEof)
      ensures armed == Armed(polled) && Watched(armed)
    {
      Numbered(KIND, peers, inputBytes, log);
      armed := Armed(polled);
    }

    /** Nobody is to be retired, and neither the child nor the clock asks for anything. */
    ghost predicate AtEase(w: World)
      reads this
    {
      NobodyWaits(peers) && !w.childGone && !Overdue(w.now)
    }

    /** No frame was queued, and one that was waiting moved if the transport took any of it. */
    ghost predicate Drains(l: G.Log, w: World)
      reads this
    {
      log.encoded == l.encoded && (LaneAmong(w.writes, |w.writes|) && w.write.Wrote? ==> |l.wire| < |log.wire|)
    }

    /** What poll found ready is written and read. */
    method Serve(w: World) returns (r: Turn, ghost acts: seq<G.Act>, ghost refused: seq<Byte>)
      requires Valid() && SealedNow()
      modifies this`peers, this`nextId, this`output, this`outputBytes, this`inputBytes, this`header, this`incoming,
               this`frameStarted, this`transportEof, this`atEnd, this`log
      ensures G.DoAll(old(log), acts) == Some(log)
      ensures r.Again? ==> Valid() && SealedNow()
      ensures r.Again? || (r.Failed? && Blamed(r.cause, w, old(Between())))
      ensures r == Failed(BadHeader) ==> ScanFrom(false, log.scanned, refused).place.Bad? && refused <= Offered(w.read)
      ensures !old(Polls()) ==> nextId == old(nextId) && transportEof == old(transportEof) && atEnd == old(atEnd)
      ensures r.Again? && old(Polls()) ==> Passed(old(log), old(Between()), w, |w.order|)
      ensures r.Again? && old(transportEof) && !childExited && old(output) != [] ==> Drains(old(log), w)
      ensures r.Again? && old(Polls()) && transportEof && EndLeads(w) ==> atEnd.nextId == old(nextId)
    {
      refused := [];
      var polled := Polls();
      var armed := Arm(polled);
      r, acts := WritePhase(w);
      if !r.Again? {
        return;
      }
      r, acts, refused := ReadPhase(polled, armed, w, old(log), acts);
    }

    /** A turn that began at `start` reads the transport's end exactly if the end is there to
        be read and neither the end nor the child's exit is known; then the log tells when,
        and if no connection was taken since although one waited, there is no room. */
    ghost predicate EndTold(start: G.Log, known: bool, between: bool, w: World)
      reads this
    {
      && (transportEof <==> known || (EndReady(w) && between && !childExited))
      && (transportEof && !known ==>
            && EndPass(start, atEnd, log, w, |w.order|)
            && (nextId == atEnd.nextId && w.connection && ServerAfter(w.order, |w.order|) ==> Full()))
    }

    /** What the poll brings, after `was` steps since `start`: an error or ready
        descriptors. */
    method Poll(w: World, ghost start: G.Log, ghost was: seq<G.Act>)
      returns (r: Turn, ghost acts: seq<G.Act>, ghost refused: seq<Byte>)
      requires Valid() && Exited(childExited, present, log) && SealedNow()
      requires G.DoAll(start, was) == Some(log) && !w.interrupted
      modifies this`peers, this`nextId, this`output, this`outputBytes, this`inputBytes, this`header, this`incoming,
               this`frameStarted, this`transportEof, this`atEnd, this`log
      ensures G.DoAll(start, acts) == Some(log)
      ensures r.Again? ==> Valid() && Exited(childExited, present, log) && SealedNow()
      ensures r.Again? || (r.Failed? && Blamed(r.cause, w, old(Between())))
      ensures r == Failed(BadHeader) ==> ScanFrom(false, log.scanned, refused).place.Bad? && refused <= Offered(w.read)
      ensures r.Again? ==> EndTold(start, old(transportEof), old(Between()), w)
      ensures childExited && r.Again? ==> nextId == old(nextId)
      ensures old(transportEof) ==> atEnd == old(atEnd) && (r.Again? ==> nextId == old(nextId))
      ensures r.Again? && old(transportEof) && !childExited && old(output) != [] ==> Drains(old(log), w)
      ensures r.Again? && transportEof && !old(transportEof) && EndLeads(w) ==> atEnd.nextId == old(nextId)
    {
      r, acts, refused := Again, was, [];
      if w.hangup || w.failed {
        r := Failed(BadPoll);
        return;
      }
      ghost var more;
      r, more, refused := Serve(w);
      G.DoAppend(start, was, old(log), more);
      if r.Again? && transportEof && !old(transportEof) {
        EndPassFrom(start, was, old(log), atEnd, log, w, |w.order|);
      }
      assert r.Again? ==> Exited(childExited, present, log) by {
        if r.Again? { ExitedStays(childExited, present, old(log), more); }
      }
      acts := was + more;
    }

    /** The part of a turn before the poll: late exactly when something is overdue. */
    method BeforePoll(w: World) returns (r: Turn, ghost acts: seq<G.Act>)
      requires Valid() && Exited(childExited, present, log) && SealedNow()
      modifies this`peers, this`inputBytes, this`output, this`outputBytes, this`childExited, this`present, this`log
      ensures G.DoAll(old(log), acts) == Some(log)
      ensures Valid() && Exited(childExited, present, log) && SealedNow()
      ensures childExited == (old(childExited) || w.childGone)
      ensures present == if old(childExited) || !childExited then old(present) else old(peers).Keys
      ensures r.Drained? <==> (transportEof || childExited) && inputBytes == 0 && outputBytes == 0
      ensures !r.Drained? ==> r == if Overdue(w.now) then Failed(Late) else Again
      ensures r.Again? && (transportEof || childExited) && inputBytes == 0 ==> output != []
      ensures r.Drained? ==> log.wire == log.encoded && (AllGone(log) <==> childExited || nextId == atEnd.nextId)
      ensures old(AtEase(w)) ==>
                inputBytes == old(inputBytes) && log == old(log) && r != Failed(Late)
    {
      r, acts := Settle(w);
      if !r.Drained? {
        var late, wait := Expiry(w.now);
        r := if late then Failed(Late) else Again;
      }
    }

    /** One turn of the relay, whatever the world does. */
    method Iterate(w: World) returns (r: Turn, ghost acts: seq<G.Act>, ghost refused: seq<Byte>)
      requires Valid() && Exited(childExited, present, log) && SealedNow()
      modifies this
      ensures G.DoAll(old(log), acts) == Some(log)
      ensures childExited == (old(childExited) || w.childGone)
      ensures present == if old(childExited) || !childExited then old(present) else old(peers).Keys
      ensures r.Again? || r.Drained? ==> Valid() && Exited(childExited, present, log) && SealedNow()
      ensures r == Failed(BadHeader) ==> ScanFrom(false, log.scanned, refused).place.Bad? && refused <= Offered(w.read)
      ensures r == Failed(Late) ==> Overdue(w.now) && !old(AtEase(w))
      ensures !r.HungUp? && (r.Failed? && !r.cause.Late? ==> Blamed(r.cause, w, old(Between())))
      ensures w.interrupted && r.Again? ==> !Overdue(w.now)
      ensures r.Drained? ==> (old(transportEof) || childExited) && log.wire == log.encoded && inputBytes == 0
      ensures r.Drained? ==> (AllGone(log) <==> childExited || nextId == atEnd.nextId)
      ensures (childExited || old(transportEof)) && (r.Again? || r.Drained?) ==> nextId == old(nextId)
      ensures old(transportEof) ==> atEnd == old(atEnd)
      ensures r.Again? || r.Drained? ==> EndTold(old(log), old(transportEof), old(Between()), w)
      ensures old(AtEase(w) && transportEof && inputBytes == 0) && r.Again? && !childExited && !w.interrupted ==>
                Drains(old(log), w)
      ensures r.Again? && transportEof && !old(transportEof) && EndLeads(w) ==> atEnd.nextId == old(nextId)
    {
      refused := [];
      r, acts := BeforePoll(w);
      if r.Again? && !w.interrupted {
        r, acts, refused := Poll(w, old(log), acts);
      }
    }
  }

  /** Between turns: whatever the run has come to. */
  ghost predicate OnCourse(relay: StdioRelay, r: Turn)
    reads relay
  {
    && G.Inv(relay.log)
    && (r.Again? || r.Drained? ==>
          relay.Valid() && Exited(relay.childExited, relay.present, relay.log) && relay.SealedNow())
    && (r.Drained? ==> relay.log.wire == relay.log.encoded && relay.inputBytes == 0)
    && (r.Drained? ==> relay.transportEof || relay.childExited)
    && (r.Drained? ==> (AllGone(relay.log) <==> relay.childExited || relay.nextId == relay.atEnd.nextId))
  }

  /** The turn in which the child's exit is noticed. */
  ghost predicate ExitTurn(worlds: seq<World>, k: nat) {
    k < |worlds| && worlds[k].childGone && forall j | 0 <= j < k :: !worlds[j].childGone
  }

  /** The stream's frames end with the one CLOSE it has, after exactly its bytes. */
  ghost predicate ClosedLast(l: G.Log, id: nat) {
    id in l.streams && LaneOf(id, Fresh, AllEvents(l.sent)) == Ended(l.streams[id].fromPeer)
  }

  /** What is known once the exit was noticed in turn `exit`: every stream of that
      moment is on record as owed a CLOSE, and none was accepted since. */
  ghost predicate Noted(relay: StdioRelay, r: Turn, worlds: seq<World>, logs: seq<G.Log>, exit: nat)
    reads relay
  {
    relay.childExited ==>
      && exit < |logs| - 1 && ExitTurn(worlds, exit)
      && (forall id | G.InPeers(logs[exit], id) :: id in relay.present)
      && (r.Again? || r.Drained? ==> relay.nextId == logs[exit].nextId)
  }

  /** Where a run has come to, with the logs after each of its turns, the turn that noticed
      the child's exit and the one that read the end of the transport. */
  ghost predicate Course(relay: StdioRelay, r: Turn, worlds: seq<World>, logs: seq<G.Log>, exit: nat, end: nat)
    reads relay
  {
    && IsHistory(logs, |worlds|) && logs[|logs| - 1] == relay.log
    && OnCourse(relay, r) && Noted(relay, r, worlds, logs, exit)
    && (relay.childExited <==> ExitBy(worlds, |logs| - 1))
    && (r.Again? || r.Drained? ==> EndNoted(relay.transportEof, relay.atEnd, relay.nextId, worlds, logs, end))
  }

  /** One turn between two moments of a run. */
  method OneTurn(relay: StdioRelay, w: World) returns (r: Turn, ghost acts: seq<G.Act>)
    requires OnCourse(relay, Again)
    modifies relay
    ensures r.Again? || r.Drained? ==>
              && (relay.transportEof <==> old(relay.transportEof) || (Finds(w, old(relay.log)) && !relay.childExited))
              && (old(relay.transportEof) ==> relay.atEnd == old(relay.atEnd) && relay.nextId == old(relay.nextId))
              && (relay.transportEof && !old(relay.transportEof) ==>
                    EndPass(old(relay.log), relay.atEnd, relay.log, w, |w.order|))
    ensures OnCourse(relay, r) && G.DoAll(old(relay.log), acts) == Some(relay.log)
    ensures relay.childExited == (old(relay.childExited) || w.childGone)
    ensures old(relay.childExited) ==> relay.present == old(relay.present)
    ensures relay.childExited && !old(relay.childExited) ==>
              forall id | G.InPeers(old(relay.log), id) :: id in relay.present
    ensures relay.childExited && (r.Again? || r.Drained?) ==> relay.nextId == old(relay.nextId) == old(relay.log).nextId
  {
    ghost var refused;
    r, acts, refused := relay.Iterate(w);
    G.InvAll(old(relay.log), acts);
  }

  /** One more turn, with the log after it. */
  method TakeTurn(relay: StdioRelay, worlds: seq<World>, i: nat, ghost logs: seq<G.Log>, ghost exit: nat,
                  ghost end: nat)
    returns (ghost more: seq<G.Log>, r: Turn, ghost exit': nat, ghost end': nat)
    requires |logs| == i + 1 <= |worlds| && Course(relay, Again, worlds, logs, exit, end)
    modifies relay
    ensures |more| == i + 2 && Course(relay, r, worlds, more, exit', end')
  {
    exit', end' := if relay.childExited then exit else i, end;
    ghost var eof, at, next := relay.transportEof, relay.atEnd, relay.nextId;
    ghost var acts;
    r, acts := OneTurn(relay, worlds[i]);
    more := logs + [relay.log];
    assert IsHistory(more, |worlds|) by { ExtendHistory(logs, |worlds|, acts, relay.log); }
    assert relay.childExited <==> ExitBy(worlds, i + 1) by { ExitNext(worlds, i); }
    assert Noted(relay, r, worlds, more, exit');
    if r.Again? || r.Drained? {
      end' := EndNotedNext(eof, at, next, worlds, logs, end, relay.transportEof, relay.atEnd, relay.log,
                           relay.childExited);
    }
  }

  method Start(ghost worlds: seq<World>) returns (relay: StdioRelay, ghost logs: seq<G.Log>)
    ensures fresh(relay) && |logs| == 1 && Course(relay, Again, worlds, logs, 0, 0)
  {
    relay := new StdioRelay();
    G.InvInit();
    logs := [relay.log];
  }

  /** What a drained run says about the turn that noticed the exit: no stream was accepted
      since, and every stream of that moment has its CLOSE. */
  ghost predicate ExitClosed(l: G.Log, worlds: seq<World>, logs: seq<G.Log>) {
    forall k | 0 <= k < |logs| - 1 && ExitTurn(worlds, k) ::
      l.nextId == logs[k].nextId && forall id | G.InPeers(logs[k], id) :: ClosedLast(l, id)
  }

  lemma ExitClosedAll(relay: StdioRelay, worlds: seq<World>, logs: seq<G.Log>, exit: nat)
    requires OnCourse(relay, Drained) && Noted(relay, Drained, worlds, logs, exit)
    requires 0 < |logs| <= |worlds| + 1 && (relay.childExited <==> ExitBy(worlds, |logs| - 1))
    ensures ExitClosed(relay.log, worlds, logs)
  {
    forall k | 0 <= k < |logs| - 1 && ExitTurn(worlds, k)
      ensures relay.log.nextId == logs[k].nextId && forall id | G.InPeers(logs[k], id) :: ClosedLast(relay.log, id)
    {
      ExitClosedAt(relay, worlds, logs, exit, k);
    }
  }

  lemma ExitClosedAt(relay: StdioRelay, worlds: seq<World>, logs: seq<G.Log>, exit: nat, k: nat)
    requires OnCourse(relay, Drained) && Noted(relay, Drained, worlds, logs, exit)
    requires k < |logs| - 1 <= |worlds| && ExitTurn(worlds, k) && (relay.childExited <==> ExitBy(worlds, |logs| - 1))
    ensures relay.log.nextId == logs[k].nextId && forall id | G.InPeers(logs[k], id) :: ClosedLast(relay.log, id)
  {
    assert exit == k;
    forall id | G.InPeers(logs[k], id) ensures ClosedLast(relay.log, id) {
      assert G.Owed(relay.log, id);
      assert G.StreamOk(id, relay.log.streams[id], relay.log.scanned.events, relay.log.sent);
    }
  }

  method RunTurns(worlds: seq<World>)
    returns (relay: StdioRelay, r: Turn, ghost logs: seq<G.Log>, ghost exit: nat, ghost end: nat)
    ensures fresh(relay) && Course(relay, r, worlds, logs, exit, end) && (r.Again? ==> |logs| == |worlds| + 1)
  {
    relay, logs := Start(worlds);
    r := Again;
    var i := 0;
    exit, end := 0, 0;
    while i < |worlds| && r.Again?
      invariant 0 <= i <= |worlds| && fresh(relay) && |logs| == i + 1 && Course(relay, r, worlds, logs, exit, end)
    {
      logs, r, exit, end := TakeTurn(relay, worlds, i, logs, exit, end);
      i := i + 1;
    }
  }

  /** What is known once the relay has drained. */
  lemma Finished(relay: StdioRelay, worlds: seq<World>, logs: seq<G.Log>, exit: nat, end: nat)
    requires Course(relay, Drained, worlds, logs, exit, end)
    ensures relay.log.wire == EncodedAll(relay.log.sent)
    ensures forall id | id in relay.log.streams :: G.Drained(relay.log.streams[id])
    ensures relay.childExited ==> AllGone(relay.log)
    ensures !relay.childExited ==> Decided(relay.log, relay.atEnd, worlds, logs)
    ensures ExitClosed(relay.log, worlds, logs)
  {
    AllWritten(KIND, relay.peers, relay.log);
    ExitClosedAll(relay, worlds, logs, exit);
    if !relay.childExited {
      EndDecides(relay.log, relay.atEnd, worlds, logs, end);
    }
  }

  /** The relay over any finite sequence of turns, with its logs after each of them.
      Status 0 means that every frame was flushed and every accepted byte written to
      every stream whose local socket did not fail.  After the child's exit it also
      means that every stream there was when the exit was noticed has, at the end of
      its frames and nowhere else, the one CLOSE it was owed, and that no stream was
      accepted since; without the exit, there was a turn that read the end of the
      transport, and exactly the streams that turn accepted after it are left open. */
  method RunStdioRelay(worlds: seq<World>) returns (relay: StdioRelay, r: Turn, ghost logs: seq<G.Log>)
    ensures fresh(relay) && IsHistory(logs, |worlds|) && logs[|logs| - 1] == relay.log
    ensures r.Again? ==> |logs| == |worlds| + 1
    ensures r.Again? || r.Drained? ==> relay.Valid()
    ensures G.Inv(relay.log)
    ensures relay.childExited <==> ExitBy(worlds, |logs| - 1)
    ensures r.Drained? ==> relay.log.wire == EncodedAll(relay.log.sent)
    ensures r.Drained? ==> forall id | id in relay.log.streams :: G.Drained(relay.log.streams[id])
    ensures r.Drained? && relay.childExited ==> AllGone(relay.log)
    ensures r.Drained? && !relay.childExited ==> Decided(relay.log, relay.atEnd, worlds, logs)
    ensures r.Drained? ==> ExitClosed(relay.log, worlds, logs)
  {
    ghost var exit, end;
    relay, r, logs, exit, end := RunTurns(worlds);
    if r.Drained? {
      Finished(relay, worlds, logs, exit, end);
    }
  }

  /** A turn in which nothing goes wrong. */
  predicate Calm(w: World) {
    !w.childGone && !w.interrupted && !w.hangup && !w.failed && w.write.Wrote? && w.write.count > 0
  }

  /** A relay that read the end of the transport before anything else, and has accepted
      a connection since. */
  ghost predicate Lingers(relay: StdioRelay)
    reads relay
  {
    && relay.Valid() && Exited(relay.childExited, relay.present, relay.log) && relay.SealedNow() && G.Inv(relay.log)
    && relay.transportEof && !relay.childExited && relay.atEnd.nextId == 1 < relay.nextId
  }

  /** It has nobody to retire and nothing to write locally, and is not late while the
      clock stands still. */
  lemma LingersAtRest(relay: StdioRelay)
    requires Lingers(relay)
    ensures NobodyWaits(relay.peers) && relay.inputBytes == 0 && !relay.Overdue(QueuedAt(relay.output))
  {
    forall id | id in relay.peers ensures !relay.peers[id].closing && relay.peers[id].bytes == 0 {
      assert Tracked(KIND, id, relay.peers[id], relay.log);
    }
    forall id | id in relay.peers ensures relay.peers[id].queue == [] {
      assert Tracked(KIND, id, relay.peers[id], relay.log);
      ChargeBound(relay.peers[id].queue, relay.peers[id].bytes);
    }
    if relay.inputBytes > 0 {
      var id := TotalPositive(relay.peers, SizeOf);
    }
  }

  /** As long as no id was given out there is room for a connection. */
  lemma NobodyYet(relay: StdioRelay)
    requires relay.Valid() && G.Inv(relay.log) && relay.nextId == 1
    ensures !relay.Full()
  {
    forall id ensures id !in relay.peers {
      assert id in relay.peers ==> Tracked(KIND, id, relay.peers[id], relay.log);
    }
    assert relay.peers.Keys == {};
    NothingPending(relay);
  }

  lemma NothingPending(relay: StdioRelay)
    requires relay.Valid() && G.Inv(relay.log) && relay.log.sent == []
    ensures relay.HasRoom()
  {
    Queues.NothingPending(Buffer(relay.output, relay.outputBytes, OUTPUT_LIMIT, CHUNKS_LIMIT));
  }

  /** With a relay that has just started, a turn whose poll finds the end of the transport
      first and a waiting connection second. */
  method EndThenAccept(relay: StdioRelay, w: World)
    requires relay.Valid() && relay.log == G.EMPTY && relay.peers == map[] && relay.output == []
    requires relay.Between() && !relay.transportEof && !relay.childExited
    requires Calm(w) && w.read.Eof? && w.order == [Transport, Server] && w.connection
    modifies relay
    ensures Lingers(relay)
  {
    var r;
    ghost var acts, refused;
    r, acts, refused := relay.Iterate(w);
    assert w.order[0].Transport? && w.order[1].Server? && LaneAmong(w.order, 1) && LaneAmong(w.order, 2);
    G.InvInit();
    G.InvAll(G.EMPTY, acts);
    if relay.nextId == 1 { NobodyYet(relay); }
  }

  /** When the chunk was queued that is written next. */
  function QueuedAt(out: seq<Chunk>): int { if out == [] then 0 else out[0].queued }

  /** Turns in which poll finds the transport ready for writing, until the relay ends. */
  method FlushAll(relay: StdioRelay, w: World) returns (r: Turn)
    requires Lingers(relay) && Calm(w) && w.read.ReadBlocked? && w.writes == [Transport]
    modifies relay
    ensures r.Drained? && Lingers(relay) && !AllGone(relay.log)
  {
    r := Again;
    assert w.writes[0].Transport? && LaneAmong(w.writes, 1);
    while r.Again?
      invariant r.Again? || r.Drained?
      invariant Lingers(relay) && (r.Drained? ==> !AllGone(relay.log))
      decreases r.Again?, |relay.log.encoded| - |relay.log.wire|
    {
      LingersAtRest(relay);
      ghost var acts, refused, was := [], [], relay.log;
      r, acts, refused := relay.Iterate(w.(now := QueuedAt(relay.output)));
      G.InvAll(was, acts);
    }
  }

  /** A run after which the relay ends with status 0 and a stream still open. */
  method LeavesAStreamOpen() returns (relay: StdioRelay, r: Turn)
    ensures r.Drained? && relay.Valid() && !relay.childExited && !AllGone(relay.log)
  {
    relay := new StdioRelay();
    var w := World(0, false, false, false, false, [], Wrote(HEADER), _ => WriteBlocked,
                   [Transport, Server], true, Eof, _ => ReadBlocked);
    EndThenAccept(relay, w);
    r := FlushAll(relay, w.(writes := [Transport], read := ReadBlocked));
  }
}
