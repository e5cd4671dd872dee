/** The guest relay for published sockets: the Perl program embedded in
    src/container_sessions.rs by guest_publish_socket_relay_perl.  Its hashes and
    counters are the fields; a `die` is a precondition every caller is proved to
    meet, so neither output limit can be exceeded. */
module PublishRelay {
  import opened Basics
  import opened Wire
  import opened Outcomes
  import opened Backlogs
  import opened Keys
  import opened Roster
  import G = GuestLog

  const OUTPUT_LIMIT := 256 * 1024
  const FRAMES_LIMIT := 4096

  function PendingOf(b: Backlog): seq<Byte> { b.Pending() }

  /** A peer's queue: counted exactly, within its limit, every chunk but the last
      full, and so never more than five chunks. */
  predicate QueueOk(b: Backlog, bytes: nat) {
    b.Valid() && b.Packed() && bytes == |b.Pending()| <= PEER_LIMIT
  }

  const KIND := Kind(PendingOf, QueueOk, Backlog([], 0))

  lemma KindSound()
    ensures KIND.Sound()
  {
  }

  ghost predicate Sending(out: Backlog, bytes: nat, l: G.Log) {
    && out.Valid() && bytes == |out.Pending()| <= OUTPUT_LIMIT && |out.queue| <= FRAMES_LIMIT
    && l.wire + out.Pending() == l.encoded
  }

  lemma FrontBound(b: Backlog, bytes: nat)
    requires b.Valid() && bytes == |b.Pending()|
    ensures b.Front() <= bytes && (bytes > 0 ==> b.Front() > 0)
  {
    PendingFits(b);
  }

  /** n bytes of the front frame written to the transport. */
  lemma WriteSending(out: Backlog, bytes: nat, l: G.Log, n: nat)
    requires Sending(out, bytes, l) && n <= out.Front()
    ensures n <= bytes && G.Can(l, G.WriteWire(n))
    ensures var m := G.Do(l, G.WriteWire(n));
            m.scanned == l.scanned && m.nextId == l.nextId && Sending(out.Written(n), bytes - n, m)
  {
    FrontBound(out, bytes);
    Backlogs.WriteKeeps(out, n);
    Advance(l.wire, out.Pending(), out.Pending()[..n], out.Written(n).Pending(), l.encoded);
  }

  lemma Flushed(out: Backlog, l: G.Log)
    requires Sending(out, 0, l)
    ensures l.wire == l.encoded
  {
    Unit(l.wire);
  }

  /** One frame at the end of the return lane. */
  lemma PushSending(out: Backlog, bytes: nat, l: G.Log, f: Frame, m: G.Log)
    requires Sending(out, bytes, l) && bytes + |Encoded(f)| <= OUTPUT_LIMIT && |out.queue| < FRAMES_LIMIT
    requires m.wire == l.wire && m.encoded == l.encoded + Encoded(f)
    ensures Sending(out.Pushed(Encoded(f)), bytes + |Encoded(f)|, m)
  {
    PushKeeps(out, Encoded(f));
    Reassociate(l.wire, out.Pending(), Encoded(f));
  }

  /** Payload for a peer that is not closing. */
  lemma AppendPeering(ps: map<nat, Peer<Backlog>>, total: nat, l: G.Log, id: nat, data: seq<Byte>)
    requires Peering(KIND, ps, total, l) && id in ps && !ps[id].closing && G.Can(l, G.TakeData(id, data))
    requires 0 < |data| <= CHUNK && ps[id].bytes + |data| <= PEER_LIMIT && total + |data| <= INPUT_LIMIT
    ensures Peering(KIND, ps[id := ps[id].(queue := ps[id].queue.Appended(data), bytes := ps[id].bytes + |data|)],
                    total + |data|, G.Do(l, G.TakeData(id, data)))
  {
    assert Tracked(KIND, id, ps[id], l);
    AppendKeeps(ps[id].queue, data);
    Append(KIND, ps, total, l, id, data, ps[id].queue.Appended(data));
  }

  /** n bytes of the front chunk written to a local socket. */
  lemma WritePeering(ps: map<nat, Peer<Backlog>>, total: nat, l: G.Log, id: nat, n: nat)
    requires Peering(KIND, ps, total, l) && id in ps && n <= ps[id].queue.Front()
    ensures n <= ps[id].bytes && n <= total && G.Can(l, G.WritePeer(id, n)) && SameRest(l, G.Do(l, G.WritePeer(id, n)))
    ensures Peering(KIND, ps[id := ps[id].(queue := ps[id].queue.Written(n), bytes := ps[id].bytes - n)], total - n,
                    G.Do(l, G.WritePeer(id, n)))
  {
    var p := ps[id];
    assert Tracked(KIND, id, p, l);
    Backlogs.WriteKeeps(p.queue, n);
    Written(KIND, ps, total, l, id, p.queue.Pending()[..n], p.queue.Written(n), p.bytes - n, total - n);
  }

  class PublishRelay {
    var peers: map<nat, Peer<Backlog>>
    var nextId: nat
    var output: Backlog
    var outputBytes: nat
    var inputBytes: nat
    var header: seq<Byte>
    var incoming: Option<Incoming>
    var transportEof: bool
    var childExited: bool
    ghost var atEnd: G.Log // when the transport's end was read
    ghost var log: G.Log

    ghost predicate Valid()
      reads this
    {
      && Sending(output, outputBytes, log)
      && Peering(KIND, peers, inputBytes, log)
      && Framed(header, incoming, log)
      && nextId == log.nextId
    }

    constructor ()
      ensures Valid() && log == G.EMPTY && peers == map[] && !transportEof && !childExited
      ensures output == Backlog([], 0) && outputBytes == 0 && inputBytes == 0 && header == [] && incoming == None
    {
      peers, nextId := map[], 1;
      output, outputBytes, inputBytes := Backlog([], 0), 0, 0;
      header, incoming, transportEof, childExited := [], None, false, false;
      atEnd, log := G.EMPTY, G.EMPTY;
      new;
      KindSound();
      assert Flat(Same, []) == [];
    }

    /** The limits hold in every valid state, the counters are exact sums, and no
        peer has more than five chunks. */
    lemma ResourceBounds(id: nat)
      requires Valid()
      ensures |peers| <= MAX_PEERS && inputBytes == Total(peers, SizeOf) <= INPUT_LIMIT
      ensures outputBytes == |output.Pending()| <= OUTPUT_LIMIT && |output.queue| <= FRAMES_LIMIT
      ensures id in peers ==>
                peers[id].bytes == |peers[id].queue.Pending()| <= PEER_LIMIT && |peers[id].queue.queue| <= 5
    {
      if id in peers {
        assert Tracked(KIND, id, peers[id], log);
        AtMostFiveChunks(peers[id].queue);
      }
    }

    /** The transport is not read for want of room where its bytes must go. */
    predicate Paused()
      requires |header| < HEADER
      reads this
    {
      Wanted(peers, inputBytes, header, incoming) <= 0
    }

    /** Then some local socket has bytes queued, and so is watched for writing; the
        return lane plays no part. */
    lemma PausedOnLocal() returns (id: nat)
      requires Valid() && Paused()
      ensures id in peers && peers[id].bytes > 0 && forall polled :: id in Armed(polled)
    {
      id := incoming.value.id;
      assert Tracked(KIND, id, peers[id], log);
      if peers[id].bytes == 0 {
        id := TotalPositive(peers, SizeOf);
      }
    }

    // ------------------------------------------------------ opening and closing

    /** send_frame, for the step that owes it: the two limits it would die on are
        its precondition. */
    method SendFrame(f: Frame, ghost m: G.Log)
      requires Sending(output, outputBytes, log) && m.wire == log.wire && m.encoded == log.encoded + Encoded(f)
      requires outputBytes + |Encoded(f)| <= OUTPUT_LIMIT && |output.queue| < FRAMES_LIMIT
      modifies this`output, this`outputBytes
      ensures Sending(output, outputBytes, m) && outputBytes == old(outputBytes) + |Encoded(f)|
      ensures output == old(output).Pushed(Encoded(f))
    {
      PushSending(output, outputBytes, log, f, m);
      output := output.Pushed(Encoded(f));
      outputBytes := outputBytes + |Encoded(f)|;
    }

    method ClosingPeer(id: nat, notify: bool, discard: bool)
      requires Valid() && id in peers
      modifies this`peers, this`inputBytes, this`log
      ensures G.Can(old(log), G.BeginClose(id, notify, discard))
      ensures log == G.Do(old(log), G.BeginClose(id, notify, discard))
      ensures Valid() && peers == old(peers)[id := old(peers)[id].Shut(notify, discard, KIND.empty)]
      ensures !discard ==> inputBytes == old(inputBytes)
    {
      var p := peers[id];
      var q := p.(closing := true, notify := p.notify || notify);
      var total := inputBytes;
      if discard {
        total := total - p.bytes;
        q := q.(bytes := 0, queue := Backlog([], 0));
      }
      Closing(KIND, peers, inputBytes, log, id, notify, discard, total);
      Reseat(peers[id := q], total, G.Do(log, G.BeginClose(id, notify, discard)));
    }

    /** The peers after the step that takes the log to m. */
    method Reseat(ps: map<nat, Peer<Backlog>>, total: nat, ghost m: G.Log)
      requires Valid() && Peering(KIND, ps, total, m) && SameRest(log, m)
      modifies this`peers, this`inputBytes, this`log
      ensures Valid() && log == m && peers == ps && inputBytes == total
    {
      inputBytes := total;
      peers := ps;
      log := m;
    }

    /** Whether a CLOSE or OPEN frame can be queued now. */
    predicate HasRoom()
      reads this
    {
      outputBytes + HEADER <= OUTPUT_LIMIT && |output.queue| < FRAMES_LIMIT
    }

    method RetireOne(id: nat)
      requires Valid() && id in peers && peers[id].Finished() && (peers[id].notify ==> HasRoom())
      modifies this`peers, this`output, this`outputBytes, this`log
      ensures G.Can(old(log), G.Retire(id)) && log == G.Do(old(log), G.Retire(id))
      ensures Valid() && peers == old(peers) - {id} && old(outputBytes) <= outputBytes
    {
      Retire(KIND, peers, inputBytes, log, id);
      ghost var m := G.Do(log, G.Retire(id));
      if peers[id].notify {
        SendFrame(Close(id), m);
      }
      peers := peers - {id};
      log := m;
    }

    /** The body of retire_peers for one id: a finished peer is kept only if the
        CLOSE it is owed has no room. */
    method RetireIfFinished(id: nat, ghost start: G.Log, ghost was: seq<G.Act>, ghost from: map<nat, Peer<Backlog>>)
      returns (ghost acts: seq<G.Act>)
      requires Valid() && G.DoAll(start, was) == Some(log) && Thinned(from, peers)
      modifies this`peers, this`output, this`outputBytes, this`log
      ensures Valid() && G.DoAll(start, acts) == Some(log)
      ensures Thinned(from, peers) && (peers == old(peers) || peers == old(peers) - {id})
      ensures outputBytes == 0 ==> old(outputBytes) == 0 && !Waiting(peers, id)
      ensures NobodyWaits(from) ==> output == old(output) && outputBytes == old(outputBytes) && log == old(log)
    {
      acts := was;
      if Waiting(peers, id) {
        ThinnedStep(from, peers, id);
        if peers[id].notify && !HasRoom() {
          PendingFits(output);
        } else {
          RetireOne(id);
          G.DoSnoc(start, was, old(log), G.Retire(id));
          acts := acts + [G.Retire(id)];
        }
      }
    }

    /** retire_peers: afterwards a finished peer is left only for want of room. */
    method RetirePeers() returns (ghost acts: seq<G.Act>)
      requires Valid()
      modifies this`peers, this`output, this`outputBytes, this`log
      ensures G.DoAll(old(log), acts) == Some(log)
      ensures Valid()
      ensures outputBytes == 0 ==> NobodyWaits(peers)
      ensures Thinned(old(peers), peers)
      ensures NobodyWaits(old(peers)) ==> output == old(output) && outputBytes == old(outputBytes) && log == old(log)
    {
      acts := [];
      var left := peers.Keys;
      while left != {}
        invariant Valid() && G.DoAll(old(log), acts) == Some(log)
        invariant outputBytes == 0 ==> forall id :: Waiting(peers, id) ==> id in left
        invariant Thinned(old(peers), peers)
        invariant NobodyWaits(old(peers)) ==>
                    output == old(output) && outputBytes == old(outputBytes) && log == old(log)
        decreases |left|
      {
        var id := Smallest(left);
        acts := RetireIfFinished(id, old(log), acts, old(peers));
        left := left - {id};
      }
    }

    /** A waiting local connection, if there is room to announce it. */
    method AcceptPeer()
      requires Valid() && |peers| < MAX_PEERS && HasRoom()
      modifies this`peers, this`nextId, this`output, this`outputBytes, this`log
      ensures G.Can(old(log), G.Accept) && log == G.Do(old(log), G.Accept)
      ensures Valid() && nextId == old(nextId) + 1 && old(nextId) !in old(peers)
      ensures peers == old(peers)[old(nextId) := Peer(Backlog([], 0), 0, false, false)]
      ensures outputBytes == old(outputBytes) + HEADER
      ensures output == old(output).Pushed(Encoded(Open(old(nextId))))
    {
      Accept(KIND, peers, inputBytes, log);
      ghost var m := G.Do(log, G.Accept);
      var id := nextId;
      SendFrame(Open(id), m);
      Admit(peers[id := Peer(Backlog([], 0), 0, false, false)], m);
    }

    /** A new entry under the next id, with the step that takes the log to m. */
    method Admit(ps: map<nat, Peer<Backlog>>, ghost m: G.Log)
      requires Sending(output, outputBytes, m) && Peering(KIND, ps, inputBytes, m) && Framed(header, incoming, m)
      requires m.nextId == nextId + 1
      modifies this`peers, this`nextId, this`log
      ensures Valid() && log == m && peers == ps && nextId == old(nextId) + 1
    {
      nextId := nextId + 1;
      peers := ps;
      log := m;
    }

    /** closing_peer($_, notify, 0) for every peer. */
    method CloseAll(notify: bool) returns (ghost acts: seq<G.Act>)
      requires Valid()
      modifies this`peers, this`inputBytes, this`log
      ensures G.DoAll(old(log), acts) == Some(log)
      ensures Valid() && peers.Keys == old(peers).Keys
      ensures forall id | id in peers :: peers[id].closing && (notify ==> peers[id].notify)
      ensures inputBytes == old(inputBytes) && SameRest(old(log), log) && log.consumed == old(log).consumed
    {
      acts := [];
      var left := peers.Keys;
      while left != {}
        invariant Valid() && G.DoAll(old(log), acts) == Some(log)
        invariant left <= peers.Keys == old(peers).Keys && inputBytes == old(inputBytes)
        invariant SameRest(old(log), log) && log.consumed == old(log).consumed
        invariant forall id | id in peers && id !in left :: peers[id].closing && (notify ==> peers[id].notify)
        decreases |left|
      {
        var id := Smallest(left);
        ghost var mid := log;
        ClosingPeer(id, notify, false);
        G.DoSnoc(old(log), acts, mid, G.BeginClose(id, notify, false));
        acts := acts + [G.BeginClose(id, notify, false)];
        left := left - {id};
      }
    }

    // --------------------------------------------------------------- the transport

    /** Payload bytes to their peer's queue, or dropped. */
    method Enqueue(id: nat, data: seq<Byte>)
      requires Peering(KIND, peers, inputBytes, log) && G.Can(log, G.TakeData(id, data))
      requires 0 < |data| <= CHUNK && |data| <= Space(peers, inputBytes, id, |data|)
      modifies this`peers, this`inputBytes
      ensures Peering(KIND, peers, inputBytes, G.Do(log, G.TakeData(id, data)))
    {
      if id in peers && !peers[id].closing {
        AppendPeering(peers, inputBytes, log, id, data);
        var p := peers[id];
        inputBytes := inputBytes + |data|;
        peers := peers[id := p.(queue := p.queue.Appended(data), bytes := p.bytes + |data|)];
      } else {
        Drop(KIND, peers, inputBytes, log, id, data);
      }
    }

    method TakePayload(data: seq<Byte>)
      requires Valid() && incoming.Some? && 0 < |data| <= incoming.value.left && |data| <= CHUNK
      requires |data| <= Space(peers, inputBytes, incoming.value.id, |data|)
      modifies this`peers, this`inputBytes, this`header, this`incoming, this`log
      ensures var a := G.TakeData(old(incoming).value.id, data); G.Can(old(log), a) && log == G.Do(old(log), a)
      ensures Valid()
    {
      var id, left := incoming.value.id, incoming.value.left;
      PayloadSays(log, incoming.value, data);
      Enqueue(id, data);
      incoming := Expected(id, left - |data|);
      Proceed([], G.Do(log, G.TakeData(id, data)));
    }

    /** What a complete header asks for. */
    method Obey(said: Said, data: seq<Byte>)
      requires Peering(KIND, peers, inputBytes, log) && incoming.None? && G.Can(log, StepOf(said, data))
      modifies this`peers, this`incoming
      ensures Peering(KIND, peers, inputBytes, G.Do(log, StepOf(said, data)))
      ensures incoming == IncomingAfter(said)
    {
      match said
      case CloseOf(id) =>
        HostClose(KIND, peers, inputBytes, log, id, data);
        if id in peers {
          peers := peers[id := peers[id].(closing := true)];
        }
      case DataOf(id, length) =>
        Idle(KIND, peers, inputBytes, log, G.Do(log, StepOf(said, data)));
        incoming := Expected(id, length);
      case _ =>
        Idle(KIND, peers, inputBytes, log, G.Do(log, StepOf(said, data)));
    }

    /** Header bytes; a complete header is acted on at once. */
    method TakeHeader(data: seq<Byte>) returns (ok: bool, ghost acts: seq<G.Act>)
      requires Valid() && incoming.None? && 0 < |data| <= HEADER - |header|
      modifies this`peers, this`header, this`incoming, this`log
      ensures G.DoAll(old(log), acts) == Some(log)
      ensures ok ==> Valid() && log.consumed == old(log).consumed + data
      ensures !ok ==> log == old(log) && ScanFrom(false, old(log).scanned, data).place.Bad?
    {
      var said := Says(header + data);
      HeaderSays(log, header, data, said);
      ok, acts := !said.Invalid?, [];
      if said.Invalid? {
        return;
      }
      acts := [StepOf(said, data)];
      G.DoOne(log, acts[0]);
      Obey(said, data);
      Proceed(HeaderAfter(said, header, data), G.Do(log, StepOf(said, data)));
    }

    /** The parser goes on from the step that takes the log to m. */
    method Proceed(rest: seq<Byte>, ghost m: G.Log)
      requires Sending(output, outputBytes, log) && nextId == log.nextId && SameSent(log, m)
      requires Peering(KIND, peers, inputBytes, m) && Framed(rest, incoming, m)
      modifies this`header, this`log
      ensures Valid() && log == m
    {
      header := rest;
      log := m;
    }

    /** The transport's end, between frames: every peer begins to close. */
    method EndTransport() returns (ghost acts: seq<G.Act>)
      requires Valid()
      modifies this`peers, this`inputBytes, this`transportEof, this`atEnd, this`log
      ensures G.DoAll(old(log), acts) == Some(log)
      ensures Valid() && transportEof && atEnd == log && G.Quiet(log) && forall id | id in peers :: peers[id].closing
      ensures peers.Keys == old(peers).Keys && inputBytes == old(inputBytes)
    {
      transportEof := true;
      acts := CloseAll(false);
      AllShut(KIND, peers, inputBytes, log);
      atEnd := log;
    }

    /** One read of the transport.  A frame is refused only for its own bytes. */
    method ReadTransport(o: ReadOutcome) returns (r: Turn, ghost acts: seq<G.Act>, ghost taken: seq<Byte>)
      requires Valid() && !transportEof
      modifies this`peers, this`inputBytes, this`header, this`incoming, this`transportEof, this`atEnd, this`log
      ensures G.DoAll(old(log), acts) == Some(log)
      ensures taken <= Offered(o)
      ensures r.Again? ==> Valid()
      ensures !r.Again? ==> r.Failed? && log == old(log)
      ensures r == Failed(BadHeader) ==> ScanFrom(false, log.scanned, taken).place.Bad?
      ensures r.Failed? ==>
                || (r.cause == BadHeader && o.Avail?)
                || (r.cause == BadRead && (o.ReadFailed? || (o.Eof? && !(old(header) == [] && old(incoming).None?))))
      ensures r.Again? ==> (transportEof <==> o.Eof? && old(header) == [] && old(incoming).None?)
      ensures o.Eof? && old(header) == [] && old(incoming).None? ==> r.Again?
      ensures r.Again? && transportEof ==> atEnd == log && G.Quiet(log) && forall id | id in peers :: peers[id].closing
      ensures r.Again? && o.Eof? ==> header == old(header) && incoming == old(incoming)
      ensures r.Again? && o.Eof? ==> peers.Keys == old(peers).Keys && inputBytes == old(inputBytes)
    {
      r, acts, taken := Again, [], [];
      if Paused() {
        return;
      }
      var size := Wanted(peers, inputBytes, header, incoming);
      match o
      case ReadBlocked =>
      case ReadFailed => r := Failed(BadRead);
      case Eof =>
        if header != [] || incoming.Some? {
          r := Failed(BadRead);
        } else {
          acts := EndTransport();
        }
      case Avail(_, _) =>
        var data := Got(o, size);
        taken := data;
        if incoming.None? {
          var ok;
          ok, acts := TakeHeader(data);
          r := if ok then Again else Failed(BadHeader);
        } else {
          acts := [G.TakeData(incoming.value.id, data)];
          TakePayload(data);
          G.DoOne(old(log), acts[0]);
        }
    }

    // ---------------------------------------------------------- writes and reads

    /** The return lane after the step that takes the log to m. */
    method Adopt(out: Backlog, bytes: nat, ghost m: G.Log)
      requires Valid() && Sending(out, bytes, m) && Peering(KIND, peers, inputBytes, m)
      requires m.scanned == log.scanned && m.nextId == log.nextId
      modifies this`output, this`outputBytes, this`log
      ensures Valid() && log == m && output == out && outputBytes == bytes
    {
      outputBytes := bytes;
      output := out;
      log := m;
    }

    method Emit(n: nat)
      requires Valid() && n <= output.Front()
      modifies this`output, this`outputBytes, this`log
      ensures G.Can(old(log), G.WriteWire(n)) && log == G.Do(old(log), G.WriteWire(n))
      ensures Valid() && outputBytes == old(outputBytes) - n
    {
      WriteSending(output, outputBytes, log, n);
      ghost var m := G.Do(log, G.WriteWire(n));
      Idle(KIND, peers, inputBytes, log, m);
      Adopt(output.Written(n), outputBytes - n, m);
    }

    method WriteTransport(o: WriteOutcome) returns (ok: bool, ghost acts: seq<G.Act>)
      requires Valid() && outputBytes > 0
      modifies this`output, this`outputBytes, this`log
      ensures G.DoAll(old(log), acts) == Some(log)
      ensures Valid() && (ok <==> !Fails(o))
      ensures outputBytes == old(outputBytes) - Count(o, Offer(old(output)))
      ensures ok && o.Wrote? ==> |old(log).wire| < |log.wire|
      ensures |old(log).wire| <= |log.wire| && log.encoded == old(log).encoded
    {
      FrontBound(output, outputBytes);
      var n := Count(o, Offer(output));
      ok := o.WriteBlocked? || n > 0;
      Emit(n);
      acts := [G.WriteWire(n)];
      G.DoOne(old(log), acts[0]);
    }

    /** How much of the front frame one write offers. */
    function Offer(out: Backlog): nat { if out.Front() > CHUNK then CHUNK else out.Front() }

    method Drain(id: nat, n: nat)
      requires Valid() && id in peers && n <= peers[id].queue.Front()
      modifies this`peers, this`inputBytes, this`log
      ensures G.Can(old(log), G.WritePeer(id, n)) && log == G.Do(old(log), G.WritePeer(id, n))
      ensures Valid() && peers.Keys == old(peers).Keys && peers == old(peers)[id := peers[id]]
      ensures peers[id].closing == old(peers)[id].closing
    {
      var p := peers[id];
      WritePeering(peers, inputBytes, log, id, n);
      Reseat(peers[id := p.(queue := p.queue.Written(n), bytes := p.bytes - n)], inputBytes - n,
             G.Do(log, G.WritePeer(id, n)));
    }

    /** One write to a local socket; a failure closes the stream and drops its
        queue. */
    method WritePeer(id: nat, o: WriteOutcome) returns (ghost acts: seq<G.Act>)
      requires Valid() && id in peers && peers[id].bytes > 0
      modifies this`peers, this`inputBytes, this`log
      ensures G.DoAll(old(log), acts) == Some(log)
      ensures Valid()
      ensures o.WriteBlocked? ==> acts == []
      ensures (o.WriteFailed? || o == Wrote(0)) ==> acts == [G.BeginClose(id, true, true)]
      ensures o.Wrote? && o.count > 0 ==> exists n | 0 < n <= o.count :: acts == [G.WritePeer(id, n)]
      ensures peers.Keys == old(peers).Keys && peers == old(peers)[id := peers[id]]
      ensures (old(peers)[id].closing ==> peers[id].closing)
      ensures log.wire == old(log).wire && log.encoded == old(log).encoded
    {
      acts := [];
      assert peers[id := peers[id]] == peers;
      if o.WriteBlocked? {
        return;
      }
      assert Tracked(KIND, id, peers[id], log);
      FrontBound(peers[id].queue, peers[id].bytes);
      var n := Count(o, peers[id].queue.Front());
      if n == 0 {
        ClosingPeer(id, true, true);
        acts := [G.BeginClose(id, true, true)];
      } else {
        Drain(id, n);
        acts := [G.WritePeer(id, n)];
      }
      G.DoOne(old(log), acts[0]);
    }

    method SendData(id: nat, data: seq<Byte>)
      requires Valid() && id in peers && !peers[id].closing && 0 < |data| <= CHUNK
      requires outputBytes + |data| + HEADER <= OUTPUT_LIMIT && |output.queue| < FRAMES_LIMIT
      modifies this`output, this`outputBytes, this`log
      ensures G.Can(old(log), G.ReadPeer(id, data)) && log == G.Do(old(log), G.ReadPeer(id, data))
      ensures Valid()
    {
      ReadFrom(KIND, peers, inputBytes, log, id, data);
      ghost var m := G.Do(log, G.ReadPeer(id, data));
      SendFrame(Data(id, data), m);
      log := m;
    }

    /** One read of a local socket, when a whole chunk would fit the return lane. */
    method ReadPeer(id: nat, o: ReadOutcome) returns (ghost acts: seq<G.Act>)
      requires Valid() && id in peers && !peers[id].closing
      requires outputBytes + CHUNK + HEADER <= OUTPUT_LIMIT && |output.queue| < FRAMES_LIMIT
      modifies this`peers, this`inputBytes, this`output, this`outputBytes, this`log
      ensures G.DoAll(old(log), acts) == Some(log)
      ensures Valid()
      ensures o.ReadBlocked? ==> acts == []
      ensures o.Eof? || o.ReadFailed? ==> acts == [G.BeginClose(id, true, false)]
      ensures o.Avail? ==> acts == [G.ReadPeer(id, Got(o, CHUNK))]
    {
      acts := [];
      match o
      case ReadBlocked =>
      case Avail(_, _) =>
        var data := Got(o, CHUNK);
        SendData(id, data);
        acts := [G.ReadPeer(id, data)];
        G.DoOne(old(log), acts[0]);
      case _ =>
        ClosingPeer(id, true, false);
        acts := [G.BeginClose(id, true, false)];
        G.DoOne(old(log), acts[0]);
    }

    // -------------------------------------------------------------------- the loop

    /** A local socket may be read: it is open and the return lane has room. */
    predicate Readable(id: nat)
      reads this
    {
      id in peers && !peers[id].closing &&
      outputBytes + CHUNK + HEADER <= OUTPUT_LIMIT && |output.queue| < FRAMES_LIMIT
    }

    ghost predicate SealedNow()
      reads this
    {
      Sealed(transportEof, childExited, atEnd.nextId, nextId, peers)
    }

    /** The ids poll was asked about: none of them was accepted after the transport's
        end. */
    ghost predicate Watched(armed: set<nat>)
      reads this
    {
      forall id | id in armed :: id < nextId && (transportEof && !childExited ==> id < atEnd.nextId)
    }

    /** The return lane is as it was. */
    predicate SameLane(out: Backlog, bytes: nat)
      reads this
    {
      output == out && outputBytes == bytes
    }

    /** The parser is between two frames. */
    predicate Between()
      reads this
    {
      header == [] && incoming.None?
    }

    /** No connection can be taken now. */
    predicate Full()
      reads this
    {
      |peers| >= MAX_PEERS || !HasRoom()
    }

    /** Where a pass over ready descriptors has come to after the first n of them: if the
        transport's end was among what it read (it was `between` frames before), the log
        tells when; and if no connection was taken since although one waited, there is no
        room for it. */
    ghost predicate Passed(start: G.Log, between: bool, w: World, n: nat)
      requires n <= |w.order|
      reads this
    {
      && (transportEof <==> between && w.read.Eof? && LaneAmong(w.order, n))
      && (w.read.Eof? ==> between == (header == [] && incoming.None?))
      && (transportEof ==> EndPass(start, atEnd, log, w, n))
      && (transportEof && nextId == atEnd.nextId && w.connection && ServerAfter(w.order, n) ==> Full())
    }

    /** A connection taken during a pass: the transport's end, if it was read, is still where
        it was, and the new peer was not polled for. */
    method TakeConnection(ghost armed: set<nat>) returns (ghost acts: seq<G.Act>)
      requires Valid() && SealedNow() && Watched(armed) && !Full()
      modifies this`peers, this`nextId, this`output, this`outputBytes, this`log
      ensures acts == [G.Accept] && G.DoAll(old(log), acts) == Some(log) && log == G.Do(old(log), G.Accept)
      ensures Valid() && SealedNow() && Watched(armed) && nextId == old(nextId) + 1
    {
      ghost var ps := peers;
      acts := [G.Accept];
      assert G.DoAll(log, acts) == Some(G.Do(log, G.Accept)) by { G.DoOne(log, G.Accept); }
      AcceptPeer();
      assert SealedNow() by {
        SealedAccept(transportEof, childExited, atEnd.nextId, old(nextId), ps, Backlog([], 0));
      }
    }

    /** The listening socket: a waiting connection is taken if it was polled for and
        there is room to announce it. */
    method ReadServer(polled: bool, ghost armed: set<nat>, w: World, ghost i: nat, ghost start: G.Log,
                      ghost between: bool)
      returns (ghost acts: seq<G.Act>)
      requires Valid() && SealedNow() && Watched(armed)
      requires i < |w.order| && w.order[i].Server? && (polled ==> Passed(start, between, w, i))
      modifies this`peers, this`nextId, this`output, this`outputBytes, this`log
      ensures G.DoAll(old(log), acts) == Some(log)
      ensures Valid() && SealedNow() && Watched(armed) && (polled ==> Passed(start, between, w, i + 1))
      ensures acts == if polled && !old(Full()) && w.connection then [G.Accept] else []
      ensures nextId == old(nextId) + |acts| && (acts == [] ==> log == old(log))
    {
      acts := [];
      LaneNext(w.order, i);
      ServerNext(w.order, i);
      if polled && transportEof {
        EndPassNext(start, atEnd, log, w, i);
      }
      if polled && !Full() && w.connection {
        acts := TakeConnection(armed);
      }
    }

    /** The transport, if it was polled for. */
    method ReadLane(polled: bool, ghost armed: set<nat>, w: World, ghost i: nat, ghost start: G.Log,
                    ghost was: seq<G.Act>, ghost between: bool)
      returns (r: Turn, ghost acts: seq<G.Act>, ghost refused: seq<Byte>)
      requires Valid() && SealedNow() && Watched(armed) && G.DoAll(start, was) == Some(log)
      requires i < |w.order| && w.order[i].Transport? && (polled ==> Passed(start, between, w, i))
      modifies this`peers, this`inputBytes, this`header, this`incoming, this`transportEof, this`atEnd, this`log
      ensures G.DoAll(old(log), acts) == Some(log)
      ensures r.Again? ==> Valid() && SealedNow() && Watched(armed) && (polled ==> Passed(start, between, w, i + 1))
      ensures r.Again? || (r.Failed? && Blamed(r.cause, w, between))
      ensures r == Failed(BadHeader) ==> ScanFrom(false, log.scanned, refused).place.Bad? && refused <= Offered(w.read)
      ensures !polled ==>
                && transportEof == old(transportEof) && atEnd == old(atEnd)
                && peers == old(peers) && inputBytes == old(inputBytes) && log == old(log)
      ensures polled && r.Again? && transportEof ==> atEnd == if old(transportEof) then old(atEnd) else log
    {
      r, acts, refused := Again, [], [];
      LaneNext(w.order, i);
      ServerNext(w.order, i);
      if polled && !transportEof {
        r, acts, refused := ReadTransport(w.read);
        if r.Again? {
          Numbered(KIND, peers, inputBytes, log);
          G.DoAppend(start, was, old(log), acts);
        }
      }
    }

    /** A local socket, if it was polled for and still may be read.  After the
        transport's end it may not. */
    method ReadLocal(id: nat, ghost polled: bool, armed: set<nat>, w: World, ghost i: nat, ghost start: G.Log,
                     ghost between: bool)
      returns (ghost acts: seq<G.Act>)
      requires Valid() && SealedNow() && Watched(armed)
      requires i < |w.order| && w.order[i] == Local(id) && (polled ==> !childExited && Passed(start, between, w, i))
      modifies this`peers, this`inputBytes, this`output, this`outputBytes, this`log
      ensures G.DoAll(old(log), acts) == Some(log)
      ensures Valid() && SealedNow() && Watched(armed) && (polled ==> Passed(start, between, w, i + 1))
      ensures id in armed && old(Readable(id)) && !w.peerRead(id).ReadBlocked? ==> acts != []
      ensures transportEof && !childExited ==> log == old(log)
    {
      acts := [];
      LaneNext(w.order, i);
      ServerNext(w.order, i);
      if id in armed && Readable(id) {
        acts := ReadPeer(id, w.peerRead(id));
      }
    }

    /** The next ready descriptor; `polled` says the transport and the listening socket
        were polled for, `armed` which local sockets were. */
    method ReadOne(w: World, i: nat, polled: bool, armed: set<nat>, ghost start: G.Log, ghost was: seq<G.Act>,
                   ghost between: bool)
      returns (r: Turn, ghost acts: seq<G.Act>, ghost refused: seq<Byte>)
      requires Valid() && SealedNow() && Watched(armed) && G.DoAll(start, was) == Some(log)
      requires i < |w.order| && (polled ==> !childExited && Passed(start, between, w, i))
      modifies this`peers, this`nextId, this`output, this`outputBytes, this`inputBytes, this`header, this`incoming,
               this`transportEof, this`atEnd, this`log
      ensures G.DoAll(start, acts) == Some(log)
      ensures r.Again? ==> Valid() && SealedNow() && Watched(armed) && (polled ==> Passed(start, between, w, i + 1))
      ensures r.Again? || (r.Failed? && Blamed(r.cause, w, between))
      ensures r == Failed(BadHeader) ==> ScanFrom(false, log.scanned, refused).place.Bad? && refused <= Offered(w.read)
      ensures !polled ==> nextId == old(nextId) && transportEof == old(transportEof) && atEnd == old(atEnd)
      ensures !polled && transportEof && !childExited ==> log == old(log)
      ensures w.order[i].Server? ==>
                acts == was +
                  if polled && !old(Full()) && w.connection then [G.Accept] else []
      ensures w.order[i].Local? && w.order[i].id in armed && old(Readable(w.order[i].id)) ==>
                w.peerRead(w.order[i].id).ReadBlocked? || acts != was
      ensures r.Again? && transportEof && polled ==>
                old(nextId) <= nextId && atEnd.nextId == if old(transportEof) then old(atEnd).nextId else old(nextId)
    {
      r, refused := Again, [];
      ghost var more := [];
      match w.order[i] {
        case Server => more := ReadServer(polled, armed, w, i, start, between);
        case Transport => r, more, refused := ReadLane(polled, armed, w, i, start, was, between);
        case Local(id) => more := ReadLocal(id, polled, armed, w, i, start, between);
      }
      G.DoAppend(start, was, old(log), more);
      acts := was + more;
    }

    /** The descriptors ready for reading, in any order; the steps go on from `was`. */
    method ReadPhase(polled: bool, armed: set<nat>, w: World, ghost start: G.Log, ghost was: seq<G.Act>)
      returns (r: Turn, ghost acts: seq<G.Act>, ghost refused: seq<Byte>)
      requires Valid() && SealedNow() && Watched(armed) && (polled ==> !transportEof && !childExited)
      requires G.DoAll(start, was) == Some(log)
      modifies this`peers, this`nextId, this`output, this`outputBytes, this`inputBytes, this`header, this`incoming,
               this`transportEof, this`atEnd, this`log
      ensures G.DoAll(start, acts) == Some(log)
      ensures r.Again? ==> Valid() && SealedNow()
      ensures r.Again? || (r.Failed? && Blamed(r.cause, w, old(Between())))
      ensures r == Failed(BadHeader) ==> ScanFrom(false, log.scanned, refused).place.Bad? && refused <= Offered(w.read)
      ensures !polled ==> nextId == old(nextId) && transportEof == old(transportEof) && atEnd == old(atEnd)
      ensures !polled && transportEof && !childExited ==> log == old(log)
      ensures r.Again? && polled ==> Passed(start, old(Between()), w, |w.order|)
      ensures r.Again? && polled && transportEof && EndLeads(w) ==> atEnd.nextId == old(nextId)
    {
      r, acts, refused := Again, was, [];
      for i := 0 to |w.order|
        invariant r.Again? && Valid() && SealedNow() && Watched(armed) && G.DoAll(start, acts) == Some(log)
        invariant !polled ==> nextId == old(nextId) && transportEof == old(transportEof) && atEnd == old(atEnd)
        invariant !polled && transportEof && !childExited ==> log == old(log)
        invariant polled ==> Passed(start, old(Between()), w, i)
        invariant i == 0 ==> nextId == old(nextId)
        invariant polled && transportEof && EndLeads(w) ==> atEnd.nextId == old(nextId)
      {
        assert i > 0 && w.order[0].Transport? ==> LaneAmong(w.order, i);
        r, acts, refused := ReadOne(w, i, polled, armed, start, acts, old(Between()));
        if !r.Again? {
          return;
        }
      }
    }

    /** The transport, when something is queued for it. */
    method WriteLane(w: World) returns (r: Turn, ghost acts: seq<G.Act>)
      requires Valid()
      modifies this`output, this`outputBytes, this`log
      ensures G.DoAll(old(log), acts) == Some(log)
      ensures Valid() && |old(log).wire| <= |log.wire| && log.encoded == old(log).encoded
      ensures r == if old(outputBytes > 0) && Fails(w.write) then Failed(BadWrite) else Again
      ensures old(outputBytes > 0) && w.write.Wrote? && r.Again? ==> |old(log).wire| < |log.wire|
    {
      r, acts := Again, [];
      if outputBytes > 0 {
        var ok;
        ok, acts := WriteTransport(w.write);
        r := if ok then Again else Failed(BadWrite);
      }
    }

    /** A local socket, when something is queued for it. */
    method WriteLocal(id: nat, w: World) returns (ghost acts: seq<G.Act>)
      requires Valid() && SealedNow()
      modifies this`peers, this`inputBytes, this`log
      ensures G.DoAll(old(log), acts) == Some(log)
      ensures Valid() && SealedNow() && log.wire == old(log).wire && log.encoded == old(log).encoded
      ensures acts != [] <==> id in old(peers) && old(peers)[id].bytes > 0 && !w.peerWrite(id).WriteBlocked?
    {
      acts := [];
      if id in peers && peers[id].bytes > 0 {
        ghost var ps := peers;
        acts := WritePeer(id, w.peerWrite(id));
        SealedWrite(transportEof, childExited, atEnd.nextId, nextId, ps, id, peers[id]);
      }
    }

    /** One descriptor ready for writing. */
    method WriteOne(target: Source, w: World) returns (r: Turn, ghost acts: seq<G.Act>)
      requires Valid() && SealedNow()
      modifies this`peers, this`inputBytes, this`output, this`outputBytes, this`log
      ensures G.DoAll(old(log), acts) == Some(log)
      ensures Valid() && SealedNow() && |old(log).wire| <= |log.wire| && log.encoded == old(log).encoded
      ensures r == if target.Transport? && old(outputBytes > 0) && Fails(w.write) then Failed(BadWrite) else Again
      ensures target.Transport? && old(outputBytes > 0) && w.write.Wrote? && r.Again? ==> |old(log).wire| < |log.wire|
      ensures !target.Transport? ==> output == old(output) && outputBytes == old(outputBytes)
    {
      r, acts := Again, [];
      match target
      case Server =>
      case Transport => r, acts := WriteLane(w);
      case Local(id) => acts := WriteLocal(id, w);
    }

    /** What a write phase that began with `start` has come to; `seen` says that the
        transport had its turn. */
    ghost predicate Progress(start: G.Log, out: Backlog, bytes: nat, w: World, seen: bool, acts: seq<G.Act>)
      reads this
    {
      && G.DoAll(start, acts) == Some(log) && |start.wire| <= |log.wire| && log.encoded == start.encoded
      && (!seen ==> output == out && outputBytes == bytes)
      && (seen && bytes > 0 && w.write.Wrote? ==> |start.wire| < |log.wire|)
    }

    /** The next of them. */
    method WriteNext(target: Source, w: World, ghost start: G.Log, ghost out: Backlog, ghost bytes: nat,
                     ghost seen: bool, ghost was: seq<G.Act>)
      returns (r: Turn, ghost acts: seq<G.Act>)
      requires Valid() && SealedNow() && Progress(start, out, bytes, w, seen, was)
      modifies this`peers, this`inputBytes, this`output, this`outputBytes, this`log
      ensures Valid() && SealedNow() && (r.Again? || r == Failed(BadWrite)) && G.DoAll(start, acts) == Some(log)
      ensures |start.wire| <= |log.wire| && log.encoded == start.encoded
      ensures r.Again? ==> Progress(start, out, bytes, w, seen || target.Transport?, acts)
      ensures r.Again? && !seen && target.Transport? && bytes > 0 ==> !Fails(w.write)
      ensures r.Failed? ==> Fails(w.write)
    {
      ghost var mid, more := log, [];
      r, more := WriteOne(target, w);
      G.DoAppend(start, was, mid, more);
      acts := was + more;
    }

    /** The descriptors ready for writing, in any order. */
    method WritePhase(w: World) returns (r: Turn, ghost acts: seq<G.Act>)
      requires Valid() && SealedNow()
      modifies this`peers, this`inputBytes, this`output, this`outputBytes, this`log
      ensures G.DoAll(old(log), acts) == Some(log)
      ensures Valid() && SealedNow() && (r.Again? || r == Failed(BadWrite))
      ensures LaneAmong(w.writes, |w.writes|) && old(outputBytes > 0) && Fails(w.write) ==> r == Failed(BadWrite)
      ensures LaneAmong(w.writes, |w.writes|) && old(outputBytes > 0) && w.write.Wrote? && r.Again? ==>
                |old(log).wire| < |log.wire|
      ensures r.Failed? ==> Fails(w.write)
      ensures |old(log).wire| <= |log.wire| && log.encoded == old(log).encoded
    {
      r, acts := Again, [];
      ghost var seen := false;
      for i := 0 to |w.writes|
        invariant r.Again? && Valid() && SealedNow()
        invariant Progress(old(log), old(output), old(outputBytes), w, seen, acts)
        invariant seen <==> LaneAmong(w.writes, i)
        invariant seen && old(outputBytes > 0) ==> !Fails(w.write)
      {
        r, acts := WriteNext(w.writes[i], w, old(log), old(output), old(outputBytes), seen, acts);
        if !r.Again? {
          return;
        }
        LaneNext(w.writes, i);
        seen := seen || w.writes[i].Transport?;
      }
    }

    /** The child's exit, when it is noticed, closes every stream. */
    method NoticeExit(w: World) returns (ghost acts: seq<G.Act>)
      requires Valid() && Exited(childExited, {}, log) && SealedNow()
      modifies this`peers, this`inputBytes, this`childExited, this`log
      ensures G.DoAll(old(log), acts) == Some(log)
      ensures Valid() && Exited(childExited, {}, log) && SealedNow()
      ensures childExited == (old(childExited) || w.childGone)
      ensures old(childExited) || !w.childGone ==>
                peers == old(peers) && inputBytes == old(inputBytes) && log == old(log)
    {
      acts := [];
      if !childExited && w.childGone {
        childExited := true;
        acts := CloseAll(false);
        AllShut(KIND, peers, inputBytes, log);
      }
    }

    /** Finished peers are retired; neither end is undone by it. */
    method Thin() returns (ghost acts: seq<G.Act>)
      requires Valid() && Exited(childExited, {}, log) && SealedNow()
      modifies this`peers, this`output, this`outputBytes, this`log
      ensures G.DoAll(old(log), acts) == Some(log)
      ensures Valid() && Exited(childExited, {}, log) && SealedNow()
      ensures outputBytes == 0 ==> NobodyWaits(peers)
      ensures NobodyWaits(old(peers)) ==>
                peers == old(peers) && log == old(log) && SameLane(old(output), old(outputBytes))
    {
      ghost var ps := peers;
      acts := RetirePeers();
      assert SealedNow() by { SealedThinned(transportEof, childExited, atEnd.nextId, nextId, ps, peers); }
      assert NobodyWaits(ps) ==> peers == ps by { ThinnedNone(ps, peers); }
      ExitedStays(childExited, {}, old(log), acts);
    }

    /** The child's exit is noticed, and finished peers are retired. */
    method Clear(w: World) returns (ghost acts: seq<G.Act>)
      requires Valid() && Exited(childExited, {}, log) && SealedNow()
      modifies this`peers, this`inputBytes, this`output, this`outputBytes, this`childExited, this`log
      ensures G.DoAll(old(log), acts) == Some(log)
      ensures Valid() && Exited(childExited, {}, log) && SealedNow()
      ensures childExited == (old(childExited) || w.childGone)
      ensures outputBytes == 0 ==> NobodyWaits(peers)
      ensures (old(childExited) || !w.childGone) && NobodyWaits(old(peers)) ==>
                && peers == old(peers) && inputBytes == old(inputBytes) && log == old(log)
                && SameLane(old(output), old(outputBytes))
    {
      acts := NoticeExit(w);
      ghost var mid, more := log, [];
      more := Thin();
      G.DoAppend(old(log), acts, mid, more);
      acts := acts + more;
    }

    /** The top of the loop: notice the child's exit, retire, and see whether all is
        done.  Done means that no peer is left, except those accepted after the
        transport's end while the child still runs. */
    method Settle(w: World) returns (r: Turn, ghost acts: seq<G.Act>)
      requires Valid() && Exited(childExited, {}, log) && SealedNow()
      modifies this`peers, this`inputBytes, this`output, this`outputBytes, this`childExited, this`log
      ensures G.DoAll(old(log), acts) == Some(log)
      ensures Valid() && Exited(childExited, {}, log) && SealedNow()
      ensures childExited == (old(childExited) || w.childGone)
      ensures r == if (transportEof || childExited) && inputBytes == 0 && outputBytes == 0 then Drained else Again
      ensures r.Drained? ==> log.wire == log.encoded
      ensures r.Drained? ==> (AllGone(log) <==> childExited || nextId == atEnd.nextId)
      ensures (old(childExited) || !w.childGone) && NobodyWaits(old(peers)) ==>
                && peers == old(peers) && inputBytes == old(inputBytes) && log == old(log)
                && SameLane(old(output), old(outputBytes))
    {
      r := Again;
      acts := Clear(w);
      if (transportEof || childExited) && inputBytes == 0 && outputBytes == 0 {
        r := Drained;
        Flushed(output, log);
        if childExited {
          NobodyLeft(KIND, peers, log);
        } else {
          LeftOpen(KIND, peers, log, atEnd.nextId);
        }
      }
    }

    /** The ids poll is asked about. */
    function Armed(polled: bool): set<nat>
      reads this
    {
      set id | id in peers && (peers[id].bytes > 0 || (polled && Readable(id)))
    }

    /** The transport and the listening socket are polled for. */
    predicate Polls()
      reads this
    {
      !transportEof && !childExited
    }

    /** The local sockets poll is asked about. */
    method Arm(polled: bool) returns (armed: set<nat>)
      requires Valid() && SealedNow() && (polled ==> !transportEof)
      ensures armed == Armed(polled) && Watched(armed)
    {
      Numbered(KIND, peers, inputBytes, log);
      armed := Armed(polled);
    }

    /** After the transport's end, with nothing to write locally and nobody to retire:
        only the return lane is left to write. */
    ghost predicate Resting()
      reads this
    {
      transportEof && inputBytes == 0 && NobodyWaits(peers)
    }

    /** No frame was queued, and one that was waiting moved if the transport took any of it. */
    ghost predicate Drains(l: G.Log, w: World)
      reads this
    {
      log.encoded == l.encoded && (LaneAmong(w.writes, |w.writes|) && w.write.Wrote? ==> |l.wire| < |log.wire|)
    }

    /** What poll found ready is written and read. */
    method Serve(w: World) returns (r: Turn, ghost acts: seq<G.Act>, ghost refused: seq<Byte>)
      requires Valid() && SealedNow()
      modifies this`peers, this`nextId, this`output, this`outputBytes, this`inputBytes, this`header, this`incoming,
               this`transportEof, this`atEnd, this`log
      ensures G.DoAll(old(log), acts) == Some(log)
      ensures r.Again? ==> Valid() && SealedNow()
      ensures r.Again? || (r.Failed? && Blamed(r.cause, w, old(Between())))
      ensures r == Failed(BadHeader) ==> ScanFrom(false, log.scanned, refused).place.Bad? && refused <= Offered(w.read)
      ensures !old(Polls()) ==> nextId == old(nextId) && transportEof == old(transportEof) && atEnd == old(atEnd)
      ensures r.Again? && old(Polls()) ==> Passed(old(log), old(Between()), w, |w.order|)
      ensures r.Again? && old(transportEof) && !childExited && old(outputBytes) > 0 ==> Drains(old(log), w)
      ensures r.Again? && old(Polls()) && transportEof && EndLeads(w) ==> atEnd.nextId == old(nextId)
    {
      refused := [];
      var polled := Polls();
      var armed := Arm(polled);
      r, acts := WritePhase(w);
      if !r.Again? {
        return;
      }
      r, acts, refused := ReadPhase(polled, armed, w, old(log), acts);
    }

    /** A turn that began at `start` reads the transport's end exactly if the end is there to
        be read and neither the end nor the child's exit is known; then the log tells when,
        and if no connection was taken since although one waited, there is no room. */
    ghost predicate EndTold(start: G.Log, known: bool, between: bool, w: World)
      reads this
    {
      && (transportEof <==> known || (EndReady(w) && between && !childExited))
      && (transportEof && !known ==>
            && EndPass(start, atEnd, log, w, |w.order|)
            && (nextId == atEnd.nextId && w.connection && ServerAfter(w.order, |w.order|) ==> Full()))
    }

    /** What the poll brings, after `was` steps since `start`: an interruption, a hangup, an
        error, or ready descriptors. */
    method Poll(w: World, ghost start: G.Log, ghost was: seq<G.Act>)
      returns (r: Turn, ghost acts: seq<G.Act>, ghost refused: seq<Byte>)
      requires Valid() && Exited(childExited, {}, log) && SealedNow() && G.DoAll(start, was) == Some(log)
      modifies this`peers, this`nextId, this`output, this`outputBytes, this`inputBytes, this`header, this`incoming,
               this`transportEof, this`atEnd, this`log
      ensures G.DoAll(start, acts) == Some(log)
      ensures r.Again? ==> Valid() && Exited(childExited, {}, log) && SealedNow()
      ensures r.Again? || (r.HungUp? && w.hangup) || (r.Failed? && Blamed(r.cause, w, old(Between())))
      ensures r == Failed(BadHeader) ==> ScanFrom(false, log.scanned, refused).place.Bad? && refused <= Offered(w.read)
      ensures r.Again? ==> EndTold(start, old(transportEof), old(Between()), w)
      ensures old(transportEof) ==> atEnd == old(atEnd) && (r.Again? ==> nextId == old(nextId))
      ensures r.Again? && old(transportEof) && !childExited && old(outputBytes) > 0 && !w.interrupted ==>
                Drains(old(log), w)
      ensures r.Again? && transportEof && !old(transportEof) && EndLeads(w) ==> atEnd.nextId == old(nextId)
    {
      r, acts, refused := Again, was, [];
      if w.interrupted {
        return;
      }
      if w.hangup || w.failed {
        r := if w.failed then Failed(BadPoll) else HungUp;
        return;
      }
      ghost var more;
      r, more, refused := Serve(w);
      G.DoAppend(start, was, old(log), more);
      if r.Again? && transportEof && !old(transportEof) {
        EndPassFrom(start, was, old(log), atEnd, log, w, |w.order|);
      }
      assert r.Again? ==> Exited(childExited, {}, log) by {
        if r.Again? { ExitedStays(childExited, {}, old(log), more); }
      }
      acts := was + more;
    }

    /** One turn of the relay, whatever the world does.  The turn that reads the
        transport's end says when it did, and what came after. */
    method Iterate(w: World) returns (r: Turn, ghost acts: seq<G.Act>, ghost refused: seq<Byte>)
      requires Valid() && Exited(childExited, {}, log) && SealedNow()
      modifies this
      ensures G.DoAll(old(log), acts) == Some(log)
      ensures childExited == (old(childExited) || w.childGone)
      ensures r.Again? || r.Drained? ==> Valid() && Exited(childExited, {}, log) && SealedNow()
      ensures r == Failed(BadHeader) ==> ScanFrom(false, log.scanned, refused).place.Bad? && refused <= Offered(w.read)
      ensures r.Failed? ==> Blamed(r.cause, w, old(Between()))
      ensures r.HungUp? ==> w.hangup
      ensures r.Drained? ==> (old(transportEof) || childExited) && log.wire == log.encoded && inputBytes == 0
      ensures r.Drained? ==> (AllGone(log) <==> childExited || nextId == atEnd.nextId)
      ensures old(transportEof) ==> atEnd == old(atEnd) && (r.Again? || r.Drained? ==> nextId == old(nextId))
      ensures r.Again? || r.Drained? ==> EndTold(old(log), old(transportEof), old(Between()), w)
      ensures r.Again? && old(Resting()) && !childExited && !w.interrupted ==> Drains(old(log), w)
      ensures r.Again? && transportEof && !old(transportEof) && EndLeads(w) ==> atEnd.nextId == old(nextId)
    {
      refused := [];
      r, acts := Settle(w);
      if r.Again? {
        r, acts, refused := Poll(w, old(log), acts);
      }
    }
  }

  /** Between turns: whatever the run has come to. */
  ghost predicate OnCourse(relay: PublishRelay, r: Turn)
    reads relay
  {
    && G.Inv(relay.log)
    && (r.Again? || r.Drained? ==> relay.Valid() && Exited(relay.childExited, {}, relay.log) && relay.SealedNow())
    && (r.Drained? ==> relay.log.wire == relay.log.encoded && relay.inputBytes == 0)
    && (r.Drained? ==> relay.transportEof || relay.childExited)
    && (r.Drained? ==> (AllGone(relay.log) <==> relay.childExited || relay.nextId == relay.atEnd.nextId))
  }

  /** One more turn, with the log after it. */
  method TakeTurn(relay: PublishRelay, worlds: seq<World>, i: nat, ghost logs: seq<G.Log>, ghost end: nat)
    returns (ghost more: seq<G.Log>, r: Turn, ghost noted: nat)
    requires i < |worlds| && OnCourse(relay, Again)
    requires IsHistory(logs, |worlds|) && |logs| == i + 1 && logs[i] == relay.log
    requires relay.childExited <==> ExitBy(worlds, i)
    requires EndNoted(relay.transportEof, relay.atEnd, relay.nextId, worlds, logs, end)
    modifies relay
    ensures OnCourse(relay, r) && (relay.childExited <==> ExitBy(worlds, i + 1))
    ensures IsHistory(more, |worlds|) && |more| == i + 2 && more[i + 1] == relay.log
    ensures r.Again? || r.Drained? ==>
              EndNoted(relay.transportEof, relay.atEnd, relay.nextId, worlds, more, noted)
  {
    noted := end;
    ghost var eof, at, next := relay.transportEof, relay.atEnd, relay.nextId;
    ghost var acts, refused;
    r, acts, refused := relay.Iterate(worlds[i]);
    G.InvAll(old(relay.log), acts);
    ExtendHistory(logs, |worlds|, acts, relay.log);
    more := logs + [relay.log];
    ExitNext(worlds, i);
    if r.Again? || r.Drained? {
      noted := EndNotedNext(eof, at, next, worlds, logs, end, relay.transportEof, relay.atEnd, relay.log,
                            relay.childExited);
    }
  }

  method Start(ghost worlds: seq<World>) returns (relay: PublishRelay, ghost logs: seq<G.Log>)
    ensures fresh(relay) && OnCourse(relay, Again) && !relay.childExited && !relay.transportEof
    ensures logs == [relay.log] && IsHistory(logs, |worlds|)
    ensures EndNoted(false, relay.atEnd, relay.nextId, worlds, logs, 0)
  {
    relay := new PublishRelay();
    G.InvInit();
    logs := [relay.log];
  }

  /** The relay over any finite sequence of turns.  Its logs after each turn (`logs`)
      are ones the steps of GuestLog can produce, so its invariant holds however the
      run ends; an orderly end has flushed every frame and written every accepted
      byte of every stream whose local socket did not fail.  With the child's exit it
      leaves no stream open; without it, there was a turn that read the end of the
      transport, and exactly the streams that turn accepted after it are left open. */
  method RunPublishRelay(worlds: seq<World>) returns (relay: PublishRelay, r: Turn, ghost logs: seq<G.Log>)
    ensures fresh(relay) && IsHistory(logs, |worlds|) && logs[|logs| - 1] == relay.log
    ensures r.Again? ==> |logs| == |worlds| + 1
    ensures r.Again? || r.Drained? ==> relay.Valid()
    ensures G.Inv(relay.log)
    ensures relay.childExited <==> ExitBy(worlds, |logs| - 1)
    ensures r.Drained? ==> relay.log.wire == EncodedAll(relay.log.sent)
    ensures r.Drained? ==> forall id | id in relay.log.streams :: G.Drained(relay.log.streams[id])
    ensures r.Drained? && relay.childExited ==> AllGone(relay.log)
    ensures r.Drained? && !relay.childExited ==> Decided(relay.log, relay.atEnd, worlds, logs)
  {
    relay, logs := Start(worlds);
    r := Again;
    var i := 0;
    ghost var end := 0;
    while i < |worlds| && r.Again?
      invariant 0 <= i <= |worlds| && fresh(relay) && OnCourse(relay, r)
      invariant IsHistory(logs, |worlds|) && |logs| == i + 1 && logs[i] == relay.log
      invariant relay.childExited <==> ExitBy(worlds, i)
      invariant r.Again? || r.Drained? ==>
                  EndNoted(relay.transportEof, relay.atEnd, relay.nextId, worlds, logs, end)
    {
      logs, r, end := TakeTurn(relay, worlds, i, logs, end);
      i := i + 1;
    }
    if r.Drained? {
      AllWritten(KIND, relay.peers, relay.log);
      if !relay.childExited {
        EndDecides(relay.log, relay.atEnd, worlds, logs, end);
      }
    }
  }

  /** A turn in which nothing goes wrong. */
  predicate Calm(w: World) {
    !w.childGone && !w.interrupted && !w.hangup && !w.failed && w.write.Wrote? && w.write.count > 0
  }

  /** A relay that read the end of the transport before anything else, and has accepted
      a connection since. */
  ghost predicate Lingers(relay: PublishRelay)
    reads relay
  {
    && relay.Valid() && Exited(relay.childExited, {}, relay.log) && relay.SealedNow() && G.Inv(relay.log)
    && relay.transportEof && !relay.childExited && relay.atEnd.nextId == 1 < relay.nextId
  }

  /** It has nobody to retire and nothing to write locally. */
  lemma LingersAtRest(relay: PublishRelay)
    requires Lingers(relay)
    ensures relay.Resting()
  {
    forall id | id in relay.peers ensures !relay.peers[id].closing && relay.peers[id].bytes == 0 {
      assert Tracked(KIND, id, relay.peers[id], relay.log);
    }
    if relay.inputBytes > 0 {
      var id := TotalPositive(relay.peers, SizeOf);
    }
  }

  /** As long as no id was given out there is room for a connection. */
  lemma NobodyYet(relay: PublishRelay)
    requires relay.Valid() && G.Inv(relay.log) && relay.nextId == 1
    ensures !relay.Full()
  {
    forall id ensures id !in relay.peers {
      assert id in relay.peers ==> Tracked(KIND, id, relay.peers[id], relay.log);
    }
    assert relay.peers.Keys == {};
    NothingPending(relay);
  }

  lemma NothingPending(relay: PublishRelay)
    requires relay.Valid() && G.Inv(relay.log) && relay.log.sent == []
    ensures relay.HasRoom()
  {
    PendingFits(relay.output);
  }

  /** With a relay that has just started, a turn whose poll finds the end of the transport
      first and a waiting connection second. */
  method EndThenAccept(relay: PublishRelay, w: World)
    requires relay.Valid() && relay.log == G.EMPTY && relay.Between() && !relay.transportEof && !relay.childExited
    requires Calm(w) && w.read.Eof? && w.order == [Transport, Server] && w.connection
    modifies relay
    ensures Lingers(relay)
  {
    var r;
    ghost var acts, refused;
    r, acts, refused := relay.Iterate(w);
    assert w.order[0].Transport? && w.order[1].Server? && LaneAmong(w.order, 1) && LaneAmong(w.order, 2);
    G.InvInit();
    G.InvAll(G.EMPTY, acts);
    if relay.nextId == 1 { NobodyYet(relay); }
  }

  /** Turns in which poll finds the transport ready for writing, until the relay ends. */
  method FlushAll(relay: PublishRelay, w: World) returns (r: Turn)
    requires Lingers(relay) && Calm(w) && w.read.ReadBlocked? && w.writes == [Transport]
    modifies relay
    ensures r.Drained? && Lingers(relay) && !AllGone(relay.log)
  {
    r := Again;
    assert w.writes[0].Transport? && LaneAmong(w.writes, 1);
    while r.Again?
      invariant r.Again? || r.Drained?
      invariant Lingers(relay) && (r.Drained? ==> !AllGone(relay.log))
      decreases r.Again?, |relay.log.encoded| - |relay.log.wire|
    {
      LingersAtRest(relay);
      ghost var acts, refused, was := [], [], relay.log;
      r, acts, refused := relay.Iterate(w);
      G.InvAll(was, acts);
    }
  }

  /** A run after which the relay ends with status 0 and a stream still open. */
  method LeavesAStreamOpen() returns (relay: PublishRelay, r: Turn)
    ensures r.Drained? && relay.Valid() && !relay.childExited && !AllGone(relay.log)
  {
    relay := new PublishRelay();
    var w := World(0, false, false, false, false, [], Wrote(HEADER), _ => WriteBlocked,
                   [Transport, Server], true, Eof, _ => ReadBlocked);
    EndThenAccept(relay, w);
    r := FlushAll(relay, w.(writes := [Transport], read := ReadBlocked));
  }
}
