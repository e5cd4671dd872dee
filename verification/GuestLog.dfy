/** What a guest relay did, as a log.  Both Perl relays (stdio and published
    socket) perform only these steps; they differ in how they store queued bytes
    and in which capacity they wait for, not in what they promise. */
module GuestLog {
  import opened Basics
  import opened Wire
  import opened Lanes

  /** Closing: the relay stopped accepting when `cut` events had arrived;
      `discarded` says its queued bytes were dropped (a failed local write), and
      `notify` that a CLOSE is owed.  Gone: the peer was removed. */
  datatype Phase =
    | Running
    | Closing(cut: nat, discarded: bool, notify: bool)
    | Gone(cut: nat, discarded: bool, notify: bool)

  datatype Stream = Stream(openedAt: nat, fromPeer: seq<Byte>, accepted: seq<Byte>, toPeer: seq<Byte>, phase: Phase)

  /** `scanned` and `encoded` are the meaning of `consumed` and of `sent`. */
  datatype Log = Log(consumed: seq<Byte>, scanned: Scanned, sent: seq<Frame>, encoded: seq<Byte>,
                     wire: seq<Byte>, nextId: nat, streams: map<nat, Stream>)

  datatype Act =
    | Take(bytes: seq<Byte>)               // header bytes that say nothing yet
    | TakeClose(bytes: seq<Byte>, id: nat) // ... that complete a CLOSE
    | TakeData(id: nat, bytes: seq<Byte>)  // payload bytes
    | Accept
    | BeginClose(id: nat, notify: bool, discard: bool)
    | ReadPeer(id: nat, data: seq<Byte>)
    | WritePeer(id: nat, count: nat)
    | Retire(id: nat)
    | WriteWire(count: nat)

  const EMPTY := Log([], START, [], [], [], 1, map[])

  predicate InPeers(l: Log, id: nat) { id in l.streams && !l.streams[id].phase.Gone? }

  function Taken(a: Act): seq<Byte> { if a.Take? || a.TakeClose? || a.TakeData? then a.bytes else [] }

  /** The phase after `closing_peer`; `at` events have arrived. */
  function Shut(p: Phase, at: nat, notify: bool, discard: bool): Phase {
    match p
    case Running => Closing(at, discard, notify)
    case Closing(cut, d, n) => Closing(cut, d || discard, n || notify)
    case Gone(_, _, _) => p
  }

  /** Nothing is queued for the local socket any more. */
  predicate Drained(s: Stream) { (!s.phase.Running? && s.phase.discarded) || s.toPeer == s.accepted }

  predicate Can(l: Log, a: Act) {
    match a
    case Take(bytes) => ScanFrom(false, l.scanned, bytes).events == l.scanned.events
    case TakeClose(bytes, id) => ScanFrom(false, l.scanned, bytes).events == l.scanned.events + [Closed(id)]
    case TakeData(id, bytes) => ScanFrom(false, l.scanned, bytes).events == l.scanned.events + Payloads(id, bytes)
    case Accept => true
    case BeginClose(id, _, _) => InPeers(l, id)
    case ReadPeer(id, data) => InPeers(l, id) && l.streams[id].phase.Running? && 0 < |data| <= CHUNK
    case WritePeer(id, count) => InPeers(l, id) && |l.streams[id].toPeer| + count <= |l.streams[id].accepted|
    case Retire(id) => InPeers(l, id) && l.streams[id].phase.Closing? && Drained(l.streams[id])
    case WriteWire(count) => |l.wire| + count <= |l.encoded|
  }

  function Read(l: Log, bytes: seq<Byte>): Log {
    l.(consumed := l.consumed + bytes, scanned := ScanFrom(false, l.scanned, bytes))
  }

  function Send(l: Log, f: Frame): Log { l.(sent := l.sent + [f], encoded := l.encoded + Encoded(f)) }

  function Update(l: Log, id: nat, s: Stream): Log { l.(streams := l.streams[id := s]) }

  function Do(l: Log, a: Act): Log
    requires Can(l, a)
  {
    match a
    case Take(bytes) => Read(l, bytes)
    case TakeClose(bytes, id) =>
      if InPeers(l, id)
      then Update(Read(l, bytes), id,
                  l.streams[id].(phase := Shut(l.streams[id].phase, |l.scanned.events| + 1, false, false)))
      else Read(l, bytes)
    case TakeData(id, bytes) =>
      if InPeers(l, id) && l.streams[id].phase.Running?
      then Update(Read(l, bytes), id, l.streams[id].(accepted := l.streams[id].accepted + bytes))
      else Read(l, bytes)
    case Accept =>
      Update(Send(l, Open(l.nextId)), l.nextId,
             Stream(|l.scanned.events|, [], [], [], Running)).(nextId := l.nextId + 1)
    case BeginClose(id, notify, discard) =>
      var s := l.streams[id];
      Update(l, id, s.(phase := Shut(s.phase, |l.scanned.events|, notify, discard)))
    case ReadPeer(id, data) =>
      Update(Send(l, Data(id, data)), id, l.streams[id].(fromPeer := l.streams[id].fromPeer + data))
    case WritePeer(id, count) =>
      var s := l.streams[id];
      Update(l, id, s.(toPeer := s.accepted[..|s.toPeer| + count]))
    case Retire(id) =>
      var s := l.streams[id];
      Update(if s.phase.notify then Send(l, Close(id)) else l, id,
             s.(phase := Gone(s.phase.cut, s.phase.discarded, s.phase.notify)))
    case WriteWire(count) => l.(wire := l.encoded[..|l.wire| + count])
  }

  // ------------------------------------------------------------- the invariant

  function Window(s: Stream, ev: seq<Event>): seq<Event> {
    var cut := if s.phase.Running? then |ev| else s.phase.cut;
    if s.openedAt <= cut <= |ev| then ev[s.openedAt..cut] else []
  }

  /** What was accepted is exactly the DATA payload that arrived since the stream
      was opened and until it began to close; what was written is a prefix of it,
      and all of it once the peer is gone unless a local write failed. */
  ghost predicate Incoming(id: nat, s: Stream, ev: seq<Event>) {
    && s.openedAt <= |ev|
    && (!s.phase.Running? ==> s.openedAt <= s.phase.cut <= |ev|)
    && s.accepted == StreamBytes(id, Window(s, ev))
    && (s.phase.Running? ==> Closed(id) !in Window(s, ev))
    && s.toPeer <= s.accepted
    && (s.phase.Gone? ==> Drained(s))
  }

  /** OPEN first, then exactly the bytes read from the peer, then CLOSE once the
      peer is gone and a CLOSE was owed; nothing before, nothing after. */
  function Promised(s: Stream): Lane {
    if s.phase.Gone? && s.phase.notify then Ended(s.fromPeer) else Flowing(s.fromPeer)
  }

  ghost predicate Outgoing(id: nat, s: Stream, sent: seq<Frame>) {
    LaneOf(id, Fresh, AllEvents(sent)) == Promised(s)
  }

  ghost predicate StreamOk(id: nat, s: Stream, ev: seq<Event>, sent: seq<Frame>) {
    Incoming(id, s, ev) && Outgoing(id, s, sent)
  }

  ghost predicate StreamsOk(streams: map<nat, Stream>, ev: seq<Event>, sent: seq<Frame>) {
    forall id {:trigger StreamOk(id, streams[id], ev, sent)} | id in streams :: StreamOk(id, streams[id], ev, sent)
  }

  predicate GuestFrame(f: Frame) { f.Data? ==> 0 < |f.payload| <= CHUNK }

  /** Ids are handed out once each, in order. */
  ghost predicate Recorded(streams: map<nat, Stream>, nextId: nat, sent: seq<Frame>) {
    && 1 <= nextId
    && (forall id :: id in streams <==> 1 <= id < nextId)
    && (forall f | f in sent :: GuestFrame(f) && f.id in streams)
  }

  ghost predicate Inv(l: Log) {
    && l.scanned == Scan(false, l.consumed)
    && l.encoded == EncodedAll(l.sent)
    && l.wire <= l.encoded
    && Recorded(l.streams, l.nextId, l.sent)
    && StreamsOk(l.streams, l.scanned.events, l.sent)
  }

  lemma InvInit()
    ensures Inv(EMPTY)
  {
  }

  // --------------------------------------------------------------- preservation

  lemma ReadIsScan(l: Log, bytes: seq<Byte>)
    requires l.scanned == Scan(false, l.consumed)
    ensures Read(l, bytes).scanned == Scan(false, Read(l, bytes).consumed)
  {
    ScanAppend(false, START, l.consumed, bytes);
  }

  lemma WindowRunning(s: Stream, s': Stream, ev: seq<Event>, more: seq<Event>)
    requires s.phase.Running? && s'.openedAt == s.openedAt <= |ev|
    requires s'.phase.Running? || s'.phase.cut == |ev + more|
    ensures Window(s', ev + more) == Window(s, ev) + more
  {
  }

  lemma WindowFixed(s: Stream, ev: seq<Event>, more: seq<Event>)
    requires !s.phase.Running? && s.openedAt <= s.phase.cut <= |ev|
    ensures Window(s, ev + more) == Window(s, ev)
  {
  }

  /** More events for a stream whose record takes them in. */
  lemma MoreEvents(id: nat, s: Stream, s': Stream, ev: seq<Event>, more: seq<Event>)
    requires Incoming(id, s, ev)
    requires if s.phase.Running?
             then && s'.openedAt == s.openedAt && s'.toPeer == s.toPeer
                  && s'.accepted == s.accepted + StreamBytes(id, more)
                  && s'.phase == (if Closed(id) in more then Closing(|ev + more|, false, false) else Running)
             else s' == s
    ensures Incoming(id, s', ev + more)
  {
    if s.phase.Running? {
      WindowRunning(s, s', ev, more);
      StreamAppend(id, Window(s, ev), more);
    } else {
      WindowFixed(s, ev, more);
    }
  }

  lemma OtherEvents(id: nat, s: Stream, ev: seq<Event>, more: seq<Event>)
    requires Incoming(id, s, ev) && Silent(id, more)
    ensures Incoming(id, s, ev + more)
  {
    StreamSilent(id, more);
    assert s.accepted + [] == s.accepted;
    MoreEvents(id, s, s, ev, more);
  }

  /** Events of one stream only: its record takes them in, the others stand. */
  lemma InvEvents(l: Log, bytes: seq<Byte>, id: nat, more: seq<Event>, m: Log)
    requires Inv(l) && ScanFrom(false, l.scanned, bytes).events == l.scanned.events + more
    requires forall e | e in more :: e.id == id
    requires if id in l.streams
             then && id in m.streams && m == Update(Read(l, bytes), id, m.streams[id])
                  && Promised(m.streams[id]) == Promised(l.streams[id])
                  && Incoming(id, m.streams[id], l.scanned.events + more)
             else m == Read(l, bytes)
    ensures Inv(m)
  {
    var ev := l.scanned.events;
    ReadIsScan(l, bytes);
    forall i | i in m.streams ensures StreamOk(i, m.streams[i], ev + more, l.sent) {
      assert StreamOk(i, l.streams[i], ev, l.sent);
      if i != id { OtherEvents(i, l.streams[i], ev, more); }
    }
  }

  lemma InvTake(l: Log, bytes: seq<Byte>)
    requires Inv(l) && Can(l, Take(bytes))
    ensures Inv(Do(l, Take(bytes)))
  {
    ReadIsScan(l, bytes);
  }

  lemma InvTakeClose(l: Log, bytes: seq<Byte>, id: nat)
    requires Inv(l) && Can(l, TakeClose(bytes, id))
    ensures Inv(Do(l, TakeClose(bytes, id)))
  {
    var m, ev := Do(l, TakeClose(bytes, id)), l.scanned.events;
    if id in l.streams {
      var s := l.streams[id];
      assert Incoming(id, s, ev) by { assert StreamOk(id, s, ev, l.sent); }
      assert StreamBytes(id, [Closed(id)]) == StreamBytes(id, []);
      assert s.accepted + [] == s.accepted;
      MoreEvents(id, s, m.streams[id], ev, [Closed(id)]);
      assert l.streams[id := s] == l.streams;
    }
    InvEvents(l, bytes, id, [Closed(id)], m);
  }

  lemma InvTakeData(l: Log, id: nat, bytes: seq<Byte>)
    requires Inv(l) && Can(l, TakeData(id, bytes))
    ensures Inv(Do(l, TakeData(id, bytes)))
  {
    var m, ev := Do(l, TakeData(id, bytes)), l.scanned.events;
    StreamPayloads(id, id, bytes);
    if id in l.streams {
      var s := l.streams[id];
      assert Incoming(id, s, ev) by { assert StreamOk(id, s, ev, l.sent); }
      MoreEvents(id, s, m.streams[id], ev, Payloads(id, bytes));
      assert l.streams[id := s] == l.streams;
    }
    InvEvents(l, bytes, id, Payloads(id, bytes), m);
  }

  /** What a changed record must satisfy. */
  ghost predicate Updates(s: Stream, s': Stream, ev: seq<Event>) {
    && s'.openedAt == s.openedAt && s'.accepted == s.accepted
    && Window(s', ev) == Window(s, ev)
    && (!s'.phase.Running? ==> s.openedAt <= s'.phase.cut <= |ev|)
    && (s'.phase.Running? ==> s.phase.Running?)
    && s'.toPeer <= s.accepted
    && (s'.phase.Gone? ==> s'.phase.discarded || s'.toPeer == s.accepted)
  }

  lemma IncomingUpdated(id: nat, s: Stream, s': Stream, ev: seq<Event>)
    requires Incoming(id, s, ev) && Updates(s, s', ev)
    ensures Incoming(id, s', ev)
  {
  }

  /** One frame sent for `id`, whose record becomes s'. */
  ghost predicate Sends(s: Stream, s': Stream, f: Frame) {
    && GuestFrame(f) && !f.Open? && !s.phase.Gone?
    && (f.Close? ==> s'.phase.Gone? && s'.phase.notify && s'.fromPeer == s.fromPeer)
    && (f.Data? ==> !s'.phase.Gone? && s'.fromPeer == s.fromPeer + f.payload)
  }

  lemma OutgoingSent(id: nat, s: Stream, s': Stream, f: Frame, sent: seq<Frame>)
    requires Outgoing(id, s, sent) && f.id == id && Sends(s, s', f)
    ensures Outgoing(id, s', sent + [f])
  {
    LaneOwnFrame(Fresh, sent, f);
  }

  lemma InvSend(l: Log, id: nat, s': Stream, f: Frame)
    requires Inv(l) && id in l.streams && f.id == id
    requires Updates(l.streams[id], s', l.scanned.events) && Sends(l.streams[id], s', f)
    ensures Inv(Update(Send(l, f), id, s'))
  {
    var ev, streams := l.scanned.events, l.streams[id := s'];
    EncodedSnoc(l.sent, f);
    assert Recorded(streams, l.nextId, l.sent + [f]);
    forall i | i in streams ensures StreamOk(i, streams[i], ev, l.sent + [f]) {
      assert StreamOk(i, l.streams[i], ev, l.sent);
      if i == id {
        IncomingUpdated(id, l.streams[id], s', ev);
        OutgoingSent(id, l.streams[id], s', f, l.sent);
      } else {
        LaneOtherFrame(i, Fresh, l.sent, f);
      }
    }
  }

  lemma InvUpdate(l: Log, id: nat, s': Stream)
    requires Inv(l) && id in l.streams
    requires Updates(l.streams[id], s', l.scanned.events) && Promised(s') == Promised(l.streams[id])
    ensures Inv(Update(l, id, s'))
  {
    var ev, streams := l.scanned.events, l.streams[id := s'];
    assert Recorded(streams, l.nextId, l.sent);
    forall i | i in streams ensures StreamOk(i, streams[i], ev, l.sent) {
      assert StreamOk(i, l.streams[i], ev, l.sent);
      if i == id { IncomingUpdated(id, l.streams[id], s', ev); }
    }
  }

  lemma AcceptOne(id: nat, ev: seq<Event>, sent: seq<Frame>)
    requires forall f | f in sent :: f.id != id
    ensures StreamOk(id, Stream(|ev|, [], [], [], Running), ev, sent + [Open(id)])
  {
    SilentFrames(id, sent);
    LaneSilent(id, Fresh, AllEvents(sent));
    LaneOwnFrame(Fresh, sent, Open(id));
    assert Window(Stream(|ev|, [], [], [], Running), ev) == [];
  }

  lemma AcceptRecorded(streams: map<nat, Stream>, nextId: nat, sent: seq<Frame>, s: Stream)
    requires Recorded(streams, nextId, sent)
    ensures Recorded(streams[nextId := s], nextId + 1, sent + [Open(nextId)])
    ensures forall f | f in sent :: f.id != nextId
  {
  }

  lemma AcceptAll(streams: map<nat, Stream>, id: nat, ev: seq<Event>, sent: seq<Frame>)
    requires StreamsOk(streams, ev, sent) && id !in streams
    requires forall f | f in sent :: f.id != id
    ensures StreamsOk(streams[id := Stream(|ev|, [], [], [], Running)], ev, sent + [Open(id)])
  {
    AcceptOne(id, ev, sent);
    forall i | i in streams ensures StreamOk(i, streams[i], ev, sent + [Open(id)]) {
      assert StreamOk(i, streams[i], ev, sent);
      LaneOtherFrame(i, Fresh, sent, Open(id));
    }
  }

  lemma InvAccept(l: Log)
    requires Inv(l)
    ensures Inv(Do(l, Accept))
  {
    EncodedSnoc(l.sent, Open(l.nextId));
    AcceptRecorded(l.streams, l.nextId, l.sent, Stream(|l.scanned.events|, [], [], [], Running));
    AcceptAll(l.streams, l.nextId, l.scanned.events, l.sent);
  }

  lemma InvRetire(l: Log, id: nat)
    requires Inv(l) && Can(l, Retire(id))
    ensures Inv(Do(l, Retire(id)))
  {
    var s, ev := l.streams[id], l.scanned.events;
    assert Incoming(id, s, ev) by { assert StreamOk(id, s, ev, l.sent); }
    var s' := s.(phase := Gone(s.phase.cut, s.phase.discarded, s.phase.notify));
    if s.phase.notify { InvSend(l, id, s', Close(id)); } else { InvUpdate(l, id, s'); }
  }

  lemma InvBeginClose(l: Log, id: nat, notify: bool, discard: bool)
    requires Inv(l) && Can(l, BeginClose(id, notify, discard))
    ensures Inv(Do(l, BeginClose(id, notify, discard)))
  {
    assert Incoming(id, l.streams[id], l.scanned.events) by {
      assert StreamOk(id, l.streams[id], l.scanned.events, l.sent);
    }
    InvUpdate(l, id, Do(l, BeginClose(id, notify, discard)).streams[id]);
  }

  lemma InvReadPeer(l: Log, id: nat, data: seq<Byte>)
    requires Inv(l) && Can(l, ReadPeer(id, data))
    ensures Inv(Do(l, ReadPeer(id, data)))
  {
    assert Incoming(id, l.streams[id], l.scanned.events) by {
      assert StreamOk(id, l.streams[id], l.scanned.events, l.sent);
    }
    InvSend(l, id, Do(l, ReadPeer(id, data)).streams[id], Data(id, data));
  }

  lemma InvWritePeer(l: Log, id: nat, count: nat)
    requires Inv(l) && Can(l, WritePeer(id, count))
    ensures Inv(Do(l, WritePeer(id, count)))
  {
    assert Incoming(id, l.streams[id], l.scanned.events) by {
      assert StreamOk(id, l.streams[id], l.scanned.events, l.sent);
    }
    InvUpdate(l, id, Do(l, WritePeer(id, count)).streams[id]);
  }

  /** Every step keeps the invariant, for every sequence of incoming bytes. */
  lemma InvStep(l: Log, a: Act)
    requires Inv(l) && Can(l, a)
    ensures Inv(Do(l, a))
  {
    match a
    case Take(bytes) => InvTake(l, bytes);
    case TakeClose(bytes, id) => InvTakeClose(l, bytes, id);
    case TakeData(id, bytes) => InvTakeData(l, id, bytes);
    case Accept => InvAccept(l);
    case BeginClose(id, notify, discard) => InvBeginClose(l, id, notify, discard);
    case ReadPeer(id, data) => InvReadPeer(l, id, data);
    case WritePeer(id, count) => InvWritePeer(l, id, count);
    case Retire(id) => InvRetire(l, id);
    case WriteWire(count) =>
  }

  /** Steps only add: to the wire, and to what was taken from the transport. */
  lemma StepAdds(l: Log, a: Act)
    requires Can(l, a) && l.wire <= l.encoded
    ensures l.wire <= Do(l, a).wire
    ensures Do(l, a).consumed == l.consumed + Taken(a)
    ensures l.nextId <= Do(l, a).nextId
  {
  }

  // ------------------------------------------------------------- several steps

  /** The log after a sequence of steps, if each of them was possible. */
  function DoAll(l: Log, acts: seq<Act>): Option<Log> {
    if acts == [] then Some(l)
    else
      match DoAll(l, acts[..|acts| - 1])
      case None => None
      case Some(m) => if Can(m, acts[|acts| - 1]) then Some(Do(m, acts[|acts| - 1])) else None
  }

  lemma DoSnoc(l: Log, acts: seq<Act>, m: Log, a: Act)
    requires DoAll(l, acts) == Some(m) && Can(m, a)
    ensures DoAll(l, acts + [a]) == Some(Do(m, a))
  {
    assert (acts + [a])[..|acts|] == acts;
  }

  lemma DoOne(l: Log, a: Act)
    requires Can(l, a)
    ensures DoAll(l, [a]) == Some(Do(l, a))
  {
    DoSnoc(l, [], l, a);
    assert [] + [a] == [a];
  }

  lemma {:induction false} DoAppend(l: Log, a: seq<Act>, m: Log, b: seq<Act>)
    requires DoAll(l, a) == Some(m)
    ensures DoAll(l, a + b) == DoAll(m, b)
    decreases |b|
  {
    if b == [] {
      assert a + b == a;
    } else {
      assert (a + b)[..|a + b| - 1] == a + b[..|b| - 1];
      DoAppend(l, a, m, b[..|b| - 1]);
    }
  }

  lemma {:induction false} InvAll(l: Log, acts: seq<Act>)
    requires Inv(l) && DoAll(l, acts).Some?
    ensures Inv(DoAll(l, acts).value)
  {
    if acts != [] {
      InvAll(l, acts[..|acts| - 1]);
      InvStep(DoAll(l, acts[..|acts| - 1]).value, acts[|acts| - 1]);
    }
  }

  // ------------------------------------------------------------ facts that last

  /** Every stream is closing or gone. */
  predicate Quiet(l: Log) { forall id | id in l.streams :: !l.streams[id].phase.Running? }

  /** A CLOSE for this stream is owed or was sent. */
  predicate Owed(l: Log, id: nat) { id in l.streams && !l.streams[id].phase.Running? && l.streams[id].phase.notify }

  lemma {:induction false} NextIdGrows(l: Log, acts: seq<Act>)
    requires DoAll(l, acts).Some?
    ensures l.nextId <= DoAll(l, acts).value.nextId
  {
    if acts != [] {
      NextIdGrows(l, acts[..|acts| - 1]);
    }
  }

  /** Only a new stream ends the quiet. */
  lemma {:induction false} QuietStays(l: Log, acts: seq<Act>)
    requires Quiet(l) && DoAll(l, acts).Some? && DoAll(l, acts).value.nextId == l.nextId
    ensures Quiet(DoAll(l, acts).value)
  {
    if acts != [] {
      NextIdGrows(l, acts[..|acts| - 1]);
      QuietStays(l, acts[..|acts| - 1]);
    }
  }

  lemma {:induction false} OwedStays(l: Log, acts: seq<Act>, id: nat)
    requires Owed(l, id) && id < l.nextId && DoAll(l, acts).Some?
    ensures Owed(DoAll(l, acts).value, id)
  {
    if acts != [] {
      NextIdGrows(l, acts[..|acts| - 1]);
      OwedStays(l, acts[..|acts| - 1], id);
      OwedStep(DoAll(l, acts[..|acts| - 1]).value, acts[|acts| - 1], id);
    }
  }

  lemma OwedStep(l: Log, a: Act, id: nat)
    requires Owed(l, id) && id < l.nextId && Can(l, a)
    ensures Owed(Do(l, a), id)
  {
  }

  // ----------------------------------------------- how a parser's reads look here

  lemma HeaderFragment(l: Log, bytes: seq<Byte>)
    requires l.scanned.place.Head? && |l.scanned.place.bytes| + |bytes| < HEADER
    ensures Can(l, Take(bytes))
    ensures Do(l, Take(bytes)).scanned.place == Head(l.scanned.place.bytes + bytes)
  {
    ScanHeadFragment(false, l.scanned, bytes);
  }

  /** The header a guest relay has just completed, and what it says. */
  lemma HeaderComplete(l: Log, bytes: seq<Byte>, h: seq<Byte>)
    requires l.scanned.place.Head? && bytes != [] && |h| == HEADER && l.scanned.place.bytes + bytes == h
    ensures var kind, id, length := h[0], FromBe32(h[1..5]), FromBe32(h[5..9]);
            ScanFrom(false, l.scanned, bytes) ==
            if length > MAX_FRAME || (kind != KIND_DATA && kind != KIND_CLOSE) || (kind == KIND_CLOSE && length != 0)
            then Scanned(Bad, l.scanned.events)
            else if kind == KIND_CLOSE then Scanned(Head([]), l.scanned.events + [Closed(id)])
            else Scanned(if length == 0 then Head([]) else Body(id, length), l.scanned.events)
  {
    ScanHeadComplete(false, l.scanned, bytes);
    assert l.scanned.events + [] == l.scanned.events;
  }

  lemma PayloadFragment(l: Log, bytes: seq<Byte>)
    requires l.scanned.place.Body? && 0 < |bytes| <= l.scanned.place.left
    ensures Can(l, TakeData(l.scanned.place.id, bytes))
    ensures ScanFrom(false, l.scanned, bytes).place ==
            if |bytes| == l.scanned.place.left then Head([])
            else Body(l.scanned.place.id, l.scanned.place.left - |bytes|)
  {
    ScanBodyFragment(false, l.scanned, bytes);
  }
}
