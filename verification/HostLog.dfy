/** What the host pump did, as a log: the bytes it took from the transport and
    what they said, the frames it queued and the bytes of them it wrote, and per
    stream what it read from, accepted for and wrote to the local socket.  Every
    operation of the pump is one of the steps below; `Inv` is what each step
    keeps, whatever bytes arrive. */
module HostLog {
  import opened Basics
  import opened Wire
  import opened Lanes

  /** Rejecting: the OPEN was refused and its CLOSE is not queued yet.
      Retired: the peer was removed when `cut` events had arrived. */
  datatype Phase = Rejecting | Live | Retired(cut: nat)

  /** The latest OPEN of a stream id: where it stands in the incoming events and
      in the frames sent, what crossed the local socket since, the DATA accepted
      for it, and whether the guest has closed it. */
  datatype Stream = Stream(openedAt: nat, sentAt: nat, fromPeer: seq<Byte>,
                           accepted: seq<Byte>, closed: bool, toPeer: seq<Byte>, phase: Phase)

  /** `scanned` and `encoded` are the meaning of `consumed` and of `sent`. */
  datatype Log = Log(consumed: seq<Byte>, scanned: Scanned, sent: seq<Frame>, encoded: seq<Byte>,
                     wire: seq<Byte>, streams: map<nat, Stream>)

  datatype Act =
    | Take(bytes: seq<Byte>)                          // header bytes that say nothing yet
    | TakeClose(bytes: seq<Byte>, id: nat)            // ... that complete a CLOSE
    | Decide(bytes: seq<Byte>, id: nat, accept: bool) // ... that complete an OPEN
    | TakeData(id: nat, bytes: seq<Byte>)             // payload bytes
    | Refuse(id: nat)                                 // the CLOSE of a refused OPEN is queued
    | ReadPeer(id: nat, data: seq<Byte>)
    | WritePeer(id: nat, count: nat)
    | Retire(id: nat)
    | WriteWire(count: nat)

  const EMPTY := Log([], START, [], [], [], map[])

  predicate IsLive(l: Log, id: nat) { id in l.streams && l.streams[id].phase.Live? }

  /** The bytes an action takes from the transport. */
  function Taken(a: Act): seq<Byte> {
    if a.Take? || a.TakeClose? || a.Decide? || a.TakeData? then a.bytes else []
  }

  predicate Can(l: Log, a: Act) {
    match a
    case Take(bytes) => ScanFrom(true, l.scanned, bytes).events == l.scanned.events
    case TakeClose(bytes, id) => ScanFrom(true, l.scanned, bytes).events == l.scanned.events + [Closed(id)]
    case Decide(bytes, id, _) =>
      && ScanFrom(true, l.scanned, bytes).events == l.scanned.events + [Opened(id)]
      && (id in l.streams ==> l.streams[id].phase.Retired?)
    case TakeData(id, bytes) => ScanFrom(true, l.scanned, bytes).events == l.scanned.events + Payloads(id, bytes)
    case Refuse(id) => id in l.streams && l.streams[id].phase.Rejecting?
    case ReadPeer(id, data) => IsLive(l, id) && 0 < |data| <= CHUNK
    case WritePeer(id, count) => IsLive(l, id) && |l.streams[id].toPeer| + count <= |l.streams[id].accepted|
    case Retire(id) => IsLive(l, id) && l.streams[id].toPeer == l.streams[id].accepted
    case WriteWire(count) => |l.wire| + count <= |l.encoded|
  }

  function Read(l: Log, bytes: seq<Byte>): Log {
    l.(consumed := l.consumed + bytes, scanned := ScanFrom(true, l.scanned, bytes))
  }

  function Send(l: Log, f: Frame): Log { l.(sent := l.sent + [f], encoded := l.encoded + Encoded(f)) }

  function Update(l: Log, id: nat, s: Stream): Log { l.(streams := l.streams[id := s]) }

  function Do(l: Log, a: Act): Log
    requires Can(l, a)
  {
    match a
    case Take(bytes) => Read(l, bytes)
    case TakeClose(bytes, id) =>
      if IsLive(l, id) then Update(Read(l, bytes), id, l.streams[id].(closed := true)) else Read(l, bytes)
    case Decide(bytes, id, accept) =>
      Update(Read(l, bytes), id,
             Stream(|l.scanned.events| + 1, |l.sent|, [], [], false, [], if accept then Live else Rejecting))
    case TakeData(id, bytes) =>
      if IsLive(l, id) && !l.streams[id].closed
      then Update(Read(l, bytes), id, l.streams[id].(accepted := l.streams[id].accepted + bytes))
      else Read(l, bytes)
    case Refuse(id) =>
      Update(Send(l, Close(id)), id, l.streams[id].(phase := Retired(l.streams[id].openedAt)))
    case ReadPeer(id, data) =>
      Update(Send(l, Data(id, data)), id, l.streams[id].(fromPeer := l.streams[id].fromPeer + data))
    case WritePeer(id, count) =>
      var s := l.streams[id];
      Update(l, id, s.(toPeer := s.accepted[..|s.toPeer| + count]))
    case Retire(id) =>
      var s := l.streams[id];
      Update(if s.closed then l else Send(l, Close(id)), id, s.(phase := Retired(|l.scanned.events|)))
    case WriteWire(count) => l.(wire := l.encoded[..|l.wire| + count])
  }

  // ------------------------------------------------------------- the invariant

  /** The frames a host queues: nonempty DATA of at most one chunk, and CLOSE. */
  predicate HostFrame(f: Frame) { f.Close? || (f.Data? && 0 < |f.payload| <= CHUNK) }

  /** The incoming events that count for a stream. */
  function Window(s: Stream, ev: seq<Event>): seq<Event> {
    var cut := match s.phase case Live => |ev| case Rejecting => s.openedAt case Retired(c) => c;
    if s.openedAt <= cut <= |ev| then ev[s.openedAt..cut] else []
  }

  /** The record is of the latest OPEN of its id.  What was accepted is exactly the
      DATA payload since then and before the CLOSE or removal; what was written is a
      prefix of it, and all of it once the peer is gone. */
  ghost predicate Incoming(id: nat, s: Stream, ev: seq<Event>) {
    && 1 <= s.openedAt <= |ev|
    && ev[s.openedAt - 1] == Opened(id) && Opened(id) !in ev[s.openedAt..]
    && (s.phase.Retired? ==> s.openedAt <= s.phase.cut <= |ev|)
    && s.accepted == StreamBytes(id, Window(s, ev))
    && (s.closed <==> Closed(id) in Window(s, ev))
    && s.toPeer <= s.accepted
    && (s.phase.Retired? ==> s.toPeer == s.accepted)
  }

  /** The lane a stream's sent frames must follow: exactly the bytes read from the
      peer, then at most one CLOSE (none if the guest closed first). */
  function Promised(s: Stream): Lane {
    if s.phase.Retired? && !s.closed then Ended(s.fromPeer) else Flowing(s.fromPeer)
  }

  ghost predicate Outgoing(id: nat, s: Stream, sent: seq<Frame>) {
    && s.sentAt <= |sent|
    && LaneOf(id, Flowing([]), AllEvents(sent[s.sentAt..])) == Promised(s)
  }

  /** The first OPEN of an id precedes every frame sent for it. */
  ghost predicate FirstOpen(id: nat, s: Stream, ev: seq<Event>, sent: seq<Frame>) {
    (forall k | 0 <= k < s.openedAt - 1 && k < |ev| :: ev[k] != Opened(id)) ==>
      (forall k | 0 <= k < s.sentAt && k < |sent| :: sent[k].id != id)
  }

  ghost predicate StreamOk(id: nat, s: Stream, ev: seq<Event>, sent: seq<Frame>) {
    Incoming(id, s, ev) && Outgoing(id, s, sent) && FirstOpen(id, s, ev, sent)
  }

  ghost predicate StreamsOk(streams: map<nat, Stream>, ev: seq<Event>, sent: seq<Frame>) {
    forall id {:trigger StreamOk(id, streams[id], ev, sent)} | id in streams :: StreamOk(id, streams[id], ev, sent)
  }

  /** Frames are sent only for streams on record. */
  ghost predicate Recorded(streams: map<nat, Stream>, sent: seq<Frame>) {
    && (forall id | id in streams :: id < U32)
    && (forall f | f in sent :: HostFrame(f) && f.id in streams)
  }

  ghost predicate Inv(l: Log) {
    && l.scanned == Scan(true, l.consumed)
    && l.encoded == EncodedAll(l.sent)
    && l.wire <= l.encoded
    && Recorded(l.streams, l.sent)
    && StreamsOk(l.streams, l.scanned.events, l.sent)
  }

  lemma InvInit()
    ensures Inv(EMPTY)
  {
  }

  // --------------------------------------------------------------- preservation

  lemma ReadIsScan(l: Log, bytes: seq<Byte>)
    requires l.scanned == Scan(true, l.consumed)
    ensures Read(l, bytes).scanned == Scan(true, Read(l, bytes).consumed)
  {
    ScanAppend(true, START, l.consumed, bytes);
  }

  lemma {:induction false} EventIdsFit(bytes: seq<Byte>)
    ensures forall e | e in Scan(true, bytes).events :: e.id < U32
  {
    if bytes != [] {
      EventIdsFit(bytes[..|bytes| - 1]);
      ScanSensible(true, bytes[..|bytes| - 1]);
    }
  }

  lemma WindowLive(s: Stream, s': Stream, ev: seq<Event>, more: seq<Event>)
    requires s.phase.Live? && s'.phase.Live? && s'.openedAt == s.openedAt <= |ev|
    ensures Window(s', ev + more) == Window(s, ev) + more
  {
  }

  lemma WindowFixed(s: Stream, ev: seq<Event>, more: seq<Event>)
    requires !s.phase.Live? && s.openedAt <= |ev| && (s.phase.Retired? ==> s.phase.cut <= |ev|)
    ensures Window(s, ev + more) == Window(s, ev)
  {
  }

  lemma LatestStays(id: nat, k: nat, ev: seq<Event>, more: seq<Event>)
    requires 1 <= k <= |ev| && Opened(id) !in ev[k..] && Opened(id) !in more
    ensures Opened(id) !in (ev + more)[k..] && (ev + more)[k - 1] == ev[k - 1]
  {
    assert (ev + more)[k..] == ev[k..] + more;
  }

  /** More events for a stream whose record takes them in. */
  lemma MoreEvents(id: nat, s: Stream, s': Stream, ev: seq<Event>, more: seq<Event>)
    requires Incoming(id, s, ev) && Opened(id) !in more
    requires if s.phase.Live?
             then s' == s.(accepted := s.accepted + (if s.closed then [] else StreamBytes(id, more)),
                           closed := s.closed || Closed(id) in more)
             else s' == s
    ensures Incoming(id, s', ev + more)
  {
    LatestStays(id, s.openedAt, ev, more);
    if s.phase.Live? {
      WindowLive(s, s', ev, more);
      StreamAppend(id, Window(s, ev), more);
    } else {
      WindowFixed(s, ev, more);
    }
  }

  lemma FirstOpenMore(id: nat, s: Stream, ev: seq<Event>, more: seq<Event>, sent: seq<Frame>)
    requires FirstOpen(id, s, ev, sent) && 1 <= s.openedAt <= |ev|
    ensures FirstOpen(id, s, ev + more, sent)
  {
    if forall k | 0 <= k < s.openedAt - 1 && k < |ev + more| :: (ev + more)[k] != Opened(id) {
      forall k | 0 <= k < s.openedAt - 1 && k < |ev| ensures ev[k] != Opened(id) {
        assert ev[k] == (ev + more)[k];
      }
    }
  }

  lemma OtherEvents(id: nat, s: Stream, ev: seq<Event>, more: seq<Event>, sent: seq<Frame>)
    requires StreamOk(id, s, ev, sent) && Silent(id, more)
    ensures StreamOk(id, s, ev + more, sent)
  {
    StreamSilent(id, more);
    assert s.accepted + [] == s.accepted;
    MoreEvents(id, s, s, ev, more);
    FirstOpenMore(id, s, ev, more, sent);
  }

  lemma OwnEvents(id: nat, s: Stream, s': Stream, ev: seq<Event>, more: seq<Event>, sent: seq<Frame>)
    requires StreamOk(id, s, ev, sent) && Opened(id) !in more
    requires if s.phase.Live?
             then s' == s.(accepted := s.accepted + (if s.closed then [] else StreamBytes(id, more)),
                           closed := s.closed || Closed(id) in more)
             else s' == s
    ensures StreamOk(id, s', ev + more, sent)
  {
    MoreEvents(id, s, s', ev, more);
    FirstOpenMore(id, s, ev, more, sent);
  }

  /** Events of one stream only: its record takes them in, the others stand. */
  lemma InvEvents(l: Log, bytes: seq<Byte>, id: nat, more: seq<Event>, m: Log)
    requires Inv(l) && ScanFrom(true, l.scanned, bytes).events == l.scanned.events + more
    requires forall e | e in more :: e.id == id && !e.Opened?
    requires if IsLive(l, id)
             then m == Update(Read(l, bytes), id,
                              l.streams[id].(accepted := l.streams[id].accepted +
                                               (if l.streams[id].closed then [] else StreamBytes(id, more)),
                                             closed := l.streams[id].closed || Closed(id) in more))
             else m == Read(l, bytes)
    ensures Inv(m)
  {
    var ev := l.scanned.events;
    ReadIsScan(l, bytes);
    forall i | i in m.streams ensures StreamOk(i, m.streams[i], ev + more, l.sent) {
      assert StreamOk(i, l.streams[i], ev, l.sent);
      if i == id {
        OwnEvents(id, l.streams[id], m.streams[id], ev, more, l.sent);
      } else {
        OtherEvents(i, l.streams[i], ev, more, l.sent);
      }
    }
  }

  lemma InvTake(l: Log, bytes: seq<Byte>)
    requires Inv(l) && Can(l, Take(bytes))
    ensures Inv(Do(l, Take(bytes)))
  {
    ReadIsScan(l, bytes);
  }

  lemma InvTakeClose(l: Log, bytes: seq<Byte>, id: nat)
    requires Inv(l) && Can(l, TakeClose(bytes, id))
    ensures Inv(Do(l, TakeClose(bytes, id)))
  {
    var m := Do(l, TakeClose(bytes, id));
    assert StreamBytes(id, [Closed(id)]) == StreamBytes(id, []);
    if IsLive(l, id) { assert l.streams[id].accepted + [] == l.streams[id].accepted; }
    InvEvents(l, bytes, id, [Closed(id)], m);
  }

  lemma InvTakeData(l: Log, id: nat, bytes: seq<Byte>)
    requires Inv(l) && Can(l, TakeData(id, bytes))
    ensures Inv(Do(l, TakeData(id, bytes)))
  {
    StreamPayloads(id, id, bytes);
    if IsLive(l, id) {
      var s := l.streams[id];
      assert s.accepted + [] == s.accepted;
      if s.closed { assert l.streams[id := s] == l.streams; }
    }
    InvEvents(l, bytes, id, Payloads(id, bytes), Do(l, TakeData(id, bytes)));
  }

  lemma DecideOk(id: nat, s: Stream, ev: seq<Event>, sent: seq<Frame>)
    requires s.openedAt == |ev| + 1 && s.sentAt == |sent| && s.fromPeer == [] && !s.phase.Retired?
    requires s.toPeer == [] && s.accepted == [] && !s.closed
    requires Opened(id) in ev || forall f | f in sent :: f.id != id
    ensures StreamOk(id, s, ev + [Opened(id)], sent)
  {
    assert sent[s.sentAt..] == [];
    assert Window(s, ev + [Opened(id)]) == [];
    if k :| 0 <= k < |ev| && ev[k] == Opened(id) {
      assert (ev + [Opened(id)])[k] == Opened(id);
    }
  }

  lemma DecideAll(streams: map<nat, Stream>, id: nat, s: Stream, ev: seq<Event>, sent: seq<Frame>)
    requires StreamsOk(streams, ev, sent) && Recorded(streams, sent)
    requires s.openedAt == |ev| + 1 && s.sentAt == |sent| && s.fromPeer == [] && !s.phase.Retired?
    requires s.toPeer == [] && s.accepted == [] && !s.closed
    ensures StreamsOk(streams[id := s], ev + [Opened(id)], sent)
  {
    if id in streams {
      assert StreamOk(id, streams[id], ev, sent);
      assert ev[streams[id].openedAt - 1] == Opened(id);
    }
    DecideOk(id, s, ev, sent);
    forall i | i in streams && i != id ensures StreamOk(i, streams[i], ev + [Opened(id)], sent) {
      assert StreamOk(i, streams[i], ev, sent);
      OtherEvents(i, streams[i], ev, [Opened(id)], sent);
    }
  }

  lemma InvDecide(l: Log, bytes: seq<Byte>, id: nat, accept: bool)
    requires Inv(l) && Can(l, Decide(bytes, id, accept))
    ensures Inv(Do(l, Decide(bytes, id, accept)))
  {
    var m := Do(l, Decide(bytes, id, accept));
    ReadIsScan(l, bytes);
    assert id < U32 by {
      EventIdsFit(m.consumed);
      assert m.scanned.events[|l.scanned.events|] == Opened(id);
    }
    DecideAll(l.streams, id, m.streams[id], l.scanned.events, l.sent);
  }

  /** What a changed record of `id` must satisfy on the incoming side. */
  ghost predicate Updates(s: Stream, s': Stream, ev: seq<Event>) {
    && s'.openedAt == s.openedAt && s'.sentAt == s.sentAt
    && Window(s', ev) == Window(s, ev)
    && s'.accepted == s.accepted && s'.closed == s.closed
    && s'.toPeer <= s.accepted
    && (s'.phase.Retired? ==> s.openedAt <= s'.phase.cut <= |ev| && s'.toPeer == s.accepted)
  }

  /** ... and when one frame is sent with the change. */
  ghost predicate Sends(s: Stream, s': Stream, f: Frame) {
    && HostFrame(f) && !s.phase.Retired?
    && (f.Close? ==> s'.phase.Retired? && s'.fromPeer == s.fromPeer && !s.closed)
    && (f.Data? ==> !s'.phase.Retired? && s'.fromPeer == s.fromPeer + f.payload)
  }

  lemma FirstOpenKept(id: nat, s: Stream, ev: seq<Event>, sent: seq<Frame>, f: Frame)
    requires FirstOpen(id, s, ev, sent) && s.sentAt <= |sent|
    ensures FirstOpen(id, s, ev, sent + [f])
  {
  }

  lemma IncomingUpdated(id: nat, s: Stream, s': Stream, ev: seq<Event>)
    requires Incoming(id, s, ev) && Updates(s, s', ev)
    ensures Incoming(id, s', ev)
  {
  }

  lemma OutgoingSent(id: nat, s: Stream, s': Stream, f: Frame, sent: seq<Frame>)
    requires Outgoing(id, s, sent) && f.id == id && Sends(s, s', f)
    requires s'.sentAt == s.sentAt && s'.closed == s.closed
    ensures Outgoing(id, s', sent + [f])
  {
    assert (sent + [f])[s.sentAt..] == sent[s.sentAt..] + [f];
    LaneOwnFrame(Flowing([]), sent[s.sentAt..], f);
  }

  lemma SendOne(id: nat, s: Stream, s': Stream, f: Frame, ev: seq<Event>, sent: seq<Frame>)
    requires StreamOk(id, s, ev, sent) && f.id == id
    requires Updates(s, s', ev) && Sends(s, s', f)
    ensures StreamOk(id, s', ev, sent + [f])
  {
    IncomingUpdated(id, s, s', ev);
    OutgoingSent(id, s, s', f, sent);
    FirstOpenKept(id, s, ev, sent, f);
  }

  lemma SendOther(id: nat, s: Stream, f: Frame, ev: seq<Event>, sent: seq<Frame>)
    requires StreamOk(id, s, ev, sent) && f.id != id
    ensures StreamOk(id, s, ev, sent + [f])
  {
    assert (sent + [f])[s.sentAt..] == sent[s.sentAt..] + [f];
    LaneOtherFrame(id, Flowing([]), sent[s.sentAt..], f);
    FirstOpenKept(id, s, ev, sent, f);
  }

  /** One frame sent for `id`, whose record becomes s'. */
  lemma SendAll(l: Log, id: nat, s': Stream, f: Frame)
    requires Inv(l) && id in l.streams && f.id == id
    requires Updates(l.streams[id], s', l.scanned.events) && Sends(l.streams[id], s', f)
    ensures Inv(Update(Send(l, f), id, s'))
  {
    var ev, streams := l.scanned.events, l.streams[id := s'];
    EncodedSnoc(l.sent, f);
    assert Recorded(streams, l.sent + [f]);
    forall i | i in streams ensures StreamOk(i, streams[i], ev, l.sent + [f]) {
      assert StreamOk(i, l.streams[i], ev, l.sent);
      if i == id { SendOne(id, l.streams[id], s', f, ev, l.sent); } else { SendOther(i, l.streams[i], f, ev, l.sent); }
    }
  }

  lemma UpdateOne(id: nat, s: Stream, s': Stream, ev: seq<Event>, sent: seq<Frame>)
    requires StreamOk(id, s, ev, sent) && Updates(s, s', ev) && Promised(s') == Promised(s)
    ensures StreamOk(id, s', ev, sent)
  {
  }

  /** The record of `id` changes without a frame being sent. */
  lemma UpdateAll(l: Log, id: nat, s': Stream)
    requires Inv(l) && id in l.streams
    requires Updates(l.streams[id], s', l.scanned.events) && Promised(s') == Promised(l.streams[id])
    ensures Inv(Update(l, id, s'))
  {
    var ev, streams := l.scanned.events, l.streams[id := s'];
    assert Recorded(streams, l.sent);
    forall i | i in streams ensures StreamOk(i, streams[i], ev, l.sent) {
      assert StreamOk(i, l.streams[i], ev, l.sent);
      if i == id { UpdateOne(id, l.streams[id], s', ev, l.sent); }
    }
  }

  lemma InvRefuse(l: Log, id: nat)
    requires Inv(l) && Can(l, Refuse(id))
    ensures Inv(Do(l, Refuse(id)))
  {
    var s := l.streams[id];
    assert StreamOk(id, s, l.scanned.events, l.sent);
    assert Window(s, l.scanned.events) == [];
    SendAll(l, id, s.(phase := Retired(s.openedAt)), Close(id));
  }

  lemma InvReadPeer(l: Log, id: nat, data: seq<Byte>)
    requires Inv(l) && Can(l, ReadPeer(id, data))
    ensures Inv(Do(l, ReadPeer(id, data)))
  {
    var s := l.streams[id];
    assert StreamOk(id, s, l.scanned.events, l.sent);
    SendAll(l, id, s.(fromPeer := s.fromPeer + data), Data(id, data));
  }

  lemma InvRetire(l: Log, id: nat)
    requires Inv(l) && Can(l, Retire(id))
    ensures Inv(Do(l, Retire(id)))
  {
    var s, ev := l.streams[id], l.scanned.events;
    var s' := s.(phase := Retired(|ev|));
    assert StreamOk(id, s, ev, l.sent);
    if s.closed { UpdateAll(l, id, s'); } else { SendAll(l, id, s', Close(id)); }
  }

  lemma InvWritePeer(l: Log, id: nat, count: nat)
    requires Inv(l) && Can(l, WritePeer(id, count))
    ensures Inv(Do(l, WritePeer(id, count)))
  {
    UpdateAll(l, id, Do(l, WritePeer(id, count)).streams[id]);
  }

  /** Every step keeps the invariant, for every sequence of incoming bytes. */
  lemma InvStep(l: Log, a: Act)
    requires Inv(l) && Can(l, a)
    ensures Inv(Do(l, a))
  {
    match a
    case Take(bytes) => InvTake(l, bytes);
    case TakeClose(bytes, id) => InvTakeClose(l, bytes, id);
    case Decide(bytes, id, accept) => InvDecide(l, bytes, id, accept);
    case TakeData(id, bytes) => InvTakeData(l, id, bytes);
    case Refuse(id) => InvRefuse(l, id);
    case ReadPeer(id, data) => InvReadPeer(l, id, data);
    case WritePeer(id, count) => InvWritePeer(l, id, count);
    case Retire(id) => InvRetire(l, id);
    case WriteWire(count) =>
  }

  /** Steps only add: to the wire, and to what was taken from the transport. */
  lemma StepAdds(l: Log, a: Act)
    requires Can(l, a) && l.wire <= l.encoded
    ensures l.wire <= Do(l, a).wire
    ensures Do(l, a).consumed == l.consumed + Taken(a)
  {
  }

  // ------------------------------------------------------------- several steps

  /** The log after a sequence of steps, if each of them was possible. */
  function DoAll(l: Log, acts: seq<Act>): Option<Log> {
    if acts == [] then Some(l)
    else
      match DoAll(l, acts[..|acts| - 1])
      case None => None
      case Some(m) => if Can(m, acts[|acts| - 1]) then Some(Do(m, acts[|acts| - 1])) else None
  }

  lemma DoSnoc(l: Log, acts: seq<Act>, m: Log, a: Act)
    requires DoAll(l, acts) == Some(m) && Can(m, a)
    ensures DoAll(l, acts + [a]) == Some(Do(m, a))
  {
    assert (acts + [a])[..|acts|] == acts;
  }

  lemma DoOne(l: Log, a: Act)
    requires Can(l, a)
    ensures DoAll(l, [a]) == Some(Do(l, a))
  {
    DoSnoc(l, [], l, a);
    assert [] + [a] == [a];
  }

  lemma {:induction false} DoAppend(l: Log, a: seq<Act>, m: Log, b: seq<Act>)
    requires DoAll(l, a) == Some(m)
    ensures DoAll(l, a + b) == DoAll(m, b)
    decreases |b|
  {
    if b == [] {
      assert a + b == a;
    } else {
      assert (a + b)[..|a + b| - 1] == a + b[..|b| - 1];
      DoAppend(l, a, m, b[..|b| - 1]);
    }
  }

  /** What was taken from the transport stays taken. */
  lemma {:induction false} TakesMore(l: Log, acts: seq<Act>)
    requires DoAll(l, acts).Some?
    ensures |l.consumed| <= |DoAll(l, acts).value.consumed|
  {
    if acts != [] {
      TakesMore(l, acts[..|acts| - 1]);
    }
  }

  lemma {:induction false} InvAll(l: Log, acts: seq<Act>)
    requires Inv(l) && DoAll(l, acts).Some?
    ensures Inv(DoAll(l, acts).value)
  {
    if acts != [] {
      InvAll(l, acts[..|acts| - 1]);
      InvStep(DoAll(l, acts[..|acts| - 1]).value, acts[|acts| - 1]);
    }
  }

  // ----------------------------------------------- how a parser's reads look here

  lemma HeaderFragment(l: Log, bytes: seq<Byte>)
    requires l.scanned.place.Head? && |l.scanned.place.bytes| + |bytes| < HEADER
    ensures Can(l, Take(bytes))
    ensures Do(l, Take(bytes)).scanned.place == Head(l.scanned.place.bytes + bytes)
  {
    ScanHeadFragment(true, l.scanned, bytes);
  }

  lemma HeaderComplete(l: Log, bytes: seq<Byte>)
    requires l.scanned.place.Head? && bytes != [] && |l.scanned.place.bytes| + |bytes| == HEADER
    ensures var d := Decoded(true, l.scanned.place.bytes + bytes);
            ScanFrom(true, l.scanned, bytes) == Scanned(d.place, l.scanned.events + d.events)
  {
    ScanHeadComplete(true, l.scanned, bytes);
  }

  lemma PayloadFragment(l: Log, bytes: seq<Byte>)
    requires l.scanned.place.Body? && 0 < |bytes| <= l.scanned.place.left
    ensures Can(l, TakeData(l.scanned.place.id, bytes))
    ensures ScanFrom(true, l.scanned, bytes).place ==
            if |bytes| == l.scanned.place.left then Head([])
            else Body(l.scanned.place.id, l.scanned.place.left - |bytes|)
  {
    ScanBodyFragment(true, l.scanned, bytes);
  }
}
