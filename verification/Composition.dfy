/** Host pump and guest relay together, over two FIFO byte channels.  Each channel
    holds the bytes written by one end and not yet taken by the other, so a read
    may take any prefix of the difference and every interleaving is a run. */
module Composition {
  import opened Basics
  import opened Wire
  import opened Lanes
  import H = HostLog
  import G = GuestLog

  datatype System = System(host: H.Log, guest: G.Log)

  datatype Step = HostStep(h: H.Act) | GuestStep(g: G.Act)

  const INIT := System(H.EMPTY, G.EMPTY)

  predicate Enabled(s: System, t: Step) {
    match t
    case HostStep(a) => H.Can(s.host, a) && s.host.consumed + H.Taken(a) <= s.guest.wire
    case GuestStep(a) => G.Can(s.guest, a) && s.guest.consumed + G.Taken(a) <= s.host.wire
  }

  function Next(s: System, t: Step): System
    requires Enabled(s, t)
  {
    match t
    case HostStep(a) => s.(host := H.Do(s.host, a))
    case GuestStep(a) => s.(guest := G.Do(s.guest, a))
  }

  ghost predicate IsRun(run: seq<System>) {
    && run != [] && run[0] == INIT
    && forall i | 0 <= i < |run| - 1 :: Leads(run[i], run[i + 1])
  }

  ghost predicate Leads(a: System, b: System) { exists t :: Enabled(a, t) && b == Next(a, t) }

  // ------------------------------------------------------------- the invariant

  ghost predicate Unheard(id: nat, k: nat, ev: seq<Event>) { k <= |ev| && Silent(id, ev[..k]) }

  /** Nothing arrives for a stream before the guest opened it. */
  ghost predicate NoEarlyEvents(streams: map<nat, G.Stream>, ev: seq<Event>) {
    forall id {:trigger Unheard(id, streams[id].openedAt, ev)} | id in streams :: Unheard(id, streams[id].openedAt, ev)
  }

  ghost predicate Inv(s: System) {
    && H.Inv(s.host) && G.Inv(s.guest)
    && s.host.consumed <= s.guest.wire
    && s.guest.consumed <= s.host.wire
    && s.guest.nextId <= U32
    && NoEarlyEvents(s.guest.streams, s.guest.scanned.events)
  }

  /** Each end has seen a prefix of what the other said, and nothing malformed. */
  lemma HostHears(s: System, bytes: seq<Byte>)
    requires G.Inv(s.guest) && s.guest.nextId <= U32 && bytes <= s.guest.wire
    ensures Scan(true, bytes).events <= AllEvents(s.guest.sent)
    ensures !Scan(true, bytes).place.Bad?
  {
    ScanOfPrefix(true, bytes, s.guest.sent);
  }

  lemma GuestHears(s: System, bytes: seq<Byte>)
    requires H.Inv(s.host) && bytes <= s.host.wire
    ensures Scan(false, bytes).events <= AllEvents(s.host.sent)
    ensures !Scan(false, bytes).place.Bad?
  {
    ScanOfPrefix(false, bytes, s.host.sent);
  }

  /** Where the host heard the OPEN of a stream on its record. */
  lemma HostOpenPlace(s: System, id: nat)
    requires H.Inv(s.host) && id in s.host.streams
    ensures H.Incoming(id, s.host.streams[id], s.host.scanned.events)
  {
    assert H.StreamOk(id, s.host.streams[id], s.host.scanned.events, s.host.sent);
  }

  /** The host knows only streams the guest opened. */
  lemma HostStreamIsGuests(s: System, id: nat)
    requires Inv(s) && id in s.host.streams
    ensures id in s.guest.streams
  {
    HostHears(s, s.host.consumed);
    HostOpenPlace(s, id);
    var e := s.host.scanned.events[s.host.streams[id].openedAt - 1];
    assert e in AllEvents(s.guest.sent);
    EventHasFrame(e, s.guest.sent);
  }

  lemma GuestEventIsKnown(s: System, e: Event)
    requires Inv(s) && e in s.guest.scanned.events
    ensures e.id in s.guest.streams
  {
    GuestHears(s, s.guest.consumed);
    assert e in AllEvents(s.host.sent);
    EventHasFrame(e, s.host.sent);
    HostStreamIsGuests(s, e.id);
  }

  lemma EarlyKept(streams: map<nat, G.Stream>, streams': map<nat, G.Stream>, ev: seq<Event>, ev': seq<Event>)
    requires NoEarlyEvents(streams, ev) && ev <= ev'
    requires forall id | id in streams' :: id in streams && streams'[id].openedAt == streams[id].openedAt
    ensures NoEarlyEvents(streams', ev')
  {
    forall id | id in streams' ensures Unheard(id, streams'[id].openedAt, ev') {
      assert Unheard(id, streams[id].openedAt, ev);
      assert ev'[..streams[id].openedAt] == ev[..streams[id].openedAt];
    }
  }

  lemma GuestStepKeeps(s: System, a: G.Act)
    requires Inv(s) && Enabled(s, GuestStep(a))
    ensures NoEarlyEvents(G.Do(s.guest, a).streams, G.Do(s.guest, a).scanned.events)
  {
    var ev, m := s.guest.scanned.events, G.Do(s.guest, a);
    if a.Accept? {
      assert ev[..|ev|] == ev;
      forall e | e in ev ensures e.id != s.guest.nextId { GuestEventIsKnown(s, e); }
      forall id | id in m.streams ensures Unheard(id, m.streams[id].openedAt, ev) {
        if id != s.guest.nextId { assert Unheard(id, s.guest.streams[id].openedAt, ev); }
      }
    } else {
      ScanGrows(false, s.guest.scanned, G.Taken(a));
      EarlyKept(s.guest.streams, m.streams, ev, m.scanned.events);
    }
  }

  lemma InvStep(s: System, t: Step)
    requires Inv(s) && Enabled(s, t) && Next(s, t).guest.nextId <= U32
    ensures Inv(Next(s, t))
  {
    match t
    case HostStep(a) => H.InvStep(s.host, a); H.StepAdds(s.host, a);
    case GuestStep(a) => G.InvStep(s.guest, a); G.StepAdds(s.guest, a); GuestStepKeeps(s, a);
  }

  lemma OpensOnlyGrow(a: System, b: System)
    requires Leads(a, b)
    ensures a.guest.nextId <= b.guest.nextId
  {
  }

  lemma InvLeads(a: System, b: System)
    requires Inv(a) && Leads(a, b) && b.guest.nextId <= U32
    ensures Inv(b)
  {
    var t :| Enabled(a, t) && b == Next(a, t);
    InvStep(a, t);
  }

  /** The invariant holds in every state of every run with fewer than 2^32 opens. */
  lemma {:induction false} RunInv(run: seq<System>, i: nat)
    requires IsRun(run) && i < |run| && run[i].guest.nextId <= U32
    ensures Inv(run[i])
  {
    if i == 0 {
      H.InvInit();
      G.InvInit();
    } else {
      assert Leads(run[i - 1], run[i]);
      OpensOnlyGrow(run[i - 1], run[i]);
      RunInv(run, i - 1);
      InvLeads(run[i - 1], run[i]);
    }
  }

  // ------------------------------------------------- hearing what was said

  /** A sender's lane that keeps the protocol. */
  predicate Kept(l: Lane) { l.Flowing? || l.Ended? }

  /** Where a receiver that heard a prefix `ev` of what was said opened `id`:
      exactly once; what follows is owed no byte that was not said; and once the
      CLOSE is heard, every byte was. */
  lemma HeardOpen(id: nat, ev: seq<Event>, said: seq<Event>, k: nat)
    requires ev <= said && Kept(LaneOf(id, Fresh, said))
    requires 1 <= k <= |ev| && ev[k - 1] == Opened(id)
    ensures Silent(id, ev[..k - 1])
    ensures StreamBytes(id, ev[k..]) <= LaneOf(id, Fresh, said).bytes
    ensures ev == said || Closed(id) in ev[k..] ==> StreamBytes(id, ev[k..]) == LaneOf(id, Fresh, said).bytes
  {
    LanePrefix(id, Fresh, ev, said);
    OpenedOnce(id, ev, k);
    StreamOfLane(id, ev[k..]);
  }

  /** The same for a receiver that opened `id` itself, before anything was said. */
  lemma HeardSince(id: nat, ev: seq<Event>, said: seq<Event>, k: nat)
    requires ev <= said && Kept(LaneOf(id, Flowing([]), said)) && Unheard(id, k, ev)
    ensures StreamBytes(id, ev[k..]) <= LaneOf(id, Flowing([]), said).bytes
    ensures ev == said || Closed(id) in ev[k..] ==> StreamBytes(id, ev[k..]) == LaneOf(id, Flowing([]), said).bytes
  {
    LanePrefix(id, Flowing([]), ev, said);
    assert ev == ev[..k] + ev[k..];
    LaneAppend(id, Flowing([]), ev[..k], ev[k..]);
    LaneSilent(id, Flowing([]), ev[..k]);
    StreamOfLane(id, ev[k..]);
  }

  /** A window that starts at k and is owed as much as the rest from k on, if it
      reaches the end or contains the CLOSE. */
  lemma WindowOwes(id: nat, w: seq<Event>, rest: seq<Event>)
    requires w <= rest
    ensures StreamBytes(id, w) <= StreamBytes(id, rest)
    ensures w == rest || Closed(id) in w ==> StreamBytes(id, w) == StreamBytes(id, rest)
    ensures Closed(id) in w ==> Closed(id) in rest
  {
    assert rest == w + rest[|w|..];
    StreamAppend(id, w, rest[|w|..]);
  }

  lemma HostOwes(id: nat, hs: H.Stream, ev: seq<Event>, said: seq<Event>)
    requires ev <= said && Kept(LaneOf(id, Fresh, said)) && H.Incoming(id, hs, ev)
    ensures hs.accepted <= LaneOf(id, Fresh, said).bytes
    ensures hs.closed || (hs.phase.Live? && ev == said) ==> hs.accepted == LaneOf(id, Fresh, said).bytes
  {
    HeardOpen(id, ev, said, hs.openedAt);
    assert H.Window(hs, ev) <= ev[hs.openedAt..];
    WindowOwes(id, H.Window(hs, ev), ev[hs.openedAt..]);
  }

  lemma GuestOwes(id: nat, gs: G.Stream, ev: seq<Event>, said: seq<Event>)
    requires ev <= said && Kept(LaneOf(id, Flowing([]), said))
    requires Unheard(id, gs.openedAt, ev) && G.Incoming(id, gs, ev)
    ensures gs.accepted <= LaneOf(id, Flowing([]), said).bytes
    ensures Closed(id) in G.Window(gs, ev) || (gs.phase.Running? && ev == said)
            ==> gs.accepted == LaneOf(id, Flowing([]), said).bytes
  {
    HeardSince(id, ev, said, gs.openedAt);
    assert G.Window(gs, ev) <= ev[gs.openedAt..];
    WindowOwes(id, G.Window(gs, ev), ev[gs.openedAt..]);
  }

  // ----------------------------------------------------------- guest to host

  /** What the guest said on a stream it opened. */
  lemma GuestSaid(s: System, id: nat)
    requires G.Inv(s.guest) && id in s.guest.streams
    ensures var l := LaneOf(id, Fresh, AllEvents(s.guest.sent)); Kept(l) && l.bytes == s.guest.streams[id].fromPeer
  {
    assert G.StreamOk(id, s.guest.streams[id], s.guest.scanned.events, s.guest.sent);
  }

  /** What the host undertook to deliver is a prefix of what the guest read: all
      of it once the guest's CLOSE was heard, or once everything said was heard. */
  lemma GuestToHost(s: System, id: nat)
    requires Inv(s) && id in s.host.streams
    ensures id in s.guest.streams
    ensures s.host.streams[id].accepted <= s.guest.streams[id].fromPeer
    ensures s.host.streams[id].closed || (s.host.streams[id].phase.Live? && s.host.consumed == s.guest.encoded)
            ==> s.host.streams[id].accepted == s.guest.streams[id].fromPeer
  {
    HostStreamIsGuests(s, id);
    HostHears(s, s.host.consumed);
    GuestSaid(s, id);
    HostOpenPlace(s, id);
    HostOwes(id, s.host.streams[id], s.host.scanned.events, AllEvents(s.guest.sent));
    if s.host.consumed == s.guest.encoded { ScanEncodedAll(true, s.guest.sent); }
  }

  lemma OpenedFirst(s: System, id: nat)
    requires Inv(s) && id in s.host.streams
    ensures 1 <= s.host.streams[id].openedAt <= |s.host.scanned.events|
    ensures Silent(id, s.host.scanned.events[..s.host.streams[id].openedAt - 1])
  {
    HostStreamIsGuests(s, id);
    HostHears(s, s.host.consumed);
    GuestSaid(s, id);
    HostOpenPlace(s, id);
    HeardOpen(id, s.host.scanned.events, AllEvents(s.guest.sent), s.host.streams[id].openedAt);
  }

  // ----------------------------------------------------------- host to guest

  function HostRead(s: System, id: nat): seq<Byte> {
    if id in s.host.streams then s.host.streams[id].fromPeer else []
  }

  lemma NothingSentBefore(id: nat, hs: H.Stream, ev: seq<Event>, sent: seq<Frame>)
    requires H.FirstOpen(id, hs, ev, sent) && 1 <= hs.openedAt <= |ev| && Silent(id, ev[..hs.openedAt - 1])
    requires hs.sentAt <= |sent|
    ensures forall j | 0 <= j < hs.sentAt :: sent[j].id != id
  {
    forall k | 0 <= k < hs.openedAt - 1 ensures ev[k] != Opened(id) { assert ev[k] == ev[..hs.openedAt - 1][k]; }
  }

  lemma SkipSilent(id: nat, sent: seq<Frame>, k: nat)
    requires k <= |sent| && forall j | 0 <= j < k :: sent[j].id != id
    ensures LaneOf(id, Flowing([]), AllEvents(sent)) == LaneOf(id, Flowing([]), AllEvents(sent[k..]))
  {
    assert sent == sent[..k] + sent[k..];
    FlatAppend(FrameEvents, sent[..k], sent[k..]);
    SilentFrames(id, sent[..k]);
    LaneAppend(id, Flowing([]), AllEvents(sent[..k]), AllEvents(sent[k..]));
    LaneSilent(id, Flowing([]), AllEvents(sent[..k]));
  }

  /** What the host said on a stream, from the beginning of the run. */
  lemma HostSaid(s: System, id: nat)
    requires Inv(s)
    ensures var l := LaneOf(id, Flowing([]), AllEvents(s.host.sent)); Kept(l) && l.bytes == HostRead(s, id)
  {
    var sent := s.host.sent;
    if id in s.host.streams {
      var hs, ev := s.host.streams[id], s.host.scanned.events;
      OpenedFirst(s, id);
      assert H.Outgoing(id, hs, sent) && H.FirstOpen(id, hs, ev, sent) by { assert H.StreamOk(id, hs, ev, sent); }
      NothingSentBefore(id, hs, ev, sent);
      SkipSilent(id, sent, hs.sentAt);
    } else {
      SilentFrames(id, sent);
      LaneSilent(id, Flowing([]), AllEvents(sent));
    }
  }

  lemma HostToGuest(s: System, id: nat)
    requires Inv(s) && id in s.guest.streams
    ensures var gs := s.guest.streams[id];
            && gs.accepted <= HostRead(s, id)
            && (Closed(id) in G.Window(gs, s.guest.scanned.events) ==> gs.accepted == HostRead(s, id))
            && (gs.phase.Running? && s.guest.consumed == s.host.encoded ==> gs.accepted == HostRead(s, id))
  {
    var gs, ev := s.guest.streams[id], s.guest.scanned.events;
    HostSaid(s, id);
    GuestHears(s, s.guest.consumed);
    assert Unheard(id, gs.openedAt, ev);
    assert G.Incoming(id, gs, ev) by { assert G.StreamOk(id, gs, ev, s.guest.sent); }
    GuestOwes(id, gs, ev, AllEvents(s.host.sent));
    if s.guest.consumed == s.host.encoded { ScanEncodedAll(false, s.host.sent); }
  }

  // -------------------------------------------------------------- main results

  /** End to end: in every state of every run, what each side wrote to a stream's
      socket is a prefix of what the other side read from that stream's socket. */
  lemma EndToEnd(run: seq<System>, i: nat, id: nat)
    requires IsRun(run) && i < |run| && run[i].guest.nextId <= U32
    ensures var s := run[i];
            && (id in s.host.streams ==>
                  id in s.guest.streams && s.host.streams[id].toPeer <= s.guest.streams[id].fromPeer)
            && (id in s.guest.streams ==> s.guest.streams[id].toPeer <= HostRead(s, id))
  {
    var s := run[i];
    RunInv(run, i);
    if id in s.host.streams {
      GuestToHost(s, id);
      HostOpenPlace(s, id);
    }
    if id in s.guest.streams {
      HostToGuest(s, id);
      assert G.StreamOk(id, s.guest.streams[id], s.guest.scanned.events, s.guest.sent);
    }
  }

  /** A stream that ended in order was delivered in full: a peer the host removed
      after the guest's CLOSE got every byte the guest read, and a peer the guest
      removed after the host's CLOSE got every byte the host read, unless a write
      to it failed. */
  lemma ClosedStreamsAreComplete(run: seq<System>, i: nat, id: nat)
    requires IsRun(run) && i < |run| && run[i].guest.nextId <= U32
    ensures var s := run[i];
            && (id in s.host.streams && s.host.streams[id].phase.Retired? && s.host.streams[id].closed ==>
                  id in s.guest.streams && s.host.streams[id].toPeer == s.guest.streams[id].fromPeer)
            && (id in s.guest.streams && s.guest.streams[id].phase.Gone? && !s.guest.streams[id].phase.discarded
                && Closed(id) in G.Window(s.guest.streams[id], s.guest.scanned.events) ==>
                  s.guest.streams[id].toPeer == HostRead(s, id))
  {
    var s := run[i];
    RunInv(run, i);
    if id in s.host.streams {
      GuestToHost(s, id);
      HostOpenPlace(s, id);
    }
    if id in s.guest.streams {
      HostToGuest(s, id);
      assert G.StreamOk(id, s.guest.streams[id], s.guest.scanned.events, s.guest.sent);
    }
  }

  /** Nothing is lost in between: once a channel is drained and the receiver has
      nothing left to write to a stream it still serves, that socket has got
      exactly what the sender's socket gave. */
  lemma DrainedStreamsAreComplete(run: seq<System>, i: nat, id: nat)
    requires IsRun(run) && i < |run| && run[i].guest.nextId <= U32
    requires id in run[i].host.streams && id in run[i].guest.streams
    ensures var s := run[i];
            && (s.host.consumed == s.guest.encoded && s.host.streams[id].phase.Live?
                && s.host.streams[id].toPeer == s.host.streams[id].accepted
                ==> s.host.streams[id].toPeer == s.guest.streams[id].fromPeer)
            && (s.guest.consumed == s.host.encoded && s.guest.streams[id].phase.Running?
                && G.Drained(s.guest.streams[id])
                ==> s.guest.streams[id].toPeer == s.host.streams[id].fromPeer)
  {
    RunInv(run, i);
    GuestToHost(run[i], id);
    HostToGuest(run[i], id);
  }

  /** The protocol errors are unreachable: whatever part of the channel is read
      next, neither end sees a header it must refuse, and the host never sees an
      OPEN of an id it has already decided on. */
  lemma NoProtocolError(run: seq<System>, i: nat, bytes: seq<Byte>)
    requires IsRun(run) && i < |run| && run[i].guest.nextId <= U32
    ensures var s := run[i];
            && (s.host.consumed + bytes <= s.guest.wire ==>
                  var next := ScanFrom(true, s.host.scanned, bytes);
                  && !next.place.Bad?
                  && forall k | |s.host.scanned.events| <= k < |next.events| && next.events[k].Opened? ::
                       next.events[k].id !in s.host.streams)
            && (s.guest.consumed + bytes <= s.host.wire ==> !ScanFrom(false, s.guest.scanned, bytes).place.Bad?)
  {
    var s := run[i];
    RunInv(run, i);
    if s.host.consumed + bytes <= s.guest.wire {
      HostHears(s, s.host.consumed + bytes);
      ScanAppend(true, START, s.host.consumed, bytes);
      ScanGrows(true, s.host.scanned, bytes);
      var ev, ev' := s.host.scanned.events, ScanFrom(true, s.host.scanned, bytes).events;
      forall k | |ev| <= k < |ev'| && ev'[k].Opened? ensures ev'[k].id !in s.host.streams {
        NoSecondOpen(s, ev', k);
      }
    }
    if s.guest.consumed + bytes <= s.host.wire {
      GuestHears(s, s.guest.consumed + bytes);
      ScanAppend(false, START, s.guest.consumed, bytes);
    }
  }

  lemma NotTwice(id: nat, ev: seq<Event>, said: seq<Event>, j: nat, k: nat)
    requires ev <= said && Kept(LaneOf(id, Fresh, said))
    requires j < k < |ev| && ev[j] == Opened(id)
    ensures ev[k] != Opened(id)
  {
    if ev[k] == Opened(id) {
      assert ev[..k][j] == Opened(id);
      HeardOpen(id, ev, said, k + 1);
      assert false;
    }
  }

  lemma NoSecondOpen(s: System, ev: seq<Event>, k: nat)
    requires Inv(s)
    requires s.host.scanned.events <= ev <= AllEvents(s.guest.sent)
    requires |s.host.scanned.events| <= k < |ev| && ev[k].Opened?
    ensures ev[k].id !in s.host.streams
  {
    var id := ev[k].id;
    if id in s.host.streams {
      HostStreamIsGuests(s, id);
      GuestSaid(s, id);
      HostOpenPlace(s, id);
      NotTwice(id, ev, AllEvents(s.guest.sent), s.host.streams[id].openedAt - 1, k);
    }
  }
}
