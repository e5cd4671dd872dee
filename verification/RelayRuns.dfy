/** The programs themselves, together: the host pump and a guest relay take turns in
    any order, each turn meeting an arbitrary world.  Only one thing is asked of the
    transport between them: it hands over bytes that were written to it, in order. */
module RelayRuns {
  import opened Basics
  import opened Wire
  import opened Outcomes
  import opened Composition
  import B = Bridge
  import R = Roster
  import P = PublishRelay
  import S = StdioRelay
  import H = HostLog
  import G = GuestLog

  datatype Turn = HostTurn(h: B.World) | GuestTurn(g: R.World)

  /** Some run of the composed system leads here. */
  ghost predicate Reached(s: System) { exists run :: IsRun(run) && run[|run| - 1] == s }

  lemma ReachedInit()
    ensures Reached(INIT)
  {
    assert IsRun([INIT]);
    assert [INIT][|[INIT]| - 1] == INIT;
  }

  lemma ReachedStep(s: System, t: Step)
    requires Reached(s) && Enabled(s, t)
    ensures Reached(Next(s, t))
  {
    var run :| IsRun(run) && run[|run| - 1] == s;
    var more := run + [Next(s, t)];
    assert Leads(s, Next(s, t));
    forall i | 0 <= i < |more| - 1 ensures Leads(more[i], more[i + 1]) {
      if i < |run| - 1 { assert Leads(run[i], run[i + 1]); }
    }
    assert IsRun(more) && more[|more| - 1] == Next(s, t);
  }

  /** A turn of the host is a sequence of steps, if all it read had been written. */
  lemma {:induction false} HostActs(s: System, acts: seq<H.Act>)
    requires Reached(s) && H.DoAll(s.host, acts).Some? && H.DoAll(s.host, acts).value.consumed <= s.guest.wire
    ensures Reached(s.(host := H.DoAll(s.host, acts).value))
  {
    if acts != [] {
      var front, a := acts[..|acts| - 1], acts[|acts| - 1];
      var m := H.DoAll(s.host, front).value;
      assert H.Do(m, a).consumed == m.consumed + H.Taken(a) by { HostTakes(m, a); }
      HostActs(s, front);
      ReachedStep(s.(host := m), HostStep(a));
    }
  }

  lemma HostTakes(l: H.Log, a: H.Act)
    requires H.Can(l, a)
    ensures H.Do(l, a).consumed == l.consumed + H.Taken(a)
  {
  }

  lemma GuestTakes(l: G.Log, a: G.Act)
    requires G.Can(l, a)
    ensures G.Do(l, a).consumed == l.consumed + G.Taken(a)
  {
  }

  lemma {:induction false} GuestActs(s: System, acts: seq<G.Act>)
    requires Reached(s) && G.DoAll(s.guest, acts).Some? && G.DoAll(s.guest, acts).value.consumed <= s.host.wire
    ensures Reached(s.(guest := G.DoAll(s.guest, acts).value))
  {
    if acts != [] {
      var front, a := acts[..|acts| - 1], acts[|acts| - 1];
      var m := G.DoAll(s.guest, front).value;
      assert G.Do(m, a).consumed == m.consumed + G.Taken(a) by { GuestTakes(m, a); }
      GuestActs(s, front);
      ReachedStep(s.(guest := m), GuestStep(a));
    }
  }

  /** What holds of every pair of logs that is reached. */
  ghost predicate Faithful(s: System, id: nat) {
    && (id in s.host.streams ==> id in s.guest.streams && s.host.streams[id].toPeer <= s.guest.streams[id].fromPeer)
    && (id in s.guest.streams ==> s.guest.streams[id].toPeer <= HostRead(s, id))
  }

  lemma ReachedIsFaithful(s: System, id: nat)
    requires Reached(s) && s.guest.nextId <= U32
    ensures Faithful(s, id)
  {
    var run :| IsRun(run) && run[|run| - 1] == s;
    EndToEnd(run, |run| - 1, id);
  }

  /** The host never has a frame to refuse. */
  lemma HostNeverRefuses(s: System, e: B.Error, bytes: seq<Byte>)
    requires Reached(s) && s.guest.nextId <= U32 && s.host.consumed + bytes <= s.guest.wire
    requires B.Justified(e, s.host, bytes)
    ensures B.Local(e)
  {
    var run :| IsRun(run) && run[|run| - 1] == s;
    NoProtocolError(run, |run| - 1, bytes);
    if e.DuplicateStream? { NotAgain(s, e.id, bytes); }
  }

  lemma NotAgain(s: System, id: nat, bytes: seq<Byte>)
    requires forall k | |s.host.scanned.events| <= k < |ScanFrom(true, s.host.scanned, bytes).events|
                     && ScanFrom(true, s.host.scanned, bytes).events[k].Opened? ::
               ScanFrom(true, s.host.scanned, bytes).events[k].id !in s.host.streams
    ensures H.IsLive(s.host, id) ==>
              ScanFrom(true, s.host.scanned, bytes).events != s.host.scanned.events + [Opened(id)]
  {
    var ev := s.host.scanned.events + [Opened(id)];
    assert ev[|s.host.scanned.events|] == Opened(id);
  }

  /** Nor has the guest. */
  lemma GuestNeverRefuses(s: System, bytes: seq<Byte>)
    requires Reached(s) && s.guest.nextId <= U32 && s.guest.consumed + bytes <= s.host.wire
    ensures !ScanFrom(false, s.guest.scanned, bytes).place.Bad?
  {
    var run :| IsRun(run) && run[|run| - 1] == s;
    NoProtocolError(run, |run| - 1, bytes);
  }

  // ------------------------------------------------- the bound on opens is tight

  /** The guest has opened k streams and the host has taken on each of them. */
  ghost predicate AllTakenOn(s: System, k: nat) {
    && s.guest.nextId == k + 1 && 0 !in s.guest.streams && s.guest.consumed == []
    && s.guest.wire == s.guest.encoded == s.host.consumed && s.host.scanned.place == Head([])
    && forall id | id in s.host.streams :: 1 <= id <= k
  }

  lemma WireId(k: nat)
    requires k < U32
    ensures Encoded(Open(k + 1)) == Encoded(Open((k + 1) % U32))
  {
    StreamIdsWrap(0);
  }

  /** The guest opens one more stream and writes the frame. */
  lemma GuestOpens(s: System, k: nat, bytes: seq<Byte>) returns (t: System)
    requires Reached(s) && AllTakenOn(s, k) && bytes == Encoded(Open(k + 1))
    ensures Reached(t) && t.host == s.host && t.guest.nextId == k + 2 && 0 !in t.guest.streams && t.guest.consumed == []
    ensures t.guest.wire == t.guest.encoded == s.guest.encoded + bytes
  {
    assert [] + G.Taken(G.Accept) == [] && [] + G.Taken(G.WriteWire(HEADER)) == [];
    ReachedStep(s, GuestStep(G.Accept));
    var a := Next(s, GuestStep(G.Accept));
    ReachedStep(a, GuestStep(G.WriteWire(HEADER)));
    t := Next(a, GuestStep(G.WriteWire(HEADER)));
  }

  /** The guest opens one more stream, which the host takes on under the id that is
      left of it on the wire. */
  lemma OneMoreOpen(s: System, k: nat) returns (t: System)
    requires Reached(s) && AllTakenOn(s, k) && k < U32
    ensures Reached(t) && t.guest.nextId == k + 2 && 0 !in t.guest.streams && t.guest.consumed == []
    ensures t.guest.wire == t.guest.encoded == t.host.consumed && t.host.scanned.place == Head([])
    ensures t.host.streams.Keys == s.host.streams.Keys + {(k + 1) % U32}
  {
    var id := (k + 1) % U32;
    var bytes := Encoded(Open(id));
    WireId(k);
    var b := GuestOpens(s, k, bytes);
    t := HostTakesOn(b, id, bytes);
  }

  lemma HostTakesOn(b: System, id: nat, bytes: seq<Byte>) returns (t: System)
    requires Reached(b) && id < U32 && id !in b.host.streams && b.host.scanned.place == Head([])
    requires bytes == Encoded(Open(id)) && b.guest.wire == b.host.consumed + bytes
    ensures Reached(t) && t.guest == b.guest && t.host.consumed == b.guest.wire && t.host.scanned.place == Head([])
    ensures t.host.streams.Keys == b.host.streams.Keys + {id}
  {
    ScanEncoded(true, b.host.scanned, Open(id));
    var act := H.Decide(bytes, id, true);
    ReachedStep(b, HostStep(act));
    t := Next(b, HostStep(act));
  }

  lemma {:induction false} ManyOpens(k: nat) returns (s: System)
    requires k < U32
    ensures Reached(s) && AllTakenOn(s, k)
  {
    if k == 0 {
      ReachedInit();
      s := INIT;
    } else {
      var before := ManyOpens(k - 1);
      s := OneMoreOpen(before, k - 1);
    }
  }

  /** One open more than the theorems allow, and they fail: the host serves a stream
      the guest does not know. */
  lemma BoundIsTight() returns (s: System)
    ensures Reached(s) && s.guest.nextId == U32 + 1 && !Faithful(s, 0)
  {
    var before := ManyOpens(U32 - 1);
    s := OneMoreOpen(before, U32 - 1);
  }

  // --------------------------------------------------------------------- sessions

  /** Where the two programs are between turns: their logs, and whether each goes on
      or how it ended. */
  datatype Moment = Moment(s: System, r: B.Turn, g: R.Turn)

  /** What one turn of the host did: steps of its log; and if it refused a frame, bytes
      it was offered are to blame. */
  ghost predicate HostTook(l: H.Log, m: H.Log, r: B.Turn, w: B.World) {
    && (exists acts :: H.DoAll(l, acts) == Some(m))
    && (r.Fail? ==> exists refused | refused <= Offered(w.header) :: B.Justified(r.error, m, refused))
  }

  ghost predicate GuestTook(l: G.Log, m: G.Log, g: R.Turn, w: R.World) {
    && (exists acts :: G.DoAll(l, acts) == Some(m))
    && (g == R.Failed(R.BadHeader) ==>
          exists refused | refused <= Offered(w.read) :: ScanFrom(false, m.scanned, refused).place.Bad?)
  }

  /** One turn; an end that has finished does nothing any more. */
  ghost predicate Turned(a: Moment, b: Moment, t: Turn) {
    match t
    case HostTurn(w) =>
      && b.s.guest == a.s.guest && b.g == a.g
      && if a.r.Again? then HostTook(a.s.host, b.s.host, b.r, w) else b == a
    case GuestTurn(w) =>
      && b.s.host == a.s.host && b.r == a.r
      && if a.g.Again? then GuestTook(a.s.guest, b.s.guest, b.g, w) else b == a
  }

  ghost predicate Session(moments: seq<Moment>, schedule: seq<Turn>) {
    && |moments| == |schedule| + 1 && moments[0] == Moment(INIT, B.Again, R.Again)
    && forall i {:trigger schedule[i]} | 0 <= i < |schedule| :: Turned(moments[i], moments[i + 1], schedule[i])
  }

  lemma Extend(moments: seq<Moment>, schedule: seq<Turn>, i: nat, m: Moment)
    requires i < |schedule| && Session(moments, schedule[..i]) && Turned(moments[i], m, schedule[i])
    ensures Session(moments + [m], schedule[..i + 1])
  {
    var more, upTo := moments + [m], schedule[..i + 1];
    forall j | 0 <= j < |upTo| ensures Turned(more[j], more[j + 1], upTo[j]) {
      if j < i { assert schedule[..i][j] == upTo[j]; }
    }
  }

  /** In this turn the transport handed over only bytes that had been written to it;
      where a frame was refused, also the bytes offered and not taken. */
  ghost predicate Honest(a: Moment, b: Moment, t: Turn) {
    match t
    case HostTurn(w) =>
      && b.s.host.consumed <= a.s.guest.wire
      && (a.r.Again? && b.r.Fail? && !B.Local(b.r.error) ==>
            b.s.host.consumed + Offered(w.header) <= a.s.guest.wire)
    case GuestTurn(w) =>
      && b.s.guest.consumed <= a.s.host.wire
      && (a.g.Again? && b.g == R.Failed(R.BadHeader) ==>
            b.s.guest.consumed + Offered(w.read) <= a.s.host.wire)
  }

  ghost predicate Delivered(moments: seq<Moment>, schedule: seq<Turn>, n: nat)
    requires |moments| == |schedule| + 1 && n <= |schedule|
  {
    forall i {:trigger schedule[i]} | 0 <= i < n :: Honest(moments[i], moments[i + 1], schedule[i])
  }

  /** Neither end has failed because of a frame. */
  predicate NothingRefused(m: Moment) { (m.r.Fail? ==> B.Local(m.r.error)) && m.g != R.Failed(R.BadHeader) }

  ghost predicate AllFaithful(s: System) { forall id :: Faithful(s, id) }

  /** As long as the transport kept its side, and fewer than 2^32 streams were opened:
      after every turn every stream has delivered a prefix of what was read at its
      other end, in both directions, and neither program has failed because a frame
      was malformed or opened a stream twice. */
  ghost predicate Promise(moments: seq<Moment>, schedule: seq<Turn>)
    requires |moments| == |schedule| + 1
  {
    forall n | 0 <= n <= |schedule| && Delivered(moments, schedule, n) && moments[n].s.guest.nextId <= U32 ::
      AllFaithful(moments[n].s) && NothingRefused(moments[n])
  }

  lemma PrefixOfOffered(a: seq<Byte>, b: seq<Byte>, c: seq<Byte>, w: seq<Byte>)
    requires b <= c && a + c <= w
    ensures a + b <= w
  {
    assert (a + c)[..|a + b|] == a + b;
  }

  lemma HostTurnKeeps(a: Moment, b: Moment, w: B.World)
    requires Turned(a, b, HostTurn(w)) && Honest(a, b, HostTurn(w)) && Reached(a.s)
    ensures Reached(b.s)
    ensures b.s.guest.nextId <= U32 && NothingRefused(a) ==> NothingRefused(b)
  {
    if a.r.Again? {
      var acts :| H.DoAll(a.s.host, acts) == Some(b.s.host);
      HostActs(a.s, acts);
      if b.r.Fail? && !B.Local(b.r.error) && b.s.guest.nextId <= U32 {
        var refused :| refused <= Offered(w.header) && B.Justified(b.r.error, b.s.host, refused);
        PrefixOfOffered(b.s.host.consumed, refused, Offered(w.header), a.s.guest.wire);
        HostNeverRefuses(b.s, b.r.error, refused);
      }
    }
  }

  lemma GuestTurnKeeps(a: Moment, b: Moment, w: R.World)
    requires Turned(a, b, GuestTurn(w)) && Honest(a, b, GuestTurn(w)) && Reached(a.s)
    ensures Reached(b.s) && a.s.guest.nextId <= b.s.guest.nextId
    ensures b.s.guest.nextId <= U32 && NothingRefused(a) ==> NothingRefused(b)
  {
    if a.g.Again? {
      var acts :| G.DoAll(a.s.guest, acts) == Some(b.s.guest);
      GuestActs(a.s, acts);
      G.NextIdGrows(a.s.guest, acts);
      if b.g == R.Failed(R.BadHeader) && b.s.guest.nextId <= U32 {
        GuestNotToBlame(a, b, w);
      }
    }
  }

  /** A guest that was offered only what had been written cannot have refused it. */
  lemma GuestNotToBlame(a: Moment, b: Moment, w: R.World)
    requires Reached(b.s) && b.s.guest.nextId <= U32 && b.s.host == a.s.host
    requires b.s.guest.consumed + Offered(w.read) <= a.s.host.wire
    ensures !exists refused | refused <= Offered(w.read) :: ScanFrom(false, b.s.guest.scanned, refused).place.Bad?
  {
    forall refused | refused <= Offered(w.read) ensures !ScanFrom(false, b.s.guest.scanned, refused).place.Bad? {
      PrefixOfOffered(b.s.guest.consumed, refused, Offered(w.read), a.s.host.wire);
      GuestNeverRefuses(b.s, refused);
    }
  }

  /** Turns of the two programs over an honest transport are a run of the composed
      system. */
  lemma {:induction false} SessionReached(moments: seq<Moment>, schedule: seq<Turn>, n: nat)
    requires Session(moments, schedule) && n <= |schedule| && Delivered(moments, schedule, n)
    ensures Reached(moments[n].s) && (moments[n].s.guest.nextId <= U32 ==> NothingRefused(moments[n]))
  {
    if n == 0 {
      ReachedInit();
    } else {
      SessionReached(moments, schedule, n - 1);
      var a, b, t := moments[n - 1], moments[n], schedule[n - 1];
      match t
      case HostTurn(w) => HostTurnKeeps(a, b, w);
      case GuestTurn(w) => GuestTurnKeeps(a, b, w);
    }
  }

  lemma Promised(moments: seq<Moment>, schedule: seq<Turn>)
    requires Session(moments, schedule)
    ensures Promise(moments, schedule)
  {
    forall n | 0 <= n <= |schedule| && Delivered(moments, schedule, n) && moments[n].s.guest.nextId <= U32
      ensures AllFaithful(moments[n].s) && NothingRefused(moments[n])
    {
      SessionReached(moments, schedule, n);
      forall id ensures Faithful(moments[n].s, id) { ReachedIsFaithful(moments[n].s, id); }
    }
  }

  method HostOnce(host: B.Bridge, w: B.World) returns (r: B.Turn)
    requires host.Valid()
    modifies host, host.input, host.input.header
    ensures r.Again? ==> host.Valid()
    ensures HostTook(old(host.log), host.log, r, w)
  {
    ghost var acts, refused;
    r, acts, refused := host.Iterate(w);
  }

  method PublishedOnce(guest: P.PublishRelay, w: R.World) returns (g: R.Turn)
    requires guest.Valid() && R.Exited(guest.childExited, {}, guest.log) && guest.SealedNow()
    modifies guest
    ensures g.Again? ==> guest.Valid() && R.Exited(guest.childExited, {}, guest.log) && guest.SealedNow()
    ensures GuestTook(old(guest.log), guest.log, g, w)
  {
    ghost var acts, refused;
    g, acts, refused := guest.Iterate(w);
  }

  method StdioOnce(guest: S.StdioRelay, w: R.World) returns (g: R.Turn)
    requires guest.Valid() && R.Exited(guest.childExited, guest.present, guest.log) && guest.SealedNow()
    modifies guest
    ensures g.Again? ==> guest.Valid() && R.Exited(guest.childExited, guest.present, guest.log) && guest.SealedNow()
    ensures GuestTook(old(guest.log), guest.log, g, w)
  {
    ghost var acts, refused;
    g, acts, refused := guest.Iterate(w);
  }

  method PublishedTurn(host: B.Bridge, guest: P.PublishRelay, r: B.Turn, g: R.Turn, t: Turn)
    returns (r': B.Turn, g': R.Turn)
    requires r.Again? ==> host.Valid()
    requires g.Again? ==> guest.Valid() && R.Exited(guest.childExited, {}, guest.log) && guest.SealedNow()
    modifies host, host.input, host.input.header, guest
    ensures r'.Again? ==> host.Valid()
    ensures g'.Again? ==> guest.Valid() && R.Exited(guest.childExited, {}, guest.log) && guest.SealedNow()
    ensures Turned(Moment(System(old(host.log), old(guest.log)), r, g), Moment(System(host.log, guest.log), r', g'), t)
  {
    r', g' := r, g;
    match t
    case HostTurn(w) =>
      if r.Again? {
        r' := HostOnce(host, w);
      }
    case GuestTurn(w) =>
      if g.Again? {
        g' := PublishedOnce(guest, w);
      }
  }

  /** Host pump and published-socket relay, over any schedule of turns; an end that has finished
      lets its turns pass.  The moments between turns end where the two programs are,
      and Promise holds of them. */
  method PublishedSession(limits: B.Limits, schedule: seq<Turn>)
    returns (host: B.Bridge, guest: P.PublishRelay, r: B.Turn, g: R.Turn, ghost moments: seq<Moment>)
    requires B.Usable(limits)
    ensures fresh(host) && fresh(guest) && (r.Again? ==> host.Valid()) && (g.Again? ==> guest.Valid())
    ensures Session(moments, schedule) && moments[|schedule|] == Moment(System(host.log, guest.log), r, g)
    ensures Promise(moments, schedule)
  {
    host := new B.Bridge(limits);
    guest := new P.PublishRelay();
    r, g, moments := B.Again, R.Again, [Moment(INIT, B.Again, R.Again)];
    for i := 0 to |schedule|
      invariant fresh(host) && fresh(guest) && fresh(host.input) && fresh(host.input.header)
      invariant r.Again? ==> host.Valid()
      invariant g.Again? ==> guest.Valid() && R.Exited(guest.childExited, {}, guest.log) && guest.SealedNow()
      invariant |moments| == i + 1 && moments[i] == Moment(System(host.log, guest.log), r, g)
      invariant Session(moments, schedule[..i])
    {
      r, g := PublishedTurn(host, guest, r, g, schedule[i]);
      Extend(moments, schedule, i, Moment(System(host.log, guest.log), r, g));
      moments := moments + [Moment(System(host.log, guest.log), r, g)];
    }
    assert schedule[..|schedule|] == schedule;
    Promised(moments, schedule);
  }

  method StdioTurn(host: B.Bridge, guest: S.StdioRelay, r: B.Turn, g: R.Turn, t: Turn) returns (r': B.Turn, g': R.Turn)
    requires r.Again? ==> host.Valid()
    requires g.Again? ==> guest.Valid() && R.Exited(guest.childExited, guest.present, guest.log) && guest.SealedNow()
    modifies host, host.input, host.input.header, guest
    ensures r'.Again? ==> host.Valid()
    ensures g'.Again? ==> guest.Valid() && R.Exited(guest.childExited, guest.present, guest.log) && guest.SealedNow()
    ensures Turned(Moment(System(old(host.log), old(guest.log)), r, g), Moment(System(host.log, guest.log), r', g'), t)
  {
    r', g' := r, g;
    match t
    case HostTurn(w) =>
      if r.Again? {
        r' := HostOnce(host, w);
      }
    case GuestTurn(w) =>
      if g.Again? {
        g' := StdioOnce(guest, w);
      }
  }

  /** Host pump and stdio relay, over any schedule of turns; an end that has finished
      lets its turns pass.  The moments between turns end where the two programs are,
      and Promise holds of them. */
  method StdioSession(limits: B.Limits, schedule: seq<Turn>)
    returns (host: B.Bridge, guest: S.StdioRelay, r: B.Turn, g: R.Turn, ghost moments: seq<Moment>)
    requires B.Usable(limits)
    ensures fresh(host) && fresh(guest) && (r.Again? ==> host.Valid()) && (g.Again? ==> guest.Valid())
    ensures Session(moments, schedule) && moments[|schedule|] == Moment(System(host.log, guest.log), r, g)
    ensures Promise(moments, schedule)
  {
    host := new B.Bridge(limits);
    guest := new S.StdioRelay();
    r, g, moments := B.Again, R.Again, [Moment(INIT, B.Again, R.Again)];
    for i := 0 to |schedule|
      invariant fresh(host) && fresh(guest) && fresh(host.input) && fresh(host.input.header)
      invariant r.Again? ==> host.Valid()
      invariant g.Again? ==> guest.Valid() && R.Exited(guest.childExited, guest.present, guest.log) && guest.SealedNow()
      invariant |moments| == i + 1 && moments[i] == Moment(System(host.log, guest.log), r, g)
      invariant Session(moments, schedule[..i])
    {
      r, g := StdioTurn(host, guest, r, g, schedule[i]);
      Extend(moments, schedule, i, Moment(System(host.log, guest.log), r, g));
      moments := moments + [Moment(System(host.log, guest.log), r, g)];
    }
    assert schedule[..|schedule|] == schedule;
    Promised(moments, schedule);
  }
}
