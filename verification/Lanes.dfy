/** One stream's view of a sequence of relay events. */
module Lanes {
  import opened Basics
  import opened Wire

  /** The bytes a receiver owes stream `id`: the payloads up to its first CLOSE. */
  function StreamBytes(id: nat, ev: seq<Event>): seq<Byte> {
    if ev == [] then []
    else
      var front, last := ev[..|ev| - 1], ev[|ev| - 1];
      if last.Payload? && last.id == id && Closed(id) !in front
      then StreamBytes(id, front) + [last.byte]
      else StreamBytes(id, front)
  }

  /** The life of a stream as its sender must conduct it. */
  datatype Lane = Fresh | Flowing(bytes: seq<Byte>) | Ended(bytes: seq<Byte>) | Broken

  function LaneStep(l: Lane, e: Event): Lane {
    match l
    case Fresh => if e.Opened? then Flowing([]) else Broken
    case Flowing(b) => if e.Payload? then Flowing(b + [e.byte]) else if e.Closed? then Ended(b) else Broken
    case Ended(_) => Broken
    case Broken => Broken
  }

  function LaneOf(id: nat, l: Lane, ev: seq<Event>): Lane {
    if ev == [] then l
    else
      var before := LaneOf(id, l, ev[..|ev| - 1]);
      if ev[|ev| - 1].id == id then LaneStep(before, ev[|ev| - 1]) else before
  }

  predicate Silent(id: nat, ev: seq<Event>) { forall e | e in ev :: e.id != id }

  lemma {:induction false} LaneAppend(id: nat, l: Lane, a: seq<Event>, b: seq<Event>)
    ensures LaneOf(id, l, a + b) == LaneOf(id, LaneOf(id, l, a), b)
    decreases |b|
  {
    if b == [] {
      assert a + b == a;
    } else {
      assert (a + b)[..|a + b| - 1] == a + b[..|b| - 1];
      LaneAppend(id, l, a, b[..|b| - 1]);
    }
  }

  lemma {:induction false} LaneSilent(id: nat, l: Lane, ev: seq<Event>)
    requires Silent(id, ev)
    ensures LaneOf(id, l, ev) == l
  {
    if ev != [] {
      LaneSilent(id, l, ev[..|ev| - 1]);
    }
  }

  /** What a lane said can only be extended, and a broken lane stays broken. */
  ghost predicate Extends(l: Lane, m: Lane) {
    match l
    case Fresh => true
    case Flowing(b) => m.Broken? || ((m.Flowing? || m.Ended?) && b <= m.bytes)
    case Ended(b) => m.Broken? || m == l
    case Broken => m.Broken?
  }

  lemma {:induction false} LaneExtends(id: nat, l: Lane, ev: seq<Event>)
    ensures Extends(l, LaneOf(id, l, ev))
  {
    if ev != [] {
      LaneExtends(id, l, ev[..|ev| - 1]);
    }
  }

  lemma LanePrefix(id: nat, l: Lane, a: seq<Event>, b: seq<Event>)
    requires a <= b
    ensures Extends(LaneOf(id, l, a), LaneOf(id, l, b))
  {
    assert b == a + b[|a|..];
    LaneAppend(id, l, a, b[|a|..]);
    LaneExtends(id, LaneOf(id, l, a), b[|a|..]);
  }

  lemma {:induction false} LanePayloads(id: nat, to: nat, l: Lane, bytes: seq<Byte>)
    ensures LaneOf(id, l, Payloads(to, bytes)) ==
            if id != to || bytes == [] then l else if l.Flowing? then Flowing(l.bytes + bytes) else Broken
  {
    if bytes != [] {
      var front := bytes[..|bytes| - 1];
      assert Payloads(to, bytes)[..|Payloads(to, front)|] == Payloads(to, front);
      LanePayloads(id, to, l, front);
      assert front + [bytes[|bytes| - 1]] == bytes;
      if l.Flowing? { assert l.bytes + front + [bytes[|bytes| - 1]] == l.bytes + bytes; }
    }
  }

  /** One more frame on a sender's lane: of another stream, or of this one. */
  lemma LaneOtherFrame(id: nat, l: Lane, fs: seq<Frame>, f: Frame)
    requires f.id != id
    ensures LaneOf(id, l, AllEvents(fs + [f])) == LaneOf(id, l, AllEvents(fs))
  {
    EventsSnoc(fs, f);
    LaneAppend(id, l, AllEvents(fs), FrameEvents(f));
    LaneSilent(id, LaneOf(id, l, AllEvents(fs)), FrameEvents(f));
  }

  lemma LaneOwnFrame(l: Lane, fs: seq<Frame>, f: Frame)
    requires f.Data? ==> f.payload != [] && LaneOf(f.id, l, AllEvents(fs)).Flowing?
    ensures f.Data? ==>
              LaneOf(f.id, l, AllEvents(fs + [f])) == Flowing(LaneOf(f.id, l, AllEvents(fs)).bytes + f.payload)
    ensures !f.Data? ==>
              LaneOf(f.id, l, AllEvents(fs + [f])) ==
              LaneStep(LaneOf(f.id, l, AllEvents(fs)), if f.Open? then Opened(f.id) else Closed(f.id))
  {
    var before := LaneOf(f.id, l, AllEvents(fs));
    EventsSnoc(fs, f);
    LaneAppend(f.id, l, AllEvents(fs), FrameEvents(f));
    match f
    case Open(id) => assert LaneOf(id, before, [Opened(id)]) == LaneStep(LaneOf(id, before, []), Opened(id));
    case Close(id) => assert LaneOf(id, before, [Closed(id)]) == LaneStep(LaneOf(id, before, []), Closed(id));
    case Data(id, payload) => LanePayloads(id, id, before, payload);
  }

  // -------------------------------------------------------- the receiver's side

  lemma {:induction false} StreamAppend(id: nat, a: seq<Event>, b: seq<Event>)
    ensures StreamBytes(id, a + b) == StreamBytes(id, a) + (if Closed(id) in a then [] else StreamBytes(id, b))
    decreases |b|
  {
    if b == [] {
      assert a + b == a;
    } else {
      var front := b[..|b| - 1];
      assert (a + b)[..|a + b| - 1] == a + front;
      StreamAppend(id, a, front);
    }
  }

  lemma {:induction false} StreamSilent(id: nat, ev: seq<Event>)
    requires Silent(id, ev)
    ensures StreamBytes(id, ev) == []
  {
    if ev != [] {
      StreamSilent(id, ev[..|ev| - 1]);
    }
  }

  lemma {:induction false} StreamPayloads(id: nat, to: nat, bytes: seq<Byte>)
    ensures StreamBytes(id, Payloads(to, bytes)) == if id == to then bytes else []
    ensures Closed(id) !in Payloads(to, bytes)
  {
    if bytes != [] {
      var front := bytes[..|bytes| - 1];
      assert Payloads(to, bytes)[..|Payloads(to, front)|] == Payloads(to, front);
      StreamPayloads(id, to, front);
      assert front + [bytes[|bytes| - 1]] == bytes;
    }
  }

  /** On a lane its sender kept, what the receiver owes is what the sender said. */
  lemma {:induction false} StreamOfLane(id: nat, ev: seq<Event>)
    requires !LaneOf(id, Flowing([]), ev).Broken?
    ensures var l := LaneOf(id, Flowing([]), ev);
            && (if Closed(id) in ev then l.Ended? else l.Flowing?)
            && l.bytes == StreamBytes(id, ev)
  {
    if ev != [] {
      StreamOfLane(id, ev[..|ev| - 1]);
    }
  }

  /** A lane that starts Fresh and is not broken is silent until it is opened. */
  lemma {:induction false} FreshIsSilent(id: nat, ev: seq<Event>)
    requires LaneOf(id, Fresh, ev).Fresh?
    ensures Silent(id, ev)
  {
    if ev != [] {
      LaneExtends(id, LaneOf(id, Fresh, ev[..|ev| - 1]), [ev[|ev| - 1]]);
      FreshIsSilent(id, ev[..|ev| - 1]);
    }
  }

  /** Exactly one OPEN: around the OPEN of a lane nobody broke, the stream was
      silent before and is not opened again after. */
  lemma OpenedOnce(id: nat, ev: seq<Event>, k: nat)
    requires !LaneOf(id, Fresh, ev).Broken?
    requires 1 <= k <= |ev| && ev[k - 1] == Opened(id)
    ensures Silent(id, ev[..k - 1])
    ensures LaneOf(id, Fresh, ev) == LaneOf(id, Flowing([]), ev[k..])
  {
    assert ev[..k][..k - 1] == ev[..k - 1];
    LanePrefix(id, Fresh, ev[..k], ev);
    FreshIsSilent(id, ev[..k - 1]);
    assert ev == ev[..k] + ev[k..];
    LaneAppend(id, Fresh, ev[..k], ev[k..]);
  }

  /** Frames of a sender that never names `id` leave it silent. */
  lemma {:induction false} SilentFrames(id: nat, fs: seq<Frame>)
    requires forall f | f in fs :: f.id != id
    ensures Silent(id, AllEvents(fs))
  {
    if fs != [] {
      SilentFrames(id, fs[..|fs| - 1]);
    }
  }

  lemma {:induction false} EventHasFrame(e: Event, fs: seq<Frame>)
    requires e in AllEvents(fs)
    ensures exists f | f in fs :: f.id == e.id && (e.Opened? <==> f.Open?)
  {
    var front, last := fs[..|fs| - 1], fs[|fs| - 1];
    if e in AllEvents(front) {
      EventHasFrame(e, front);
    } else {
      assert e in FrameEvents(last);
      assert last in fs;
    }
  }
}
