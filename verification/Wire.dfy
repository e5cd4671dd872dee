/** The relay wire format: OPEN/DATA/CLOSE frames behind a nine-byte big-endian
    header, and the byte-at-a-time meaning of a stream of such frames.

    `Scan` is the reference both ends are held to.  It is a fold over single
    bytes, so it cannot depend on how a transport splits the stream into reads;
    the relays, which read fragments of any size, must reach the same state. */
module Wire {
  import opened Basics

  const HEADER := 9
  const KIND_OPEN: Byte := 1
  const KIND_DATA: Byte := 2
  const KIND_CLOSE: Byte := 3
  const MAX_FRAME := 16 * 1024 * 1024
  const CHUNK := 64 * 1024
  const U32 := 0x1_0000_0000

  // --------------------------------------------------------------- sequences

  /** The concatenation of f over a sequence. */
  function Flat<A, B>(f: A -> seq<B>, xs: seq<A>): seq<B> {
    if xs == [] then [] else Flat(f, xs[..|xs| - 1]) + f(xs[|xs| - 1])
  }

  lemma FlatSnoc<A, B>(f: A -> seq<B>, xs: seq<A>, x: A)
    ensures Flat(f, xs + [x]) == Flat(f, xs) + f(x)
  {
    assert (xs + [x])[..|xs|] == xs;
  }

  lemma {:induction false} FlatAppend<A, B>(f: A -> seq<B>, a: seq<A>, b: seq<A>)
    ensures Flat(f, a + b) == Flat(f, a) + Flat(f, b)
    decreases |b|
  {
    if b == [] {
      assert a + b == a;
    } else {
      assert (a + b)[..|a + b| - 1] == a + b[..|b| - 1];
      FlatAppend(f, a, b[..|b| - 1]);
    }
  }

  // ---------------------------------------------------------------- integers

  /** The low 32 bits of n, most significant byte first. */
  function Be32(n: nat): (b: seq<Byte>)
    ensures |b| == 4
  {
    var m := n % U32;
    [m / 256 / 256 / 256, m / 256 / 256 % 256, m / 256 % 256, m % 256]
  }

  function FromBe32(b: seq<Byte>): (n: nat)
    requires |b| == 4
    ensures n < U32
  {
    ((b[0] as int * 256 + b[1] as int) * 256 + b[2] as int) * 256 + b[3] as int
  }

  lemma Be32RoundTrip(n: nat)
    ensures FromBe32(Be32(n)) == n % U32
  {
    var m := n % U32;
    var x := m / 256;
    var y := x / 256;
    assert m == x * 256 + m % 256 && x == y * 256 + x % 256 && y == y / 256 * 256 + y % 256;
  }

  // ---------------------------------------------------------------- frames

  datatype Frame =
    | Open(id: nat)
    | Data(id: nat, payload: seq<Byte>)
    | Close(id: nat)

  function Header(kind: Byte, id: nat, length: nat): (h: seq<Byte>)
    ensures |h| == HEADER
  {
    [kind] + Be32(id) + Be32(length)
  }

  function Encoded(f: Frame): (bytes: seq<Byte>)
    ensures |bytes| >= HEADER
  {
    match f
    case Open(id) => Header(KIND_OPEN, id, 0)
    case Data(id, payload) => Header(KIND_DATA, id, |payload|) + payload
    case Close(id) => Header(KIND_CLOSE, id, 0)
  }

  function EncodedAll(fs: seq<Frame>): seq<Byte> { Flat(Encoded, fs) }

  lemma EncodedSnoc(fs: seq<Frame>, f: Frame)
    ensures EncodedAll(fs + [f]) == EncodedAll(fs) + Encoded(f)
  {
    FlatSnoc(Encoded, fs, f);
  }

  // ---------------------------------------------------------------- scanning

  /** What a stream of bytes means to its receiver. */
  datatype Event = Opened(id: nat) | Payload(id: nat, byte: Byte) | Closed(id: nat)

  /** Where in a frame the stream stands: inside a header, inside the payload of
      DATA for `id`, or behind a header the receiver must refuse. */
  datatype Place = Head(bytes: seq<Byte>) | Body(id: nat, left: nat) | Bad

  datatype Scanned = Scanned(place: Place, events: seq<Event>)

  const START := Scanned(Head([]), [])

  /** A complete header.  Only the host accepts OPEN. */
  function Decoded(opens: bool, h: seq<Byte>): (s: Scanned)
    requires |h| == HEADER
  {
    var kind, id, length := h[0], FromBe32(h[1..5]), FromBe32(h[5..9]);
    if length > MAX_FRAME then Scanned(Bad, [])
    else if kind == KIND_DATA then Scanned(if length == 0 then Head([]) else Body(id, length), [])
    else if length != 0 then Scanned(Bad, [])
    else if kind == KIND_OPEN && opens then Scanned(Head([]), [Opened(id)])
    else if kind == KIND_CLOSE then Scanned(Head([]), [Closed(id)])
    else Scanned(Bad, [])
  }

  function ScanByte(opens: bool, p: Place, b: Byte): Scanned {
    match p
    case Bad => Scanned(Bad, [])
    case Head(h) =>
      if |h| + 1 < HEADER then Scanned(Head(h + [b]), [])
      else if |h| + 1 == HEADER then Decoded(opens, h + [b])
      else Scanned(Bad, [])
    case Body(id, left) => Scanned(if left <= 1 then Head([]) else Body(id, left - 1), [Payload(id, b)])
  }

  function ScanFrom(opens: bool, s: Scanned, bytes: seq<Byte>): Scanned {
    if bytes == [] then s
    else
      var p := ScanFrom(opens, s, bytes[..|bytes| - 1]);
      var q := ScanByte(opens, p.place, bytes[|bytes| - 1]);
      Scanned(q.place, p.events + q.events)
  }

  function Scan(opens: bool, bytes: seq<Byte>): Scanned { ScanFrom(opens, START, bytes) }

  lemma {:induction false} ScanAppend(opens: bool, s: Scanned, a: seq<Byte>, b: seq<Byte>)
    ensures ScanFrom(opens, s, a + b) == ScanFrom(opens, ScanFrom(opens, s, a), b)
    decreases |b|
  {
    if b == [] {
      assert a + b == a;
    } else {
      var c := b[..|b| - 1];
      assert (a + b)[..|a + b| - 1] == a + c;
      ScanAppend(opens, s, a, c);
    }
  }

  /** Reading on only adds events, and never leaves Bad. */
  lemma {:induction false} ScanGrows(opens: bool, s: Scanned, bytes: seq<Byte>)
    ensures s.events <= ScanFrom(opens, s, bytes).events
    ensures s.place.Bad? ==> ScanFrom(opens, s, bytes).place.Bad?
  {
    if bytes != [] {
      ScanGrows(opens, s, bytes[..|bytes| - 1]);
    }
  }

  lemma ScanPrefix(opens: bool, a: seq<Byte>, b: seq<Byte>)
    requires a <= b
    ensures Scan(opens, a).events <= Scan(opens, b).events
    ensures Scan(opens, a).place.Bad? ==> Scan(opens, b).place.Bad?
  {
    assert b == a + b[|a|..];
    ScanAppend(opens, START, a, b[|a|..]);
    ScanGrows(opens, Scan(opens, a), b[|a|..]);
  }

  /** Every place the scan reaches is one a relay can represent. */
  ghost predicate Sensible(p: Place) {
    match p
    case Bad => true
    case Head(h) => |h| < HEADER
    case Body(id, left) => 0 < left <= MAX_FRAME && id < U32
  }

  lemma {:induction false} ScanSensible(opens: bool, bytes: seq<Byte>)
    ensures Sensible(Scan(opens, bytes).place)
  {
    if bytes != [] {
      ScanSensible(opens, bytes[..|bytes| - 1]);
    }
  }

  // ------------------------------------------ reading in fragments of any size

  function Payloads(id: nat, bytes: seq<Byte>): (ev: seq<Event>)
    ensures forall e | e in ev :: e.Payload? && e.id == id
  {
    if bytes == [] then [] else Payloads(id, bytes[..|bytes| - 1]) + [Payload(id, bytes[|bytes| - 1])]
  }

  lemma {:induction false} ScanHeadFragment(opens: bool, s: Scanned, bytes: seq<Byte>)
    requires s.place.Head? && |s.place.bytes| + |bytes| < HEADER
    ensures ScanFrom(opens, s, bytes) == Scanned(Head(s.place.bytes + bytes), s.events)
  {
    if bytes == [] {
      assert s.place.bytes + bytes == s.place.bytes;
    } else {
      ScanHeadFragment(opens, s, bytes[..|bytes| - 1]);
      assert s.place.bytes + bytes == s.place.bytes + bytes[..|bytes| - 1] + [bytes[|bytes| - 1]];
    }
  }

  /** The fragment that completes a header. */
  lemma ScanHeadComplete(opens: bool, s: Scanned, bytes: seq<Byte>)
    requires s.place.Head? && bytes != [] && |s.place.bytes| + |bytes| == HEADER
    ensures var d := Decoded(opens, s.place.bytes + bytes);
            ScanFrom(opens, s, bytes) == Scanned(d.place, s.events + d.events)
  {
    ScanHeadFragment(opens, s, bytes[..|bytes| - 1]);
    assert s.place.bytes + bytes == s.place.bytes + bytes[..|bytes| - 1] + [bytes[|bytes| - 1]];
  }

  lemma {:induction false} ScanBodyFragment(opens: bool, s: Scanned, bytes: seq<Byte>)
    requires s.place.Body? && bytes != [] && |bytes| <= s.place.left
    ensures ScanFrom(opens, s, bytes) ==
            Scanned(if |bytes| == s.place.left then Head([]) else Body(s.place.id, s.place.left - |bytes|),
                    s.events + Payloads(s.place.id, bytes))
  {
    var id, n := s.place.id, |bytes|;
    var front := bytes[..n - 1];
    if n == 1 {
      assert ScanFrom(opens, s, front) == s;
    } else {
      ScanBodyFragment(opens, s, front);
    }
  }

  // ------------------------------------------------- scanning what was encoded

  function FrameEvents(f: Frame): seq<Event> {
    match f
    case Open(id) => [Opened(id)]
    case Data(id, payload) => Payloads(id, payload)
    case Close(id) => [Closed(id)]
  }

  function AllEvents(fs: seq<Frame>): seq<Event> { Flat(FrameEvents, fs) }

  lemma EventsSnoc(fs: seq<Frame>, f: Frame)
    ensures AllEvents(fs + [f]) == AllEvents(fs) + FrameEvents(f)
  {
    FlatSnoc(FrameEvents, fs, f);
  }

  /** A frame the receiver takes: its id survives the 32-bit field, its payload
      is within the limit, and OPEN is sent only to the side that accepts it. */
  predicate Acceptable(opens: bool, f: Frame) {
    && f.id < U32
    && (f.Data? ==> |f.payload| <= MAX_FRAME)
    && (f.Open? ==> opens)
  }

  lemma DecodedHeader(kind: Byte, id: nat, length: nat)
    requires id < U32 && length < U32
    ensures var h := Header(kind, id, length);
            h[0] == kind && FromBe32(h[1..5]) == id && FromBe32(h[5..9]) == length
  {
    var h := Header(kind, id, length);
    assert h[1..5] == Be32(id) && h[5..9] == Be32(length);
    Be32RoundTrip(id);
    Be32RoundTrip(length);
  }

  lemma ScanHeader(opens: bool, s: Scanned, kind: Byte, id: nat, length: nat)
    requires s.place == Head([]) && id < U32 && length < U32
    ensures var d := Decoded(opens, Header(kind, id, length));
            ScanFrom(opens, s, Header(kind, id, length)) == Scanned(d.place, s.events + d.events)
  {
    assert s.place.bytes + Header(kind, id, length) == Header(kind, id, length);
    ScanHeadComplete(opens, s, Header(kind, id, length));
  }

  lemma DecodedData(opens: bool, id: nat, length: nat)
    requires id < U32 && length <= MAX_FRAME
    ensures Decoded(opens, Header(KIND_DATA, id, length)) ==
            Scanned(if length == 0 then Head([]) else Body(id, length), [])
  {
    DecodedHeader(KIND_DATA, id, length);
  }

  lemma ScanEncodedData(opens: bool, s: Scanned, id: nat, payload: seq<Byte>)
    requires s.place == Head([]) && Acceptable(opens, Data(id, payload))
    ensures ScanFrom(opens, s, Encoded(Data(id, payload))) == Scanned(Head([]), s.events + Payloads(id, payload))
  {
    var h := Header(KIND_DATA, id, |payload|);
    var t := ScanFrom(opens, s, h);
    assert t.events == s.events && t.place == (if payload == [] then Head([]) else Body(id, |payload|)) by {
      ScanHeader(opens, s, KIND_DATA, id, |payload|);
      DecodedData(opens, id, |payload|);
    }
    ScanAppend(opens, s, h, payload);
    if payload != [] {
      ScanBodyFragment(opens, t, payload);
    }
  }

  lemma ScanEncoded(opens: bool, s: Scanned, f: Frame)
    requires s.place == Head([]) && Acceptable(opens, f)
    ensures ScanFrom(opens, s, Encoded(f)) == Scanned(Head([]), s.events + FrameEvents(f))
  {
    match f
    case Open(id) => ScanHeader(opens, s, KIND_OPEN, id, 0); DecodedHeader(KIND_OPEN, id, 0);
    case Close(id) => ScanHeader(opens, s, KIND_CLOSE, id, 0); DecodedHeader(KIND_CLOSE, id, 0);
    case Data(id, payload) => ScanEncodedData(opens, s, id, payload);
  }

  /** Round trip: scanning an encoding gives back exactly what the frames mean,
      and ends on a frame boundary. */
  lemma {:induction false} ScanEncodedAll(opens: bool, fs: seq<Frame>)
    requires forall f | f in fs :: Acceptable(opens, f)
    ensures Scan(opens, EncodedAll(fs)) == Scanned(Head([]), AllEvents(fs))
  {
    if fs != [] {
      var front, last := fs[..|fs| - 1], fs[|fs| - 1];
      ScanEncodedAll(opens, front);
      ScanAppend(opens, START, EncodedAll(front), Encoded(last));
      ScanEncoded(opens, Scan(opens, EncodedAll(front)), last);
    }
  }

  /** Frame synchronisation: a receiver that has taken any prefix of an encoding,
      cut anywhere, has seen a prefix of its events and no malformed header. */
  lemma ScanOfPrefix(opens: bool, bytes: seq<Byte>, fs: seq<Frame>)
    requires forall f | f in fs :: Acceptable(opens, f)
    requires bytes <= EncodedAll(fs)
    ensures Scan(opens, bytes).events <= AllEvents(fs)
    ensures !Scan(opens, bytes).place.Bad?
  {
    ScanEncodedAll(opens, fs);
    ScanPrefix(opens, bytes, EncodedAll(fs));
  }

  /** Beyond 2^32 ids the header field wraps: the encodings of two streams
      coincide, which is why every composed result bounds the number of opens. */
  lemma StreamIdsWrap(id: nat)
    ensures Encoded(Open(id + U32)) == Encoded(Open(id))
  {
    assert (id + U32) % U32 == id % U32;
  }
}
