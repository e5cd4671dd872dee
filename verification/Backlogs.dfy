/** The published-socket relay's queues: chunks that are filled up before a new one
    is started, with one offset into the front chunk. */
module Backlogs {
  import opened Basics
  import opened Wire

  function Same(chunk: seq<Byte>): seq<Byte> { chunk }

  function Concat(queue: seq<seq<Byte>>): seq<Byte> { Flat(Same, queue) }

  datatype Backlog = Backlog(queue: seq<seq<Byte>>, offset: nat) {
    /** No finished chunk is kept. */
    predicate Valid() {
      if queue == [] then offset == 0 else offset < |queue[0]| && forall i | 0 <= i < |queue| :: queue[i] != []
    }

    function Pending(): seq<Byte> { if offset <= |Concat(queue)| then Concat(queue)[offset..] else [] }

    /** A frame or chunk at the end. */
    function Pushed(data: seq<Byte>): Backlog { this.(queue := queue + [data]) }

    /** n bytes of the front chunk were written. */
    function Written(n: nat): Backlog {
      if queue != [] && offset + n == |queue[0]| then Backlog(queue[1..], 0) else this.(offset := offset + n)
    }

    /** What the front chunk still has to give. */
    function Front(): nat { if queue != [] && offset <= |queue[0]| then |queue[0]| - offset else 0 }

    /** Data fills up the last chunk before it starts a new one. */
    function Appended(data: seq<Byte>): Backlog {
      if queue == [] then Pushed(data)
      else
        var last := queue[|queue| - 1];
        var space := if CHUNK - |last| < 0 then 0 else if |data| < CHUNK - |last| then |data| else CHUNK - |last|;
        var filled := queue[..|queue| - 1] + [last + data[..space]];
        this.(queue := if space == |data| then filled else filled + [data[space..]])
    }

    /** Every chunk but the last is full. */
    predicate Packed() {
      forall i | 0 <= i < |queue| :: 0 < |queue[i]| <= CHUNK && (i < |queue| - 1 ==> |queue[i]| == CHUNK)
    }
  }

  lemma ConcatFront(queue: seq<seq<Byte>>)
    requires queue != []
    ensures Concat(queue) == queue[0] + Concat(queue[1..])
  {
    assert queue == [queue[0]] + queue[1..];
    FlatAppend(Same, [queue[0]], queue[1..]);
    FlatSnoc(Same, [], queue[0]);
    assert [] + [queue[0]] == [queue[0]];
  }

  lemma ConcatBack(queue: seq<seq<Byte>>, data: seq<Byte>)
    ensures Concat(queue + [data]) == Concat(queue) + data
  {
    FlatSnoc(Same, queue, data);
  }

  lemma PendingFits(b: Backlog)
    requires b.Valid()
    ensures b.offset <= |Concat(b.queue)|
    ensures b.queue == [] <==> b.Pending() == []
    ensures b.Front() <= |b.Pending()|
  {
    if b.queue != [] {
      ConcatFront(b.queue);
    }
  }

  lemma PushKeeps(b: Backlog, data: seq<Byte>)
    requires b.Valid() && data != []
    ensures b.Pushed(data).Valid() && b.Pushed(data).Pending() == b.Pending() + data
  {
    PendingFits(b);
    ConcatBack(b.queue, data);
    DropAppend(Concat(b.queue), data, b.offset);
  }

  lemma DropAppend<T>(a: seq<T>, b: seq<T>, k: nat)
    requires k <= |a|
    ensures (a + b)[k..] == a[k..] + b
  {
  }

  lemma DropMore<T>(a: seq<T>, k: nat, n: nat)
    requires k + n <= |a|
    ensures a[k..] == a[k..][..n] + a[k + n..]
  {
  }

  lemma WriteKeeps(b: Backlog, n: nat)
    requires b.Valid() && n <= b.Front()
    ensures b.Written(n).Valid()
    ensures n <= |b.Pending()| && b.Pending() == b.Pending()[..n] + b.Written(n).Pending()
    ensures b.Packed() ==> b.Written(n).Packed()
  {
    assert b.Written(n).Valid() && (b.Packed() ==> b.Written(n).Packed()) by { WrittenShape(b, n); }
    PendingFits(b);
    WrittenPending(b, n);
    DropMore(Concat(b.queue), b.offset, n);
  }

  lemma WrittenShape(b: Backlog, n: nat)
    requires b.Valid() && n <= b.Front()
    ensures b.Written(n).Valid() && (b.Packed() ==> b.Written(n).Packed())
  {
    if b.queue != [] && b.offset + n == |b.queue[0]| {
      var rest := b.queue[1..];
      assert forall i | 0 <= i < |rest| :: rest[i] == b.queue[i + 1];
    }
  }

  lemma WrittenPending(b: Backlog, n: nat)
    requires b.Valid() && n <= b.Front() && b.offset + n <= |Concat(b.queue)|
    ensures b.Written(n).Pending() == Concat(b.queue)[b.offset + n..]
  {
    if b.queue != [] && b.offset + n == |b.queue[0]| {
      FrontGone(b.queue);
    }
  }

  /** What is left of the chunks behind the first one. */
  lemma FrontGone(queue: seq<seq<Byte>>)
    requires queue != []
    ensures |queue[0]| <= |Concat(queue)| && Concat(queue)[|queue[0]|..] == Concat(queue[1..])[0..]
  {
    ConcatFront(queue);
    DropAppend(queue[0], Concat(queue[1..]), |queue[0]|);
    assert queue[0][|queue[0]|..] == [];
    assert [] + Concat(queue[1..]) == Concat(queue[1..]);
    assert Concat(queue[1..])[0..] == Concat(queue[1..]);
  }

  /** Filling up the last chunk. */
  lemma ConcatFill(queue: seq<seq<Byte>>, data: seq<Byte>)
    requires queue != []
    ensures Concat(queue[..|queue| - 1] + [queue[|queue| - 1] + data]) == Concat(queue) + data
  {
    var front, last := queue[..|queue| - 1], queue[|queue| - 1];
    assert queue == front + [last];
    ConcatBack(front, last);
    ConcatBack(front, last + data);
    assert Concat(front) + last + data == Concat(front) + (last + data);
  }

  lemma ConcatAppended(b: Backlog, data: seq<Byte>)
    requires b.Packed() && b.queue != []
    ensures Concat(b.Appended(data).queue) == Concat(b.queue) + data
  {
    var last := b.queue[|b.queue| - 1];
    var space := if |data| < CHUNK - |last| then |data| else CHUNK - |last|;
    var filled := b.queue[..|b.queue| - 1] + [last + data[..space]];
    ConcatFill(b.queue, data[..space]);
    ConcatBack(filled, data[space..]);
    Rejoin(Concat(b.queue), data, space);
  }

  lemma Rejoin<T>(a: seq<T>, b: seq<T>, k: nat)
    requires k <= |b|
    ensures a + b[..k] + b[k..] == a + b
    ensures k == |b| ==> a + b[..k] == a + b
  {
  }

  lemma AppendPacked(b: Backlog, data: seq<Byte>)
    requires b.Valid() && b.Packed() && 0 < |data| <= CHUNK
    ensures b.Appended(data).Valid() && b.Appended(data).Packed()
  {
    if b.queue != [] {
      var n := |b.queue|;
      var q := b.Appended(data).queue;
      assert forall i | 0 <= i < n - 1 :: q[i] == b.queue[i];
      assert b.queue[n - 1] <= q[n - 1];
    }
  }

  /** The accepted bytes stand at the end of what is pending, and the queue stays
      packed. */
  lemma AppendKeeps(b: Backlog, data: seq<Byte>)
    requires b.Valid() && b.Packed() && 0 < |data| <= CHUNK
    ensures b.Appended(data).Valid() && b.Appended(data).Packed()
    ensures b.Appended(data).Pending() == b.Pending() + data
  {
    AppendPacked(b, data);
    if b.queue == [] {
      PushKeeps(b, data);
    } else {
      PendingFits(b);
      ConcatAppended(b, data);
      DropAppend(Concat(b.queue), data, b.offset);
    }
  }

  /** The exact size of a packed queue. */
  lemma {:induction false} PackedSize(queue: seq<seq<Byte>>)
    requires queue != [] && forall i | 0 <= i < |queue| - 1 :: |queue[i]| == CHUNK
    ensures |Concat(queue)| == (|queue| - 1) * CHUNK + |queue[|queue| - 1]|
    decreases |queue|
  {
    ConcatFront(queue);
    if |queue| > 1 {
      PackedSize(queue[1..]);
    }
  }

  /** Coalescing bounds the number of chunks: at most 256 KiB pending, with a front
      chunk written up to some offset, never spreads over more than five. */
  lemma AtMostFiveChunks(b: Backlog)
    requires b.Valid() && b.Packed() && |b.Pending()| <= 4 * CHUNK
    ensures |b.queue| <= 5
  {
    if b.queue != [] {
      PendingFits(b);
      PackedSize(b.queue);
    }
  }
}
