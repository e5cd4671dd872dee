/** The bounded FIFO of src/apple_container_transport.rs, used for the transport
    and for every local socket.  `Buffer` is a queue's value, with what each operation
    makes of it; the pump updates it in place in its fields. */
module Queues {
  import opened Basics
  import opened Wire
  import opened Outcomes

  datatype Chunk = Chunk(bytes: seq<Byte>, offset: nat, queued: int)

  function Rest(c: Chunk): seq<Byte> { if c.offset <= |c.bytes| then c.bytes[c.offset..] else [] }

  function Whole(c: Chunk): seq<Byte> { c.bytes }

  /** The bytes still to be written, in order. */
  function Pending(chunks: seq<Chunk>): seq<Byte> { Flat(Rest, chunks) }

  /** Whole chunks stay charged until their last byte is written. */
  function Charged(chunks: seq<Chunk>): nat { |Flat(Whole, chunks)| }

  /** No chunk is finished, and only the front one is partly written. */
  predicate Orderly(chunks: seq<Chunk>) {
    forall i | 0 <= i < |chunks| :: chunks[i].offset < |chunks[i].bytes| && (i > 0 ==> chunks[i].offset == 0)
  }

  lemma PendingFront(c: Chunk, chunks: seq<Chunk>)
    ensures Pending([c] + chunks) == Rest(c) + Pending(chunks)
    ensures Charged([c] + chunks) == |c.bytes| + Charged(chunks)
  {
    FlatAppend(Rest, [c], chunks);
    FlatAppend(Whole, [c], chunks);
    FlatSnoc(Rest, [], c);
    FlatSnoc(Whole, [], c);
    assert [] + [c] == [c];
  }

  lemma PendingBack(chunks: seq<Chunk>, c: Chunk)
    ensures Pending(chunks + [c]) == Pending(chunks) + Rest(c)
    ensures Charged(chunks + [c]) == Charged(chunks) + |c.bytes|
  {
    FlatSnoc(Rest, chunks, c);
    FlatSnoc(Whole, chunks, c);
  }

  /** The chunks after n bytes of the front one were written. */
  function Advanced(chunks: seq<Chunk>, n: nat): seq<Chunk>
    requires chunks != []
  {
    if n == |Rest(chunks[0])| then chunks[1..]
    else [chunks[0].(offset := chunks[0].offset + n)] + chunks[1..]
  }

  /** ... and the charge that goes with it. */
  function Released(chunks: seq<Chunk>, n: nat): nat
    requires chunks != []
  {
    if n == |Rest(chunks[0])| then |chunks[0].bytes| else 0
  }

  lemma AdvanceKeeps(chunks: seq<Chunk>, n: nat)
    requires chunks != [] && Orderly(chunks) && 0 < n <= |Rest(chunks[0])|
    ensures Orderly(Advanced(chunks, n)) && |Advanced(chunks, n)| <= |chunks|
    ensures Pending(chunks) == Rest(chunks[0])[..n] + Pending(Advanced(chunks, n))
    ensures Charged(chunks) == Released(chunks, n) + Charged(Advanced(chunks, n))
  {
    var front, tail := chunks[0], chunks[1..];
    assert chunks == [front] + tail;
    PendingFront(front, tail);
    if n != |Rest(front)| {
      var moved := front.(offset := front.offset + n);
      PendingFront(moved, tail);
      Reassociate(Rest(front)[..n], Rest(moved), Pending(tail));
      assert Rest(front) == Rest(front)[..n] + Rest(moved);
    } else {
      assert Rest(front)[..n] == Rest(front);
    }
  }

  datatype Buffer = Buffer(chunks: seq<Chunk>, bytes: nat, limit: nat, chunkLimit: nat) {

    ghost predicate Valid() {
      Orderly(chunks) && bytes == Charged(chunks) <= limit && |chunks| <= chunkLimit
    }

    function Room(): nat {
      if |chunks| >= chunkLimit || bytes > limit then 0 else limit - bytes
    }

    predicate Empty() { chunks == [] }

    predicate Expired(now: int, deadline: nat) { chunks != [] && now - chunks[0].queued >= deadline }

    function Pushed(data: seq<Byte>, now: int): Buffer {
      if data == [] then this else this.(chunks := chunks + [Chunk(data, 0, now)], bytes := bytes + |data|)
    }

    /** How many bytes of the front chunk one write takes. */
    function Count(o: WriteOutcome): nat {
      if chunks == [] || !o.Wrote? then 0
      else if o.count <= |Rest(chunks[0])| then o.count else |Rest(chunks[0])|
    }

    function Taken(o: WriteOutcome): seq<Byte> { if Count(o) == 0 then [] else Rest(chunks[0])[..Count(o)] }

    predicate Fails(o: WriteOutcome) { chunks != [] && (o.WriteFailed? || o == Wrote(0)) }

    function Written(o: WriteOutcome): Buffer {
      if Count(o) == 0 then this
      else
        var released := Released(chunks, Count(o));
        this.(chunks := Advanced(chunks, Count(o)), bytes := if released <= bytes then bytes - released else 0)
    }
  }

  /** A push keeps the bounds and adds exactly its bytes at the end. */
  lemma PushKeeps(b: Buffer, data: seq<Byte>, now: int)
    requires b.Valid() && |data| <= b.Room()
    ensures b.Pushed(data, now).Valid()
    ensures Pending(b.Pushed(data, now).chunks) == Pending(b.chunks) + data
  {
    if data != [] {
      PendingBack(b.chunks, Chunk(data, 0, now));
    } else {
      assert Pending(b.chunks) + data == Pending(b.chunks);
    }
  }

  /** A write takes the next bytes due and leaves the rest in order; the charge
      drops only with a whole chunk. */
  lemma WriteKeeps(b: Buffer, o: WriteOutcome)
    requires b.Valid()
    ensures b.Written(o).Valid()
    ensures Pending(b.chunks) == b.Taken(o) + Pending(b.Written(o).chunks)
    ensures b.Written(o).Room() >= b.Room()
  {
    if b.Count(o) == 0 {
      assert [] + Pending(b.chunks) == Pending(b.chunks);
    } else {
      AdvanceKeeps(b.chunks, b.Count(o));
    }
  }

  lemma NothingPending(b: Buffer)
    requires b.Valid()
    ensures Pending(b.chunks) == [] <==> b.Empty()
  {
    if b.chunks != [] {
      PendingFront(b.chunks[0], b.chunks[1..]);
      assert b.chunks == [b.chunks[0]] + b.chunks[1..];
    }
  }
}
