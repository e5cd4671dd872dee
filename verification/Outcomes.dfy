/** Outcomes of nonblocking calls, which stand for the descriptors themselves. */
module Outcomes {
  import opened Basics
  import opened Wire

  /** A read finds bytes, the end of the stream, nothing yet (EAGAIN or EINTR), or
      an error. */
  datatype ReadOutcome = Avail(first: Byte, more: seq<Byte>) | Eof | ReadBlocked | ReadFailed

  /** A write takes some bytes, nothing yet, or fails; Wrote(0) is a failure too. */
  datatype WriteOutcome = Wrote(count: nat) | WriteBlocked | WriteFailed

  /** What poll reported for one descriptor. */
  datatype Ready = Ready(readable: bool, writable: bool, hangup: bool, error: bool)

  /** A read of at most `size` bytes takes what is available. */
  function Got(o: ReadOutcome, size: nat): (r: seq<Byte>)
    requires o.Avail? && size > 0
    ensures 0 < |r| <= size && r <= Offered(o)
  {
    if |Offered(o)| <= size then Offered(o) else Offered(o)[..size]
  }

  /** Everything a read could have taken. */
  function Offered(o: ReadOutcome): seq<Byte> { if o.Avail? then [o.first] + o.more else [] }

  lemma Unit<T>(s: seq<T>)
    ensures s + [] == s
  {
  }

  lemma Reassociate<T>(x: seq<T>, y: seq<T>, z: seq<T>)
    ensures (x + y) + z == x + (y + z)
  {
  }

  /** Moving `t` from the front of what is due to the end of what is done. */
  lemma Advance<T>(a: seq<T>, b: seq<T>, t: seq<T>, b': seq<T>, ab: seq<T>)
    requires a + b == ab && b == t + b'
    ensures |a| + |t| <= |ab| && ab[..|a| + |t|] == a + t
    ensures (a + t) + b' == ab
  {
  }
}
