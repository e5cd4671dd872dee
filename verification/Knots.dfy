/** The knot check of scripts/analyze-input-probe.py: calibration compares the rounded
    bounds at every raw timestamp and takes that for all host times.  For the exact
    envelopes this is right.  For the rounded ones the bounds can cross elsewhere, by
    at most 1 ns, and this module says exactly when. */
module Knots {
  import opened Clocks
  import opened OffsetIndex

  /** The exact envelopes do not cross at h. */
  ghost predicate ExactAt(samples: seq<Sample>, h: int, rate: Rate) {
    forall i, j {:trigger samples[i], samples[j]} | 0 <= i < |samples| && 0 <= j < |samples| ::
      Carried(samples[i], false, h, 0, rate) <= Carried(samples[j], true, h, 0, rate)
  }

  /** The bounds the code compares do not cross at h, for an event known to within
      `error`. */
  predicate ConsistentAt(samples: seq<Sample>, h: int, error: nat, rate: Rate)
    requires samples != [] && rate.Valid()
  {
    Brute(samples, false, h, error, rate) <= Brute(samples, true, h, error, rate)
  }

  /** The check at one sample: both its timestamps, without error. */
  predicate KnotsPass(samples: seq<Sample>, s: Sample, rate: Rate)
    requires samples != [] && rate.Valid()
  {
    ConsistentAt(samples, s.h0, 0, rate) && ConsistentAt(samples, s.h3, 0, rate)
  }

  ghost predicate AllPass(samples: seq<Sample>, rate: Rate)
    requires samples != [] && rate.Valid()
  {
    forall s | s in samples :: KnotsPass(samples, s, rate)
  }

  // ----------------------------------------------------------- the exact envelopes

  /** A pair of constraints is closest at the upper one's own timestamp. */
  lemma PairKnot(s: Sample, u: Sample, h: int, rate: Rate)
    ensures Carried(s, false, h, 0, rate) - Carried(u, true, h, 0, rate)
            <= Carried(s, false, u.h0, 0, rate) - Carried(u, true, u.h0, 0, rate)
  {
    Closest(rate.n, Abs(h - s.h3) + s.e3, Abs(h - u.h0) + u.e0, Abs(u.h0 - s.h3) + s.e3, u.e0);
  }

  lemma Closest(n: nat, a: nat, b: nat, a': nat, b': nat)
    requires a' + b' <= a + b
    ensures n * a' + n * b' <= n * a + n * b
  {
    assert n * a' + n * b' == n * (a' + b') && n * a + n * b == n * (a + b);
    assert n * (a' + b') <= n * (a + b);
  }

  /** Exact envelopes that do not cross at any send timestamp never cross. */
  lemma ExactKnots(samples: seq<Sample>, rate: Rate, h: int)
    requires forall k | 0 <= k < |samples| :: ExactAt(samples, samples[k].h0, rate)
    ensures ExactAt(samples, h, rate)
  {
    forall i, j | 0 <= i < |samples| && 0 <= j < |samples|
      ensures Carried(samples[i], false, h, 0, rate) <= Carried(samples[j], true, h, 0, rate)
    {
      assert ExactAt(samples, samples[j].h0, rate);
      PairKnot(samples[i], samples[j], h, rate);
    }
  }

  // ------------------------------------------------------------- pairs of samples

  lemma Ordered(a: int, b: int, d: nat)
    requires a <= b
    ensures a * d <= b * d
  {
  }

  lemma Crossing(p: int, q: int, d: nat, k: nat)
    requires d > 0 && p - q < (k + 1) * d
    ensures Outward(false, p, d) <= Outward(true, q, d) + k
  {
    var lo, hi := Outward(false, p, d), Outward(true, q, d);
    OutwardBounds(false, p, d);
    OutwardBounds(true, q, d);
    assert (hi + (k + 1)) * d == hi * d + (k + 1) * d;
    if lo > hi + k {
      Ordered(hi + (k + 1), lo, d);
      assert false;
    }
  }

  /** Bounds that do not cross do not cross for any pair, and conversely. */
  lemma PairsConsistent(samples: seq<Sample>, h: int, error: nat, rate: Rate)
    requires samples != [] && rate.Valid()
    ensures ConsistentAt(samples, h, error, rate) <==>
            forall s, u | s in samples && u in samples ::
              Bound(s, false, h, error, rate) <= Bound(u, true, h, error, rate)
  {
    var lo := BruteIsTightest(samples, false, h, error, rate);
    var hi := BruteIsTightest(samples, true, h, error, rate);
    if ConsistentAt(samples, h, error, rate) {
      forall s, u | s in samples && u in samples
        ensures Bound(s, false, h, error, rate) <= Bound(u, true, h, error, rate)
      {
        var i :| 0 <= i < |samples| && samples[i] == s;
        var j :| 0 <= j < |samples| && samples[j] == u;
      }
    }
  }

  /** How far apart two constraints can be that pass at the upper one's timestamp,
      where it is x * d + a. */
  lemma SpreadAtSend(p: int, q: int, d: nat, x: int, a: nat)
    requires a < d && q == x * d + a && Outward(false, p, d) <= Outward(true, q, d)
    ensures p - q <= if a == 0 then d - 1 else 2 * d - 1 - a
  {
    var k := if a == 0 then x else x + 1;
    Gap(x, x + 1, d);
    OutwardUnique(true, q, d, k);
    OutwardBounds(false, p, d);
    Ordered(Outward(false, p, d), k, d);
  }

  /** ... and at the lower one's, where it is y * d - b. */
  lemma SpreadAtReceive(p: int, q: int, d: nat, y: int, b: nat)
    requires b < d && p == y * d - b && Outward(false, p, d) <= Outward(true, q, d)
    ensures p - q <= if b == 0 then d - 1 else 2 * d - 1 - b
  {
    var k := if b == 0 then y else y - 1;
    Gap(y - 1, y, d);
    OutwardUnique(false, p, d, k);
    OutwardBounds(true, q, d);
    Ordered(k, Outward(true, q, d), d);
  }

  /** What is left over of an error's drift beyond whole nanoseconds. */
  function Residue(e: nat, rate: Rate): nat
    requires rate.Valid()
  {
    rate.n * e % rate.d
  }

  lemma SendResidue(u: Sample, rate: Rate) returns (x: int)
    requires rate.Valid()
    ensures Residue(u.e0, rate) < rate.d
    ensures Carried(u, true, u.h0, 0, rate) == x * rate.d + Residue(u.e0, rate)
  {
    var q := rate.n * u.e0 / rate.d;
    x := u.Base(true) + q;
    assert rate.n * u.e0 == rate.d * q + Residue(u.e0, rate);
    Distribute(u.Base(true), q, rate.d);
  }

  lemma ReceiveResidue(s: Sample, rate: Rate) returns (y: int)
    requires rate.Valid()
    ensures Residue(s.e3, rate) < rate.d
    ensures Carried(s, false, s.h3, 0, rate) == y * rate.d - Residue(s.e3, rate)
  {
    var q := rate.n * s.e3 / rate.d;
    y := s.Base(false) - q;
    assert rate.n * s.e3 == rate.d * q + Residue(s.e3, rate);
    Distribute(s.Base(false), -q, rate.d);
    assert -1 * rate.n * s.e3 == -(rate.n * s.e3) && -q * rate.d == -(rate.d * q);
  }

  /** The condition: one of the two drifts is whole, or the larger residue leaves less
      room than the event's own error takes away. */
  predicate Exact(rate: Rate, e0: nat, e3: nat, error: nat)
    requires rate.Valid()
  {
    var a, b := Residue(e0, rate), Residue(e3, rate);
    a == 0 || b == 0 || rate.d - 1 - Larger(a, b) < 2 * (rate.n * error)
  }

  function Larger(a: nat, b: nat): nat { if a < b then b else a }

  /** A pair that passes at both its knots is never further apart than this. */
  lemma PairSpread(s: Sample, u: Sample, h: int, rate: Rate)
    requires rate.Valid()
    requires Bound(s, false, u.h0, 0, rate) <= Bound(u, true, u.h0, 0, rate)
    requires Bound(s, false, s.h3, 0, rate) <= Bound(u, true, s.h3, 0, rate)
    ensures var a, b := Residue(u.e0, rate), Residue(s.e3, rate);
            Carried(s, false, h, 0, rate) - Carried(u, true, h, 0, rate)
            <= if a == 0 || b == 0 then rate.d - 1 else 2 * rate.d - 1 - Larger(a, b)
  {
    SendSpread(s, u, h, rate);
    ReceiveSpread(s, u, h, rate);
  }

  lemma SendSpread(s: Sample, u: Sample, h: int, rate: Rate)
    requires rate.Valid() && Bound(s, false, u.h0, 0, rate) <= Bound(u, true, u.h0, 0, rate)
    ensures var a := Residue(u.e0, rate);
            Carried(s, false, h, 0, rate) - Carried(u, true, h, 0, rate) <=
            if a == 0 then rate.d - 1 else 2 * rate.d - 1 - a
  {
    var x := SendResidue(u, rate);
    SpreadAtSend(Carried(s, false, u.h0, 0, rate), Carried(u, true, u.h0, 0, rate), rate.d, x, Residue(u.e0, rate));
    PairKnot(s, u, h, rate);
  }

  lemma ReceiveSpread(s: Sample, u: Sample, h: int, rate: Rate)
    requires rate.Valid() && Bound(s, false, s.h3, 0, rate) <= Bound(u, true, s.h3, 0, rate)
    ensures var b := Residue(s.e3, rate);
            Carried(s, false, h, 0, rate) - Carried(u, true, h, 0, rate) <=
            if b == 0 then rate.d - 1 else 2 * rate.d - 1 - b
  {
    var y := ReceiveResidue(s, rate);
    SpreadAtReceive(Carried(s, false, s.h3, 0, rate), Carried(u, true, s.h3, 0, rate), rate.d, y, Residue(s.e3, rate));
    PairKnotReceive(s, u, h, rate);
  }

  /** ... and equally close at the lower one's. */
  lemma PairKnotReceive(s: Sample, u: Sample, h: int, rate: Rate)
    ensures Carried(s, false, h, 0, rate) - Carried(u, true, h, 0, rate)
            <= Carried(s, false, s.h3, 0, rate) - Carried(u, true, s.h3, 0, rate)
  {
    Closest(rate.n, Abs(h - s.h3) + s.e3, Abs(h - u.h0) + u.e0, s.e3, Abs(s.h3 - u.h0) + u.e0);
  }

  /** An event's error widens both bounds. */
  lemma ErrorWidens(s: Sample, u: Sample, h: int, error: nat, rate: Rate)
    ensures Carried(s, false, h, error, rate) - Carried(u, true, h, error, rate) ==
            Carried(s, false, h, 0, rate) - Carried(u, true, h, 0, rate) - 2 * (rate.n * error)
  {
    CarriedError(s, false, h, error, rate);
    CarriedError(u, true, h, error, rate);
    assert -1 * rate.n * error == -(rate.n * error) && 1 * rate.n * error == rate.n * error;
  }

  /** The most a pair that passes can be apart at an event, times d. */
  function Apart(rate: Rate, e0: nat, e3: nat, error: nat): int
    requires rate.Valid()
  {
    var a, b := Residue(e0, rate), Residue(e3, rate);
    (if a == 0 || b == 0 then rate.d - 1 else 2 * rate.d - 1 - Larger(a, b)) - 2 * (rate.n * error)
  }

  lemma ApartFits(rate: Rate, e0: nat, e3: nat, error: nat)
    requires rate.Valid()
    ensures Apart(rate, e0, e3, error) < 2 * rate.d
    ensures Exact(rate, e0, e3, error) ==> Apart(rate, e0, e3, error) < rate.d
  {
    assert rate.n * error >= 0;
  }

  lemma PairApart(s: Sample, u: Sample, h: int, error: nat, rate: Rate)
    requires rate.Valid()
    requires Bound(s, false, u.h0, 0, rate) <= Bound(u, true, u.h0, 0, rate)
    requires Bound(s, false, s.h3, 0, rate) <= Bound(u, true, s.h3, 0, rate)
    ensures Carried(s, false, h, error, rate) - Carried(u, true, h, error, rate) <= Apart(rate, u.e0, s.e3, error)
  {
    PairSpread(s, u, h, rate);
    ErrorWidens(s, u, h, error, rate);
  }

  lemma PairHolds(s: Sample, u: Sample, h: int, error: nat, rate: Rate)
    requires rate.Valid()
    requires Bound(s, false, u.h0, 0, rate) <= Bound(u, true, u.h0, 0, rate)
    requires Bound(s, false, s.h3, 0, rate) <= Bound(u, true, s.h3, 0, rate)
    ensures Bound(s, false, h, error, rate) <= Bound(u, true, h, error, rate) + 1
    ensures Exact(rate, u.e0, s.e3, error) ==> Bound(s, false, h, error, rate) <= Bound(u, true, h, error, rate)
  {
    PairApart(s, u, h, error, rate);
    ApartFits(rate, u.e0, s.e3, error);
    Rounded(Carried(s, false, h, error, rate), Carried(u, true, h, error, rate), rate.d);
  }

  lemma Rounded(p: int, q: int, d: nat)
    requires d > 0 && p - q < 2 * d
    ensures Outward(false, p, d) <= Outward(true, q, d) + 1
    ensures p - q < d ==> Outward(false, p, d) <= Outward(true, q, d)
  {
    assert (1 + 1) * d == 2 * d && (0 + 1) * d == d;
    Crossing(p, q, d, 1);
    if p - q < d { Crossing(p, q, d, 0); }
  }

  // --------------------------------------------------------------- sets of samples

  /** If the check passes, the bounds cross nowhere by more than 1 ns. */
  lemma RoundedKnots(samples: seq<Sample>, rate: Rate, h: int, error: nat)
    requires samples != [] && rate.Valid() && AllPass(samples, rate)
    ensures Brute(samples, false, h, error, rate) <= Brute(samples, true, h, error, rate) + 1
  {
    var i := BruteIsTightest(samples, false, h, error, rate);
    var j := BruteIsTightest(samples, true, h, error, rate);
    PassesForPair(samples, samples[i], samples[j], rate);
    PairHolds(samples[i], samples[j], h, error, rate);
  }

  lemma PassesForPair(samples: seq<Sample>, s: Sample, u: Sample, rate: Rate)
    requires samples != [] && rate.Valid() && AllPass(samples, rate) && s in samples && u in samples
    ensures Bound(s, false, u.h0, 0, rate) <= Bound(u, true, u.h0, 0, rate)
    ensures Bound(s, false, s.h3, 0, rate) <= Bound(u, true, s.h3, 0, rate)
  {
    assert KnotsPass(samples, u, rate) && KnotsPass(samples, s, rate);
    PairsConsistent(samples, u.h0, 0, rate);
    PairsConsistent(samples, s.h3, 0, rate);
  }

  /** ... and not at all where the condition holds for every pair of their errors. */
  lemma ExactKnotCheck(samples: seq<Sample>, rate: Rate, h: int, error: nat)
    requires samples != [] && rate.Valid() && AllPass(samples, rate)
    requires forall s, u | s in samples && u in samples :: Exact(rate, u.e0, s.e3, error)
    ensures ConsistentAt(samples, h, error, rate)
  {
    forall s, u | s in samples && u in samples
      ensures Bound(s, false, h, error, rate) <= Bound(u, true, h, error, rate)
    {
      PassesForPair(samples, s, u, rate);
      PairHolds(s, u, h, error, rate);
    }
    PairsConsistent(samples, h, error, rate);
  }

  method CheckKnot(index: RawOffsetIndex, s: Sample) returns (ok: bool)
    requires index.Valid()
    ensures ok <==> KnotsPass(index.samples, s, index.rate)
  {
    var sent, lo, hi := index.Bounds(s.h0, 0);
    var received, lo', hi' := index.Bounds(s.h3, 0);
    ok := sent && received;
  }

  /** calibration's loop over the knots. */
  method CheckKnots(index: RawOffsetIndex, samples: seq<Sample>) returns (ok: bool)
    requires index.Valid() && index.samples == samples
    ensures ok <==> forall s | s in samples :: KnotsPass(samples, s, index.rate)
  {
    ok := true;
    for i := 0 to |samples|
      invariant ok <==> forall s | s in samples[..i] :: KnotsPass(samples, s, index.rate)
    {
      var good := CheckKnot(index, samples[i]);
      assert samples[..i + 1] == samples[..i] + [samples[i]];
      ok := ok && good;
    }
    assert samples[..|samples|] == samples;
  }
}
