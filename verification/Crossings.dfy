/** Where the knot check is not exact: for every rate and error budgets outside the
    condition of `Knots.Exact`, a calibration the code accepts whose bounds cross at an
    event inside its measurement. */
module Crossings {
  import opened Clocks
  import opened Knots

  // ------------------------------------------------------------ an inverse modulo d

  /** A Fraction is kept in lowest terms. */
  function Gcd(a: nat, b: nat): nat
    decreases b
  {
    if b == 0 then a else Gcd(b, a % b)
  }

  lemma {:induction false} Bezout(a: nat, b: nat) returns (x: int, y: int)
    ensures a * x + b * y == Gcd(a, b)
    decreases b
  {
    if b == 0 {
      x, y := 1, 0;
    } else {
      var u, v := Bezout(b, a % b);
      x, y := v, u - a / b * v;
      BezoutStep(a, b, u, v);
    }
  }

  lemma BezoutStep(a: nat, b: nat, u: int, v: int)
    requires b > 0
    ensures b * u + a % b * v == a * v + b * (u - a / b * v)
  {
    assert a == b * (a / b) + a % b;
    assert a % b * v == (a - b * (a / b)) * v == a * v - b * (a / b) * v;
    assert b * (u - a / b * v) == b * u - b * (a / b * v) && b * (a / b) * v == b * (a / b * v);
  }

  /** n * m is one more than a multiple of d. */
  lemma Inverse(rate: Rate) returns (m: nat, q: int)
    requires rate.Valid() && rate.d > 1 && Gcd(rate.n, rate.d) == 1
    ensures rate.n * m == 1 + q * rate.d && m < rate.d
  {
    var x, y := Bezout(rate.n, rate.d);
    m := x % rate.d;
    q := -y - rate.n * (x / rate.d);
    assert x == rate.d * (x / rate.d) + m;
    InverseStep(rate.n, rate.d, x, y, x / rate.d, m);
  }

  lemma InverseStep(n: int, d: int, x: int, y: int, k: int, m: int)
    requires n * x + d * y == 1 && x == d * k + m
    ensures n * m == 1 + (-y - n * k) * d
  {
    assert n * x == n * (d * k) + n * m && n * (d * k) == n * k * d;
    assert (-y - n * k) * d == -y * d - n * k * d && d * y == y * d;
  }

  // ------------------------------------------------------- samples without a delay

  /** An exchange in no time, at which the guest clock is `offset` ahead. */
  function Spot(time: nat, offset: nat, e0: nat, e3: nat): Sample {
    Sample(time, offset + time, offset + time, time, e0, e3, 0)
  }

  /** How far the lower bound of one lies above the upper bound of the other, times d. */
  function Excess(x: Sample, y: Sample, h: int, error: nat, rate: Rate): int {
    Carried(x, false, h, error, rate) - Carried(y, true, h, error, rate)
  }

  lemma SpotExcess(t: nat, o: nat, t': nat, o': nat, e0: nat, e3: nat, h: int, error: nat, rate: Rate)
    ensures Excess(Spot(t, o, e0, e3), Spot(t', o', e0, e3), h, error, rate) ==
            (o - o' - e0 - e3) * rate.d - rate.n * (Abs(h - t) + Abs(h - t') + e0 + e3 + 2 * error)
  {
    var d, n := rate.d, rate.n;
    var a, b := Abs(h - t) + e3 + error, Abs(h - t') + e0 + error;
    assert -1 * n * a == -(n * a) && 1 * n * b == n * b && n * a + n * b == n * (a + b);
    assert (o - e3) * d - (o' + e0) * d == (o - o' - e0 - e3) * d;
  }

  /** Less than 1 ns apart: the rounded bounds do not cross. */
  lemma CloseEnough(x: Sample, y: Sample, h: int, error: nat, rate: Rate)
    requires rate.Valid() && Excess(x, y, h, error, rate) < rate.d
    ensures Bound(x, false, h, error, rate) <= Bound(y, true, h, error, rate)
  {
    assert (0 + 1) * rate.d == rate.d;
    Crossing(Carried(x, false, h, error, rate), Carried(y, true, h, error, rate), rate.d, 0);
  }

  /** A sample whose offset is not larger never crosses. */
  lemma NotAbove(t: nat, o: nat, t': nat, o': nat, e0: nat, e3: nat, h: int, error: nat, rate: Rate)
    requires rate.Valid() && o <= o'
    ensures Bound(Spot(t, o, e0, e3), false, h, error, rate) <= Bound(Spot(t', o', e0, e3), true, h, error, rate)
  {
    SpotExcess(t, o, t', o', e0, e3, h, error, rate);
    NotPositive(o - o' - e0 - e3, rate.d, rate.n, Abs(h - t) + Abs(h - t') + e0 + e3 + 2 * error);
    CloseEnough(Spot(t, o, e0, e3), Spot(t', o', e0, e3), h, error, rate);
  }

  lemma NotPositive(a: int, d: nat, n: nat, x: nat)
    requires a <= 0
    ensures a * d - n * x <= 0
  {
    assert a * d <= 0 && n * x >= 0;
  }

  // ------------------------------------------------------------------- the crossing

  /** The numbers of a crossing: a second sample at time `late` with offset `offset`. */
  ghost predicate Placed(rate: Rate, e0: nat, e3: nat, error: nat, late: nat, offset: nat) {
    && rate.Valid() && 0 < Residue(e0, rate) && 0 < Residue(e3, rate)
    && (e0 + error) * (rate.d - 1) <= late
    && (offset - e0 - e3) * rate.d - rate.n * (late + e0 + e3) == Widest(rate, e0, e3)
  }

  /** As far apart as a pair that passes its knots can be, times d. */
  function Widest(rate: Rate, e0: nat, e3: nat): int
    requires rate.Valid()
  {
    2 * rate.d - 1 - Larger(Residue(e0, rate), Residue(e3, rate))
  }

  /** How far these numbers reach. */
  function Stretch(d: nat, e: nat, x: nat): nat { d * d + (e + x) * d }

  lemma Place(rate: Rate, e0: nat, e3: nat, error: nat) returns (late: nat, offset: nat)
    requires rate.Valid() && 0 < Residue(e0, rate) && 0 < Residue(e3, rate) && Gcd(rate.n, rate.d) == 1
    ensures Placed(rate, e0, e3, error, late, offset)
    ensures late <= Stretch(rate.d, e0 + e3, e0 + error) && offset <= e0 + e3 + 2 + Stretch(rate.d, e0 + e3, e0 + error)
  {
    var m, q := Inverse(rate);
    var g := 1 + Larger(Residue(e0, rate), Residue(e3, rate));
    late, offset := Numbers(rate.n, rate.d, e0 + e3, e0 + error, g, m, q);
  }

  /** Solves for the time and the offset, with an inverse m of n modulo d. */
  lemma Numbers(n: nat, d: nat, e: nat, x: nat, g: nat, m: nat, q: int) returns (late: nat, offset: nat)
    requires d > 1 && n * m == 1 + q * d && m < d && n < d && g <= d
    ensures x * (d - 1) <= late && (offset - e) * d - n * (late + e) == 2 * d - g
    ensures late <= Stretch(d, e, x) && offset <= e + 2 + Stretch(d, e, x)
  {
    var k, t := e + x, q * g + n * (e + x);
    Roomy(e, x, d);
    Product(m, g);
    late := m * g + k * d - e;
    Solve(n, d, m, q, g, k);
    NotNegative(n, d, m, q, g, k);
    offset := e + 2 + t;
    Reaches(n, d, m, q, g, k);
    Distribute(2, t, d);
  }

  lemma Reaches(n: nat, d: nat, m: nat, q: int, g: nat, k: nat)
    requires n * m == 1 + q * d && m < d && n < d && g <= d
    ensures m * g <= d * d && q * g + n * k <= d * d + k * d
  {
    Times(m, d, g, d);
    Times(n, d, k, k);
    Times(n, n, m, d);
    assert q <= d by { Gap(q, n, d); }
    if q > 0 { Times(q, d, g, d); } else { assert q * g <= 0; }
    assert d * k == k * d;
  }

  lemma Times(a: nat, b: nat, c: nat, d: nat)
    requires a <= b && c <= d
    ensures a * c <= b * d
  {
    assert a * c <= b * c <= b * d;
  }

  lemma Product(a: nat, b: nat)
    ensures 0 <= a * b
  {
  }

  lemma Roomy(e: nat, x: nat, d: nat)
    requires d > 1
    ensures (e + x) * d - e >= x * (d - 1)
  {
    assert (e + x) * d == e * d + x * d && e * d >= e && x * d >= x * (d - 1);
  }

  lemma Solve(n: nat, d: nat, m: nat, q: int, g: nat, k: nat)
    requires n * m == 1 + q * d
    ensures n * (m * g + k * d) == g + (q * g + n * k) * d
  {
    assert n * (m * g + k * d) == n * (m * g) + n * (k * d);
    assert n * (m * g) == n * m * g == (1 + q * d) * g == g + q * d * g;
    assert q * d * g == q * g * d && n * (k * d) == n * k * d;
    assert (q * g + n * k) * d == q * g * d + n * k * d;
  }

  lemma NotNegative(n: nat, d: nat, m: nat, q: int, g: nat, k: nat)
    requires n * m == 1 + q * d && d > 1
    ensures 0 <= q * g + n * k
  {
    assert n * m >= 0;
    Gap(q, 0, d);
    assert q >= 0;
    assert q * g >= 0 && n * k >= 0;
  }

  /** The excess of the late sample over the first one: widest between the two, less on
      either side and with an error. */
  lemma LateExcess(rate: Rate, e0: nat, e3: nat, error: nat, late: nat, offset: nat, h: int, e: nat)
    requires Placed(rate, e0, e3, error, late, offset)
    ensures var x := Excess(Spot(late, offset, e0, e3), Spot(0, 0, e0, e3), h, e, rate);
            && (0 <= h <= late ==> x == Widest(rate, e0, e3) - 2 * (rate.n * e))
            && (late <= h ==> x == Widest(rate, e0, e3) - 2 * (rate.n * (h - late + e)))
  {
    SpotExcess(late, offset, 0, 0, e0, e3, h, e, rate);
    var n, b := rate.n, late + e0 + e3;
    if 0 <= h <= late { Spread(n, b, e); }
    if late <= h { Spread(n, b, h - late + e); }
  }

  lemma Spread(n: nat, b: nat, e: nat)
    ensures n * (b + 2 * e) == n * b + 2 * (n * e)
  {
  }

  /** It passes at the first sample's timestamp ... */
  lemma PassesAtSend(p: int, q: int, d: nat, x: int, a: nat, m: nat)
    requires 0 < a <= m < d && q == x * d + a && p == q + 2 * d - 1 - m
    ensures Outward(false, p, d) <= Outward(true, q, d)
  {
    Gap(x, x + 1, d);
    Gap(x + 1, x + 2, d);
    OutwardUnique(true, q, d, x + 1);
    OutwardUnique(false, p, d, x + 1);
  }

  /** ... and at its own. */
  lemma PassesAtReceive(p: int, q: int, d: nat, y: int, b: nat, m: nat)
    requires 0 < b <= m < d && p == y * d - b && p == q + 2 * d - 1 - m
    ensures Outward(false, p, d) <= Outward(true, q, d)
  {
    Gap(y - 1, y, d);
    Gap(y - 2, y - 1, d);
    OutwardUnique(false, p, d, y - 1);
    OutwardUnique(true, q, d, y - 1);
  }

  lemma LatePasses(rate: Rate, e0: nat, e3: nat, error: nat, late: nat, offset: nat, h: int)
    requires Placed(rate, e0, e3, error, late, offset) && (h == 0 || h == late || late + rate.d <= h)
    ensures Bound(Spot(late, offset, e0, e3), false, h, 0, rate) <= Bound(Spot(0, 0, e0, e3), true, h, 0, rate)
  {
    var s, u := Spot(late, offset, e0, e3), Spot(0, 0, e0, e3);
    var a, b, d := Residue(e0, rate), Residue(e3, rate), rate.d;
    LateExcess(rate, e0, e3, error, late, offset, h, 0);
    var p, q := Carried(s, false, h, 0, rate), Carried(u, true, h, 0, rate);
    if h == 0 {
      var x := SendResidue(u, rate);
      PassesAtSend(p, q, d, x, a, Larger(a, b));
    } else if h == late {
      var y := ReceiveResidue(s, rate);
      PassesAtReceive(p, q, d, y, b, Larger(a, b));
    } else {
      Positive(rate, e0);
      assert rate.n * (h - late) >= rate.d by { AtLeast(rate.n, h - late, rate.d); }
      CloseEnough(s, u, h, 0, rate);
    }
  }

  lemma Positive(rate: Rate, e: nat)
    requires rate.Valid() && 0 < Residue(e, rate)
    ensures 0 < rate.n
  {
    assert rate.n == 0 ==> rate.n * e == 0;
  }

  lemma AtLeast(n: nat, x: nat, d: nat)
    requires n > 0 && d <= x
    ensures d <= n * x
  {
    assert x <= n * x;
  }

  /** A third sample, far behind the other two. */
  function Far(rate: Rate, late: nat): nat { 2 * late + 2 * rate.d }

  lemma FarHolds(rate: Rate, e0: nat, e3: nat, error: nat, late: nat, offset: nat, h: int)
    requires Placed(rate, e0, e3, error, late, offset)
    ensures Bound(Spot(Far(rate, late), offset, e0, e3), false, h, 0, rate) <=
            Bound(Spot(0, 0, e0, e3), true, h, 0, rate)
  {
    var t, u := Spot(Far(rate, late), offset, e0, e3), Spot(0, 0, e0, e3);
    SpotExcess(Far(rate, late), offset, 0, 0, e0, e3, h, 0, rate);
    Positive(rate, e0);
    var x, y := late + e0 + e3, Abs(h - Far(rate, late)) + Abs(h - 0) + e0 + e3 + 2 * 0;
    FarAway(rate.n, x, y, rate.d);
    CloseEnough(t, u, h, 0, rate);
  }

  lemma Monotone(n: nat, a: nat, b: nat)
    requires a <= b
    ensures n * a <= n * b
  {
  }

  lemma FarAway(n: nat, x: nat, y: nat, d: nat)
    requires n > 0 && x + 2 * d <= y
    ensures n * x + 2 * d <= n * y
  {
    Monotone(n, x + 2 * d, y);
    AtLeast(n, 2 * d, 2 * d);
    assert n * (x + 2 * d) == n * x + n * (2 * d);
  }

  // ------------------------------------------------------------ a whole calibration

  /** What calibration accepts: 100 to 10000 valid samples in order, with one guest
      budget, that pass the check at every timestamp and at the reference. */
  ghost predicate Accepted(samples: seq<Sample>, e0: nat, e3: nat, rate: Rate)
    requires rate.Valid()
  {
    && 100 <= |samples| <= 10_000
    && (forall s | s in samples :: s.Valid() && s.e0 == e0 && s.e3 == e3 && s.eg == samples[0].eg)
    && (forall i | 0 < i < |samples| :: samples[i - 1].h3 <= samples[i].h0 && samples[i - 1].g2 <= samples[i].g1)
    && AllPass(samples, rate) && ConsistentAt(samples, Reference(samples), 0, rate)
  }

  /** The middle of the measurement. */
  function Reference(samples: seq<Sample>): int
    requires samples != []
  {
    (samples[0].h0 + samples[|samples| - 1].h3) / 2
  }

  /** An event known to within `error` that lies in the measurement. */
  predicate Measured(samples: seq<Sample>, h: int, error: nat)
    requires samples != []
  {
    samples[0].h0 <= h - error && h + error <= samples[|samples| - 1].h3
  }

  /** 98 exchanges at the start, one later and one far behind. */
  function Trial(rate: Rate, e0: nat, e3: nat, late: nat, offset: nat): (r: seq<Sample>)
    ensures |r| == 100
  {
    seq(98, _ => Spot(0, 0, e0, e3)) + [Spot(late, offset, e0, e3), Spot(Far(rate, late), offset, e0, e3)]
  }

  lemma TrialConsistent(rate: Rate, e0: nat, e3: nat, error: nat, late: nat, offset: nat, h: int)
    requires Placed(rate, e0, e3, error, late, offset) && (h == 0 || h == late || late + rate.d <= h)
    ensures ConsistentAt(Trial(rate, e0, e3, late, offset), h, 0, rate)
  {
    var samples := Trial(rate, e0, e3, late, offset);
    LatePasses(rate, e0, e3, error, late, offset, h);
    FarHolds(rate, e0, e3, error, late, offset, h);
    forall x, y | x in samples && y in samples ensures Bound(x, false, h, 0, rate) <= Bound(y, true, h, 0, rate) {
      var t, o := TrialSpot(rate, e0, e3, late, offset, x);
      var t', o' := TrialSpot(rate, e0, e3, late, offset, y);
      if o <= o' { NotAbove(t, o, t', o', e0, e3, h, 0, rate); }
    }
    PairsConsistent(samples, h, 0, rate);
  }

  lemma TrialSpot(rate: Rate, e0: nat, e3: nat, late: nat, offset: nat, x: Sample) returns (t: nat, o: nat)
    requires x in Trial(rate, e0, e3, late, offset)
    ensures x == Spot(t, o, e0, e3)
    ensures (t == 0 && o == 0) || ((t == late || t == Far(rate, late)) && o == offset)
  {
    var samples := Trial(rate, e0, e3, late, offset);
    var i :| 0 <= i < |samples| && samples[i] == x;
    if i < 98 { t, o := 0, 0; } else if i == 98 { t, o := late, offset; } else { t, o := Far(rate, late), offset; }
  }

  lemma TrialAccepted(rate: Rate, e0: nat, e3: nat, error: nat, late: nat, offset: nat)
    requires Placed(rate, e0, e3, error, late, offset)
    ensures Accepted(Trial(rate, e0, e3, late, offset), e0, e3, rate)
  {
    var samples := Trial(rate, e0, e3, late, offset);
    forall s | s in samples ensures s.Valid() && s.e0 == e0 && s.e3 == e3 && s.eg == 0 && KnotsPass(samples, s, rate) {
      var t, o := TrialSpot(rate, e0, e3, late, offset, s);
      TrialConsistent(rate, e0, e3, error, late, offset, t);
    }
    TrialConsistent(rate, e0, e3, error, late, offset, late + rate.d);
    assert samples[0] == Spot(0, 0, e0, e3) && samples[99] == Spot(Far(rate, late), offset, e0, e3);
    forall i | 0 < i < |samples| ensures samples[i - 1].h3 <= samples[i].h0 && samples[i - 1].g2 <= samples[i].g1 {
      if i < 98 { assert samples[i] == Spot(0, 0, e0, e3); }
      if i <= 98 { assert samples[i - 1] == Spot(0, 0, e0, e3); }
    }
  }

  /** Where the condition fails, its bounds cross at this event. */
  function Event(rate: Rate, e0: nat, error: nat): nat
    requires rate.Valid()
  {
    (e0 + error) * (rate.d - 1)
  }

  lemma LateCrosses(rate: Rate, e0: nat, e3: nat, error: nat, late: nat, offset: nat, h: nat)
    requires Placed(rate, e0, e3, error, late, offset) && !Exact(rate, e0, e3, error) && h == Event(rate, e0, error)
    ensures Bound(Spot(late, offset, e0, e3), false, h, error, rate) > Bound(Spot(0, 0, e0, e3), true, h, error, rate)
  {
    var s, u := Spot(late, offset, e0, e3), Spot(0, 0, e0, e3);
    LateExcess(rate, e0, e3, error, late, offset, h, error);
    Whole(rate, e0, e3, error);
    WholeCrosses(Carried(s, false, h, error, rate), Carried(u, true, h, error, rate), rate.d,
                 e0 + rate.n * (e0 + error));
  }

  lemma TrialCrosses(rate: Rate, e0: nat, e3: nat, error: nat, late: nat, offset: nat)
    requires Placed(rate, e0, e3, error, late, offset) && !Exact(rate, e0, e3, error)
    ensures var samples := Trial(rate, e0, e3, late, offset);
            && Measured(samples, Event(rate, e0, error), error)
            && !ConsistentAt(samples, Event(rate, e0, error), error, rate)
  {
    var h, samples := Event(rate, e0, error), Trial(rate, e0, e3, late, offset);
    var s, u := Spot(late, offset, e0, e3), Spot(0, 0, e0, e3);
    assert samples[0] == u && samples[98] == s && samples[99] == Spot(Far(rate, late), offset, e0, e3);
    InMeasurement(e0, error, rate.d);
    LateCrosses(rate, e0, e3, error, late, offset, h);
    PairsConsistent(samples, h, error, rate);
    assert s in samples && u in samples;
  }

  lemma InMeasurement(e0: nat, error: nat, d: nat)
    requires d > 1
    ensures error <= (e0 + error) * (d - 1)
  {
    assert (e0 + error) * (d - 1) >= e0 + error;
  }

  /** At that event the first sample's bound is a whole number. */
  lemma Whole(rate: Rate, e0: nat, e3: nat, error: nat)
    requires rate.Valid()
    ensures Carried(Spot(0, 0, e0, e3), true, Event(rate, e0, error), error, rate) ==
            (e0 + rate.n * (e0 + error)) * rate.d
  {
    var n, d, k := rate.n, rate.d, e0 + error;
    assert k * (d - 1) + k == k * d && n * (k * d) == n * k * d;
    assert (e0 + n * k) * d == e0 * d + n * k * d;
  }

  lemma WholeCrosses(p: int, q: int, d: nat, k: int)
    requires d > 0 && q == k * d && p - q >= d
    ensures Outward(false, p, d) > Outward(true, q, d)
  {
    OutwardUnique(true, q, d, k);
    OutwardBounds(false, p, d);
    Gap(Outward(false, p, d), k + 1, d);
    assert (k + 1) * d == k * d + d;
  }

  /** The knot check is exact for these errors and events exactly under the condition:
      then no calibration it accepts has bounds that cross at any event in its
      measurement, and otherwise some calibration it accepts does. */
  lemma KnotCheckExact(rate: Rate, e0: nat, e3: nat, error: nat)
    requires rate.Valid() && Gcd(rate.n, rate.d) == 1
    ensures Exact(rate, e0, e3, error) <==>
            forall samples, h | Accepted(samples, e0, e3, rate) && Measured(samples, h, error) ::
              ConsistentAt(samples, h, error, rate)
  {
    if Exact(rate, e0, e3, error) {
      forall samples, h | Accepted(samples, e0, e3, rate) && Measured(samples, h, error)
        ensures ConsistentAt(samples, h, error, rate)
      {
        ExactKnotCheck(samples, rate, h, error);
      }
    } else {
      var late, offset := Place(rate, e0, e3, error);
      TrialAccepted(rate, e0, e3, error, late, offset);
      TrialCrosses(rate, e0, e3, error, late, offset);
    }
  }

  /** Every number of a sample fits 64 bits, which is what the code accepts. */
  predicate Stamped(samples: seq<Sample>) {
    forall s | s in samples :: s.h3 < U64 && s.g2 < U64 && s.e0 < U64 && s.e3 < U64 && s.eg < U64
  }

  const U64 := 0x1_0000_0000_0000_0000

  /** The rate and the errors are small enough for a crossing to fit. */
  predicate Small(rate: Rate, e0: nat, e3: nat, error: nat) {
    3 * Stretch(rate.d, e0 + e3, e0 + error) + 2 * rate.d + e0 + e3 + 2 < U64
  }

  lemma TrialStamped(rate: Rate, e0: nat, e3: nat, error: nat, late: nat, offset: nat)
    requires Small(rate, e0, e3, error)
    requires late <= Stretch(rate.d, e0 + e3, e0 + error)
    requires offset <= e0 + e3 + 2 + Stretch(rate.d, e0 + e3, e0 + error)
    ensures Stamped(Trial(rate, e0, e3, late, offset))
  {
    forall s | s in Trial(rate, e0, e3, late, offset)
      ensures s.h3 < U64 && s.g2 < U64 && s.e0 < U64 && s.e3 < U64 && s.eg < U64
    {
      var t, o := TrialSpot(rate, e0, e3, late, offset, s);
    }
  }

  /** The same with 64-bit numbers: under the condition nothing crosses, and where the rate
      and the errors are small, only then. */
  lemma KnotCheckExact64(rate: Rate, e0: nat, e3: nat, error: nat)
    requires rate.Valid() && Gcd(rate.n, rate.d) == 1
    ensures var sound := forall samples, h |
                           Accepted(samples, e0, e3, rate) && Stamped(samples) && Measured(samples, h, error) ::
                           ConsistentAt(samples, h, error, rate);
            && (Exact(rate, e0, e3, error) ==> sound)
            && (Small(rate, e0, e3, error) && sound ==> Exact(rate, e0, e3, error))
  {
    if Exact(rate, e0, e3, error) {
      KnotCheckExact(rate, e0, e3, error);
    } else if Small(rate, e0, e3, error) {
      var late, offset := Place(rate, e0, e3, error);
      TrialAccepted(rate, e0, e3, error, late, offset);
      TrialStamped(rate, e0, e3, error, late, offset);
      TrialCrosses(rate, e0, e3, error, late, offset);
    }
  }

  /** A small one: rate 1/2 and errors of 1 ns.  Every timestamp (0, 2 and 8) and the
      reference (4) pass, and the bounds cross at 1. */
  lemma SmallCrossing()
    returns (rate: Rate, e: nat, error: nat, late: nat, offset: nat, samples: seq<Sample>, h: nat)
    ensures rate == Rate(1, 2) && e == 1 && error == 0 && late == 2 && offset == 5 && h == 1
    ensures samples == Trial(rate, e, e, late, offset) && Stamped(samples)
    ensures Accepted(samples, e, e, rate) && Measured(samples, h, error) && !ConsistentAt(samples, h, error, rate)
  {
    rate, e, error, late, offset := SmallNumbers();
    samples, h := CrossingAt(rate, e, e, error, late, offset);
    TrialStamped(rate, e, e, error, late, offset);
  }

  lemma SmallNumbers() returns (rate: Rate, e: nat, error: nat, late: nat, offset: nat)
    ensures rate == Rate(1, 2) && e == 1 && error == 0 && late == 2 && offset == 5
    ensures Placed(rate, e, e, error, late, offset) && !Exact(rate, e, e, error) && Event(rate, e, error) == 1
    ensures Small(rate, e, e, error) && late <= Stretch(rate.d, e + e, e + error)
  {
    rate, e, error, late, offset := Rate(1, 2), 1, 0, 2, 5;
    assert rate.n * e == 1 && rate.n * error == 0;
    assert Residue(e, rate) == 1 && Widest(rate, e, e) == 2;
    assert (offset - e - e) * rate.d == 6 && rate.n * (late + e + e) == 4;
    assert (e + error) * (rate.d - 1) == 1;
    assert Stretch(rate.d, e + e, e + error) == 10;
  }

  lemma CrossingAt(rate: Rate, e0: nat, e3: nat, error: nat, late: nat, offset: nat)
    returns (samples: seq<Sample>, h: nat)
    requires Placed(rate, e0, e3, error, late, offset) && !Exact(rate, e0, e3, error)
    ensures samples == Trial(rate, e0, e3, late, offset) && h == Event(rate, e0, error)
    ensures Accepted(samples, e0, e3, rate) && Measured(samples, h, error) && !ConsistentAt(samples, h, error, rate)
  {
    TrialAccepted(rate, e0, e3, error, late, offset);
    TrialCrosses(rate, e0, e3, error, late, offset);
    samples, h := Trial(rate, e0, e3, late, offset), Event(rate, e0, error);
  }

  const PPM50 := Rate(1, 20_000)

  /** A budget as in practice, 50 ppm and one microsecond: an accepted calibration and
      an event in its measurement that is refused as inconsistent. */
  lemma PracticalCrossing() returns (samples: seq<Sample>, h: nat)
    ensures Accepted(samples, 1000, 1000, PPM50) && Stamped(samples) && Measured(samples, h, 1000)
    ensures !ConsistentAt(samples, h, 1000, PPM50)
  {
    assert Gcd(1, 20_000) == Gcd(20_000, 1) == Gcd(1, 0) == 1;
    assert !Exact(PPM50, 1000, 1000, 1000);
    var late, offset := Place(PPM50, 1000, 1000, 1000);
    assert Stretch(20_000, 2000, 2000) == 480_000_000;
    TrialStamped(PPM50, 1000, 1000, 1000, late, offset);
    samples, h := CrossingAt(PPM50, 1000, 1000, 1000, late, offset);
  }
}
