/** What the clock arithmetic means.  The guest clock reads t + theta(t) at true
    host time t, theta drifts at most at the budgeted rate, and every recorded
    timestamp is within its error budget of the truth.  Then every interval the
    two scripts report contains the true value, and none of their consistency
    errors can be raised. */
module Latency {
  import opened Clocks
  import opened OffsetIndex

  /** theta moves at most n / d per unit of host time. */
  ghost predicate Drifts(theta: real -> real, rate: Rate) {
    forall a, b {:trigger Moves(theta, rate, a, b)} | a <= b :: Moves(theta, rate, a, b)
  }

  predicate Moves(theta: real -> real, rate: Rate, a: real, b: real) {
    -(rate.n as real * (b - a)) <= rate.d as real * (theta(b) - theta(a)) <= rate.n as real * (b - a)
  }

  /** The true host times of the four events of a sample. */
  datatype Exchange = Exchange(t0: real, t1: real, t2: real, t3: real)

  predicate Near(x: int, t: real, e: nat) { -(e as real) <= x as real - t <= e as real }

  predicate Observed(s: Sample, x: Exchange, theta: real -> real) {
    && x.t0 <= x.t1 <= x.t2 <= x.t3
    && Near(s.h0, x.t0, s.e0) && Near(s.g1, x.t1 + theta(x.t1), s.eg)
    && Near(s.g2, x.t2 + theta(x.t2), s.eg) && Near(s.h3, x.t3, s.e3)
  }

  ghost predicate AllObserved(samples: seq<Sample>, xs: seq<Exchange>, theta: real -> real) {
    |xs| == |samples| && forall i | 0 <= i < |samples| :: Observed(samples[i], xs[i], theta)
  }

  // ------------------------------------------------------------- two real facts

  /** Elapsed guest time against elapsed host time. */
  lemma Elapsed(theta: real -> real, rate: Rate, a: real, b: real)
    requires Drifts(theta, rate) && rate.Valid() && a <= b
    ensures var dg := b + theta(b) - (a + theta(a));
            (rate.d - rate.n) as real * (b - a) <= rate.d as real * dg <= (rate.d + rate.n) as real * (b - a)
    ensures a + theta(a) <= b + theta(b)
  {
    var n, d, x, y := rate.n as real, rate.d as real, b - a, theta(b) - theta(a);
    assert Moves(theta, rate, a, b);
    assert d * (x + y) == d * x + d * y;
    assert (d - n) * x == d * x - n * x && (d + n) * x == d * x + n * x;
    NotNegative(d - n, x);
    Cancel(d, 0.0, x + y);
  }

  lemma Farther(n: real, d: real, gap: real, y: real, x: real)
    requires 0.0 <= n && gap <= x && -(n * gap) <= d * y <= n * gap
    ensures -(n * x) <= d * y <= n * x
  {
    Scale(n, gap, x);
  }

  /** theta moves at most n / d per unit over a distance of at most x. */
  lemma Wander(theta: real -> real, rate: Rate, a: real, b: real, x: nat)
    requires Drifts(theta, rate) && -(x as real) <= b - a <= x as real
    ensures -((rate.n * x) as real) <= rate.d as real * (theta(b) - theta(a)) <= (rate.n * x) as real
  {
    assert (rate.n * x) as real == rate.n as real * x as real;
    var n, d := rate.n as real, rate.d as real;
    if a <= b {
      assert Moves(theta, rate, a, b);
      Farther(n, d, b - a, theta(b) - theta(a), x as real);
    } else {
      assert Moves(theta, rate, b, a);
      Farther(n, d, a - b, theta(a) - theta(b), x as real);
      Negate(d, theta(a) - theta(b), theta(b) - theta(a));
    }
  }

  lemma Negate(d: real, y: real, z: real)
    requires z == -y
    ensures d * z == -(d * y)
  {
  }

  lemma Scale(n: real, x: real, y: real)
    requires 0.0 <= n && x <= y
    ensures n * x <= n * y
  {
  }

  // ----------------------------------------------------- one sample's constraint

  /** The send and the receive bracket the guest's events, so each sample bounds
      the offset on one side at each of its ends. */
  lemma BaseHolds(s: Sample, x: Exchange, theta: real -> real, rate: Rate)
    requires Drifts(theta, rate) && rate.Valid() && Observed(s, x, theta)
    ensures theta(x.t0) <= s.Base(true) as real && s.Base(false) as real <= theta(x.t3)
  {
    Elapsed(theta, rate, x.t0, x.t1);
    Elapsed(theta, rate, x.t2, x.t3);
  }

  /** y lies on the inner side of an upper or a lower bound b. */
  predicate Bounds(upper: bool, b: int, y: real) { if upper then y <= b as real else b as real <= y }

  /** Carried to any host time, known to within any error, it still holds. */
  lemma CarriedHolds(s: Sample, upper: bool, x: Exchange, theta: real -> real, rate: Rate, t: real, h: int, error: nat)
    requires Drifts(theta, rate) && rate.Valid() && Observed(s, x, theta) && Near(h, t, error)
    ensures Bounds(upper, Carried(s, upper, h, error, rate), rate.d as real * theta(t))
  {
    BaseHolds(s, x, theta, rate);
    if upper {
      CarriedAbove(theta, rate, x.t0, t, Abs(h - s.h0) + s.e0 + error, s.Base(true));
    } else {
      CarriedBelow(theta, rate, x.t3, t, Abs(h - s.h3) + s.e3 + error, s.Base(false));
    }
  }

  lemma CarriedAbove(theta: real -> real, rate: Rate, a: real, t: real, x: nat, base: int)
    requires Drifts(theta, rate) && theta(a) <= base as real && -(x as real) <= t - a <= x as real
    ensures rate.d as real * theta(t) <= (base * rate.d + rate.n * x) as real
  {
    Wander(theta, rate, a, t, x);
    var d := rate.d as real;
    Scale(d, theta(a), base as real);
    assert d * (theta(t) - theta(a)) == d * theta(t) - d * theta(a);
  }

  lemma CarriedBelow(theta: real -> real, rate: Rate, a: real, t: real, x: nat, base: int)
    requires Drifts(theta, rate) && base as real <= theta(a) && -(x as real) <= t - a <= x as real
    ensures (base * rate.d - rate.n * x) as real <= rate.d as real * theta(t)
  {
    Wander(theta, rate, a, t, x);
    var d := rate.d as real;
    Scale(d, base as real, theta(a));
    assert d * (theta(t) - theta(a)) == d * theta(t) - d * theta(a);
  }

  /** A real below v / d is below its ceiling, above likewise. */
  lemma OutwardHolds(upper: bool, v: int, d: nat, x: real)
    requires d > 0 && Bounds(upper, v, d as real * x)
    ensures Bounds(upper, Outward(upper, v, d), x)
  {
    var q := Outward(upper, v, d);
    OutwardBounds(upper, v, d);
    assert (q * d) as real == d as real * q as real;
    Cancel(d as real, x, q as real);
    Cancel(d as real, q as real, x);
  }

  lemma Cancel(d: real, x: real, y: real)
    requires d > 0.0
    ensures d * x <= d * y ==> x <= y
  {
    if y < x { assert d * (x - y) > 0.0; }
  }

  lemma BoundHolds(s: Sample, upper: bool, x: Exchange, theta: real -> real, rate: Rate, t: real, h: int, error: nat)
    requires rate.Valid() && Drifts(theta, rate) && Observed(s, x, theta) && Near(h, t, error)
    ensures Bounds(upper, Bound(s, upper, h, error, rate), theta(t))
  {
    assert Bounds(upper, Carried(s, upper, h, error, rate), rate.d as real * theta(t)) by {
      CarriedHolds(s, upper, x, theta, rate, t, h, error);
    }
    BoundFrom(s, upper, rate, h, error, theta(t));
  }

  lemma BoundFrom(s: Sample, upper: bool, rate: Rate, h: int, error: nat, y: real)
    requires rate.Valid() && Bounds(upper, Carried(s, upper, h, error, rate), rate.d as real * y)
    ensures Bounds(upper, Bound(s, upper, h, error, rate), y)
  {
    OutwardHolds(upper, Carried(s, upper, h, error, rate), rate.d, y);
  }

  lemma BruteHolds(samples: seq<Sample>, upper: bool, xs: seq<Exchange>, theta: real -> real, rate: Rate, t: real,
                   h: int, error: nat)
    requires samples != [] && rate.Valid() && Drifts(theta, rate) && AllObserved(samples, xs, theta)
    requires Near(h, t, error)
    ensures Bounds(upper, Brute(samples, upper, h, error, rate), theta(t))
  {
    var i := BruteIsTightest(samples, upper, h, error, rate);
    BoundHolds(samples[i], upper, xs[i], theta, rate, t, h, error);
  }

  /** The bounds contain the true offset at every host time, and so are never
      inconsistent. */
  lemma BoundsHold(samples: seq<Sample>, xs: seq<Exchange>, theta: real -> real, rate: Rate, t: real, h: int,
                   error: nat)
    requires samples != [] && rate.Valid() && Drifts(theta, rate) && AllObserved(samples, xs, theta)
    requires Near(h, t, error)
    ensures Brute(samples, false, h, error, rate) as real <= theta(t) <= Brute(samples, true, h, error, rate) as real
    ensures Brute(samples, false, h, error, rate) <= Brute(samples, true, h, error, rate)
  {
    BruteHolds(samples, false, xs, theta, rate, t, h, error);
    BruteHolds(samples, true, xs, theta, rate, t, h, error);
  }

  // ------------------------------------------------------- latency of one event

  datatype Calibration = Calibration(samples: seq<Sample>, rate: Rate, start: int, end: int, eh: nat, eg: nat) {
    predicate Valid() { samples != [] && rate.Valid() }
  }

  datatype Verdict = Interval(low: nat, high: int) | Outside | Inconsistent | Precedes | Beyond

  function Low(residual: int, rate: Rate): nat
    requires rate.Valid()
  {
    var q := residual * rate.d / (rate.d + rate.n);
    if q < 0 then 0 else q
  }

  function High(residual: int, rate: Rate): int
    requires rate.Valid()
  {
    Outward(true, residual * rate.d, rate.d - rate.n)
  }

  /** Both directions end alike: a latency of at most `slack` stays in the window. */
  function Judged(least: int, most: int, slack: int, rate: Rate): Verdict
    requires rate.Valid()
  {
    if most < 0 then Precedes
    else if High(most, rate) > slack then Beyond
    else Interval(Low(least, rate), High(most, rate))
  }

  predicate InWindow(c: Calibration, h: int) { c.start <= h - c.eh && h + c.eh <= c.end }

  /** receipt_bounds, given the offset bounds at h: from a host event at h to its
      receipt at guest time g. */
  function ReceiptVerdict(c: Calibration, h: nat, g: nat, lower: int, upper: int): Verdict
    requires c.Valid()
  {
    if lower > upper then Inconsistent
    else Judged(g - h - upper - c.eh - c.eg, g - h - lower + c.eh + c.eg, c.end - h - c.eh, c.rate)
  }

  /** guest_to_host_bounds, given the offset bounds at h: from guest time g to a
      host event at h. */
  function GuestToHostVerdict(c: Calibration, g: nat, h: nat, lower: int, upper: int): Verdict
    requires c.Valid()
  {
    if lower > upper then Inconsistent
    else Judged(h - g + lower - c.eh - c.eg, h - g + upper + c.eh + c.eg, h - c.eh - c.start, c.rate)
  }

  /** The verdict is no arithmetic error, and an interval contains x and ends within
      the slack. */
  predicate Contains(v: Verdict, x: real, slack: int) {
    && !v.Inconsistent? && !v.Precedes?
    && (v.Interval? ==> v.low as real <= x <= v.high as real && v.high <= slack)
  }

  lemma LowHolds(least: int, dg: real, x: real, rate: Rate)
    requires rate.Valid() && 0.0 <= x && least as real <= dg && rate.d as real * dg <= (rate.d + rate.n) as real * x
    ensures Low(least, rate) as real <= x
  {
    Scale(rate.d as real, least as real, dg);
    assert (least * rate.d) as real == rate.d as real * least as real;
    OutwardHolds(false, least * rate.d, rate.d + rate.n, x);
  }

  lemma HighHolds(most: int, dg: real, x: real, rate: Rate)
    requires rate.Valid() && dg <= most as real && (rate.d - rate.n) as real * x <= rate.d as real * dg
    ensures x <= High(most, rate) as real
  {
    Scale(rate.d as real, dg, most as real);
    assert (most * rate.d) as real == rate.d as real * most as real;
    OutwardHolds(true, most * rate.d, rate.d - rate.n, x);
  }

  /** Host-time latency from a bracketed guest-time difference. */
  lemma Quotients(least: int, most: int, slack: int, dg: real, x: real, rate: Rate)
    requires rate.Valid() && 0.0 <= x && least as real <= dg <= most as real
    requires (rate.d - rate.n) as real * x <= rate.d as real * dg <= (rate.d + rate.n) as real * x
    ensures Contains(Judged(least, most, slack, rate), x, slack)
  {
    LowHolds(least, dg, x, rate);
    HighHolds(most, dg, x, rate);
    NotNegative((rate.d - rate.n) as real, x);
    Cancel(rate.d as real, 0.0, dg);
  }

  lemma NotNegative(a: real, b: real)
    requires 0.0 <= a && 0.0 <= b
    ensures 0.0 <= a * b
  {
  }

  /** Whatever bounds contain the offset at the event, the verdict contains the
      true latency x. */
  lemma ReceiptVerdictHolds(c: Calibration, theta: real -> real, h: nat, g: nat, t: real, x: real, lower: int,
                            upper: int)
    requires c.Valid() && Drifts(theta, c.rate) && lower as real <= theta(t) <= upper as real
    requires 0.0 <= x && Near(h, t, c.eh) && Near(g, t + x + theta(t + x), c.eg)
    ensures Contains(ReceiptVerdict(c, h, g, lower, upper), x, c.end - h - c.eh)
  {
    Elapsed(theta, c.rate, t, t + x);
    Quotients(g - h - upper - c.eh - c.eg, g - h - lower + c.eh + c.eg, c.end - h - c.eh,
              t + x + theta(t + x) - (t + theta(t)), x, c.rate);
  }

  lemma GuestToHostVerdictHolds(c: Calibration, theta: real -> real, g: nat, h: nat, t: real, x: real, lower: int,
                                upper: int)
    requires c.Valid() && Drifts(theta, c.rate) && lower as real <= theta(t) <= upper as real
    requires 0.0 <= x && Near(h, t, c.eh) && Near(g, t - x + theta(t - x), c.eg)
    ensures Contains(GuestToHostVerdict(c, g, h, lower, upper), x, h - c.eh - c.start)
  {
    Elapsed(theta, c.rate, t - x, t);
    Quotients(h - g + lower - c.eh - c.eg, h - g + upper + c.eh + c.eg, h - c.eh - c.start,
              t + theta(t) - (t - x + theta(t - x)), x, c.rate);
  }

  /** A clock pair whose exchanges gave the calibration's samples. */
  ghost predicate Calibrates(c: Calibration, xs: seq<Exchange>, theta: real -> real) {
    c.Valid() && Drifts(theta, c.rate) && AllObserved(c.samples, xs, theta)
  }

  /** A host event at t recorded as h, received x later, recorded as g. */
  predicate Received(c: Calibration, theta: real -> real, h: nat, g: nat, t: real, x: real) {
    0.0 <= x && Near(h, t, c.eh) && Near(g, t + x + theta(t + x), c.eg)
  }

  /** A guest event x before the host event at t. */
  predicate Preceded(c: Calibration, theta: real -> real, g: nat, h: nat, t: real, x: real) {
    0.0 <= x && Near(h, t, c.eh) && Near(g, t - x + theta(t - x), c.eg)
  }

  lemma ReceiptHolds(c: Calibration, xs: seq<Exchange>, theta: real -> real, h: nat, g: nat, t: real, x: real,
                     lower: int, upper: int)
    requires Calibrates(c, xs, theta) && Received(c, theta, h, g, t, x)
    requires lower == Brute(c.samples, false, h, c.eh, c.rate) && upper == Brute(c.samples, true, h, c.eh, c.rate)
    ensures Contains(ReceiptVerdict(c, h, g, lower, upper), x, c.end - h - c.eh)
  {
    BoundsHold(c.samples, xs, theta, c.rate, t, h, c.eh);
    ReceiptVerdictHolds(c, theta, h, g, t, x, lower, upper);
  }

  lemma GuestToHostHolds(c: Calibration, xs: seq<Exchange>, theta: real -> real, g: nat, h: nat, t: real, x: real,
                         lower: int, upper: int)
    requires Calibrates(c, xs, theta) && Preceded(c, theta, g, h, t, x)
    requires lower == Brute(c.samples, false, h, c.eh, c.rate) && upper == Brute(c.samples, true, h, c.eh, c.rate)
    ensures Contains(GuestToHostVerdict(c, g, h, lower, upper), x, h - c.eh - c.start)
  {
    BoundsHold(c.samples, xs, theta, c.rate, t, h, c.eh);
    GuestToHostVerdictHolds(c, theta, g, h, t, x, lower, upper);
  }

  /** receipt_bounds, with the index: the verdict is the one over the tightest bounds any
      sample gives.  For every clock pair the calibration fits and every receipt, the
      interval contains the true latency and stays in the validity window, and neither
      arithmetic error is raised. */
  method Receipt(index: RawOffsetIndex, c: Calibration, h: nat, g: nat) returns (v: Verdict)
    requires c.Valid() && index.Valid() && index.samples == c.samples && index.rate == c.rate
    ensures v.Outside? <==> !InWindow(c, h)
    ensures InWindow(c, h) ==>
              v == ReceiptVerdict(c, h, g, Brute(c.samples, false, h, c.eh, c.rate),
                                  Brute(c.samples, true, h, c.eh, c.rate))
    ensures forall xs, theta, t, x {:trigger Calibrates(c, xs, theta), Received(c, theta, h, g, t, x)}
              | Calibrates(c, xs, theta) && Received(c, theta, h, g, t, x) :: Contains(v, x, c.end - h - c.eh)
  {
    if h - c.eh < c.start || h + c.eh > c.end {
      return Outside;
    }
    var ok, lower, upper := index.Bounds(h, c.eh);
    v := ReceiptVerdict(c, h, g, lower, upper);
    ReceiptsHold(c, h, g, lower, upper);
  }

  lemma ReceiptsHold(c: Calibration, h: nat, g: nat, lower: int, upper: int)
    requires c.Valid()
    requires lower == Brute(c.samples, false, h, c.eh, c.rate) && upper == Brute(c.samples, true, h, c.eh, c.rate)
    ensures forall xs, theta, t, x {:trigger Calibrates(c, xs, theta), Received(c, theta, h, g, t, x)}
              | Calibrates(c, xs, theta) && Received(c, theta, h, g, t, x) ::
              Contains(ReceiptVerdict(c, h, g, lower, upper), x, c.end - h - c.eh)
  {
    forall xs, theta, t, x | Calibrates(c, xs, theta) && Received(c, theta, h, g, t, x)
      ensures Contains(ReceiptVerdict(c, h, g, lower, upper), x, c.end - h - c.eh)
    {
      ReceiptHolds(c, xs, theta, h, g, t, x, lower, upper);
    }
  }

  /** guest_to_host_bounds, with the index: the same in the other direction. */
  method GuestToHost(index: RawOffsetIndex, c: Calibration, g: nat, h: nat) returns (v: Verdict)
    requires c.Valid() && index.Valid() && index.samples == c.samples && index.rate == c.rate
    ensures v.Outside? <==> !InWindow(c, h)
    ensures InWindow(c, h) ==>
              v == GuestToHostVerdict(c, g, h, Brute(c.samples, false, h, c.eh, c.rate),
                                      Brute(c.samples, true, h, c.eh, c.rate))
    ensures forall xs, theta, t, x {:trigger Calibrates(c, xs, theta), Preceded(c, theta, g, h, t, x)}
              | Calibrates(c, xs, theta) && Preceded(c, theta, g, h, t, x) :: Contains(v, x, h - c.eh - c.start)
  {
    if h - c.eh < c.start || h + c.eh > c.end {
      return Outside;
    }
    var ok, lower, upper := index.Bounds(h, c.eh);
    v := GuestToHostVerdict(c, g, h, lower, upper);
    AllPrecededHold(c, g, h, lower, upper);
  }

  lemma AllPrecededHold(c: Calibration, g: nat, h: nat, lower: int, upper: int)
    requires c.Valid()
    requires lower == Brute(c.samples, false, h, c.eh, c.rate) && upper == Brute(c.samples, true, h, c.eh, c.rate)
    ensures forall xs, theta, t, x {:trigger Calibrates(c, xs, theta), Preceded(c, theta, g, h, t, x)}
              | Calibrates(c, xs, theta) && Preceded(c, theta, g, h, t, x) ::
              Contains(GuestToHostVerdict(c, g, h, lower, upper), x, h - c.eh - c.start)
  {
    forall xs, theta, t, x | Calibrates(c, xs, theta) && Preceded(c, theta, g, h, t, x)
      ensures Contains(GuestToHostVerdict(c, g, h, lower, upper), x, h - c.eh - c.start)
    {
      GuestToHostHolds(c, xs, theta, g, h, t, x, lower, upper);
    }
  }
}
