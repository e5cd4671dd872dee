/** summarize and one_way_bounds of scripts/measure-clock-offset.py. */
module Calibrating {
  import opened Clocks
  import opened OffsetIndex
  import opened Latency

  // ------------------------------------------------------------- one-way delays

  datatype Span = Span(low: int, high: int)

  datatype Ways = Ways(toGuest: Span, toHost: Span) | EmptyInterval

  function Max(a: int, b: int): int { if a < b then b else a }

  function Min(a: int, b: int): int { if b < a then b else a }

  /** How far from the reference any event of the sample can be. */
  function Reach(s: Sample, reference: int): nat {
    Max(Abs(s.h0 - reference) + s.e0, Abs(s.h3 - reference) + s.e3)
  }

  function OneWayBounds(s: Sample, lower: int, upper: int, reference: int, rate: Rate): Ways
    requires rate.Valid()
  {
    var drift := Drift(Reach(s, reference), rate);
    WaysFrom(s, lower - drift, upper + drift)
  }

  /** The two intervals, given bounds on the offset during the exchange. */
  function WaysFrom(s: Sample, lower: int, upper: int): Ways {
    var forward, reverse := s.g1 - s.h0, s.h3 - s.g2;
    var rtt := s.h3 - s.h0 + s.e0 + s.e3;
    var toGuest := Span(Max(0, forward - upper - s.e0 - s.eg), Min(rtt, forward - lower + s.e0 + s.eg));
    var toHost := Span(Max(0, reverse + lower - s.e3 - s.eg), Min(rtt, reverse + upper + s.e3 + s.eg));
    if toGuest.high < toGuest.low || toHost.high < toHost.low then EmptyInterval else Ways(toGuest, toHost)
  }

  /** A sample's own constraints at the reference widen back, over the sample's
      reach, to at least its raw ones. */
  lemma WidensBack(s: Sample, lower: int, upper: int, reference: int, rate: Rate)
    requires rate.Valid() && lower <= upper
    requires Bound(s, false, reference, 0, rate) <= lower && upper <= Bound(s, true, reference, 0, rate)
    ensures var drift := Drift(Reach(s, reference), rate);
            lower - drift <= s.Base(true) && s.Base(false) <= upper + drift
  {
    OffsetIntervalIsBound(s, reference, rate);
    DriftMonotone(Abs(reference - s.h0) + s.e0, Reach(s, reference), rate);
    DriftMonotone(Abs(reference - s.h3) + s.e3, Reach(s, reference), rate);
  }

  /** one_way_bounds never finds an empty interval for a sample that took part in a
      consistent summary. */
  lemma OneWayNeverEmpty(samples: seq<Sample>, i: nat, reference: int, rate: Rate, lower: int, upper: int)
    requires rate.Valid() && i < |samples| && samples[i].Valid()
    requires lower == Brute(samples, false, reference, 0, rate) && upper == Brute(samples, true, reference, 0, rate)
    requires lower <= upper
    ensures OneWayBounds(samples[i], lower, upper, reference, rate).Ways?
  {
    var j := BruteIsTightest(samples, false, reference, 0, rate);
    var k := BruteIsTightest(samples, true, reference, 0, rate);
    WidensBack(samples[i], lower, upper, reference, rate);
  }

  /** Between its own send and receive the offset stays within the widened bounds. */
  lemma DuringExchange(s: Sample, x: Exchange, theta: real -> real, rate: Rate, reference: int, t: real, lower: int,
                       upper: int)
    requires rate.Valid() && Drifts(theta, rate) && Observed(s, x, theta) && x.t0 <= t <= x.t3
    requires lower as real <= theta(reference as real) <= upper as real
    ensures var drift := Drift(Reach(s, reference), rate);
            (lower - drift) as real <= theta(t) <= (upper + drift) as real
  {
    WithinReach(s, x, theta, reference, t);
    DriftCovers(theta, rate, reference as real, t, Reach(s, reference));
  }

  lemma WithinReach(s: Sample, x: Exchange, theta: real -> real, reference: int, t: real)
    requires Observed(s, x, theta) && x.t0 <= t <= x.t3
    ensures -(Reach(s, reference) as real) <= t - reference as real <= Reach(s, reference) as real
  {
  }

  /** drift_ns covers what the offset can do over the distance. */
  lemma DriftCovers(theta: real -> real, rate: Rate, a: real, b: real, r: nat)
    requires rate.Valid() && Drifts(theta, rate) && -(r as real) <= b - a <= r as real
    ensures -(Drift(r, rate) as real) <= theta(b) - theta(a) <= Drift(r, rate) as real
  {
    Wander(theta, rate, a, b, r);
    DriftBounds(r, rate);
    assert rate.n * r == r * rate.n;
    AtMostDrift(rate.d, Drift(r, rate), rate.n * r, theta(b) - theta(a));
  }

  lemma AtMostDrift(d: nat, k: nat, m: nat, y: real)
    requires d > 0 && m <= k * d && -(m as real) <= d as real * y <= m as real
    ensures -(k as real) <= y <= k as real
  {
    RealProduct(k, d);
    Within(d as real, k as real, m as real, y);
  }

  lemma RealProduct(k: nat, d: nat)
    ensures (k * d) as real == d as real * k as real
  {
  }

  lemma Within(d: real, k: real, m: real, y: real)
    requires d > 0.0 && m <= d * k && -m <= d * y <= m
    ensures -k <= y <= k
  {
    Cancel(d, y, k);
    assert d * -k == -(d * k);
    Cancel(d, -k, y);
  }

  /** The intervals contain the true delays of an exchange. */
  predicate Covers(w: Ways, x: Exchange) {
    && w.Ways?
    && w.toGuest.low as real <= x.t1 - x.t0 <= w.toGuest.high as real
    && w.toHost.low as real <= x.t3 - x.t2 <= w.toHost.high as real
  }

  /** The intervals contain the true delays. */
  lemma OneWayHolds(s: Sample, x: Exchange, theta: real -> real, rate: Rate, reference: int, lower: int, upper: int)
    requires rate.Valid() && Drifts(theta, rate) && Observed(s, x, theta)
    requires lower as real <= theta(reference as real) <= upper as real
    ensures Covers(OneWayBounds(s, lower, upper, reference, rate), x)
  {
    DuringExchange(s, x, theta, rate, reference, x.t1, lower, upper);
    DuringExchange(s, x, theta, rate, reference, x.t2, lower, upper);
    var drift := Drift(Reach(s, reference), rate);
    WaysHold(s, x, theta, lower - drift, upper + drift);
  }

  lemma WaysHold(s: Sample, x: Exchange, theta: real -> real, lower: int, upper: int)
    requires Observed(s, x, theta)
    requires lower as real <= theta(x.t1) <= upper as real && lower as real <= theta(x.t2) <= upper as real
    ensures Covers(WaysFrom(s, lower, upper), x)
  {
  }

  // ------------------------------------------------------------------ summarize

  datatype Summary =
    | NoValidSamples
    | Summary(reference: int, start: int, end: int, lower: int, upper: int, ways: seq<Ways>)

  /** The samples make_sample did not mark invalid, in order. */
  function Usable(samples: seq<Sample>): (r: seq<Sample>)
    ensures forall s :: s in r <==> s in samples && s.Valid()
  {
    if samples == [] then []
    else
      var last := samples[|samples| - 1];
      assert samples == samples[..|samples| - 1] + [last];
      Usable(samples[..|samples| - 1]) + if last.Valid() then [last] else []
  }

  method Filter(samples: seq<Sample>) returns (valid: seq<Sample>)
    ensures valid == Usable(samples)
  {
    valid := [];
    for i := 0 to |samples|
      invariant valid == Usable(samples[..i])
    {
      assert samples[..i + 1][..i] == samples[..i];
      if samples[i].Valid() {
        valid := valid + [samples[i]];
      }
    }
    assert samples[..|samples|] == samples;
  }

  method Extent(valid: seq<Sample>) returns (start: nat, end: nat)
    requires valid != []
    ensures Window(valid, start, end)
  {
    start, end := valid[0].h0, valid[0].h3;
    for k := 1 to |valid|
      invariant exists i :: 0 <= i < |valid| && start == valid[i].h0
      invariant exists i :: 0 <= i < |valid| && end == valid[i].h3
      invariant forall i | 0 <= i < k :: start <= valid[i].h0 && valid[i].h3 <= end
    {
      if valid[k].h0 < start { start := valid[k].h0; }
      if valid[k].h3 > end { end := valid[k].h3; }
    }
  }

  /** max over the lower ends and min over the upper ends of every interval. */
  method Intersect(valid: seq<Sample>, reference: int, rate: Rate) returns (lower: int, upper: int)
    requires valid != [] && rate.Valid()
    ensures lower == Brute(valid, false, reference, 0, rate) && upper == Brute(valid, true, reference, 0, rate)
  {
    ghost var lows := seq(|valid|, i requires 0 <= i < |valid| => Bound(valid[i], false, reference, 0, rate));
    ghost var highs := seq(|valid|, i requires 0 <= i < |valid| => Bound(valid[i], true, reference, 0, rate));
    OffsetIntervalIsBound(valid[0], reference, rate);
    lower, upper := OffsetInterval(valid[0], reference, rate).0, OffsetInterval(valid[0], reference, rate).1;
    for k := 1 to |valid|
      invariant lower == Best(false, lows[..k]) && upper == Best(true, highs[..k])
    {
      OffsetIntervalIsBound(valid[k], reference, rate);
      var o := OffsetInterval(valid[k], reference, rate);
      assert lows[..k + 1][..k] == lows[..k] && highs[..k + 1][..k] == highs[..k];
      lower, upper := Max(lower, o.0), Min(upper, o.1);
    }
    assert lows[..|valid|] == lows && highs[..|valid|] == highs;
  }

  /** The bounds of every sample, once the offset is bounded at the reference. */
  ghost predicate AllWays(ways: seq<Ways>, valid: seq<Sample>, lower: int, upper: int, reference: int, rate: Rate)
    requires rate.Valid()
  {
    |ways| == |valid| && forall i | 0 <= i < |ways| :: ways[i] == OneWayBounds(valid[i], lower, upper, reference, rate)
  }

  /** For every clock pair behind the samples the summary is consistent, its interval
      contains the offset at the reference, and the one-way bounds the true delays. */
  lemma SummaryHolds(valid: seq<Sample>, xs: seq<Exchange>, theta: real -> real, rate: Rate, reference: nat, lower: int,
                     upper: int, ways: seq<Ways>)
    requires rate.Valid() && Drifts(theta, rate) && valid != [] && AllObserved(valid, xs, theta)
    requires lower == Brute(valid, false, reference, 0, rate) && upper == Brute(valid, true, reference, 0, rate)
    requires lower <= upper ==> AllWays(ways, valid, lower, upper, reference, rate)
    ensures lower as real <= theta(reference as real) <= upper as real && lower <= upper
    ensures |ways| == |valid| && forall i | 0 <= i < |ways| :: Covers(ways[i], xs[i])
  {
    BoundsHold(valid, xs, theta, rate, reference as real, reference, 0);
    forall i | 0 <= i < |ways| ensures Covers(ways[i], xs[i]) {
      OneWayHolds(valid[i], xs[i], theta, rate, reference, lower, upper);
    }
  }

  /** What the summary promises of a clock pair. */
  ghost predicate Promise(r: Summary, valid: seq<Sample>, xs: seq<Exchange>, theta: real -> real)
    requires r.Summary?
  {
    && r.lower as real <= theta(r.reference as real) <= r.upper as real
    && |r.ways| == |valid| == |xs| && forall i | 0 <= i < |r.ways| :: Covers(r.ways[i], xs[i])
  }

  ghost predicate Behind(valid: seq<Sample>, xs: seq<Exchange>, theta: real -> real, rate: Rate) {
    Drifts(theta, rate) && AllObserved(valid, xs, theta)
  }

  lemma SummariesHold(r: Summary, valid: seq<Sample>, rate: Rate)
    requires r.Summary? && rate.Valid() && valid != [] && r.reference >= 0
    requires r.lower == Brute(valid, false, r.reference, 0, rate) && r.upper == Brute(valid, true, r.reference, 0, rate)
    requires r.lower <= r.upper ==> AllWays(r.ways, valid, r.lower, r.upper, r.reference, rate)
    ensures forall xs, theta | Behind(valid, xs, theta, rate) :: Promise(r, valid, xs, theta)
  {
    forall xs, theta | Behind(valid, xs, theta, rate) ensures Promise(r, valid, xs, theta) {
      SummaryHolds(valid, xs, theta, rate, r.reference, r.lower, r.upper, r.ways);
    }
  }

  /** The measured window runs from the first send to the last receipt. */
  ghost predicate Window(valid: seq<Sample>, start: int, end: int) {
    && (exists i :: 0 <= i < |valid| && start == valid[i].h0)
    && (exists i :: 0 <= i < |valid| && end == valid[i].h3)
    && (forall i | 0 <= i < |valid| :: start <= valid[i].h0 && valid[i].h3 <= end)
  }

  /** one_way_bounds of every sample; none is empty. */
  method OneWays(valid: seq<Sample>, reference: int, rate: Rate, lower: int, upper: int) returns (ways: seq<Ways>)
    requires valid != [] && rate.Valid() && lower <= upper && forall s | s in valid :: s.Valid()
    requires lower == Brute(valid, false, reference, 0, rate) && upper == Brute(valid, true, reference, 0, rate)
    ensures AllWays(ways, valid, lower, upper, reference, rate) && forall i | 0 <= i < |ways| :: ways[i].Ways?
  {
    ways := [];
    for i := 0 to |valid|
      invariant |ways| == i
      invariant forall j | 0 <= j < i ::
                  ways[j].Ways? && ways[j] == OneWayBounds(valid[j], lower, upper, reference, rate)
    {
      assert valid[i] in valid;
      OneWayNeverEmpty(valid, i, reference, rate, lower, upper);
      ways := ways + [OneWayBounds(valid[i], lower, upper, reference, rate)];
    }
  }

  /** summarize: its offset interval is the one the index gives at the middle of the
      window, and once that is consistent every valid sample gets its one-way bounds.  For
      every clock pair behind the samples, all these intervals contain the truth. */
  method Summarize(samples: seq<Sample>, rate: Rate) returns (r: Summary)
    requires rate.Valid()
    ensures r.NoValidSamples? <==> Usable(samples) == []
    ensures var valid := Usable(samples); r.Summary? ==>
              && Window(valid, r.start, r.end) && r.reference == (r.start + r.end) / 2
              && r.start <= r.reference <= r.end
              && r.lower == Brute(valid, false, r.reference, 0, rate)
              && r.upper == Brute(valid, true, r.reference, 0, rate)
              && (r.lower <= r.upper ==> AllWays(r.ways, valid, r.lower, r.upper, r.reference, rate))
              && (r.lower > r.upper ==> r.ways == [])
    ensures r.Summary? ==> forall i | 0 <= i < |r.ways| :: r.ways[i].Ways?
    ensures var valid := Usable(samples); r.Summary? ==>
              forall xs, theta | Behind(valid, xs, theta, rate) :: Promise(r, valid, xs, theta)
  {
    var valid := Filter(samples);
    if valid == [] {
      return NoValidSamples;
    }
    var start, end := Extent(valid);
    assert valid[0] in Usable(samples);
    var reference := (start + end) / 2;
    var lower, upper := Intersect(valid, reference, rate);
    var ways: seq<Ways> := [];
    if lower <= upper {
      ways := OneWays(valid, reference, rate, lower, upper);
    }
    r := Summary(reference, start, end, lower, upper, ways);
    SummariesHold(r, valid, rate);
  }
}
