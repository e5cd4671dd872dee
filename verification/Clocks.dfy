/** Two clocks, one sample of a timestamp exchange between them, and the interval
    arithmetic shared by scripts/measure-clock-offset.py and
    scripts/analyze-input-probe.py.  The offset of the guest clock over the host
    clock is a function of host time that drifts at most `Rate` per unit. */
module Clocks {
  /** The drift budget as an exact fraction below one. */
  datatype Rate = Rate(n: nat, d: nat) {
    predicate Valid() { n < d }
  }

  /** Host send, guest receive, guest send, host receive, with error budgets. */
  datatype Sample = Sample(h0: nat, g1: nat, g2: nat, h3: nat, e0: nat, e3: nat, eg: nat) {
    /** What make_sample accepts. */
    predicate Valid() { h0 <= h3 && g1 <= g2 && g2 - h3 <= g1 - h0 }

    /** An upper bound on the offset is tied to the send, a lower one to the receive. */
    function Time(upper: bool): nat { if upper then h0 else h3 }

    function Error(upper: bool): nat { if upper then e0 else e3 }

    function Base(upper: bool): int { if upper then g1 - h0 + e0 + eg else g2 - h3 - e3 - eg }
  }

  function Abs(x: int): nat { if x < 0 then -x else x }

  function Sign(upper: bool): int { if upper then 1 else -1 }

  /** Floor for lower bounds and ceiling for upper bounds. */
  function Outward(upper: bool, v: int, d: nat): int
    requires d > 0
  {
    if upper then -(-v / d) else v / d
  }

  /** One sample's bound carried to host time h, which is itself known to within
      `error`; times d. */
  function Carried(s: Sample, upper: bool, h: int, error: nat, rate: Rate): int {
    s.Base(upper) * rate.d + Sign(upper) * rate.n * (Abs(h - s.Time(upper)) + s.Error(upper) + error)
  }

  function Bound(s: Sample, upper: bool, h: int, error: nat, rate: Rate): int
    requires rate.Valid()
  {
    Outward(upper, Carried(s, upper, h, error, rate), rate.d)
  }

  /** x is at least as tight as y: smaller for an upper bound, larger for a lower. */
  predicate Tighter(upper: bool, x: int, y: int) { if upper then x <= y else x >= y }

  function Tightest(upper: bool, x: int, y: int): int { if Tighter(upper, x, y) then x else y }

  /** The tightest of several bounds: Python's max or min. */
  function Best(upper: bool, bounds: seq<int>): int
    requires bounds != []
  {
    var last := bounds[|bounds| - 1];
    if |bounds| == 1 then last else Tightest(upper, Best(upper, bounds[..|bounds| - 1]), last)
  }

  /** It is one of them, and none is tighter. */
  lemma {:induction false} BestIs(upper: bool, bounds: seq<int>) returns (k: nat)
    requires bounds != []
    ensures k < |bounds| && Best(upper, bounds) == bounds[k]
    ensures forall i | 0 <= i < |bounds| :: Tighter(upper, Best(upper, bounds), bounds[i])
    decreases |bounds|
  {
    var front, last := bounds[..|bounds| - 1], |bounds| - 1;
    k := last;
    if |bounds| > 1 {
      var j := BestIs(upper, front);
      if Tighter(upper, bounds[j], bounds[last]) { k := j; }
      forall i | 0 <= i < |bounds| ensures Tighter(upper, Best(upper, bounds), bounds[i]) {
        if i < last { assert bounds[i] == front[i]; }
      }
    }
  }

  /** The intersection of every sample's bound, each rounded on its own. */
  function Brute(samples: seq<Sample>, upper: bool, h: int, error: nat, rate: Rate): int
    requires samples != [] && rate.Valid()
  {
    Best(upper, seq(|samples|, i requires 0 <= i < |samples| => Bound(samples[i], upper, h, error, rate)))
  }

  lemma BruteIsTightest(samples: seq<Sample>, upper: bool, h: int, error: nat, rate: Rate) returns (k: nat)
    requires samples != [] && rate.Valid()
    ensures k < |samples| && Brute(samples, upper, h, error, rate) == Bound(samples[k], upper, h, error, rate)
    ensures forall i | 0 <= i < |samples| ::
              Tighter(upper, Brute(samples, upper, h, error, rate), Bound(samples[i], upper, h, error, rate))
  {
    var bounds := seq(|samples|, i requires 0 <= i < |samples| => Bound(samples[i], upper, h, error, rate));
    k := BestIs(upper, bounds);
    forall i | 0 <= i < |samples|
      ensures Tighter(upper, Best(upper, bounds), Bound(samples[i], upper, h, error, rate))
    {
      assert Tighter(upper, Best(upper, bounds), bounds[i]);
    }
  }

  // ----------------------------------------------------------------- rounding

  lemma OutwardMonotone(upper: bool, x: int, y: int, d: nat)
    requires d > 0 && Tighter(upper, x, y)
    ensures Tighter(upper, Outward(upper, x, d), Outward(upper, y, d))
  {
    if upper { DivMonotone(-y, -x, d); } else { DivMonotone(y, x, d); }
  }

  lemma Gap(a: int, b: int, d: nat)
    ensures a < b ==> (a + 1) * d <= b * d
    ensures a * d == d * a && (a + 1) * d == a * d + d
  {
  }

  lemma DivMonotone(x: int, y: int, d: nat)
    requires d > 0 && x <= y
    ensures x / d <= y / d
  {
    assert d * (x / d) <= x && y < d * (y / d + 1);
    Gap(y / d, x / d, d);
  }

  /** Outward rounding stays on the outside, and within one. */
  lemma OutwardBounds(upper: bool, v: int, d: nat)
    requires d > 0
    ensures upper ==> v <= Outward(upper, v, d) * d < v + d
    ensures !upper ==> v - d < Outward(upper, v, d) * d <= v
  {
    var q := Outward(upper, v, d);
    if upper {
      assert -v == d * (-v / d) + (-v) % d;
      assert d * -q == -(q * d);
    } else {
      assert v == d * (v / d) + v % d;
    }
  }

  // -------------------------------------------------------- drift_ns and its use

  function Drift(distance: int, rate: Rate): nat
    requires rate.Valid()
  {
    DriftNat(distance, rate);
    (Abs(distance) * rate.n + rate.d - 1) / rate.d
  }

  lemma DriftNat(distance: int, rate: Rate)
    requires rate.Valid()
    ensures 0 <= (Abs(distance) * rate.n + rate.d - 1) / rate.d
  {
    assert Abs(distance) * rate.n >= 0;
    DivMonotone(0, Abs(distance) * rate.n + rate.d - 1, rate.d);
  }

  /** offset_interval: one sample's bounds at a reference time. */
  function OffsetInterval(s: Sample, reference: int, rate: Rate): (int, int)
    requires rate.Valid()
  {
    (s.Base(false) - Drift(Abs(reference - s.h3) + s.e3, rate),
     s.Base(true) + Drift(Abs(reference - s.h0) + s.e0, rate))
  }

  /** The least whole number at or above the exact drift. */
  lemma DriftBounds(distance: nat, rate: Rate)
    requires rate.Valid()
    ensures distance * rate.n <= Drift(distance, rate) * rate.d < distance * rate.n + rate.d
  {
    var x, d := distance * rate.n, rate.d;
    assert x + d - 1 == d * ((x + d - 1) / d) + (x + d - 1) % d;
    assert d * Drift(distance, rate) == Drift(distance, rate) * d;
  }

  lemma DriftMonotone(x: nat, y: nat, rate: Rate)
    requires rate.Valid() && x <= y
    ensures Drift(x, rate) <= Drift(y, rate)
  {
    assert x * rate.n <= y * rate.n;
    DivMonotone(x * rate.n + rate.d - 1, y * rate.n + rate.d - 1, rate.d);
  }

  /** The two scripts' formulas for one sample agree: one rounded division of the
      whole numerator is the base plus or minus the rounded drift. */
  lemma OffsetIntervalIsBound(s: Sample, reference: int, rate: Rate)
    requires rate.Valid()
    ensures OffsetInterval(s, reference, rate) ==
            (Bound(s, false, reference, 0, rate), Bound(s, true, reference, 0, rate))
  {
    CarriedBound(s, false, reference, rate);
    CarriedBound(s, true, reference, rate);
  }

  lemma CarriedBound(s: Sample, upper: bool, h: int, rate: Rate)
    requires rate.Valid()
    ensures Bound(s, upper, h, 0, rate) ==
            s.Base(upper) + Sign(upper) * Drift(Abs(h - s.Time(upper)) + s.Error(upper), rate)
  {
    var x := Abs(h - s.Time(upper)) + s.Error(upper);
    DriftBounds(x, rate);
    if upper {
      DriftAbove(s.Base(true), rate.n, x, rate.d, Drift(x, rate));
    } else {
      DriftBelow(s.Base(false), rate.n, x, rate.d, Drift(x, rate));
    }
  }

  lemma DriftAbove(base: int, n: nat, x: nat, d: nat, k: nat)
    requires d > 0 && x * n <= k * d < x * n + d
    ensures Outward(true, base * d + 1 * n * x, d) == base + k
  {
    Distribute(base, k, d);
    assert 1 * n * x == x * n;
    OutwardUnique(true, base * d + 1 * n * x, d, base + k);
  }

  lemma DriftBelow(base: int, n: nat, x: nat, d: nat, k: nat)
    requires d > 0 && x * n <= k * d < x * n + d
    ensures Outward(false, base * d + -1 * n * x, d) == base - k
  {
    Distribute(base, 0 - k, d);
    assert -1 * n * x == -(x * n) && (0 - k) * d == -(k * d);
    OutwardUnique(false, base * d + -1 * n * x, d, base - k);
  }

  lemma Distribute(a: int, b: int, d: int)
    ensures (a + b) * d == a * d + b * d
  {
  }

  lemma OutwardUnique(upper: bool, v: int, d: nat, k: int)
    requires d > 0
    requires if upper then v <= k * d < v + d else v - d < k * d <= v
    ensures Outward(upper, v, d) == k
  {
    OutwardBounds(upper, v, d);
    var q := Outward(upper, v, d);
    Gap(k, q, d);
    Gap(q, k, d);
  }
}
