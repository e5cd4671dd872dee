/** RawOffsetIndex of scripts/analyze-input-probe.py: envelopes built once by
    sorting and two running extremes, then one binary search and one rounded
    division per query.  Every query equals the brute-force intersection. */
module OffsetIndex {
  import opened Clocks

  /** A sample's line before and after its own timestamp. */
  datatype Point = Point(t: int, left: int, right: int)

  datatype Envelope = Envelope(times: seq<int>, left: seq<int>, right: seq<int>)

  function PointOf(s: Sample, upper: bool, rate: Rate): Point {
    var t, sign := s.Time(upper), Sign(upper);
    Point(t, s.Base(upper) * rate.d - sign * rate.n * t + sign * rate.n * s.Error(upper),
             s.Base(upper) * rate.d + sign * rate.n * t + sign * rate.n * s.Error(upper))
  }

  /** What a point says about host time h. */
  function At(p: Point, upper: bool, h: int, rate: Rate): int {
    if p.t <= h then p.left + Sign(upper) * rate.n * h else p.right - Sign(upper) * rate.n * h
  }

  lemma AtIsCarried(s: Sample, upper: bool, h: int, rate: Rate)
    ensures At(PointOf(s, upper, rate), upper, h, rate) == Carried(s, upper, h, 0, rate)
  {
    var t, e, c := s.Time(upper), s.Error(upper), Sign(upper) * rate.n;
    if t <= h { Expand(c, h, t, e); } else { Expand(c, t, h, e); }
  }

  lemma Expand(c: int, x: int, y: int, z: int)
    ensures c * (x - y + z) == c * x - c * y + c * z
  {
  }

  // -------------------------------------------------------------------- sorting

  /** Python's order on triples. */
  predicate Leq(p: Point, q: Point) {
    p.t < q.t || (p.t == q.t && (p.left < q.left || (p.left == q.left && p.right <= q.right)))
  }

  predicate Sorted(pts: seq<Point>) { forall i, j | 0 <= i < j < |pts| :: Leq(pts[i], pts[j]) }

  method Insert(pts: seq<Point>, p: Point) returns (r: seq<Point>)
    requires Sorted(pts)
    ensures Sorted(r) && multiset(r) == multiset(pts) + multiset{p}
  {
    var k := 0;
    while k < |pts| && Leq(pts[k], p)
      invariant 0 <= k <= |pts| && forall i | 0 <= i < k :: Leq(pts[i], p)
    {
      k := k + 1;
    }
    r := pts[..k] + [p] + pts[k..];
    Inserted(pts, p, k);
  }

  lemma Inserted(pts: seq<Point>, p: Point, k: nat)
    requires Sorted(pts) && k <= |pts| && (forall i | 0 <= i < k :: Leq(pts[i], p)) && (k < |pts| ==> !Leq(pts[k], p))
    ensures Sorted(pts[..k] + [p] + pts[k..])
    ensures multiset(pts[..k] + [p] + pts[k..]) == multiset(pts) + multiset{p}
  {
    assert multiset(pts[..k] + [p] + pts[k..]) == multiset(pts) + multiset{p} by { assert pts == pts[..k] + pts[k..]; }
    forall j | k <= j < |pts| ensures Leq(p, pts[j]) { assert j == k || Leq(pts[k], pts[j]); }
  }

  method Sort(points: seq<Point>) returns (pts: seq<Point>)
    ensures Sorted(pts) && multiset(pts) == multiset(points)
  {
    pts := [];
    for i := 0 to |points|
      invariant Sorted(pts) && multiset(pts) == multiset(points[..i])
    {
      pts := Insert(pts, points[i]);
      assert points[..i + 1] == points[..i] + [points[i]];
    }
    assert points[..|points|] == points;
  }

  // ----------------------------------------------------------- running extremes

  function BestLeft(upper: bool, pts: seq<Point>, j: nat): int
    requires j < |pts|
  {
    if j == 0 then pts[0].left else Tightest(upper, BestLeft(upper, pts, j - 1), pts[j].left)
  }

  function BestRight(upper: bool, pts: seq<Point>, j: nat): int
    requires j < |pts|
    decreases |pts| - j
  {
    if j == |pts| - 1 then pts[j].right else Tightest(upper, BestRight(upper, pts, j + 1), pts[j].right)
  }

  lemma {:induction false} BestLeftIs(upper: bool, pts: seq<Point>, j: nat) returns (k: nat)
    requires j < |pts|
    ensures k <= j && BestLeft(upper, pts, j) == pts[k].left
    ensures forall i | 0 <= i <= j :: Tighter(upper, BestLeft(upper, pts, j), pts[i].left)
  {
    k := j;
    if j > 0 {
      var m := BestLeftIs(upper, pts, j - 1);
      if Tighter(upper, pts[m].left, pts[j].left) { k := m; }
    }
  }

  lemma {:induction false} BestRightIs(upper: bool, pts: seq<Point>, j: nat) returns (k: nat)
    requires j < |pts|
    ensures j <= k < |pts| && BestRight(upper, pts, j) == pts[k].right
    ensures forall i | j <= i < |pts| :: Tighter(upper, BestRight(upper, pts, j), pts[i].right)
    decreases |pts| - j
  {
    k := j;
    if j < |pts| - 1 {
      var m := BestRightIs(upper, pts, j + 1);
      if Tighter(upper, pts[m].right, pts[j].right) { k := m; }
    }
  }

  method PrefixExtreme(upper: bool, left: array<int>, ghost pts: seq<Point>)
    requires left.Length == |pts| && forall j | 0 <= j < |pts| :: left[j] == pts[j].left
    modifies left
    ensures forall j | 0 <= j < |pts| :: left[j] == BestLeft(upper, pts, j)
  {
    var i := 1;
    while i < left.Length
      invariant 1 <= i
      invariant forall j | 0 <= j < |pts| :: left[j] == if j < i then BestLeft(upper, pts, j) else pts[j].left
    {
      left[i] := Tightest(upper, left[i - 1], left[i]);
      i := i + 1;
    }
  }

  method SuffixExtreme(upper: bool, right: array<int>, ghost pts: seq<Point>)
    requires right.Length == |pts| && forall j | 0 <= j < |pts| :: right[j] == pts[j].right
    modifies right
    ensures forall j | 0 <= j < |pts| :: right[j] == BestRight(upper, pts, j)
  {
    var i := right.Length - 2;
    while i >= 0
      invariant i <= right.Length - 2
      invariant forall j | 0 <= j < |pts| :: right[j] == if j > i then BestRight(upper, pts, j) else pts[j].right
    {
      right[i] := Tightest(upper, right[i + 1], right[i]);
      i := i - 1;
    }
  }

  // --------------------------------------------------------------- the envelope

  /** The envelope of the sorted points `pts`. */
  ghost predicate EnvelopeOf(e: Envelope, upper: bool, pts: seq<Point>) {
    && |e.times| == |e.left| == |e.right| == |pts|
    && (forall j | 0 <= j < |pts| :: e.times[j] == pts[j].t)
    && (forall j | 0 <= j < |pts| :: e.left[j] == BestLeft(upper, pts, j))
    && (forall j | 0 <= j < |pts| :: e.right[j] == BestRight(upper, pts, j))
  }

  /** The points are exactly the samples' points. */
  ghost predicate PointsOf(pts: seq<Point>, samples: seq<Sample>, upper: bool, rate: Rate) {
    && (forall j | 0 <= j < |pts| :: exists i | 0 <= i < |samples| :: pts[j] == PointOf(samples[i], upper, rate))
    && (forall i {:trigger PointOf(samples[i], upper, rate)} | 0 <= i < |samples| ::
          PointOf(samples[i], upper, rate) in pts)
  }

  method MakeEnvelope(samples: seq<Sample>, upper: bool, rate: Rate) returns (e: Envelope, ghost pts: seq<Point>)
    requires samples != []
    ensures Sorted(pts) && pts != [] && PointsOf(pts, samples, upper, rate) && EnvelopeOf(e, upper, pts)
  {
    var points := seq(|samples|, i requires 0 <= i < |samples| => PointOf(samples[i], upper, rate));
    var sorted := Sort(points);
    pts := sorted;
    SamePoints(points, sorted, samples, upper, rate);
    var left := new int[|sorted|](i requires 0 <= i < |sorted| => sorted[i].left);
    var right := new int[|sorted|](i requires 0 <= i < |sorted| => sorted[i].right);
    PrefixExtreme(upper, left, sorted);
    SuffixExtreme(upper, right, sorted);
    e := Envelope(seq(|sorted|, i requires 0 <= i < |sorted| => sorted[i].t), left[..], right[..]);
  }

  lemma SamePoints(points: seq<Point>, pts: seq<Point>, samples: seq<Sample>, upper: bool, rate: Rate)
    requires |points| == |samples| && forall i | 0 <= i < |samples| :: points[i] == PointOf(samples[i], upper, rate)
    requires multiset(pts) == multiset(points)
    ensures |pts| == |points| && PointsOf(pts, samples, upper, rate)
  {
    assert |pts| == |multiset(pts)| && |points| == |multiset(points)|;
    forall j | 0 <= j < |pts| ensures exists i | 0 <= i < |samples| :: pts[j] == PointOf(samples[i], upper, rate) {
      assert pts[j] in multiset(points);
      var i :| 0 <= i < |points| && points[i] == pts[j];
    }
    forall i | 0 <= i < |samples| ensures PointOf(samples[i], upper, rate) in pts {
      assert points[i] in multiset(pts);
    }
  }

  /** bisect_right. */
  method BisectRight(times: seq<int>, h: int) returns (pos: nat)
    requires forall i, j | 0 <= i < j < |times| :: times[i] <= times[j]
    ensures pos <= |times|
    ensures forall i | 0 <= i < pos :: times[i] <= h
    ensures forall i | pos <= i < |times| :: h < times[i]
  {
    var lo, hi := 0, |times|;
    while lo < hi
      invariant 0 <= lo <= hi <= |times|
      invariant forall i | 0 <= i < lo :: times[i] <= h
      invariant forall i | hi <= i < |times| :: h < times[i]
    {
      var mid := (lo + hi) / 2;
      if h < times[mid] { hi := mid; } else { lo := mid + 1; }
    }
    pos := lo;
  }

  /** The tightest value at h over all points, from the two stored extremes. */
  method Tip(e: Envelope, upper: bool, h: int, rate: Rate, ghost pts: seq<Point>) returns (c: int, ghost k: nat)
    requires EnvelopeOf(e, upper, pts) && Sorted(pts) && pts != []
    ensures k < |pts| && c == At(pts[k], upper, h, rate)
    ensures forall j | 0 <= j < |pts| :: Tighter(upper, c, At(pts[j], upper, h, rate))
  {
    var pos := BisectRight(e.times, h);
    assert forall j | 0 <= j < |pts| :: pts[j].t <= h <==> j < pos;
    var shift := Sign(upper) * rate.n * h;
    if pos > 0 {
      k := BestLeftIs(upper, pts, pos - 1);
      c := e.left[pos - 1] + shift;
    }
    if pos < |e.times| {
      ghost var m := BestRightIs(upper, pts, pos);
      var right := e.right[pos] - shift;
      if pos == 0 || Tighter(upper, right, c) {
        c, k := right, m;
      }
    }
  }

  /** A tightest carried value, rounded once, is the intersection of the values
      rounded one by one. */
  lemma RoundedOnce(samples: seq<Sample>, upper: bool, h: int, error: nat, rate: Rate, c: int, k: nat)
    requires rate.Valid() && k < |samples| && c == Carried(samples[k], upper, h, 0, rate)
    requires forall i | 0 <= i < |samples| :: Tighter(upper, c, Carried(samples[i], upper, h, 0, rate))
    ensures Outward(upper, c + Sign(upper) * rate.n * error, rate.d) == Brute(samples, upper, h, error, rate)
  {
    var v := c + Sign(upper) * rate.n * error;
    CarriedError(samples[k], upper, h, error, rate);
    forall i | 0 <= i < |samples|
      ensures Tighter(upper, Outward(upper, v, rate.d), Bound(samples[i], upper, h, error, rate))
    {
      CarriedError(samples[i], upper, h, error, rate);
      OutwardMonotone(upper, v, Carried(samples[i], upper, h, error, rate), rate.d);
    }
    var j := BruteIsTightest(samples, upper, h, error, rate);
  }

  lemma CarriedError(s: Sample, upper: bool, h: int, error: nat, rate: Rate)
    ensures Carried(s, upper, h, error, rate) == Carried(s, upper, h, 0, rate) + Sign(upper) * rate.n * error
  {
    var x, c := Abs(h - s.Time(upper)) + s.Error(upper), Sign(upper) * rate.n;
    assert c * (x + error) == c * x + c * error;
  }

  lemma TipIsCarried(samples: seq<Sample>, upper: bool, h: int, rate: Rate, pts: seq<Point>, c: int, k: nat)
    returns (m: nat)
    requires PointsOf(pts, samples, upper, rate) && k < |pts| && c == At(pts[k], upper, h, rate)
    requires forall j | 0 <= j < |pts| :: Tighter(upper, c, At(pts[j], upper, h, rate))
    ensures m < |samples| && c == Carried(samples[m], upper, h, 0, rate)
    ensures forall i | 0 <= i < |samples| :: Tighter(upper, c, Carried(samples[i], upper, h, 0, rate))
  {
    m :| 0 <= m < |samples| && pts[k] == PointOf(samples[m], upper, rate);
    AtIsCarried(samples[m], upper, h, rate);
    forall i | 0 <= i < |samples| ensures Tighter(upper, c, Carried(samples[i], upper, h, 0, rate)) {
      assert PointOf(samples[i], upper, rate) in pts;
      var j :| 0 <= j < |pts| && pts[j] == PointOf(samples[i], upper, rate);
      AtIsCarried(samples[i], upper, h, rate);
    }
  }

  method Query(e: Envelope, upper: bool, h: int, error: nat, rate: Rate, ghost samples: seq<Sample>,
               ghost pts: seq<Point>)
    returns (r: int)
    requires rate.Valid() && samples != [] && pts != []
    requires EnvelopeOf(e, upper, pts) && Sorted(pts) && PointsOf(pts, samples, upper, rate)
    ensures r == Brute(samples, upper, h, error, rate)
  {
    var c, k := Tip(e, upper, h, rate, pts);
    ghost var i := TipIsCarried(samples, upper, h, rate, pts, c, k);
    RoundedOnce(samples, upper, h, error, rate, c, i);
    r := Outward(upper, c + Sign(upper) * rate.n * error, rate.d);
  }

  class RawOffsetIndex {
    const rate: Rate
    const lower: Envelope
    const upper: Envelope
    ghost const samples: seq<Sample>
    ghost const lowers: seq<Point>
    ghost const uppers: seq<Point>

    ghost predicate Valid() {
      && rate.Valid() && samples != []
      && Sorted(lowers) && lowers != [] && PointsOf(lowers, samples, false, rate) && EnvelopeOf(lower, false, lowers)
      && Sorted(uppers) && uppers != [] && PointsOf(uppers, samples, true, rate) && EnvelopeOf(upper, true, uppers)
    }

    constructor (samples: seq<Sample>, rate: Rate)
      requires samples != [] && rate.Valid()
      ensures Valid() && this.samples == samples && this.rate == rate
    {
      var lo, los := MakeEnvelope(samples, false, rate);
      var up, ups := MakeEnvelope(samples, true, rate);
      this.rate, this.samples := rate, samples;
      lower, upper, lowers, uppers := lo, up, los, ups;
    }

    /** One query: the brute-force intersection at any host time, for any error. */
    method Endpoint(h: int, error: nat, up: bool) returns (r: int)
      requires Valid()
      ensures r == Brute(samples, up, h, error, rate)
    {
      if up {
        r := Query(upper, true, h, error, rate, samples, uppers);
      } else {
        r := Query(lower, false, h, error, rate, samples, lowers);
      }
    }

    /** Both ends, or the refusal of inconsistent constraints. */
    method Bounds(h: int, error: nat) returns (ok: bool, low: int, high: int)
      requires Valid()
      ensures low == Brute(samples, false, h, error, rate) && high == Brute(samples, true, h, error, rate)
      ensures ok <==> low <= high
    {
      low := Endpoint(h, error, false);
      high := Endpoint(h, error, true);
      ok := low <= high;
    }
  }
}
