/**
 Order-statistic confidence intervals of a median, in the agent's artifact
 (src/Networker.Agent/BenchmarkArtifactBuilder.cs) and in the trend report
 (scripts/benchmark-trend.py), over the reals. The square root of the sample
 size is a parameter given by its defining property.
 */
module MedianInterval {
  import opened Occurrences
  import opened Options

  predicate IsRoot(s: real, n: nat) {
    s >= 0.0 && s * s == n as real
  }

  predicate Sorted(xs: seq<real>) {
    forall i, j :: 0 <= i < j < |xs| ==> xs[i] <= xs[j]
  }

  function Ceiling(x: real): int {
    -(-x).Floor
  }

  function Clamp(x: int, low: int, high: int): int {
    if x < low then low else if x > high then high else x
  }

  /** Half the width of the interval, in ranks. */
  function HalfWidth(root: real): real {
    1.96 * root / 2.0
  }

  // ---------- The two implementations of the ranks ----------

  /** median_ci: one bound clamped on each side. */
  function TrendRanks(n: nat, root: real): (int, int) {
    var lo := (n as real / 2.0 - HalfWidth(root)).Floor;
    var hi := Ceiling(n as real / 2.0 + HalfWidth(root));
    (if lo > 0 then lo else 0, if hi < n - 1 then hi else n - 1)
  }

  /** WriteSummary: both clamped to the sample. */
  function SummaryRanks(n: nat, root: real): (int, int) {
    (Clamp((n as real / 2.0 - HalfWidth(root)).Floor, 0, n - 1), Clamp(Ceiling(n as real / 2.0 + HalfWidth(root)), 0, n - 1))
  }

  lemma FactorIsNatural(a: real, b: real)
    requires a * b >= 0.0 && b > 0.0
    ensures a >= 0.0
  {
  }

  lemma RootAtLeastOne(n: nat, root: real)
    requires n >= 1 && IsRoot(root, n)
    ensures root >= 1.0 && HalfWidth(root) >= 0.98
  {
    assert (root - 1.0) * (root + 1.0) == root * root - 1.0;
    FactorIsNatural(root - 1.0, root + 1.0);
  }

  /** For every sample the ranks straddle the middle. */
  lemma RanksStraddleTheMiddle(n: nat, root: real)
    requires n >= 1 && IsRoot(root, n)
    ensures var (lo, hi) := TrendRanks(n, root); 0 <= lo <= (n - 1) / 2 && n / 2 <= hi <= n - 1
  {
    RootAtLeastOne(n, root);
    hide HalfWidth, IsRoot;
    var half := HalfWidth(root);
    var lo, hi := (n as real / 2.0 - half).Floor, Ceiling(n as real / 2.0 + half);
    assert lo as real <= n as real / 2.0 - 0.98;
    assert hi as real >= n as real / 2.0 + 0.98;
    assert 2 * lo <= n - 1 && 2 * hi >= n + 1;
  }

  /** Both implementations pick the same ranks, for every sample size. */
  lemma SameRanks(n: nat, root: real)
    requires n >= 1 && IsRoot(root, n)
    ensures SummaryRanks(n, root) == TrendRanks(n, root)
  {
    RootAtLeastOne(n, root);
    hide HalfWidth, IsRoot;
    var half := HalfWidth(root);
    assert ((n as real / 2.0 - half).Floor) as real <= n as real / 2.0;
    assert Ceiling(n as real / 2.0 + half) as real >= 0.0;
  }

  lemma SquaresOrdered(a: real, b: real)
    requires a >= 0.0 && b >= 0.0
    ensures a <= b <==> a * a <= b * b
  {
    assert (b - a) * (b + a) == b * b - a * a;
    if a > b {
      StrictProduct(a - b, a + b);
    } else if a < b {
      StrictProduct(b - a, a + b);
    }
  }

  lemma StrictProduct(x: real, y: real)
    requires x > 0.0 && y > 0.0
    ensures x * y > 0.0
  {
  }

  lemma WidthSquared(n: nat, root: real)
    requires IsRoot(root, n)
    ensures (1.96 * root) * (1.96 * root) == 3.8416 * n as real
  {
    assert (1.96 * root) * (1.96 * root) == 3.8416 * (root * root);
  }

  function Square(d: int): int {
    d * d
  }

  /** A distance of `d` ranks (doubled) reaches the interval's width exactly if its square reaches 3.8416 n. */
  lemma ReachesWidth(n: nat, root: real, d: int)
    requires n >= 2 && IsRoot(root, n) && d >= -2
    ensures d as real >= 1.96 * root ==> Square(d) as real >= 3.8416 * n as real
    ensures d as real < 1.96 * root ==> (Square(d) as real) < 3.8416 * n as real
  {
    RootAtLeastOne(n, root);
    WidthSquared(n, root);
    hide IsRoot, HalfWidth;
    if d >= 0 {
      SquaresOrdered(1.96 * root, d as real);
      assert Square(d) as real == d as real * d as real;
    } else {
      assert d == -1 || d == -2;
    }
  }

  /**
   The ranks in whole numbers: `lo` is the last rank, if any, and `hi` the first
   whose doubled distance d from the middle satisfies d^2 >= 3.8416 n.
   */
  lemma RanksAreTheNearest(n: nat, root: real)
    requires n >= 2 && IsRoot(root, n)
    ensures var (lo, hi) := TrendRanks(n, root);
            && (lo > 0 ==> Square(n - 2 * lo) as real >= 3.8416 * n as real)
            && (Square(n - 2 * (lo + 1)) as real) < 3.8416 * n as real
            && (hi < n - 1 ==> Square(2 * hi - n) as real >= 3.8416 * n as real)
            && (Square(2 * (hi - 1) - n) as real) < 3.8416 * n as real
  {
    RanksStraddleTheMiddle(n, root);
    RankBounds(n, root);
    hide TrendRanks, IsRoot, Square;
    var (lo, hi) := TrendRanks(n, root);
    ReachesWidth(n, root, n - 2 * lo);
    ReachesWidth(n, root, n - 2 * (lo + 1));
    ReachesWidth(n, root, 2 * hi - n);
    ReachesWidth(n, root, 2 * (hi - 1) - n);
  }

  lemma RankBounds(n: nat, root: real)
    requires n >= 2 && IsRoot(root, n)
    ensures var (lo, hi) := TrendRanks(n, root);
            && 2 * hi >= n && 2 * lo <= n
            && (lo > 0 ==> (n - 2 * lo) as real >= 1.96 * root) && ((n - 2 * (lo + 1)) as real < 1.96 * root)
            && (hi < n - 1 ==> (2 * hi - n) as real >= 1.96 * root) && ((2 * (hi - 1) - n) as real < 1.96 * root)
  {
    RootAtLeastOne(n, root);
    hide IsRoot;
    var x, y := n as real / 2.0 - HalfWidth(root), n as real / 2.0 + HalfWidth(root);
    assert x.Floor as real <= x < x.Floor as real + 1.0;
    assert y <= Ceiling(y) as real < y + 1.0;
  }

  // ---------- The median ----------

  /** statistics.median of a sorted sample. */
  function Median(xs: seq<real>): real
    requires |xs| >= 1
  {
    if |xs| % 2 == 1 then xs[|xs| / 2] else (xs[|xs| / 2 - 1] + xs[|xs| / 2]) / 2.0
  }

  function TrendInterval(xs: seq<real>, root: real): (real, real)
    requires |xs| >= 1 && IsRoot(root, |xs|)
  {
    RanksStraddleTheMiddle(|xs|, root);
    var (lo, hi) := TrendRanks(|xs|, root);
    (xs[lo], xs[hi])
  }

  /** The interval contains the median, whatever the sample. */
  lemma IntervalContainsMedian(xs: seq<real>, root: real)
    requires |xs| >= 1 && Sorted(xs) && IsRoot(root, |xs|)
    ensures TrendInterval(xs, root).0 <= Median(xs) <= TrendInterval(xs, root).1
  {
    RanksStraddleTheMiddle(|xs|, root);
    hide TrendRanks, IsRoot;
  }

  // ---------- Percentiles ----------

  function Along(start: real, step: real, part: real): real {
    start + step * part
  }

  lemma AlongIsMonotone(start: real, step: real, f: real, g: real)
    requires step >= 0.0 && f <= g
    ensures Along(start, step, f) <= Along(start, step, g)
  {
    Stretched(step, f, g);
  }

  lemma AlongWithin(start: real, step: real, part: real)
    requires step >= 0.0 && 0.0 <= part <= 1.0
    ensures start <= Along(start, step, part) <= start + step
  {
    PartOf(step, part);
  }

  function Interpolated(xs: seq<real>, pos: real): real
    requires 0.0 <= pos <= (|xs| - 1) as real
  {
    var lo, hi := pos.Floor, Ceiling(pos);
    if lo == hi then xs[lo] else Along(xs[lo], xs[hi] - xs[lo], pos - lo as real)
  }

  lemma PartOf(d: real, q: real)
    requires d >= 0.0 && 0.0 <= q <= 1.0
    ensures 0.0 <= d * q <= d
  {
  }

  function Position(n: nat, q: real): (pos: real)
    requires n >= 1 && 0.0 <= q <= 1.0
    ensures 0.0 <= pos <= (n - 1) as real
  {
    PartOf((n - 1) as real, q);
    (n - 1) as real * q
  }

  function Percentile(xs: seq<real>, q: real): real
    requires 0.0 <= q <= 1.0
  {
    if |xs| == 0 then 0.0
    else if |xs| == 1 then xs[0]
    else Interpolated(xs, Position(|xs|, q))
  }

  lemma Stretched(d: real, f: real, g: real)
    requires d >= 0.0 && f <= g
    ensures d * f <= d * g
  {
  }

  lemma CeilingAfterFloor(pos: real)
    ensures Ceiling(pos) == if pos == pos.Floor as real then pos.Floor else pos.Floor + 1
  {
  }

  lemma InsideAGap(xs: seq<real>, pos: real)
    requires 0.0 <= pos <= (|xs| - 1) as real && pos != pos.Floor as real
    ensures 0 <= pos.Floor < |xs| - 1
    ensures Interpolated(xs, pos) == Along(xs[pos.Floor], xs[pos.Floor + 1] - xs[pos.Floor], pos - pos.Floor as real)
  {
    CeilingAfterFloor(pos);
  }

  lemma BetweenNeighbours(xs: seq<real>, pos: real)
    requires Sorted(xs) && 0.0 <= pos <= (|xs| - 1) as real
    ensures 0 <= pos.Floor <= Ceiling(pos) < |xs|
    ensures xs[pos.Floor] <= Interpolated(xs, pos) <= xs[Ceiling(pos)]
  {
    CeilingAfterFloor(pos);
    if pos != pos.Floor as real {
      InsideAGap(xs, pos);
      hide Interpolated, Ceiling, Along;
      var lo := pos.Floor;
      AlongWithin(xs[lo], xs[lo + 1] - xs[lo], pos - lo as real);
    }
  }

  lemma InterpolationIsMonotone(xs: seq<real>, p: real, q: real)
    requires Sorted(xs) && 0.0 <= p <= q <= (|xs| - 1) as real
    ensures Interpolated(xs, p) <= Interpolated(xs, q)
  {
    BetweenNeighbours(xs, p);
    BetweenNeighbours(xs, q);
    CeilingAfterFloor(p);
    CeilingAfterFloor(q);
    hide Interpolated, Ceiling, Along;
    if p.Floor != q.Floor {
      assert Ceiling(p) <= q.Floor;
    } else if p != p.Floor as real {
      InsideAGap(xs, p);
      InsideAGap(xs, q);
      var lo := p.Floor;
      AlongIsMonotone(xs[lo], xs[lo + 1] - xs[lo], p - lo as real, q - lo as real);
    }
  }

  lemma PositionIsMonotone(n: nat, p: real, q: real)
    requires n >= 1 && 0.0 <= p <= q <= 1.0
    ensures Position(n, p) <= Position(n, q)
  {
    Stretched((n - 1) as real, p, q);
  }

  lemma InterpolatedWithinSample(xs: seq<real>, pos: real)
    requires Sorted(xs) && 0.0 <= pos <= (|xs| - 1) as real
    ensures xs[0] <= Interpolated(xs, pos) <= xs[|xs| - 1]
  {
    hide Interpolated, Ceiling;
    BetweenNeighbours(xs, pos);
  }

  /** The percentile ladder of a summary never steps down, and stays within the sample. */
  lemma PercentilesAreMonotone(xs: seq<real>, p: real, q: real)
    requires Sorted(xs) && 0.0 <= p <= q <= 1.0
    ensures Percentile(xs, p) <= Percentile(xs, q)
    ensures |xs| >= 1 ==> xs[0] <= Percentile(xs, p) && Percentile(xs, q) <= xs[|xs| - 1]
  {
    if |xs| >= 2 {
      hide Position, Interpolated, Sorted;
      PositionIsMonotone(|xs|, p, q);
      InterpolationIsMonotone(xs, Position(|xs|, p), Position(|xs|, q));
      InterpolatedWithinSample(xs, Position(|xs|, p));
      InterpolatedWithinSample(xs, Position(|xs|, q));
    }
  }

  lemma FloorOf(m: int, x: real)
    requires m as real <= x < m as real + 1.0
    ensures x.Floor == m
  {
  }

  lemma InterpolatedAt(xs: seq<real>, m: nat)
    requires m < |xs|
    ensures Interpolated(xs, m as real) == xs[m]
  {
    CeilingAfterFloor(m as real);
  }

  lemma InterpolatedHalfway(xs: seq<real>, m: nat)
    requires m + 1 < |xs|
    ensures Interpolated(xs, m as real + 0.5) == (xs[m] + xs[m + 1]) / 2.0
  {
    FloorOf(m, m as real + 0.5);
    CeilingAfterFloor(m as real + 0.5);
  }

  /** The 50th percentile is the median. */
  lemma HalfPercentileIsMedian(xs: seq<real>)
    requires |xs| >= 1
    ensures Percentile(xs, 0.5) == Median(xs)
  {
    hide Interpolated;
    var m := (|xs| - 1) / 2;
    if |xs| % 2 == 1 {
      assert Position(|xs|, 0.5) == m as real;
      InterpolatedAt(xs, m);
    } else {
      assert |xs| - 1 == 2 * m + 1;
      assert Position(|xs|, 0.5) == m as real + 0.5;
      InterpolatedHalfway(xs, m);
    }
  }

  lemma QuotientTimes(k: real, m: real)
    requires m > 0.0 && 0.0 <= k <= m
    ensures m * (k / m) == k && 0.0 <= k / m <= 1.0
  {
    FactorIsNatural(k / m, m);
    AtMostOne(k / m, m);
  }

  lemma AtMostOne(q: real, m: real)
    requires m > 0.0 && m * q <= m
    ensures q <= 1.0
  {
    if q > 1.0 {
      StrictProduct(m, q - 1.0);
    }
  }

  /** The k-th of n values is the percentile k / (n - 1): the least is the 0th, the greatest the 100th. */
  lemma PercentileAtRank(xs: seq<real>, k: nat)
    requires |xs| >= 2 && k < |xs|
    ensures 0.0 <= k as real / (|xs| - 1) as real <= 1.0
    ensures Percentile(xs, k as real / (|xs| - 1) as real) == xs[k]
  {
    RankPosition(|xs|, k);
    hide Interpolated, Position;
    InterpolatedAt(xs, k);
  }

  lemma RankPosition(n: nat, k: nat)
    requires n >= 2 && k < n
    ensures 0.0 <= k as real / (n - 1) as real <= 1.0
    ensures Position(n, k as real / (n - 1) as real) == k as real
  {
    QuotientTimes(k as real, (n - 1) as real);
  }

  // ---------- The artifact's summary ----------

  const MIN_SAMPLES_FOR_CI := 10

  /** ci95_lower and ci95_upper: zero for a sample too small to have them. */
  function SummaryInterval(xs: seq<real>, root: real): (real, real)
    requires |xs| >= MIN_SAMPLES_FOR_CI ==> IsRoot(root, |xs|)
  {
    if |xs| < MIN_SAMPLES_FOR_CI then (0.0, 0.0)
    else
      RanksStraddleTheMiddle(|xs|, root);
      SameRanks(|xs|, root);
      var (lo, hi) := SummaryRanks(|xs|, root);
      (xs[lo], xs[hi])
  }

  /** For ten values or more the summary's p50 lies in its interval, which is the trend report's. */
  lemma SummaryIntervalIsSound(xs: seq<real>, root: real)
    requires |xs| >= 10 && Sorted(xs) && IsRoot(root, |xs|)
    ensures SummaryInterval(xs, root) == TrendInterval(xs, root)
    ensures SummaryInterval(xs, root).0 <= Percentile(xs, 0.5) <= SummaryInterval(xs, root).1
  {
    hide SummaryRanks, TrendRanks, Percentile, Median, IsRoot;
    SameRanks(|xs|, root);
    IntervalContainsMedian(xs, root);
    HalfPercentileIsMedian(xs);
  }

  // ---------- The trend verdict ----------

  datatype Estimate = Estimate(median: real, lo: real, hi: real)

  datatype Mark = Red | Green | WithinNoise | NoMark | DivisionByZero

  const MIN_ATTEMPTS := 5

  /** median_latency on the sorted latencies of the successful attempts. */
  function EstimateOf(xs: seq<real>, root: real): Option<Estimate>
    requires |xs| >= MIN_ATTEMPTS ==> IsRoot(root, |xs|)
  {
    if |xs| < MIN_ATTEMPTS then None
    else Some(Estimate(Median(xs), TrendInterval(xs, root).0, TrendInterval(xs, root).1))
  }

  /** One attempt of a result document: `latency` is its http.total_duration_ms if that is a number. */
  datatype Measurement = Measurement(success: bool, latency: Option<real>)

  predicate Measured(a: Measurement) {
    a.success && a.latency.Some?
  }

  /** The latencies of the measured attempts, in document order. */
  function Latencies(xs: seq<Measurement>): seq<real> {
    if xs == [] then []
    else
      Latencies(xs[..|xs| - 1]) + if Measured(xs[|xs| - 1]) then [xs[|xs| - 1].latency.value] else []
  }

  /** A document's runs; None for an entry that is not an object. */
  function AllLatencies(runs: seq<Option<seq<Measurement>>>): seq<real> {
    if runs == [] then []
    else
      AllLatencies(runs[..|runs| - 1]) + if runs[|runs| - 1].Some? then Latencies(runs[|runs| - 1].value) else []
  }

  function Inserted(xs: seq<real>, x: real): (r: seq<real>)
    requires Sorted(xs)
    ensures Sorted(r) && |r| == |xs| + 1
    ensures forall y :: y in r <==> y in xs || y == x
  {
    if xs == [] || x <= xs[0] then [x] + xs
    else
      var rest := Inserted(xs[1..], x);
      assert forall y :: y in xs <==> y == xs[0] || y in xs[1..];
      assert forall k :: 0 <= k < |rest| ==> rest[k] in xs[1..] || rest[k] == x;
      [xs[0]] + rest
  }

  /** `values.sort()`. */
  function Ordering(xs: seq<real>): (r: seq<real>)
    ensures Sorted(r) && |r| == |xs|
  {
    if xs == [] then [] else Inserted(Ordering(xs[..|xs| - 1]), xs[|xs| - 1])
  }

  lemma {:induction false} InsertedTimes(xs: seq<real>, x: real, y: real)
    requires Sorted(xs)
    ensures Times(Inserted(xs, x), y) == Times(xs, y) + if x == y then 1 else 0
    decreases |xs|
  {
    hide Times;
    TimesOfAppend([], x, y);
    assert [] + [x] == [x] && Times<real>([], y) == 0 by { NoTimes(y); }
    if xs == [] || x <= xs[0] {
      TimesOfConcat([x], xs, y);
    } else {
      InsertedTimes(xs[1..], x, y);
      TimesOfConcat([xs[0]], Inserted(xs[1..], x), y);
      TimesOfConcat([xs[0]], xs[1..], y);
      assert xs == [xs[0]] + xs[1..];
    }
  }

  lemma NoTimes(y: real)
    ensures Times<real>([], y) == 0
  {
  }

  /** Sorting keeps every value as often as it was measured. */
  lemma {:induction false} OrderingKeepsValues(xs: seq<real>, y: real)
    ensures Times(Ordering(xs), y) == Times(xs, y)
    decreases |xs|
  {
    if xs != [] {
      OrderingKeepsValues(xs[..|xs| - 1], y);
      InsertedTimes(Ordering(xs[..|xs| - 1]), xs[|xs| - 1], y);
    }
  }

  method MedianLatency(runs: seq<Option<seq<Measurement>>>, rootOf: nat -> real) returns (e: Option<Estimate>, count: nat)
    requires forall n: nat :: IsRoot(rootOf(n), n)
    ensures count == |AllLatencies(runs)|
    ensures e == EstimateOf(Ordering(AllLatencies(runs)), rootOf(count))
    ensures e.Some? <==> count >= 5
    ensures e.Some? ==> Contains(e.value)
  {
    var values: seq<real> := [];
    for i := 0 to |runs|
      invariant values == AllLatencies(runs[..i])
    {
      assert runs[..i + 1][..i] == runs[..i];
      if runs[i].None? {
        continue;
      }
      var attempts := runs[i].value;
      ghost var before := values;
      for k := 0 to |attempts|
        invariant values == before + Latencies(attempts[..k])
      {
        assert attempts[..k + 1][..k] == attempts[..k];
        if !attempts[k].success {
          continue;
        }
        if attempts[k].latency.Some? {
          values := values + [attempts[k].latency.value];
        }
      }
      assert attempts[..|attempts|] == attempts;
    }
    assert runs[..|runs|] == runs;
    count := |values|;
    if count < MIN_ATTEMPTS {
      return None, count;
    }
    var sorted := Ordering(values);
    var (low, high) := TrendInterval(sorted, rootOf(count));
    e := Some(Estimate(Median(sorted), low, high));
    EstimatesContainTheirMedian(sorted, rootOf(count));
  }

  function Verdict(cur: Estimate, prev: Estimate): Mark {
    if prev.median == 0.0 then DivisionByZero
    else
      var delta := (cur.median - prev.median) / prev.median * 100.0;
      var disjoint := cur.lo > prev.hi || cur.hi < prev.lo;
      if delta >= 20.0 && disjoint then Red
      else if delta <= -20.0 && disjoint then Green
      else if delta >= 20.0 || -delta >= 20.0 then WithinNoise
      else NoMark
  }

  predicate Contains(e: Estimate) {
    e.lo <= e.median <= e.hi
  }

  lemma EstimatesContainTheirMedian(xs: seq<real>, root: real)
    requires |xs| >= MIN_ATTEMPTS && Sorted(xs) && IsRoot(root, |xs|)
    ensures EstimateOf(xs, root).Some? && Contains(EstimateOf(xs, root).value)
  {
    hide Median, TrendInterval, IsRoot;
    IntervalContainsMedian(xs, root);
  }

  /** Percent of a positive or negative base. */
  lemma DeltaBySign(c: real, p: real, percent: real)
    requires p != 0.0
    ensures p > 0.0 ==> ((c - p) / p * 100.0 >= percent <==> 100.0 * (c - p) >= percent * p)
    ensures p < 0.0 ==> ((c - p) / p * 100.0 >= percent <==> 100.0 * (c - p) <= percent * p)
  {
    var d := (c - p) / p;
    assert d * p == c - p;
    if p > 0.0 {
      Ordered(100.0 * d, percent, p);
    } else {
      Ordered(100.0 * d, percent, -p);
    }
  }

  lemma Ordered(a: real, b: real, k: real)
    requires k > 0.0
    ensures a >= b <==> a * k >= b * k
  {
  }

  /**
   Against a positive previous median: red says that the whole current interval
   lies above the previous one and the median rose by a fifth or more, and no less;
   green says the reverse.
   */
  lemma VerdictAgainstPositiveBase(cur: Estimate, prev: Estimate)
    requires Contains(cur) && Contains(prev) && prev.median > 0.0
    ensures Verdict(cur, prev) == Red <==> cur.lo > prev.hi && cur.median >= 1.2 * prev.median
    ensures Verdict(cur, prev) == Green <==> cur.hi < prev.lo && cur.median <= 0.8 * prev.median
  {
    DeltaBySign(cur.median, prev.median, 20.0);
    DeltaBySign(prev.median - cur.median + prev.median, prev.median, 20.0);
    OppositeDelta(cur.median, prev.median);
  }

  lemma OppositeDelta(c: real, p: real)
    requires p != 0.0
    ensures (p - c + p - p) / p * 100.0 == -((c - p) / p * 100.0)
  {
    var d, e := (c - p) / p, (p - c) / p;
    assert d * p == c - p && e * p == p - c;
    assert (d + e) * p == 0.0;
  }

  /** Against a negative one the colours are exchanged: red then marks an interval wholly below. */
  lemma VerdictAgainstNegativeBase(cur: Estimate, prev: Estimate)
    requires Contains(cur) && Contains(prev) && prev.median < 0.0
    ensures Verdict(cur, prev) == Red <==> cur.hi < prev.lo && cur.median <= 1.2 * prev.median
    ensures Verdict(cur, prev) == Green <==> cur.lo > prev.hi && cur.median >= 0.8 * prev.median
  {
    DeltaBySign(cur.median, prev.median, 20.0);
    DeltaBySign(prev.median - cur.median + prev.median, prev.median, 20.0);
    OppositeDelta(cur.median, prev.median);
  }

  /** The verdict on two samples, from the samples themselves. */
  lemma RedMeansSlower(cur: seq<real>, curRoot: real, prev: seq<real>, prevRoot: real)
    requires |cur| >= 5 && Sorted(cur) && IsRoot(curRoot, |cur|)
    requires |prev| >= 5 && Sorted(prev) && IsRoot(prevRoot, |prev|) && Median(prev) > 0.0
    ensures var c, p := EstimateOf(cur, curRoot).value, EstimateOf(prev, prevRoot).value;
            && (Verdict(c, p) == Red ==> c.lo > p.hi)
            && (Verdict(c, p) == Green ==> c.hi < p.lo)
  {
    EstimatesContainTheirMedian(cur, curRoot);
    EstimatesContainTheirMedian(prev, prevRoot);
    hide Verdict, TrendInterval, Median, IsRoot, Sorted;
    VerdictAgainstPositiveBase(EstimateOf(cur, curRoot).value, EstimateOf(prev, prevRoot).value);
  }

  /** Without a colour: a change of a fifth or more between intervals that overlap is noise, a smaller one is not marked. */
  lemma UncolouredVerdicts(cur: Estimate, prev: Estimate)
    ensures Verdict(cur, prev) == DivisionByZero <==> prev.median == 0.0
    ensures prev.median != 0.0 ==>
              var change, base := Magnitude(cur.median - prev.median), Magnitude(prev.median);
              && (Verdict(cur, prev) == NoMark <==> change < 0.2 * base)
              && (Verdict(cur, prev) == WithinNoise <==> change >= 0.2 * base && cur.lo <= prev.hi && prev.lo <= cur.hi)
  {
    if prev.median != 0.0 {
      DeltaBySign(cur.median, prev.median, 20.0);
      DeltaBySign(prev.median - cur.median + prev.median, prev.median, 20.0);
      OppositeDelta(cur.median, prev.median);
    }
  }

  function Magnitude(x: real): real {
    if x < 0.0 then -x else x
  }

  /** How many attempts of a document succeeded with latency `y`. */
  function MeasuredAs(xs: seq<Measurement>, y: real): nat {
    if xs == [] then 0 else MeasuredAs(xs[..|xs| - 1], y) + if xs[|xs| - 1] == Measurement(true, Some(y)) then 1 else 0
  }

  function MeasuredInAll(runs: seq<Option<seq<Measurement>>>, y: real): nat {
    if runs == [] then 0
    else MeasuredInAll(runs[..|runs| - 1], y) + if runs[|runs| - 1].Some? then MeasuredAs(runs[|runs| - 1].value, y) else 0
  }

  lemma {:induction false} LatenciesAreMeasured(xs: seq<Measurement>, y: real)
    ensures Times(Latencies(xs), y) == MeasuredAs(xs, y)
    decreases |xs|
  {
    if xs != [] {
      hide Times;
      LatenciesAreMeasured(xs[..|xs| - 1], y);
      var a := xs[|xs| - 1];
      if Measured(a) {
        TimesOfAppend(Latencies(xs[..|xs| - 1]), a.latency.value, y);
      } else {
        assert Latencies(xs) == Latencies(xs[..|xs| - 1]);
      }
    } else {
      NoTimes(y);
    }
  }

  /** The sample of a document holds each latency as often as a successful attempt measured it, and nothing else. */
  lemma {:induction false} SampleIsWhatWasMeasured(runs: seq<Option<seq<Measurement>>>, y: real)
    ensures Times(AllLatencies(runs), y) == MeasuredInAll(runs, y)
    decreases |runs|
  {
    if runs != [] {
      hide Times, Latencies, MeasuredAs;
      var before, last := runs[..|runs| - 1], runs[|runs| - 1];
      SampleIsWhatWasMeasured(before, y);
      if last.Some? {
        LatenciesAreMeasured(last.value, y);
        TimesOfConcat(AllLatencies(before), Latencies(last.value), y);
      } else {
        assert AllLatencies(runs) == AllLatencies(before);
      }
    } else {
      NoTimes(y);
    }
  }
}
