/**
 * The performance monitor: a bounded log of timed operations, queries over
 * it, and the statistics (mean, 95th percentile, success rate) computed
 * from it, plus the process-wide instance.
 */
module PerformanceMetrics {
  import opened Wrappers
  import opened Seqs

  /** The monitor keeps at most this many metrics: the most recent ones. */
  const MaxMetrics: nat := 1000

  /** One timed operation; the duration is a real number of milliseconds. */
  datatype Metric = Metric(operation: string, duration: real, timestamp: int, success: bool)

  /** An inclusive window of timestamps. */
  datatype TimeRange = TimeRange(start: int, end: int)

  /** The options of `getMetrics`; an empty operation name filters nothing, as it is falsy. */
  datatype MetricQuery = MetricQuery(operation: Option<string>, timeRange: Option<TimeRange>)

  /** `s.slice(-k)` once `s` is longer than `k`: the last `k` elements. */
  function LastN<T>(s: seq<T>, k: nat): (r: seq<T>)
    ensures |r| == if |s| <= k then |s| else k
    ensures forall i | 0 <= i < |r| :: r[i] == s[|s| - |r| + i]
  {
    if |s| <= k then s else s[|s| - k..]
  }

  /** Appending to a window and trimming it again gives the window of everything appended so far. */
  lemma WindowSlide<T>(h: seq<T>, m: T, k: nat)
    requires k > 0
    ensures LastN(LastN(h, k) + [m], k) == LastN(h + [m], k)
  {
    var a := LastN(LastN(h, k) + [m], k);
    var b := LastN(h + [m], k);
    assert |a| == |b|;
    forall i | 0 <= i < |a| ensures a[i] == b[i] {
      if i == |a| - 1 {
      } else {
        var w := LastN(h, k);
        assert a[i] == (w + [m])[|w| + 1 - |a| + i];
      }
    }
  }

  /** The metrics a query selects. */
  predicate Selected(q: MetricQuery, m: Metric) {
    && (q.operation.Some? && q.operation.value != "" ==> m.operation == q.operation.value)
    && (q.timeRange.Some? ==> q.timeRange.value.start <= m.timestamp <= q.timeRange.value.end)
  }

  /** The query as one predicate. */
  function SelectedBy(q: MetricQuery): Metric -> bool {
    (m: Metric) => Selected(q, m)
  }

  function OperationIs(op: string): Metric -> bool {
    (m: Metric) => m.operation == op
  }

  function WithinRange(r: TimeRange): Metric -> bool {
    (m: Metric) => r.start <= m.timestamp <= r.end
  }

  function Succeeded(): Metric -> bool {
    (m: Metric) => m.success
  }

  /** The sum of the durations. */
  function TotalDuration(ms: seq<Metric>): real {
    if ms == [] then 0.0 else TotalDuration(ms[..|ms| - 1]) + ms[|ms| - 1].duration
  }

  /** The durations, in order. */
  function Durations(ms: seq<Metric>): (ds: seq<real>)
    ensures |ds| == |ms| && forall i | 0 <= i < |ms| :: ds[i] == ms[i].duration
  {
    seq(|ms|, i requires 0 <= i < |ms| => ms[i].duration)
  }

  /** `(a, b) => a - b` on durations: only the sign of the difference matters to the sort. */
  function Ascending(): (real, real) -> int {
    (a: real, b: real) => if a < b then -1 else if a > b then 1 else 0
  }

  /** `Math.ceil(n * 0.95) - 1`, the index of the 95th percentile in `n` sorted samples. */
  function P95Index(n: nat): (idx: int)
    ensures n > 0 ==> 0 <= idx < n
    ensures 20 * (idx + 1) >= 19 * n && 20 * idx < 19 * n
  {
    (19 * n + 19) / 20 - 1
  }

  class PerformanceMonitor {
    /** The recorded metrics, oldest first. */
    var metrics: seq<Metric>
    /** Everything ever recorded, of which `metrics` is the tail. */
    ghost var history: seq<Metric>

    ghost predicate Valid()
      reads this
    {
      metrics == LastN(history, MaxMetrics)
    }

    constructor()
      ensures Valid() && metrics == [] && history == []
    {
      metrics := [];
      history := [];
    }

    /** `recordMetric`: appends, then keeps the most recent `MaxMetrics`. */
    method RecordMetric(m: Metric)
      requires Valid()
      modifies this
      ensures Valid() && history == old(history) + [m]
      ensures metrics == LastN(old(metrics) + [m], MaxMetrics)
      ensures |metrics| <= MaxMetrics
    {
      metrics := metrics + [m];
      if |metrics| > MaxMetrics {
        metrics := metrics[|metrics| - MaxMetrics..];
      }
      WindowSlide(history, m, MaxMetrics);
      history := history + [m];
    }

    /**
     * `getMetrics(options)`: the recorded metrics the query selects, with
     * their multiplicity and in recording order: the i-th result is the
     * metric at the i-th selected position of the window.
     */
    function GetMetrics(q: MetricQuery): (r: seq<Metric>)
      reads this
      ensures forall m :: multiset(r)[m] == if Selected(q, m) then multiset(metrics)[m] else 0
      ensures var idx := FilterIndices(metrics, SelectedBy(q));
        |r| == |idx| && forall i | 0 <= i < |r| :: r[i] == metrics[idx[i]]
    {
      QueryOrder(metrics, q);
      QueryCounts(metrics, q);
      ApplyQuery(metrics, q)
    }

    /** `getAverageResponseTime(operation)`: the mean duration, 0 when nothing matches. */
    function AverageResponseTime(operation: string): (avg: real)
      reads this
      ensures GetMetrics(MetricQuery(Some(operation), None)) == [] ==> avg == 0.0
    {
      var ms := GetMetrics(MetricQuery(Some(operation), None));
      if |ms| == 0 then 0.0 else TotalDuration(ms) / |ms| as real
    }

    /**
     * `getP95ResponseTime(operation)`: the sample at index `ceil(0.95 n) - 1`
     * of the sorted durations, 0 for none. It is one of the samples, at
     * least 95% of the samples are at most it, and at least the
     * `n - (ceil(0.95 n) - 1)` samples from its index on are at least it.
     */
    function P95ResponseTime(operation: string): (p: real)
      reads this
      ensures var ds := Durations(GetMetrics(MetricQuery(Some(operation), None)));
        && (ds == [] ==> p == 0.0)
        && (ds != [] ==> p in ds)
        && (ds != [] ==> 20 * Count(ds, AtMost(p)) >= 19 * |ds|)
        && (ds != [] ==> Count(ds, AtLeast(p)) >= |ds| - P95Index(|ds|))
    {
      var ds := Durations(GetMetrics(MetricQuery(Some(operation), None)));
      var sorted := InsertionSort(ds, Ascending());
      SortPermutation(ds, Ascending());
      if |sorted| == 0 then 0.0
      else
        assert sorted[P95Index(|sorted|)] in multiset(ds);
        P95Rank(ds);
        sorted[P95Index(|sorted|)]
    }

    /** `getSuccessRate(operation)`: the percentage of successful runs, 0 when nothing matches. */
    function SuccessRate(operation: string): (rate: real)
      reads this
      ensures 0.0 <= rate <= 100.0
      ensures var ms := GetMetrics(MetricQuery(Some(operation), None));
        && (ms != [] ==> (rate == 100.0 <==> Count(ms, Succeeded()) == |ms|))
        && (rate == 0.0 <==> Count(ms, Succeeded()) == 0)
    {
      var ms := GetMetrics(MetricQuery(Some(operation), None));
      var successful := Count(ms, Succeeded());
      if |ms| == 0 then 0.0
      else
        RatioBounds(successful, |ms|);
        (successful as real / |ms| as real) * 100.0
    }
  }

  /** Filtering by the query keeps exactly the selected metrics, with their multiplicity. */
  lemma QueryCounts(metrics: seq<Metric>, q: MetricQuery)
    ensures forall m :: multiset(Filter(metrics, SelectedBy(q)))[m] == if Selected(q, m) then multiset(metrics)[m] else 0
  {
    forall m ensures multiset(Filter(metrics, SelectedBy(q)))[m] == if Selected(q, m) then multiset(metrics)[m] else 0 {
      FilterMultiset(metrics, SelectedBy(q), m);
    }
  }

  /** The two filters of `getMetrics`: by operation when one is named, then by time range when one is given. */
  function ApplyQuery(metrics: seq<Metric>, q: MetricQuery): seq<Metric> {
    var byOperation := if q.operation.Some? && q.operation.value != "" then Filter(metrics, OperationIs(q.operation.value)) else metrics;
    if q.timeRange.Some? then Filter(byOperation, WithinRange(q.timeRange.value)) else byOperation
  }

  /** The two filters of `getMetrics` select what one filter by the whole query selects, in the same order. */
  lemma QueryOrder(metrics: seq<Metric>, q: MetricQuery)
    ensures ApplyQuery(metrics, q) == Filter(metrics, SelectedBy(q))
  {
    var byOp := q.operation.Some? && q.operation.value != "";
    if byOp && q.timeRange.Some? {
      FilterThenFilter(metrics, OperationIs(q.operation.value), WithinRange(q.timeRange.value), SelectedBy(q));
    } else if byOp {
      FilterCongruent(metrics, OperationIs(q.operation.value), SelectedBy(q));
    } else if q.timeRange.Some? {
      FilterCongruent(metrics, WithinRange(q.timeRange.value), SelectedBy(q));
    } else {
      FilterAll(metrics, SelectedBy(q));
    }
  }

  /** Comparing by the sign of the difference is a total preorder on any durations. */
  lemma AscendingPreorder(E: multiset<real>)
    ensures TotalPreorderOn(Ascending(), E)
  {
  }

  /** Sequences with the same elements have as many elements satisfying any predicate. */
  lemma CountPermutation(s: seq<real>, t: seq<real>, p: real -> bool)
    requires multiset(s) == multiset(t)
    ensures Count(s, p) == Count(t, p)
  {
    var a := multiset(Filter(s, p));
    var b := multiset(Filter(t, p));
    forall x ensures a[x] == b[x] {
      FilterMultiset(s, p, x);
      FilterMultiset(t, p, x);
    }
    assert a == b;
    assert |a| == |Filter(s, p)|;
  }

  /** A run of `hi - lo` consecutive elements satisfying `p` contributes at least that many to its count. */
  lemma CountRun<T>(s: seq<T>, p: T -> bool, lo: nat, hi: nat)
    requires lo <= hi <= |s|
    requires forall i | lo <= i < hi :: p(s[i])
    ensures Count(s, p) >= hi - lo
  {
    assert s == s[..lo] + s[lo..hi] + s[hi..];
    FilterAppend(s[..lo] + s[lo..hi], s[hi..], p);
    FilterAppend(s[..lo], s[lo..hi], p);
    FilterAll(s[lo..hi], p);
  }

  function AtMost(x: real): real -> bool {
    (d: real) => d <= x
  }

  function AtLeast(x: real): real -> bool {
    (d: real) => d >= x
  }

  /** In ascending order, the element at `idx` is at least the `idx + 1` up to it and at most the ones from it on. */
  lemma SortedRank(sorted: seq<real>, idx: nat)
    requires idx < |sorted| && SortedBy(sorted, Ascending())
    ensures Count(sorted, AtMost(sorted[idx])) >= idx + 1
    ensures Count(sorted, AtLeast(sorted[idx])) >= |sorted| - idx
  {
    var cmp := Ascending();
    var p := sorted[idx];
    forall i | 0 <= i <= idx ensures AtMost(p)(sorted[i]) {
      if i < idx {
        assert cmp(sorted[i], sorted[idx]) <= 0;
      }
    }
    CountRun(sorted, AtMost(p), 0, idx + 1);
    forall i | idx <= i < |sorted| ensures AtLeast(p)(sorted[i]) {
      if i > idx {
        assert cmp(sorted[idx], sorted[i]) <= 0;
      }
    }
    CountRun(sorted, AtLeast(p), idx, |sorted|);
  }

  /**
   * The 95th percentile is a recorded duration such that at least 95% of
   * the samples are no larger (`ceil(0.95 n)` of them) and the rest of the
   * samples, from its own index on, are no smaller.
   */
  lemma P95Rank(ds: seq<real>)
    requires ds != []
    ensures var sorted := InsertionSort(ds, Ascending());
      var p := sorted[P95Index(|ds|)];
      && 20 * Count(ds, AtMost(p)) >= 19 * |ds|
      && Count(ds, AtLeast(p)) >= |ds| - P95Index(|ds|)
  {
    var cmp := Ascending();
    var sorted := InsertionSort(ds, cmp);
    var idx := P95Index(|ds|);
    AscendingPreorder(multiset(ds));
    SortSorted(ds, cmp);
    SortPermutation(ds, cmp);
    SortedRank(sorted, idx);
    CountPermutation(ds, sorted, AtMost(sorted[idx]));
    CountPermutation(ds, sorted, AtLeast(sorted[idx]));
  }

  /** A part of a whole is between none and all of it, and is all or none only when it is. */
  lemma RatioBounds(a: nat, n: nat)
    requires 0 < n && a <= n
    ensures 0.0 <= a as real / n as real <= 1.0
    ensures a as real / n as real == 1.0 <==> a == n
    ensures a as real / n as real == 0.0 <==> a == 0
  {
    var x := a as real / n as real;
    assert x * n as real == a as real;
  }

  lemma DivBounds(t: real, n: real, lo: real, hi: real)
    requires n > 0.0 && n * lo <= t <= n * hi
    ensures lo <= t / n <= hi
  {
    var x := t / n;
    assert x * n == t;
  }

  /** Adding one more duration within the bounds keeps the total within the bounds of one more sample. */
  lemma StepBounds(n: real, total: real, d: real, lo: real, hi: real)
    requires n * lo <= total <= n * hi && lo <= d <= hi
    ensures (n + 1.0) * lo <= total + d <= (n + 1.0) * hi
  {
  }

  /** The total lies between `n` times any lower and upper bound of the durations. */
  lemma {:induction false} TotalBounds(ms: seq<Metric>, lo: real, hi: real)
    requires forall i | 0 <= i < |ms| :: lo <= ms[i].duration <= hi
    ensures |ms| as real * lo <= TotalDuration(ms) <= |ms| as real * hi
    decreases |ms|
  {
    if ms != [] {
      var prefix := ms[..|ms| - 1];
      TotalBounds(prefix, lo, hi);
      StepBounds(|prefix| as real, TotalDuration(prefix), ms[|ms| - 1].duration, lo, hi);
    }
  }

  /** `getAverageResponseTime` lies between any lower and upper bound of the durations it averages. */
  lemma AverageBounds(monitor: PerformanceMonitor, operation: string, lo: real, hi: real)
    requires var ms := monitor.GetMetrics(MetricQuery(Some(operation), None));
      ms != [] && forall i | 0 <= i < |ms| :: lo <= ms[i].duration <= hi
    ensures lo <= monitor.AverageResponseTime(operation) <= hi
  {
    var ms := monitor.GetMetrics(MetricQuery(Some(operation), None));
    MeanBounds(ms, lo, hi);
    assert monitor.AverageResponseTime(operation) == TotalDuration(ms) / |ms| as real;
  }

  /** The mean of non-empty durations lies between any lower and upper bound of them. */
  lemma MeanBounds(ms: seq<Metric>, lo: real, hi: real)
    requires ms != [] && forall i | 0 <= i < |ms| :: lo <= ms[i].duration <= hi
    ensures lo <= TotalDuration(ms) / |ms| as real <= hi
  {
    var n, t := |ms| as real, TotalDuration(ms);
    assert n * lo <= t <= n * hi by { TotalBounds(ms, lo, hi); }
    DivBounds(t, n, lo, hi);
  }

  /** `PerformanceMonitor.instance`: the static slot the singleton lives in. */
  class MonitorRegistry {
    var instance: PerformanceMonitor?

    constructor()
      ensures instance == null
    {
      instance := null;
    }

    /** `getInstance()`: creates an empty monitor on first use and returns the same one ever after. */
    method GetInstance() returns (monitor: PerformanceMonitor)
      modifies this
      ensures old(instance) != null ==> monitor == old(instance)
      ensures old(instance) == null ==> fresh(monitor) && monitor.Valid() && monitor.metrics == []
      ensures instance == monitor
    {
      if instance == null {
        instance := new PerformanceMonitor();
      }
      monitor := instance;
    }
  }
}
