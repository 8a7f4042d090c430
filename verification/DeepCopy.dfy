/** Archived job data on the heap: the copy that LoadData works on and what it does to that copy. */
module DeepCopy {
  import opened Prelude

  // ----- the objects

  datatype Statistics = Statistics(avg: real, min: real, max: real)

  datatype Series = Series(hostname: string, id: Option<string>, statistics: Statistics, data: array<real>)

  ghost function ArraysOf<K>(m: map<K, array<real>>): set<array<real>> {
    set k | k in m :: m[k]
  }

  ghost function Contents<K>(m: map<K, array<real>>): map<K, seq<real>>
    reads ArraysOf(m)
  {
    map k | k in m :: (assert m[k] in ArraysOf(m); m[k][..])
  }

  /** The data arrays of a list of series, and its content. */
  ghost function DataOf(a: array<Series>): set<array<real>>
    reads a
  {
    set i | 0 <= i < a.Length :: a[i].data
  }

  function ValuesOf(a: array<Series>): seq<SeriesValue>
    reads a, DataOf(a)
  {
    seq(a.Length, i requires 0 <= i < a.Length reads a, DataOf(a) => (assert a[i].data in DataOf(a); ValueOf(a[i])))
  }

  class StatsSeries {
    var min: array<real>
    var mean: array<real>
    var median: array<real>
    var max: array<real>
    var percentiles: map<int, array<real>>

    constructor (min: array<real>, mean: array<real>, median: array<real>, max: array<real>,
                 percentiles: map<int, array<real>>)
      ensures this.min == min && this.mean == mean && this.median == median && this.max == max
      ensures this.percentiles == percentiles
    {
      this.min, this.mean, this.median, this.max := min, mean, median, max;
      this.percentiles := percentiles;
    }

    ghost function Arrays(): set<array<real>>
      reads this
    {
      {min, mean, median, max} + ArraysOf(percentiles)
    }

    ghost function Value(): StatsValue
      reads this, Arrays()
    {
      StatsValue(min[..], mean[..], median[..], max[..], Contents(percentiles))
    }
  }

  class JobMetric {
    var timestep: int
    var unit: string
    var series: array<Series>
    var statistics: StatsSeries?

    constructor (timestep: int, unit: string, series: array<Series>, statistics: StatsSeries?)
      ensures this.timestep == timestep && this.unit == unit && this.series == series && this.statistics == statistics
    {
      this.timestep, this.unit, this.series, this.statistics := timestep, unit, series, statistics;
    }

    /** The data arrays of the series. */
    ghost function Data(): set<array<real>>
      reads this, series
    {
      DataOf(series)
    }

    ghost function StatsArrays(): set<array<real>>
      reads this, statistics
    {
      if statistics == null then {} else statistics.Arrays()
    }

    /** Everything reachable. */
    ghost function Repr(): (r: set<object>)
      reads this, series, statistics
      ensures {this, series} + Data() + StatsArrays() <= r && (statistics != null ==> statistics in r)
    {
      {this, series} + Data() + StatsArrays() + (if statistics == null then {} else {statistics})
    }

    ghost function Value(): MetricValue
      reads this, Repr()
    {
      MetricValue(timestep, unit, ValuesOf(series), if statistics == null then None else Some(statistics.Value()))
    }
  }

  // ----- their contents

  datatype SeriesValue = SeriesValue(hostname: string, id: Option<string>, statistics: Statistics, data: seq<real>)

  datatype StatsValue = StatsValue(min: seq<real>, mean: seq<real>, median: seq<real>, max: seq<real>,
                                   percentiles: map<int, seq<real>>)

  datatype MetricValue = MetricValue(timestep: int, unit: string, series: seq<SeriesValue>, statistics: Option<StatsValue>)

  function ValueOf(s: Series): SeriesValue
    reads s.data
  {
    SeriesValue(s.hostname, s.id, s.statistics, s.data[..])
  }

  // ----- copying

  method CopyFloats(a: array<real>) returns (b: array<real>)
    ensures fresh(b) && b[..] == a[..]
  {
    b := new real[a.Length];
    for i := 0 to a.Length
      invariant b[..i] == a[..i]
    {
      b[i] := a[i];
    }
    assert b[..] == b[..a.Length] && a[..] == a[..a.Length];
  }

  method CopySeries(src: Series) returns (dst: Series)
    ensures fresh(dst.data) && ValueOf(dst) == ValueOf(src)
  {
    var data := CopyFloats(src.data);
    dst := Series(src.hostname, src.id, src.statistics, data);
  }

  method CopyStatisticsSeries(src: StatsSeries) returns (dst: StatsSeries)
    ensures fresh(dst) && fresh(dst.Arrays()) && dst.Value() == src.Value()
  {
    hide StatsSeries.Value;
    var min := CopyFloats(src.min);
    var mean := CopyFloats(src.mean);
    var median := CopyFloats(src.median);
    var max := CopyFloats(src.max);
    var percentiles := CopyPercentiles(src.percentiles);
    dst := new StatsSeries(min, mean, median, max, percentiles);
    SameStats(dst, src);
  }

  lemma SameStats(a: StatsSeries, b: StatsSeries)
    requires a.min[..] == b.min[..] && a.mean[..] == b.mean[..] && a.median[..] == b.median[..] && a.max[..] == b.max[..]
    requires Contents(a.percentiles) == Contents(b.percentiles)
    ensures a.Value() == b.Value()
  {
    hide Contents;
  }

  method CopyPercentiles<K>(src: map<K, array<real>>) returns (dst: map<K, array<real>>)
    ensures fresh(ArraysOf(dst)) && Contents(dst) == Contents(src)
  {
    dst := map[];
    if |src| > 0 {
      var todo := src.Keys;
      while todo != {}
        invariant todo <= src.Keys && dst.Keys == src.Keys - todo
        invariant forall k :: k in dst ==> fresh(dst[k]) && dst[k][..] == src[k][..]
        decreases todo
      {
        var k := Pick(todo);
        todo := todo - {k};
        var values := CopyFloats(src[k]);
        dst := dst[k := values];
      }
    } else {
      assert src == map[];
    }
    SameContents(dst, src);
  }

  lemma SameContents<K>(a: map<K, array<real>>, b: map<K, array<real>>)
    requires a.Keys == b.Keys && forall k :: k in a ==> a[k][..] == b[k][..]
    ensures Contents(a) == Contents(b)
  {
  }

  const ZERO := Statistics(0.0, 0.0, 0.0)

  method CopyAllSeries(src: array<Series>) returns (dst: array<Series>)
    ensures fresh(dst) && fresh(DataOf(dst)) && ValuesOf(dst) == ValuesOf(src)
  {
    var nothing := new real[0];
    dst := new Series[src.Length](_ => Series("", None, ZERO, nothing));
    for i := 0 to src.Length
      invariant fresh(dst)
      invariant forall k :: 0 <= k < src.Length ==> fresh(dst[k].data)
      invariant forall k :: 0 <= k < i ==> ValueOf(dst[k]) == ValueOf(src[k])
    {
      dst[i] := CopySeries(src[i]);
    }
  }

  method CopyJobMetric(src: JobMetric) returns (dst: JobMetric)
    ensures fresh(dst.Repr()) && dst.Value() == src.Value()
  {
    hide JobMetric.Value, StatsSeries.Value;
    var series := CopyAllSeries(src.series);
    var statistics := CopyOptionalStatistics(src.statistics);
    assert ValuesOf(src.series) == old(ValuesOf(src.series));
    dst := Assemble(src, series, statistics);
  }

  method CopyOptionalStatistics(src: StatsSeries?) returns (dst: StatsSeries?)
    ensures (dst == null) == (src == null)
    ensures dst != null ==> fresh(dst) && fresh(dst.Arrays()) && dst.Value() == src.Value()
  {
    dst := null;
    if src != null {
      dst := CopyStatisticsSeries(src);
    }
  }

  /** Puts the copied parts together. */
  method Assemble(src: JobMetric, series: array<Series>, statistics: StatsSeries?) returns (dst: JobMetric)
    requires ValuesOf(series) == ValuesOf(src.series)
    requires (statistics == null) == (src.statistics == null)
    requires statistics != null ==> statistics.Value() == src.statistics.Value()
    ensures fresh(dst) && dst.series == series && dst.statistics == statistics
    ensures dst.Value() == src.Value()
  {
    hide JobMetric.Value;
    dst := new JobMetric(src.timestep, src.unit, series, statistics);
    assert ValuesOf(series) == old(ValuesOf(series));
    assert ValuesOf(src.series) == old(ValuesOf(src.series));
    assert dst.statistics != null ==> dst.statistics.Value() == src.statistics.Value();
    SameValue(dst, src);
  }

  lemma SameValue(a: JobMetric, b: JobMetric)
    requires a.timestep == b.timestep && a.unit == b.unit && ValuesOf(a.series) == ValuesOf(b.series)
    requires (a.statistics == null) == (b.statistics == null)
    requires a.statistics != null ==> a.statistics.Value() == b.statistics.Value()
    ensures a.Value() == b.Value()
  {
  }

  // ----- what equal contents means

  lemma SameSeriesIff(a: array<Series>, b: array<Series>)
    ensures ValuesOf(a) == ValuesOf(b) <==>
            && a.Length == b.Length
            && forall i :: 0 <= i < a.Length ==>
                 && a[i].hostname == b[i].hostname && a[i].id == b[i].id && a[i].statistics == b[i].statistics
                 && a[i].data[..] == b[i].data[..]
  {
    forall i | 0 <= i < a.Length && i < b.Length
      ensures ValuesOf(a)[i] == ValuesOf(b)[i] <==>
              && a[i].hostname == b[i].hostname && a[i].id == b[i].id && a[i].statistics == b[i].statistics
              && a[i].data[..] == b[i].data[..]
    {
    }
    assert |ValuesOf(a)| == a.Length && |ValuesOf(b)| == b.Length;
    if ValuesOf(a) == ValuesOf(b) {
      forall i | 0 <= i < a.Length ensures ValuesOf(a)[i] == ValuesOf(b)[i] {
      }
    }
  }

  lemma SameStatsIff(a: StatsSeries, b: StatsSeries)
    ensures a.Value() == b.Value() <==>
            && a.min[..] == b.min[..] && a.mean[..] == b.mean[..] && a.median[..] == b.median[..] && a.max[..] == b.max[..]
            && a.percentiles.Keys == b.percentiles.Keys
            && forall k :: k in a.percentiles ==> a.percentiles[k][..] == b.percentiles[k][..]
  {
    var x, y := Contents(a.percentiles), Contents(b.percentiles);
    assert x.Keys == a.percentiles.Keys && y.Keys == b.percentiles.Keys;
    if x == y {
      forall k | k in a.percentiles ensures a.percentiles[k][..] == b.percentiles[k][..] {
        assert x[k] == y[k];
      }
    }
    if a.percentiles.Keys == b.percentiles.Keys
       && forall k :: k in a.percentiles ==> a.percentiles[k][..] == b.percentiles[k][..]
    {
      SameContents(a.percentiles, b.percentiles);
    }
  }

  /** Two metrics have equal contents exactly when every field, every series with all its numbers and every array of
      the statistics are equal. */
  lemma SameValueIff(a: JobMetric, b: JobMetric)
    ensures a.Value() == b.Value() <==>
            && a.timestep == b.timestep && a.unit == b.unit
            && a.series.Length == b.series.Length
            && (forall i :: 0 <= i < a.series.Length ==>
                  && a.series[i].hostname == b.series[i].hostname && a.series[i].id == b.series[i].id
                  && a.series[i].statistics == b.series[i].statistics && a.series[i].data[..] == b.series[i].data[..])
            && (a.statistics == null <==> b.statistics == null)
            && (a.statistics != null && b.statistics != null ==>
                  var s, t := a.statistics, b.statistics;
                  && s.min[..] == t.min[..] && s.mean[..] == t.mean[..]
                  && s.median[..] == t.median[..] && s.max[..] == t.max[..]
                  && s.percentiles.Keys == t.percentiles.Keys
                  && forall k :: k in s.percentiles ==> s.percentiles[k][..] == t.percentiles[k][..])
  {
    hide ValuesOf, StatsSeries.Value;
    SameSeriesIff(a.series, b.series);
    if a.statistics != null && b.statistics != null {
      SameStatsIff(a.statistics, b.statistics);
    }
  }

  // ----- one metric of the copy

  /** The resampler: the data, its frequency and the wanted number of points give new data and a new frequency. */
  type Sampler = (seq<real>, int, int) -> Option<(seq<real>, int)>

  /** One series with new data, and the frequency of that data. */
  function SampledOne(v: SeriesValue, f: Sampler, step: int, points: int): Option<(SeriesValue, int)> {
    match f(v.data, step, points)
    case None => None
    case Some((data, freq)) => Some((v.(data := data), freq))
  }

  /** Every series is sampled with the same old time step; one failure fails them all. */
  predicate CanSample(s: seq<SeriesValue>, f: Sampler, step: int, points: int) {
    forall i :: 0 <= i < |s| ==> SampledOne(s[i], f, step, points).Some?
  }

  function Sampled(s: seq<SeriesValue>, f: Sampler, step: int, points: int): seq<SeriesValue>
    requires CanSample(s, f, step, points)
  {
    seq(|s|, i requires 0 <= i < |s| => SampledOne(s[i], f, step, points).value.0)
  }

  /** The time step after resampling: that of the last series, 0 without any. */
  function SampledStep(s: seq<SeriesValue>, f: Sampler, step: int, points: int): int
    requires CanSample(s, f, step, points)
  {
    if s == [] then 0 else SampledOne(s[|s| - 1], f, step, points).value.1
  }

  function Resampled(v: MetricValue, f: Sampler, points: int): MetricValue
    requires CanSample(v.series, f, v.timestep, points)
  {
    v.(series := Sampled(v.series, f, v.timestep, points), timestep := SampledStep(v.series, f, v.timestep, points))
  }

  /** A resampler may hand back the data it was given. */
  method ResampleOne(s: Series, f: Sampler, step: int, points: int) returns (r: Option<(Series, int)>)
    ensures r.None? <==> SampledOne(ValueOf(s), f, step, points).None?
    ensures r.Some? ==> r.value.0.data == s.data || fresh(r.value.0.data)
    ensures r.Some? ==> Some((ValueOf(r.value.0), r.value.1)) == SampledOne(ValueOf(s), f, step, points)
  {
    match f(s.data[..], step, points)
    case None => r := None;
    case Some((points, freq)) =>
      if points == s.data[..] {
        r := Some((s, freq));
      } else {
        var sampled := new real[|points|](i requires 0 <= i < |points| => points[i]);
        assert sampled[..] == points;
        r := Some((s.(data := sampled), freq));
      }
  }

  method ResampleAll(series: array<Series>, f: Sampler, step: int, points: int) returns (r: Option<int>)
    modifies series
    ensures r.Some? <==> CanSample(old(ValuesOf(series)), f, step, points)
    ensures r.Some? ==> ValuesOf(series) == Sampled(old(ValuesOf(series)), f, step, points)
    ensures r.Some? ==> r.value == SampledStep(old(ValuesOf(series)), f, step, points)
    ensures forall a :: a in DataOf(series) ==> a in old(DataOf(series)) || fresh(a)
  {
    hide SampledOne, ValueOf;
    ghost var before := ValuesOf(series);
    var timestep := 0;
    for i := 0 to series.Length
      invariant forall k :: i <= k < series.Length ==> series[k] == old(series[k])
      invariant forall k :: 0 <= k < i ==>
                  && SampledOne(before[k], f, step, points).Some?
                  && ValueOf(series[k]) == SampledOne(before[k], f, step, points).value.0
      invariant timestep == if i == 0 then 0 else SampledOne(before[i - 1], f, step, points).value.1
      invariant forall k :: 0 <= k < i ==> series[k].data in old(DataOf(series)) || fresh(series[k].data)
    {
      assert before[i] == ValueOf(series[i]);
      var s := ResampleOne(series[i], f, step, points);
      if s.None? {
        return None;
      }
      series[i] := s.value.0;
      timestep := s.value.1;
    }
    return Some(timestep);
  }

  /** AddStatisticsSeries: new arrays computed from the series. */
  method NewStatistics(v: StatsValue) returns (t: StatsSeries)
    ensures fresh(t) && fresh(t.Arrays()) && t.Value() == v
  {
    hide StatsSeries.Value;
    var min := FloatsOf(v.min);
    var mean := FloatsOf(v.mean);
    var median := FloatsOf(v.median);
    var max := FloatsOf(v.max);
    var percentiles := PercentilesOf(v.percentiles);
    t := new StatsSeries(min, mean, median, max, percentiles);
    StatsAre(t, v);
  }

  lemma StatsAre(t: StatsSeries, v: StatsValue)
    requires t.min[..] == v.min && t.mean[..] == v.mean && t.median[..] == v.median && t.max[..] == v.max
    requires Contents(t.percentiles) == v.percentiles
    ensures t.Value() == v
  {
    hide Contents;
  }

  method FloatsOf(s: seq<real>) returns (a: array<real>)
    ensures fresh(a) && a[..] == s
  {
    a := new real[|s|](i requires 0 <= i < |s| => s[i]);
    assert a[..] == s;
  }

  method PercentilesOf<K(==)>(src: map<K, seq<real>>) returns (dst: map<K, array<real>>)
    ensures fresh(ArraysOf(dst)) && Contents(dst) == src
  {
    dst := map[];
    var todo := src.Keys;
    while todo != {}
      invariant todo <= src.Keys && dst.Keys == src.Keys - todo
      invariant forall k :: k in dst ==> fresh(dst[k]) && dst[k][..] == src[k]
      decreases todo
    {
      var k := Pick(todo);
      todo := todo - {k};
      var values := FloatsOf(src[k]);
      dst := dst[k := values];
    }
    assert Contents(dst) == src;
  }

  /** RoundMetricStats writes the rounded statistics into the list of series. */
  method RoundAll(series: array<Series>, round: Statistics -> Statistics)
    modifies series
    ensures ValuesOf(series) == Rounded(old(ValuesOf(series)), round)
    ensures DataOf(series) == old(DataOf(series))
  {
    ghost var before := ValuesOf(series);
    for i := 0 to series.Length
      invariant forall k :: i <= k < series.Length ==> series[k] == old(series[k])
      invariant forall k :: 0 <= k < i ==> series[k] == old(series[k]).(statistics := round(old(series[k].statistics)))
    {
      series[i] := series[i].(statistics := round(series[i].statistics));
    }
    assert forall k :: 0 <= k < series.Length ==> before[k] == old(ValueOf(series[k]));
    assert forall k :: 0 <= k < series.Length ==> series[k].data == old(series[k].data);
  }

  function Rounded(s: seq<SeriesValue>, round: Statistics -> Statistics): seq<SeriesValue> {
    seq(|s|, i requires 0 <= i < |s| => s[i].(statistics := round(s[i].statistics)))
  }

  // ----- the three passes over the copy

  const MAX_SERIES := 8

  datatype Pass = Resample(f: Sampler, points: int)
                | Summarise(stats: seq<SeriesValue> -> StatsValue)
                | Round(round: Statistics -> Statistics)

  predicate Possible(pass: Pass, v: MetricValue) {
    pass.Resample? ==> CanSample(v.series, pass.f, v.timestep, pass.points)
  }

  function After(pass: Pass, v: MetricValue): MetricValue
    requires Possible(pass, v)
  {
    match pass
    case Resample(f, points) => Resampled(v, f, points)
    case Summarise(stats) =>
      if v.statistics.Some? || |v.series| < MAX_SERIES then v else v.(statistics := Some(stats(v.series)))
    case Round(round) => v.(series := Rounded(v.series, round))
  }

  /** Everything the metric reaches afterwards was reached before, or is new. */
  method Apply(jm: JobMetric, pass: Pass) returns (ok: bool)
    modifies jm, jm.series
    ensures ok <==> Possible(pass, old(jm.Value()))
    ensures ok ==> jm.Value() == After(pass, old(jm.Value()))
    ensures jm.series == old(jm.series) && fresh(jm.Repr() - old(jm.Repr()))
  {
    hide JobMetric.Value;
    match pass
    case Resample(f, points) =>
      ok := ApplyResample(jm, f, points);
    case Summarise(stats) =>
      ApplySummarise(jm, stats);
      ok := true;
    case Round(round) =>
      ApplyRound(jm, round);
      ok := true;
  }

  method ApplyResample(jm: JobMetric, f: Sampler, points: int) returns (ok: bool)
    modifies jm`timestep, jm.series
    ensures ok <==> CanSample(old(jm.Value()).series, f, old(jm.Value()).timestep, points)
    ensures ok ==> jm.Value() == Resampled(old(jm.Value()), f, points)
    ensures fresh(jm.Repr() - old(jm.Repr()))
  {
    var step := ResampleAll(jm.series, f, jm.timestep, points);
    if step.None? {
      return false;
    }
    jm.timestep := step.value;
    assert jm.statistics != null ==> jm.statistics.Value() == old(jm.statistics.Value());
    return true;
  }

  method ApplySummarise(jm: JobMetric, stats: seq<SeriesValue> -> StatsValue)
    modifies jm`statistics
    ensures jm.Value() == After(Summarise(stats), old(jm.Value()))
    ensures fresh(jm.Repr() - old(jm.Repr()))
  {
    if jm.statistics == null && jm.series.Length >= MAX_SERIES {
      var t := NewStatistics(stats(ValuesOf(jm.series)));
      jm.statistics := t;
      assert ValuesOf(jm.series) == old(ValuesOf(jm.series));
    }
  }

  method ApplyRound(jm: JobMetric, round: Statistics -> Statistics)
    modifies jm.series
    ensures jm.Value() == After(Round(round), old(jm.Value()))
    ensures fresh(jm.Repr() - old(jm.Repr()))
  {
    RoundAll(jm.series, round);
    assert jm.statistics != null ==> jm.statistics.Value() == old(jm.statistics.Value());
  }

  // ----- job data

  type Cell = (string, string)

  /** Metrics by name, and under a metric its scopes; a metric may have none. */
  datatype JobData = JobData(metrics: set<string>, cells: map<Cell, JobMetric>)

  lemma ReprAllocated(jm: JobMetric)
    ensures forall o :: o in jm.Repr() ==> allocated(o)
  {
  }

  lemma AllAllocated(cells: map<Cell, JobMetric>)
    ensures forall p, o :: p in cells && o in cells[p].Repr() ==> allocated(o)
  {
    hide JobMetric.Repr;
    forall p | p in cells ensures forall o :: o in cells[p].Repr() ==> allocated(o) {
      ReprAllocated(cells[p]);
    }
  }

  ghost function Roots(cells: map<Cell, JobMetric>): set<object?>
    reads set p | p in cells :: cells[p]
  {
    (set p | p in cells :: cells[p]) + (set p | p in cells :: cells[p].series)
    + set p | p in cells :: cells[p].statistics
  }

  /** No two cells share an object. */
  ghost predicate Disjoint(cells: map<Cell, JobMetric>)
    reads set p | p in cells :: cells[p], Roots(cells)
  {
    forall p, q :: p in cells && q in cells && p != q ==> cells[p].Repr() !! cells[q].Repr()
  }

  lemma NewKey<T>(order: seq<T>, i: nat)
    requires i < |order| && forall i, k :: 0 <= i < k < |order| ==> order[i] != order[k]
    ensures order[i] !in Elements(order[..i]) && order[i] in Elements(order)
    ensures Elements(order[..i + 1]) == Elements(order[..i]) + {order[i]}
  {
  }

  /** The cells have these contents, share nothing with one another, and reach only objects of `own`. */
  ghost predicate Snapshot(cells: map<Cell, JobMetric>, now: map<Cell, MetricValue>, own: set<object>)
    reads *
  {
    && now.Keys == cells.Keys && Disjoint(cells)
    && forall p :: p in cells ==> cells[p].Value() == now[p] && cells[p].Repr() <= own
  }

  /** A range over the cells changes nothing. */
  method Visit(cells: map<Cell, JobMetric>, ghost now: map<Cell, MetricValue>, ghost own: set<object>)
    returns (order: seq<Cell>)
    requires Snapshot(cells, now, own)
    ensures Elements(order) == cells.Keys && forall i, k :: 0 <= i < k < |order| ==> order[i] != order[k]
    ensures Snapshot(cells, now, own)
  {
    hide JobMetric.Value, JobMetric.Repr, JobMetric.Data, JobMetric.StatsArrays;
    AllAllocated(cells);
    order := Order(cells.Keys);
  }

  /** One cell changes; the others keep their content. */
  method ApplyWithin(cells: map<Cell, JobMetric>, p: Cell, pass: Pass) returns (ok: bool, ghost news: set<object>)
    requires Disjoint(cells) && p in cells
    modifies cells[p], cells[p].series
    ensures ok <==> Possible(pass, old(cells[p].Value()))
    ensures ok ==> cells[p].Value() == After(pass, old(cells[p].Value()))
    ensures fresh(news) && cells[p].Repr() <= old(cells[p].Repr()) + news && cells[p].series == old(cells[p].series)
    ensures forall q :: q in cells && q != p ==>
              && cells[q].Value() == old(cells[q].Value()) && cells[q].Repr() == old(cells[q].Repr())
              && cells[q].series == old(cells[q].series)
    ensures Disjoint(cells)
  {
    hide JobMetric.Value, JobMetric.Repr, JobMetric.Data, JobMetric.StatsArrays, After, Possible;
    AllAllocated(cells);
    ok := Apply(cells[p], pass);
    news := cells[p].Repr() - old(cells[p].Repr());
  }

  method ApplyTo(cells: map<Cell, JobMetric>, p: Cell, pass: Pass,
                 ghost now: map<Cell, MetricValue>, ghost own: set<object>)
    returns (ok: bool, ghost news: set<object>)
    requires Snapshot(cells, now, own) && p in now
    modifies own
    ensures ok <==> Possible(pass, now[p])
    ensures ok ==> fresh(news) && Snapshot(cells, now[p := After(pass, now[p])], own + news)
  {
    hide JobMetric.Value, JobMetric.Repr, JobMetric.Data, JobMetric.StatsArrays, After, Possible, Disjoint;
    hide Snapshot;
    SnapshotParts(cells, now, own);
    assert cells[p] in cells[p].Repr() && cells[p].series in cells[p].Repr();
    ok, news := ApplyWithin(cells, p, pass);
    if ok {
      SnapshotStep(cells, now, p, After(pass, now[p]), own, news);
    }
  }

  lemma SnapshotParts(cells: map<Cell, JobMetric>, now: map<Cell, MetricValue>, own: set<object>)
    requires Snapshot(cells, now, own)
    ensures now.Keys == cells.Keys && Disjoint(cells)
    ensures forall p :: p in cells ==> cells[p].Value() == now[p] && cells[p].Repr() <= own
  {
  }

  lemma SnapshotKeys(cells: map<Cell, JobMetric>, now: map<Cell, MetricValue>, own: set<object>)
    requires Snapshot(cells, now, own)
    ensures now.Keys == cells.Keys
  {
  }

  lemma SnapshotStep(cells: map<Cell, JobMetric>, now: map<Cell, MetricValue>, p: Cell, v: MetricValue,
                     own: set<object>, news: set<object>)
    requires now.Keys == cells.Keys && Disjoint(cells) && p in cells
    requires forall q :: q in cells && q != p ==> cells[q].Value() == now[q] && cells[q].Repr() <= own
    requires cells[p].Value() == v && cells[p].Repr() <= own + news
    ensures Snapshot(cells, now[p := v], own + news)
  {
    hide JobMetric.Value, JobMetric.Repr, Disjoint;
  }

  /** The pass over all cells stops at the first failure. */
  method ApplyAll(cells: map<Cell, JobMetric>, pass: Pass,
                  ghost before: map<Cell, MetricValue>, ghost own: set<object>)
    returns (ok: bool, ghost news: set<object>)
    requires Snapshot(cells, before, own)
    modifies own
    ensures ok <==> forall p :: p in before ==> Possible(pass, before[p])
    ensures ok ==> fresh(news) && Snapshot(cells, map p | p in before :: After(pass, before[p]), own + news)
  {
    hide After, Possible, Snapshot, Elements;
    SnapshotKeys(cells, before, own);
    var order := Visit(cells, before, own);
    ghost var now := before;
    ghost var done: set<Cell> := {};
    NoKeys(order);
    news := {};
    assert own + {} == own;
    for i := 0 to |order|
      invariant done == Elements(order[..i]) && fresh(news)
      invariant Snapshot(cells, now, own + news)
      invariant now.Keys == before.Keys && forall p :: p in now && p !in done ==> now[p] == before[p]
      invariant forall p :: p in now && p in done ==> Possible(pass, before[p]) && now[p] == After(pass, before[p])
    {
      NewKey(order, i);
      var fine, more := ApplyTo(cells, order[i], pass, now, own + news);
      if !fine {
        return false, news;
      }
      assert own + news + more == own + (news + more);
      now, done, news := now[order[i] := After(pass, before[order[i]])], done + {order[i]}, news + more;
    }
    assert order[..|order|] == order;
    assert now == map p | p in before :: After(pass, before[p]);
    return true, news;
  }

  lemma NoKeys<T>(order: seq<T>)
    ensures Elements(order[..0]) == {}
  {
  }

  // ----- filtering

  function ScopesOf(cells: set<Cell>, metric: string): set<string> {
    set p | p in cells && p.0 == metric :: p.1
  }

  /** A cell is kept if its metric is asked for, and its scope is, unless the metric has only one scope or none of
      the scopes asked for. */
  predicate Keeps(cells: set<Cell>, p: Cell, metrics: Option<seq<string>>, scopes: seq<string>) {
    p in cells && (metrics.None? || p.0 in metrics.value) && KeepsScope(cells, p, scopes)
  }

  predicate KeepsScope(cells: set<Cell>, p: Cell, scopes: seq<string>) {
    |ScopesOf(cells, p.0)| <= 1 || p.1 in scopes || forall s :: s in scopes ==> s !in ScopesOf(cells, p.0)
  }

  /** No requested metric is lost: if it has data, it keeps some. */
  lemma MetricKept(cells: set<Cell>, p: Cell, metrics: Option<seq<string>>, scopes: seq<string>)
    requires p in cells && (metrics.None? || p.0 in metrics.value)
    ensures exists q: Cell :: q.0 == p.0 && Keeps(cells, q, metrics, scopes)
  {
    assert p.1 in ScopesOf(cells, p.0);
    if |ScopesOf(cells, p.0)| > 1 && exists s :: s in scopes && s in ScopesOf(cells, p.0) {
      var s :| s in scopes && s in ScopesOf(cells, p.0);
      assert Keeps(cells, (p.0, s), metrics, scopes);
    } else {
      assert Keeps(cells, p, metrics, scopes);
    }
  }

  function Scopes(scopes: Option<seq<string>>): seq<string> {
    if scopes.None? then [] else scopes.value
  }

  function KeptCells(cells: set<Cell>, metrics: Option<seq<string>>, scopes: Option<seq<string>>): set<Cell> {
    set p | p in cells && Keeps(cells, p, metrics, Scopes(scopes))
  }

  lemma OneElement<T>(s: set<T>, a: T, b: T)
    requires |s| <= 1 && a in s && b in s
    ensures a == b
  {
    assert |s - {a}| == |s| - 1;
    assert s - {a} == {};
  }

  /** Exactly the cells of the requested metrics stay whose scope is requested, and all scopes of a metric that has
      none of the requested ones. */
  lemma KeptCellsIff(cells: set<Cell>, metrics: Option<seq<string>>, scopes: Option<seq<string>>)
    ensures forall m, s :: (m, s) in KeptCells(cells, metrics, scopes) <==>
              && (m, s) in cells && (metrics.None? || m in metrics.value)
              && (scopes.None? || s in scopes.value || forall t :: t in scopes.value ==> (m, t) !in cells)
  {
    forall m, s | (m, s) in cells
      ensures KeepsScope(cells, (m, s), Scopes(scopes)) <==>
              scopes.None? || s in scopes.value || forall t :: t in scopes.value ==> (m, t) !in cells
    {
      assert forall t :: t in ScopesOf(cells, m) <==> (m, t) in cells;
      if |ScopesOf(cells, m)| <= 1 {
        forall t | (m, t) in cells ensures t == s {
          OneElement(ScopesOf(cells, m), s, t);
        }
      }
    }
  }

  predicate WellFormed(jd: JobData) {
    forall p :: p in jd.cells ==> p.0 in jd.metrics
  }

  /** The scopes of one metric: the requested ones, if the metric has several and at least one of them. */
  method PickScopes(cells: set<Cell>, metric: string, scopes: seq<string>) returns (perscope: set<string>)
    ensures forall s :: s in perscope <==>
              s in ScopesOf(cells, metric) && KeepsScope(cells, (metric, s), scopes)
  {
    perscope := ScopesOf(cells, metric);
    if |perscope| > 1 {
      var subset: set<string> := {};
      for i := 0 to |scopes|
        invariant forall s :: s in subset <==> s in scopes[..i] && s in perscope
      {
        if scopes[i] in perscope {
          subset := subset + {scopes[i]};
        }
      }
      assert scopes[..|scopes|] == scopes;
      if |subset| > 0 {
        perscope := subset;
      } else {
        assert subset == {};
      }
    }
  }

  lemma NamesOf<T>(order: seq<T>, keys: set<T>)
    requires Elements(order) == keys
    ensures forall x :: x in order <==> x in keys
  {
  }

  /** The cells of one metric that are kept. */
  method KeepMetric(jd: JobData, metric: string, scopes: seq<string>) returns (kept: map<Cell, JobMetric>)
    ensures forall p :: p in kept <==> p in jd.cells && p.0 == metric && KeepsScope(jd.cells.Keys, p, scopes)
    ensures forall p :: p in kept ==> kept[p] == jd.cells[p]
  {
    hide KeepsScope;
    var perscope := PickScopes(jd.cells.Keys, metric, scopes);
    assert forall s :: s in ScopesOf(jd.cells.Keys, metric) <==> (metric, s) in jd.cells;
    kept := map p | p in jd.cells && p.0 == metric && p.1 in perscope :: jd.cells[p];
  }

  method Filter(jd: JobData, metrics: Option<seq<string>>, scopes: Option<seq<string>>) returns (res: JobData)
    requires WellFormed(jd)
    ensures res.metrics == set m | m in jd.metrics && (metrics.None? || m in metrics.value)
    ensures res.cells.Keys == KeptCells(jd.cells.Keys, metrics, scopes)
    ensures forall m, s :: (m, s) in res.cells <==>
              && (m, s) in jd.cells && (metrics.None? || m in metrics.value)
              && (scopes.None? || s in scopes.value || forall t :: t in scopes.value ==> (m, t) !in jd.cells)
    ensures forall p :: p in res.cells ==> p in jd.cells && res.cells[p] == jd.cells[p]
  {
    KeptCellsIff(jd.cells.Keys, metrics, scopes);
    hide ScopesOf, KeepsScope;
    if metrics.None? && scopes.None? {
      res := jd;
      return;
    }
    var names := [];
    if metrics.Some? {
      names := metrics.value;
    } else {
      names := Order(jd.metrics);
      NamesOf(names, jd.metrics);
    }
    var kept: map<Cell, JobMetric> := map[];
    var found: set<string> := {};
    for i := 0 to |names|
      invariant forall m :: m in found <==> m in names[..i] && m in jd.metrics
      invariant forall p :: p in kept ==> p in jd.cells && kept[p] == jd.cells[p]
      invariant forall p :: p in kept <==> p.0 in names[..i] && Keeps(jd.cells.Keys, p, metrics, Scopes(scopes))
    {
      if names[i] in jd.metrics {
        var cells := KeepMetric(jd, names[i], Scopes(scopes));
        kept := kept + cells;
        found := found + {names[i]};
      }
    }
    assert names[..|names|] == names;
    res := JobData(found, kept);
  }

  // ----- copying all cells

  ghost predicate SourceIs(source: map<Cell, JobMetric>, was: map<Cell, MetricValue>)
    reads *
  {
    was.Keys == source.Keys && forall p :: p in source ==> source[p].Value() == was[p]
  }

  /** One more cell is copied; the source and the cells copied before stay as they are. */
  method AddCopy(source: map<Cell, JobMetric>, cells: map<Cell, JobMetric>, p: Cell,
                 ghost was: map<Cell, MetricValue>, ghost now: map<Cell, MetricValue>, ghost own: set<object>)
    returns (more: map<Cell, JobMetric>, ghost news: set<object>)
    requires SourceIs(source, was) && p in was
    requires Snapshot(cells, now, own) && p !in now
    ensures fresh(news) && Snapshot(more, now[p := was[p]], own + news)
    ensures SourceIs(source, was)
  {
    hide JobMetric.Value, JobMetric.Repr, JobMetric.Data, JobMetric.StatsArrays, Snapshot;
    SnapshotParts(cells, now, own);
    AllAllocated(source);
    AllAllocated(cells);
    var jm := CopyJobMetric(source[p]);
    more := cells[p := jm];
    news := jm.Repr();
    SnapshotStep(more, now[p := was[p]], p, was[p], own, news);
    assert now[p := was[p]][p := was[p]] == now[p := was[p]];
  }

  /** deepCopy: a copy of every cell, which reaches only new objects (`own`) and shares none between cells. */
  method Copy(source: JobData) returns (jd: JobData, ghost was: map<Cell, MetricValue>, ghost own: set<object>)
    ensures jd.metrics == source.metrics && jd.cells.Keys == source.cells.Keys
    ensures was.Keys == source.cells.Keys && forall p :: p in was ==> was[p] == old(source.cells[p].Value())
    ensures fresh(own) && Snapshot(jd.cells, was, own) && SourceIs(source.cells, was)
  {
    hide JobMetric.Value, JobMetric.Repr, Snapshot, SourceIs, Elements;
    var order;
    order, was := VisitSource(source.cells);
    var cells: map<Cell, JobMetric> := map[];
    ghost var now: map<Cell, MetricValue> := map[];
    own := {};
    NoSnapshot();
    NoKeys(order);
    for i := 0 to |order|
      invariant now.Keys == Elements(order[..i]) && forall p :: p in now ==> p in was && now[p] == was[p]
      invariant fresh(own) && Snapshot(cells, now, own) && SourceIs(source.cells, was)
    {
      NewKey(order, i);
      ghost var news;
      cells, news := AddCopy(source.cells, cells, order[i], was, now, own);
      now, own := now[order[i] := was[order[i]]], own + news;
    }
    assert order[..|order|] == order;
    assert now == was;
    SnapshotKeys(cells, now, own);
    jd := JobData(source.metrics, cells);
  }

  method VisitSource(source: map<Cell, JobMetric>) returns (order: seq<Cell>, ghost was: map<Cell, MetricValue>)
    ensures Elements(order) == source.Keys && forall i, k :: 0 <= i < k < |order| ==> order[i] != order[k]
    ensures was.Keys == source.Keys && forall p :: p in was ==> was[p] == old(source[p].Value())
    ensures SourceIs(source, was)
  {
    hide JobMetric.Value, JobMetric.Repr, JobMetric.Data, JobMetric.StatsArrays;
    was := map p | p in source :: source[p].Value();
    AllAllocated(source);
    order := Order(source.Keys);
  }

  lemma NoSnapshot()
    ensures Snapshot(map[], map[], {})
  {
  }

  // ----- the archived branch of LoadData

  /** Filtering drops cells and touches none. */
  method FilterWithin(jd: JobData, metrics: Option<seq<string>>, scopes: Option<seq<string>>,
                      ghost now: map<Cell, MetricValue>, ghost own: set<object>)
    returns (res: JobData)
    requires WellFormed(jd) && Snapshot(jd.cells, now, own)
    ensures res.metrics == set m | m in jd.metrics && (metrics.None? || m in metrics.value)
    ensures res.cells.Keys == KeptCells(jd.cells.Keys, metrics, scopes)
    ensures Snapshot(res.cells, Restricted(now, res.cells.Keys), own)
  {
    hide JobMetric.Value, JobMetric.Repr, JobMetric.Data, JobMetric.StatsArrays, KeptCells, Snapshot;
    SnapshotParts(jd.cells, now, own);
    AllAllocated(jd.cells);
    res := Filter(jd, metrics, scopes);
    SnapshotOfSome(jd.cells, res.cells, now, own);
  }

  lemma SnapshotOfSome(cells: map<Cell, JobMetric>, some: map<Cell, JobMetric>, now: map<Cell, MetricValue>,
                       own: set<object>)
    requires now.Keys == cells.Keys && Disjoint(cells)
    requires forall p :: p in cells ==> cells[p].Value() == now[p] && cells[p].Repr() <= own
    requires forall p :: p in some ==> p in cells && some[p] == cells[p]
    ensures Snapshot(some, Restricted(now, some.Keys), own)
  {
    hide JobMetric.Value, JobMetric.Repr;
  }

  ghost function Restricted(now: map<Cell, MetricValue>, cells: set<Cell>): map<Cell, MetricValue> {
    map p | p in now && p in cells :: now[p]
  }

  datatype Request = Request(metrics: Option<seq<string>>, scopes: Option<seq<string>>, sampler: Sampler, points: int,
                             stats: seq<SeriesValue> -> StatsValue, round: Statistics -> Statistics)

  predicate CanServe(v: MetricValue, q: Request) {
    CanSample(v.series, q.sampler, v.timestep, q.points)
  }

  /** What LoadData makes of one metric: sampled, summarised when it has many series, rounded. */
  function Served(v: MetricValue, q: Request): MetricValue
    requires CanServe(v, q)
  {
    Finished(After(Resample(q.sampler, q.points), v), q)
  }

  function Finished(v: MetricValue, q: Request): MetricValue {
    After(Round(q.round), After(Summarise(q.stats), v))
  }

  /** A metric is served exactly when the resampler takes the data of each of its series, at its old time step. Each
      series is then sampled and has its statistics rounded; the time step is the last one that the resampler gave, and
      a metric of eight or more series without statistics gets those of the sampled, unrounded series. */
  lemma ServedIs(v: MetricValue, q: Request)
    ensures CanServe(v, q) <==> forall i :: 0 <= i < |v.series| ==> q.sampler(v.series[i].data, v.timestep, q.points).Some?
    ensures CanServe(v, q) ==>
              var w := Served(v, q);
              && w.unit == v.unit && |w.series| == |v.series|
              && (forall i :: 0 <= i < |v.series| ==>
                    w.series[i] == SeriesValue(v.series[i].hostname, v.series[i].id, q.round(v.series[i].statistics),
                                               q.sampler(v.series[i].data, v.timestep, q.points).value.0))
              && w.timestep == (if v.series == [] then 0
                                else q.sampler(v.series[|v.series| - 1].data, v.timestep, q.points).value.1)
    ensures CanServe(v, q) ==>
              Served(v, q).statistics ==
              if v.statistics.Some? || |v.series| < 8 then v.statistics
              else Some(q.stats(seq(|v.series|, i requires 0 <= i < |v.series| =>
                     v.series[i].(data := q.sampler(v.series[i].data, v.timestep, q.points).value.0))))
  {
    if CanServe(v, q) {
      assert Sampled(v.series, q.sampler, v.timestep, q.points) ==
             seq(|v.series|, i requires 0 <= i < |v.series| =>
               v.series[i].(data := q.sampler(v.series[i].data, v.timestep, q.points).value.0));
    }
  }

  /** The two passes after filtering. */
  method Finish(cells: map<Cell, JobMetric>, q: Request, ghost now: map<Cell, MetricValue>, ghost own: set<object>)
    returns (ghost news: set<object>)
    requires Snapshot(cells, now, own)
    modifies own
    ensures fresh(news) && Snapshot(cells, map p | p in now :: Finished(now[p], q), own + news)
  {
    hide JobMetric.Value, JobMetric.Repr, Snapshot, After;
    var _, first := ApplyAll(cells, Summarise(q.stats), now, own);
    ghost var next := map p | p in now :: After(Summarise(q.stats), now[p]);
    var _, second := ApplyAll(cells, Round(q.round), next, own + first);
    assert (map p | p in next :: After(Round(q.round), next[p])) == map p | p in now :: Finished(now[p], q);
    news := first + second;
    assert own + first + second == own + news;
  }

  lemma ServedCells(was: map<Cell, MetricValue>, cells: set<Cell>, q: Request)
    requires forall p :: p in was ==> CanServe(was[p], q) && Possible(Resample(q.sampler, q.points), was[p])
    ensures var now := Restricted(map p | p in was :: After(Resample(q.sampler, q.points), was[p]), cells);
            (map p | p in now :: Finished(now[p], q)) == map p | p in was && p in cells :: Served(was[p], q)
  {
    hide After, Finished, CanSample;
  }

  /** The archived branch writes nothing that existed before (it has no modifies clause): all its writes go to the
      copy, `own`, which is all that the result reaches. It fails exactly when the resampler fails on a series. */
  method LoadArchived(source: JobData, q: Request)
    returns (r: Option<JobData>, ghost was: map<Cell, MetricValue>, ghost own: set<object>)
    requires WellFormed(source)
    ensures was.Keys == source.cells.Keys && forall p :: p in was ==> was[p] == old(source.cells[p].Value())
    ensures r.Some? <==> forall p :: p in was ==> CanServe(was[p], q)
    ensures r.Some? ==>
              && r.value.metrics == (set m | m in source.metrics && (q.metrics.None? || m in q.metrics.value))
              && r.value.cells.Keys == KeptCells(source.cells.Keys, q.metrics, q.scopes)
              && (forall m, s :: (m, s) in r.value.cells <==>
                    && (m, s) in source.cells && (q.metrics.None? || m in q.metrics.value)
                    && (q.scopes.None? || s in q.scopes.value || forall t :: t in q.scopes.value ==> (m, t) !in source.cells))
              && fresh(own)
              && Snapshot(r.value.cells, map p | p in was && p in r.value.cells :: Served(was[p], q), own)
  {
    hide JobMetric.Value, JobMetric.Repr, Snapshot, SourceIs, After, Finished, KeptCells, CanSample;
    var jd;
    jd, was, own := Copy(source);
    var sample := Resample(q.sampler, q.points);
    var ok, more := ApplyAll(jd.cells, sample, was, own);
    if !ok {
      return None, was, own;
    }
    ghost var now := map p | p in was :: After(sample, was[p]);
    own := own + more;
    jd := FilterWithin(jd, q.metrics, q.scopes, now, own);
    now := Restricted(now, jd.cells.Keys);
    more := Finish(jd.cells, q, now, own);
    own := own + more;
    ServedCells(was, jd.cells.Keys, q);
    KeptCellsIff(source.cells.Keys, q.metrics, q.scopes);
    return Some(jd), was, own;
  }
}
