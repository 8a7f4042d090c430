/** The three histograms of the statistics repository and the jobs their bins add up to. */
module Histograms {

  /** How many elements lie in [lo, hi). */
  function CountIn(s: seq<int>, lo: int, hi: int): nat {
    if s == [] then 0
    else (if lo <= s[0] < hi then 1 else 0) + CountIn(s[1..], lo, hi)
  }

  lemma {:induction false} CountSplit(s: seq<int>, lo: int, mid: int, hi: int)
    requires lo <= mid <= hi
    ensures CountIn(s, lo, hi) == CountIn(s, lo, mid) + CountIn(s, mid, hi)
  {
    if s == [] {
    } else {
      CountSplit(s[1..], lo, mid, hi);
    }
  }

  lemma {:induction false} CountMember(s: seq<int>, v: int)
    ensures CountIn(s, v, v + 1) > 0 <==> v in s
  {
    if s == [] {
    } else {
      CountMember(s[1..], v);
    }
  }

  function Sum(s: seq<nat>): nat {
    if s == [] then 0 else Sum(s[..|s| - 1]) + s[|s| - 1]
  }

  /** Adjacent bins of one width add up to the range they cover; no element is in two of them. */
  lemma {:induction false} BinsAddUp(s: seq<int>, counts: seq<nat>, from: int, width: nat)
    requires forall i :: 0 <= i < |counts| ==> counts[i] == CountIn(s, from + width * i, from + width * (i + 1))
    ensures Sum(counts) == CountIn(s, from, from + width * |counts|)
  {
    if counts == [] {
      CountSplit(s, from, from, from);
    } else {
      var n := |counts| - 1;
      BinsAddUp(s, counts[..n], from, width);
      assert width * n <= width * (n + 1);
      CountSplit(s, from, from + width * n, from + width * (n + 1));
    }
  }

  /** SQL's GROUP BY with COUNT(*). */
  function GroupBy(values: seq<int>): map<int, nat> {
    map v | v in values :: CountIn(values, v, v + 1)
  }

  // ----- durations

  /** SQLite divides integers towards zero. */
  function TruncDiv(a: int, b: int): int
    requires b > 0
  {
    if a >= 0 then a / b else -((-a) / b)
  }

  function DurationBin(d: int, binSize: nat): int
    requires binSize > 0
  {
    TruncDiv(d, binSize) + 1
  }

  function DurationBins(ds: seq<int>, binSize: nat): (v: seq<int>)
    requires binSize > 0
    ensures |v| == |ds| && forall i :: 0 <= i < |ds| ==> v[i] == DurationBin(ds[i], binSize)
  {
    seq(|ds|, i requires 0 <= i < |ds| => DurationBin(ds[i], binSize))
  }

  datatype Point = Point(value: int, count: nat)

  /** The seconds that name a bin. */
  function BinValue(bin: int, binSize: nat): int {
    bin * binSize
  }

  lemma BinValueInjective(a: int, b: int, binSize: nat)
    requires binSize > 0 && BinValue(a, binSize) == BinValue(b, binSize)
    ensures a == b
  {
    assert (a - b) * binSize == 0;
  }

  /** jobsDurationStatisticsHistogram: zero-padded bins 1 to n; groups beyond them are dropped. */
  method DurationHistogram(ds: seq<int>, binSize: nat, n: nat) returns (points: seq<Point>)
    requires binSize > 0
    ensures |points| == n
    ensures forall i :: 0 <= i < n ==>
              points[i] == Point(BinValue(i + 1, binSize), CountIn(DurationBins(ds, binSize), i + 1, i + 2))
    ensures forall i :: 0 <= i < n ==>
              && points[i].value == (i + 1) * binSize
              && points[i].count == CountIn(ds, if i == 0 then -(binSize as int) + 1 else i * binSize, (i + 1) * binSize)
  {
    hide DurationBin, BinValue, CountIn;
    points := [];
    for i := 1 to n + 1
      invariant |points| == i - 1
      invariant forall k :: 0 <= k < i - 1 ==> points[k] == Point(BinValue(k + 1, binSize), 0)
    {
      points := points + [Point(BinValue(i, binSize), 0)];
    }
    var binMap: map<int, nat> := map[];
    for i := 0 to n
      invariant forall k :: 1 <= k <= i ==> BinValue(k, binSize) in binMap
      invariant forall v :: v in binMap ==> binMap[v] < i && v == BinValue(binMap[v] + 1, binSize)
    {
      binMap := binMap[points[i].value := i];
    }
    var values := DurationBins(ds, binSize);
    var rows := GroupBy(values);
    var todo := rows.Keys;
    while todo != {}
      invariant todo <= rows.Keys && |points| == n
      invariant forall k :: 0 <= k < n ==>
                  points[k] == Point(BinValue(k + 1, binSize), if k + 1 in rows && k + 1 !in todo then rows[k + 1] else 0)
      decreases todo
    {
      var bin :| bin in todo;
      todo := todo - {bin};
      if BinValue(bin, binSize) in binMap {
        var idx := binMap[BinValue(bin, binSize)];
        BinValueInjective(idx + 1, bin, binSize);
        points := points[idx := points[idx].(count := rows[bin])];
      }
    }
    forall i | 0 <= i < n
      ensures points[i].count == CountIn(values, i + 1, i + 2)
      ensures points[i].value == (i + 1) * binSize
      ensures points[i].count == CountIn(ds, if i == 0 then -(binSize as int) + 1 else i * binSize, (i + 1) * binSize)
    {
      CountMember(values, i + 1);
      CountBin(ds, binSize, i + 1);
      ValueOf(i + 1, binSize);
    }
  }

  lemma ValueOf(bin: int, binSize: nat)
    ensures BinValue(bin, binSize) == bin * binSize
  {
  }

  lemma DivLess(d: nat, size: nat, n: nat)
    requires size > 0
    ensures d / size < n <==> d < n * size
  {
    var q, r := d / size, d % size;
    assert d == q * size + r;
    if q < n {
      assert (q + 1) * size <= n * size;
    } else {
      assert n * size <= q * size;
    }
  }

  lemma BinOfNonNegative(d: nat, binSize: nat, n: nat)
    requires binSize > 0
    ensures DurationBin(d, binSize) >= 1 && (DurationBin(d, binSize) < n + 1 <==> d < n * binSize)
  {
    DivLess(d, binSize, n);
  }

  lemma BinOfNegative(d: int, binSize: nat)
    requires binSize > 0 && d < 0
    ensures DurationBin(d, binSize) <= 1 && (DurationBin(d, binSize) >= 1 <==> -(binSize as int) < d)
  {
    DivLess(-d, binSize, 1);
  }

  lemma BinRange(d: int, binSize: nat, n: nat)
    requires binSize > 0 && n > 0
    ensures 1 <= DurationBin(d, binSize) < n + 1 <==> -(binSize as int) < d < n * binSize
  {
    hide DurationBin;
    assert n * binSize > 0;
    if d >= 0 {
      BinOfNonNegative(d, binSize, n);
    } else {
      BinOfNegative(d, binSize);
    }
  }

  lemma {:induction false} CountBins(ds: seq<int>, binSize: nat, n: nat)
    requires binSize > 0 && n > 0
    ensures CountIn(DurationBins(ds, binSize), 1, n + 1) == CountIn(ds, -(binSize as int) + 1, n * binSize)
  {
    if ds == [] {
    } else {
      BinRange(ds[0], binSize, n);
      CountBins(ds[1..], binSize, n);
      assert DurationBins(ds, binSize)[1..] == DurationBins(ds[1..], binSize);
    }
  }

  lemma BinIs(d: int, binSize: nat, b: nat)
    requires binSize > 0 && b > 0
    ensures DurationBin(d, binSize) == b <==> (if b == 1 then -(binSize as int) < d else (b - 1) * binSize <= d) && d < b * binSize
  {
    hide DurationBin;
    assert b * binSize == (b - 1) * binSize + binSize && (b - 1) * binSize >= 0;
    if d >= 0 {
      BinOfNonNegative(d, binSize, b);
      BinOfNonNegative(d, binSize, b - 1);
    } else {
      assert b > 1 ==> (b - 1) * binSize >= binSize;
      BinOfNegative(d, binSize);
    }
  }

  /** The jobs of one bin, by their durations. */
  lemma {:induction false} CountBin(ds: seq<int>, binSize: nat, b: nat)
    requires binSize > 0 && b > 0
    ensures CountIn(DurationBins(ds, binSize), b, b + 1) ==
            CountIn(ds, if b == 1 then -(binSize as int) + 1 else (b - 1) * binSize, b * binSize)
  {
    hide DurationBin;
    if ds == [] {
    } else {
      BinIs(ds[0], binSize, b);
      CountBin(ds[1..], binSize, b);
      assert DurationBins(ds, binSize)[1..] == DurationBins(ds[1..], binSize);
    }
  }

  function Counts(points: seq<Point>): (c: seq<nat>)
    ensures |c| == |points| && forall i :: 0 <= i < |c| ==> c[i] == points[i].count
  {
    seq(|points|, i requires 0 <= i < |points| => points[i].count)
  }

  /** The duration bins add up to the jobs with -binSize < duration < n * binSize: a running job whose start lies
      less than one bin in the future is counted in the first bin. They add up to the jobs of the documented range
      0 <= duration < n * binSize if and only if there is no such job. */
  lemma DurationConserved(ds: seq<int>, binSize: nat, n: nat, points: seq<Point>)
    requires binSize > 0 && n > 0 && |points| == n
    requires forall i :: 0 <= i < n ==> points[i].count == CountIn(DurationBins(ds, binSize), i + 1, i + 2)
    ensures Sum(Counts(points)) == CountIn(ds, -(binSize as int) + 1, n * binSize)
    ensures Sum(Counts(points)) == CountIn(ds, 0, n * binSize) <==> CountIn(ds, -(binSize as int) + 1, 0) == 0
  {
    BinsAddUp(DurationBins(ds, binSize), Counts(points), 1, 1);
    CountBins(ds, binSize, n);
    assert n * binSize >= 0;
    CountSplit(ds, -(binSize as int) + 1, 0, n * binSize);
  }

  // ----- footprints

  /** CAST(x AS INTEGER), and Go's int(x), cut towards zero. */
  function Trunc(x: real): int {
    if x >= 0.0 then x.Floor else -((-x).Floor)
  }

  function Scaled(v: real, peak: real, n: real): real
    requires peak > 0.0
  {
    v / peak * n
  }

  /** The bin of a footprint value; the peak itself is moved down by 1e-9 of itself. */
  function FootprintBin(v: real, peak: real, bins: nat): int
    requires peak > 0.0
  {
    Trunc(Scaled(if v == peak then peak * 0.999999999 else v, peak, bins as real)) + 1
  }

  function FootprintBins(vs: seq<real>, peak: real, bins: nat): (r: seq<int>)
    requires peak > 0.0
    ensures |r| == |vs| && forall i :: 0 <= i < |vs| ==> r[i] == FootprintBin(vs[i], peak, bins)
  {
    seq(|vs|, i requires 0 <= i < |vs| => FootprintBin(vs[i], peak, bins))
  }

  /** The bins of the rows that the code reads: a peak of 0, when no cluster configures one, makes every bin NULL,
      and a row with that bin is skipped. */
  function ReadBins(vs: seq<real>, peak: real, bins: nat): seq<int>
    requires peak >= 0.0
  {
    if peak == 0.0 then [] else FootprintBins(vs, peak, bins)
  }

  /** The peak lands in the last bin for up to 10^9 bins and not beyond. */
  lemma PeakInLastBin(peak: real, bins: nat)
    requires peak > 0.0 && bins > 0
    ensures FootprintBin(peak, peak, bins) == bins <==> bins <= 1_000_000_000
  {
    assert peak * 0.999999999 / peak == 0.999999999;
    var x := 0.999999999 * bins as real;
    assert x == bins as real - bins as real * 0.000000001;
  }

  lemma SignOf(x: real, a: real)
    requires a > 0.0
    ensures x > 0.0 <==> x * a > 0.0
    ensures x < 0.0 <==> x * a < 0.0
  {
  }

  /** Scaling by n / peak keeps the order relative to a threshold t * peak. */
  lemma ScaledBelow(v: real, peak: real, n: real, t: real)
    requires peak > 0.0 && n > 0.0
    ensures Scaled(v, peak, n) < t * n <==> v < t * peak
    ensures Scaled(v, peak, n) > t * n <==> v > t * peak
  {
    var q := v / peak;
    assert v == q * peak;
    SignOf(q - t, peak);
    SignOf(q - t, n);
    Distribute(q, -t, peak);
    Distribute(q, -t, n);
  }

  lemma ScaledAboveMinusOne(v: real, peak: real, n: real)
    requires peak > 0.0 && n > 0.0
    ensures Scaled(v, peak, n) > -1.0 <==> v * n > -peak
  {
    var q := v / peak;
    var x := q * n;
    assert v == q * peak;
    SignOf(x + 1.0, peak);
    Distribute(x, 1.0, peak);
    Swap(q, n, peak);
    assert x * peak == v * n;
    assert (x + 1.0) * peak == v * n + peak;
  }

  lemma Distribute(a: real, b: real, c: real)
    ensures (a + b) * c == a * c + b * c
  {
  }

  lemma Swap(a: real, b: real, c: real)
    ensures (a * b) * c == (a * c) * b
  {
    assert (a * b) * c == a * (b * c);
    assert (a * c) * b == a * (c * b);
  }

  lemma TruncRange(x: real, n: nat)
    requires n > 0
    ensures 0 <= Trunc(x) < n <==> -1.0 < x < n as real
  {
  }

  /** A value up to the peak is in one of the bins exactly when it is above -peak/bins. */
  lemma FootprintRange(v: real, peak: real, bins: nat)
    requires peak > 0.0 && 0 < bins <= 1_000_000_000 && v <= peak
    ensures 1 <= FootprintBin(v, peak, bins) < bins + 1 <==> v * bins as real > -peak
  {
    hide Scaled, Trunc;
    var n := bins as real;
    if v == peak {
      PeakInLastBin(peak, bins);
      SignOf(n, peak);
    } else {
      ScaledBelow(v, peak, n, 1.0);
      ScaledAboveMinusOne(v, peak, n);
      TruncRange(Scaled(v, peak, n), bins);
    }
  }

  lemma TruncIs(x: real, n: nat)
    requires n > 0
    ensures Trunc(x) == n <==> n as real <= x < n as real + 1.0
  {
  }

  /** Which values below the peak bin b is for: those from (b - 1) parts of the peak up to b parts, and in the first bin
      also the negative ones above minus one part. */
  lemma FootprintBinIs(v: real, peak: real, bins: nat, b: nat)
    requires peak > 0.0 && bins > 0 && b > 0 && v != peak
    ensures FootprintBin(v, peak, bins) == b <==>
            && (if b == 1 then v * bins as real > -peak else v * bins as real >= (b - 1) as real * peak)
            && v * bins as real < b as real * peak
  {
    var n, lo, hi := bins as real, (b - 1) as real, b as real;
    var x := Scaled(v, peak, n);
    ScaledIs(v, peak, n);
    Around(x, peak, v * n, lo, hi);
    BinOf(x, b);
  }

  lemma BinOf(x: real, b: nat)
    requires b > 0
    ensures Trunc(x) + 1 == b <==> (if b == 1 then x > -1.0 else x >= (b - 1) as real) && x < b as real
  {
    if b == 1 {
      TruncRange(x, 1);
    } else {
      TruncIs(x, b - 1);
    }
  }

  lemma Around(x: real, peak: real, w: real, lo: real, hi: real)
    requires peak > 0.0 && x * peak == w
    ensures x >= lo <==> w >= lo * peak
    ensures x < hi <==> w < hi * peak
    ensures x > -1.0 <==> w > -peak
  {
    CompareProducts(x, lo, peak);
    CompareProducts(x, hi, peak);
    CompareProducts(x, -1.0, peak);
  }

  lemma ScaledIs(v: real, peak: real, n: real)
    requires peak > 0.0
    ensures Scaled(v, peak, n) * peak == v * n
  {
    var q := v / peak;
    assert v == q * peak;
    Swap(q, n, peak);
  }

  lemma CompareProducts(x: real, y: real, a: real)
    requires a > 0.0
    ensures x < y <==> x * a < y * a
    ensures x > y <==> x * a > y * a
  {
    Distribute(x, -y, a);
    SignOf(x - y, a);
  }

  /** Values that fall into the first bin although they are negative, and those that belong. */
  function Footprints(vs: seq<real>, peak: real, bins: nat, negative: bool): nat {
    if vs == [] then 0
    else (if (if negative then vs[0] < 0.0 && vs[0] * bins as real > -peak else vs[0] >= 0.0) then 1 else 0)
         + Footprints(vs[1..], peak, bins, negative)
  }

  lemma {:induction false} CountFootprints(vs: seq<real>, peak: real, bins: nat)
    requires peak > 0.0 && 0 < bins <= 1_000_000_000 && forall v :: v in vs ==> v <= peak
    ensures CountIn(FootprintBins(vs, peak, bins), 1, bins + 1) ==
            Footprints(vs, peak, bins, false) + Footprints(vs, peak, bins, true)
  {
    hide FootprintBin;
    if vs == [] {
    } else {
      assert vs[0] in vs && forall v :: v in vs[1..] ==> v in vs;
      FootprintRange(vs[0], peak, bins);
      NonNegativeAbove(vs[0], peak, bins);
      CountFootprints(vs[1..], peak, bins);
      assert FootprintBins(vs, peak, bins)[1..] == FootprintBins(vs[1..], peak, bins);
    }
  }

  lemma NonNegativeAbove(v: real, peak: real, bins: nat)
    requires peak > 0.0
    ensures v >= 0.0 ==> v * bins as real > -peak
  {
    if v >= 0.0 {
      assert v * bins as real >= 0.0;
    }
  }

  datatype MetricPoint = MetricPoint(bin: int, count: nat, min: int, max: int)

  /** jobsMetricStatisticsHistogram: the rows of the query are matched to bins 1 to n; the printed limits of a bin
      are multiples of the truncated peak div n. */
  method FootprintHistogram(vs: seq<real>, peak: real, n: nat) returns (points: seq<MetricPoint>)
    requires peak >= 0.0 && n > 0
    ensures |points| == n
    ensures var w := Trunc(peak) / n;
            forall i :: 0 <= i < n ==>
              points[i] == MetricPoint(i + 1, CountIn(ReadBins(vs, peak, n), i + 1, i + 2), w * i, w * (i + 1))
  {
    hide FootprintBin, CountIn;
    var binStep := Trunc(peak) / n;
    points := [];
    for i := 1 to n + 1
      invariant |points| == i - 1
      invariant forall k :: 0 <= k < i - 1 ==> points[k] == MetricPoint(k + 1, 0, binStep * k, binStep * (k + 1))
    {
      points := points + [MetricPoint(i, 0, binStep * (i - 1), binStep * i)];
    }
    var binMap: map<int, nat> := map[];
    for i := 0 to n
      invariant forall v :: v in binMap <==> 1 <= v <= i
      invariant forall v :: v in binMap ==> binMap[v] == v - 1
    {
      binMap := binMap[points[i].bin := i];
    }
    var values := ReadBins(vs, peak, n);
    var rows := GroupBy(values);
    var todo := rows.Keys;
    while todo != {}
      invariant todo <= rows.Keys && |points| == n
      invariant forall k :: 0 <= k < n ==>
                  points[k] == MetricPoint(k + 1, if k + 1 in rows && k + 1 !in todo then rows[k + 1] else 0,
                                           binStep * k, binStep * (k + 1))
      decreases todo
    {
      var bin :| bin in todo;
      todo := todo - {bin};
      if bin in binMap {
        points := points[binMap[bin] := points[binMap[bin]].(count := rows[bin])];
      }
    }
    forall i | 0 <= i < n ensures points[i].count == CountIn(values, i + 1, i + 2) {
      CountMember(values, i + 1);
    }
  }

  /** The footprint bins add up to the jobs with a value in [0, peak] plus those with a small negative value,
      so to the documented range exactly when there are none of the latter; with a peak of 0 they are empty. */
  lemma FootprintConserved(vs: seq<real>, peak: real, bins: nat, counts: seq<nat>)
    requires peak >= 0.0 && 0 < bins <= 1_000_000_000 && forall v :: v in vs ==> v <= peak
    requires |counts| == bins
    requires forall i :: 0 <= i < bins ==> counts[i] == CountIn(ReadBins(vs, peak, bins), i + 1, i + 2)
    ensures peak == 0.0 ==> Sum(counts) == 0
    ensures peak > 0.0 ==>
              && Sum(counts) == Footprints(vs, peak, bins, false) + Footprints(vs, peak, bins, true)
              && (Sum(counts) == Footprints(vs, peak, bins, false) <==> Footprints(vs, peak, bins, true) == 0)
  {
    BinsAddUp(ReadBins(vs, peak, bins), counts, 1, 1);
    if peak > 0.0 {
      CountFootprints(vs, peak, bins);
    }
  }

  // ----- running jobs

  function Truncs(vs: seq<real>): (r: seq<int>)
    ensures |r| == |vs| && forall i :: 0 <= i < |vs| ==> r[i] == Trunc(vs[i])
  {
    seq(|vs|, i requires 0 <= i < |vs| => Trunc(vs[i]))
  }

  lemma {:induction false} CountSnoc(s: seq<int>, x: int, lo: int, hi: int)
    ensures CountIn(s + [x], lo, hi) == CountIn(s, lo, hi) + (if lo <= x < hi then 1 else 0)
  {
    if s == [] {
    } else {
      CountSnoc(s[1..], x, lo, hi);
      assert (s + [x])[1..] == s[1..] + [x];
    }
  }

  /** runningJobsMetricStatisticsHistogram for one metric: for each bin a pass over the averages. */
  method RunningHistogram(avgs: seq<real>, peak: real, bins: nat) returns (points: seq<MetricPoint>)
    requires peak >= 0.0 && bins > 0
    ensures |points| == bins
    ensures var w := Trunc(peak) / bins;
            forall b :: 0 <= b < bins ==>
              points[b] == MetricPoint(b + 1, CountIn(Truncs(avgs), w * b, w * (b + 1)), w * b, w * (b + 1))
  {
    var peakBin := Trunc(peak) / bins;
    points := [];
    for b := 0 to bins
      invariant |points| == b
      invariant forall k :: 0 <= k < b ==>
                  points[k] == MetricPoint(k + 1, CountIn(Truncs(avgs), peakBin * k, peakBin * (k + 1)),
                                           peakBin * k, peakBin * (k + 1))
    {
      var count, bmin, bmax := 0, peakBin * b, peakBin * (b + 1);
      for i := 0 to |avgs|
        invariant count == CountIn(Truncs(avgs[..i]), bmin, bmax)
      {
        CountSnoc(Truncs(avgs[..i]), Trunc(avgs[i]), bmin, bmax);
        assert Truncs(avgs[..i + 1]) == Truncs(avgs[..i]) + [Trunc(avgs[i])];
        if Trunc(avgs[i]) >= bmin && Trunc(avgs[i]) < bmax {
          count := count + 1;
        }
      }
      assert avgs[..|avgs|] == avgs;
      points := points + [MetricPoint(b + 1, count, bmin, bmax)];
    }
  }

  /** The bins of the running jobs add up to the truncated averages in [0, bins * (peak div bins)), and reach
      up to the whole peak exactly when the number of bins divides it. */
  lemma RunningConserved(avgs: seq<real>, peak: real, bins: nat, counts: seq<nat>)
    requires peak >= 0.0 && bins > 0 && |counts| == bins
    requires var w := Trunc(peak) / bins;
             forall b :: 0 <= b < bins ==> counts[b] == CountIn(Truncs(avgs), w * b, w * (b + 1))
    ensures Sum(counts) == CountIn(Truncs(avgs), 0, Trunc(peak) / bins * bins)
    ensures Trunc(peak) / bins * bins == Trunc(peak) <==> Trunc(peak) % bins == 0
  {
    var w: nat := Trunc(peak) / bins;
    hide CountIn, Sum, Trunc;
    assert Trunc(peak) == w * bins + Trunc(peak) % bins;
    BinsAddUp(Truncs(avgs), counts, 0, w);
  }
}
