/** `createDurationHistogram` and `getExtent`: equal-width bins over
    `[lo, hi]`, of which only the non-empty ones are returned, and the
    least and greatest number of a list. */
module Histogram {
  import opened Common
  import opened Seqs
  import opened Tracks

  /** One bin: the interval `[x0, x1)` (the last one closed) and how many
      values fell in it. */
  datatype Bin = Bin(x0: real, x1: real, count: nat)

  /** A value the histogram counts: a number within `[lo, hi]`. */
  predicate InRange(v: Number, lo: real, hi: real) {
    v.Finite? && lo <= v.value <= hi
  }

  function InRangePass(lo: real, hi: real): Number -> bool {
    (v: Number) => InRange(v, lo, hi)
  }

  function BinSize(lo: real, hi: real, binCount: nat): real
    requires binCount > 0
  {
    (hi - lo) / binCount as real
  }

  /** `if (v > hi) hi; if (v < lo) lo` in that order. */
  function ClampInt(v: int, lo: int, hi: int): int {
    if v > hi then hi else if v < lo then lo else v
  }

  /** `Math.floor((x - lo) / size)`, capped at the last bin and floored at
      the first. */
  function BinIndex(x: real, lo: real, size: real, binCount: nat): (b: int)
    requires size > 0.0 && binCount > 0 && lo <= x
    ensures 0 <= b < binCount
    ensures b == binCount - 1 || b as real <= (x - lo) / size < (b + 1) as real
  {
    ClampInt(((x - lo) / size).Floor, 0, binCount - 1)
  }

  /** Whether `v` is counted in bin `k`. */
  predicate InBin(v: Number, lo: real, hi: real, binCount: nat, k: int) {
    && InRange(v, lo, hi) && hi > lo && binCount > 0
    && BinIndex(v.value, lo, BinSize(lo, hi, binCount), binCount) == k
  }

  function InBinPass(lo: real, hi: real, binCount: nat, k: int): Number -> bool {
    (v: Number) => InBin(v, lo, hi, binCount, k)
  }

  /** The per-bin tallies of the scan over `values`. */
  function Counts(values: seq<Number>, lo: real, hi: real, binCount: nat): (c: seq<nat>)
    requires hi > lo && binCount > 0
    ensures |c| == binCount
  {
    if values == [] then Zeros(binCount)
    else
      var c := Counts(Init(values), lo, hi, binCount);
      var v := Last(values);
      if InRange(v, lo, hi) then
        var b := BinIndex(v.value, lo, BinSize(lo, hi, binCount), binCount);
        c[b := c[b] + 1]
      else c
  }

  function MakeBins(c: seq<nat>, lo: real, size: real): (bs: seq<Bin>)
    ensures |bs| == |c|
  {
    seq(|c|, i requires 0 <= i < |c| => Bin(lo + i as real * size, lo + (i + 1) as real * size, c[i]))
  }

  predicate NonEmptyBin(b: Bin) {
    b.count > 0
  }

  function Histogram(values: seq<Number>, lo: real, hi: real, binCount: int): (r: seq<Bin>)
    ensures values == [] || hi - lo <= 0.0 || binCount <= 0 ==> r == []
    ensures forall b :: b in r ==> b.count > 0
  {
    if values == [] then []
    else if hi - lo <= 0.0 || binCount <= 0 then []
    else Filter(MakeBins(Counts(values, lo, hi, binCount), lo, BinSize(lo, hi, binCount)), NonEmptyBin)
  }

  // --------------------------------------------------------------- tallies

  /** How many of `values` bin `k` receives, counted independently of the
      scan. */
  function CountIn(values: seq<Number>, lo: real, hi: real, binCount: nat, k: int): nat {
    |Filter(values, InBinPass(lo, hi, binCount, k))|
  }

  /** Each tally of the scan is the number of values that belong to its
      bin. */
  lemma {:induction false} CountsSpec(values: seq<Number>, lo: real, hi: real, binCount: nat)
    requires hi > lo && binCount > 0
    ensures forall k :: 0 <= k < binCount ==> Counts(values, lo, hi, binCount)[k] == CountIn(values, lo, hi, binCount, k)
  {
    if values != [] {
      CountsSpec(Init(values), lo, hi, binCount);
    }
  }

  function BinTotal(bs: seq<Bin>): nat {
    if bs == [] then 0 else BinTotal(Init(bs)) + Last(bs).count
  }

  lemma {:induction false} BinTotalConcat(a: seq<Bin>, b: seq<Bin>)
    ensures BinTotal(a + b) == BinTotal(a) + BinTotal(b)
    decreases |b|
  {
    if b == [] {
      assert a + b == a;
    } else {
      assert Init(a + b) == a + Init(b);
      BinTotalConcat(a, Init(b));
    }
  }

  /** Dropping empty bins does not change the total. */
  lemma {:induction false} BinTotalFilter(bs: seq<Bin>)
    ensures BinTotal(Filter(bs, NonEmptyBin)) == BinTotal(bs)
  {
    if bs != [] {
      BinTotalFilter(Init(bs));
      var x := Last(bs);
      BinTotalConcat(Filter(Init(bs), NonEmptyBin), if NonEmptyBin(x) then [x] else []);
      assert BinTotal([x]) == x.count by {
        assert Init([x]) == [];
      }
    }
  }

  lemma {:induction false} BinTotalMake(c: seq<nat>, lo: real, size: real)
    ensures BinTotal(MakeBins(c, lo, size)) == SumNat(c)
  {
    if c != [] {
      assert Init(MakeBins(c, lo, size)) == MakeBins(Init(c), lo, size);
      BinTotalMake(Init(c), lo, size);
    }
  }

  /** The scan's tallies add up to the number of values within range. */
  lemma {:induction false} CountsTotal(values: seq<Number>, lo: real, hi: real, binCount: nat)
    requires hi > lo && binCount > 0
    ensures SumNat(Counts(values, lo, hi, binCount)) == |Filter(values, InRangePass(lo, hi))|
  {
    if values == [] {
      SumNatZeros(binCount);
    } else {
      CountsTotal(Init(values), lo, hi, binCount);
      var v := Last(values);
      if InRange(v, lo, hi) {
        var b := BinIndex(v.value, lo, BinSize(lo, hi, binCount), binCount);
        SumNatIncrement(Counts(Init(values), lo, hi, binCount), b);
      }
    }
  }

  // -------------------------------------------------------------- results

  /** The histogram's counts add up to the number of values within
      `[lo, hi]`: NaN and out-of-range values are dropped, never clamped
      into an edge bin. */
  lemma HistogramTotal(values: seq<Number>, lo: real, hi: real, binCount: int)
    requires hi > lo && binCount > 0
    ensures BinTotal(Histogram(values, lo, hi, binCount)) == |Filter(values, InRangePass(lo, hi))|
  {
    if values != [] {
      var c := Counts(values, lo, hi, binCount);
      var bs := MakeBins(c, lo, BinSize(lo, hi, binCount));
      BinTotalFilter(bs);
      BinTotalMake(c, lo, BinSize(lo, hi, binCount));
      CountsTotal(values, lo, hi, binCount);
    }
  }

  /** Bin `k` of the full grid, with its tally computed from the values
      directly. */
  function GridBin(values: seq<Number>, lo: real, hi: real, binCount: nat, k: nat): Bin
    requires binCount > 0
  {
    var size := BinSize(lo, hi, binCount);
    Bin(lo + k as real * size, lo + (k + 1) as real * size, CountIn(values, lo, hi, binCount, k))
  }

  function Grid(values: seq<Number>, lo: real, hi: real, binCount: nat): (g: seq<Bin>)
    requires binCount > 0
    ensures |g| == binCount
  {
    seq(binCount, k requires 0 <= k < binCount => GridBin(values, lo, hi, binCount, k))
  }

  /** The reference histogram: the grid bins of index order that received
      at least one value. */
  lemma HistogramSpec(values: seq<Number>, lo: real, hi: real, binCount: int)
    requires values != [] && hi > lo && binCount > 0
    ensures Histogram(values, lo, hi, binCount) == Filter(Grid(values, lo, hi, binCount), NonEmptyBin)
  {
    GridOfCounts(values, lo, hi, binCount);
  }

  /** The bins built from the tallies are the grid. */
  lemma GridOfCounts(values: seq<Number>, lo: real, hi: real, binCount: nat)
    requires hi > lo && binCount > 0
    ensures MakeBins(Counts(values, lo, hi, binCount), lo, BinSize(lo, hi, binCount)) == Grid(values, lo, hi, binCount)
  {
    CountsSpec(values, lo, hi, binCount);
    var bs := MakeBins(Counts(values, lo, hi, binCount), lo, BinSize(lo, hi, binCount));
    var g := Grid(values, lo, hi, binCount);
    forall k | 0 <= k < binCount
      ensures bs[k] == g[k]
    {
    }
  }

  predicate X0Before(a: Bin, b: Bin) {
    a.x0 < b.x0
  }

  lemma MulLess(a: real, b: real, c: real)
    requires a < b && c > 0.0
    ensures a * c < b * c
  {
  }

  lemma MakeBinsAscending(c: seq<nat>, lo: real, size: real)
    requires size > 0.0
    ensures forall i, j :: 0 <= i < j < |c| ==> X0Before(MakeBins(c, lo, size)[i], MakeBins(c, lo, size)[j])
  {
    var bs := MakeBins(c, lo, size);
    forall i, j | 0 <= i < j < |c|
      ensures X0Before(bs[i], bs[j])
    {
      MulLess(i as real, j as real, size);
    }
  }

  lemma MakeBinsWidth(c: seq<nat>, lo: real, size: real)
    ensures forall b :: b in MakeBins(c, lo, size) ==> b.x1 - b.x0 == size
  {
    var bs := MakeBins(c, lo, size);
    forall k | 0 <= k < |bs|
      ensures bs[k].x1 - bs[k].x0 == size
    {
      MulSucc(k as real, size);
    }
  }

  lemma MulSucc(k: real, size: real)
    ensures (k + 1.0) * size == k * size + size
  {
  }

  /** The returned bins are in ascending order of position and each spans
      one bin width. */
  lemma HistogramAscending(values: seq<Number>, lo: real, hi: real, binCount: int)
    requires hi > lo && binCount > 0
    ensures var r := Histogram(values, lo, hi, binCount);
            forall i, j :: 0 <= i < j < |r| ==> r[i].x0 < r[j].x0
    ensures forall b :: b in Histogram(values, lo, hi, binCount) ==> b.x1 - b.x0 == BinSize(lo, hi, binCount)
  {
    if values != [] {
      var size := BinSize(lo, hi, binCount);
      var bs := MakeBins(Counts(values, lo, hi, binCount), lo, size);
      MakeBinsAscending(Counts(values, lo, hi, binCount), lo, size);
      MakeBinsWidth(Counts(values, lo, hi, binCount), lo, size);
      FilterKeepsOrder(bs, NonEmptyBin, X0Before);
    }
  }

  /** A value on a bin boundary `lo + k * size` is counted in bin `k`,
      the upper of the two bins sharing that boundary (capped at the last
      bin). */
  lemma BoundaryGoesUp(lo: real, size: real, binCount: nat, k: nat)
    requires size > 0.0 && binCount > 0
    ensures lo <= lo + k as real * size
    ensures BinIndex(lo + k as real * size, lo, size, binCount) == ClampInt(k, 0, binCount - 1)
  {
    assert k as real * size >= 0.0;
    ScaledFloor(lo, size, k);
  }

  /** `hi` itself goes to the last bin. */
  lemma HiInLastBin(lo: real, hi: real, binCount: nat)
    requires hi > lo && binCount > 0
    ensures BinIndex(hi, lo, BinSize(lo, hi, binCount), binCount) == binCount - 1
  {
    var size := BinSize(lo, hi, binCount);
    DivBySize(hi - lo, binCount as real);
    assert ((hi - lo) / size).Floor == binCount;
  }

  lemma DivBySize(d: real, n: real)
    requires d > 0.0 && n > 0.0
    ensures d / (d / n) == n
  {
    var s := d / n;
    assert s * n == d;
  }

  lemma ScaledFloor(lo: real, size: real, k: int)
    requires size > 0.0
    ensures ((lo + k as real * size - lo) / size).Floor == k
  {
    assert lo + k as real * size - lo == k as real * size;
    assert (k as real * size) / size == k as real;
  }

  /** A single value 5.0 on the duration grid fills exactly the bin
      `[5.0, 5.5)`. */
  lemma SingleValueExample(v: Number)
    requires v == Finite(5.0)
    ensures Histogram([v], 0.0, 10.0, 20) == [Bin(5.0, 5.5, 1)]
  {
    var values := [v];
    var c := Counts(values, 0.0, 10.0, 20);
    var size := BinSize(0.0, 10.0, 20);
    assert size == 0.5;
    assert BinIndex(5.0, 0.0, size, 20) == 10 by {
      BoundaryGoesUp(0.0, 0.5, 20, 10);
    }
    assert Init(values) == [] && Last(values) == v;
    assert InRange(v, 0.0, 10.0);
    assert c == Counts([], 0.0, 10.0, 20)[10 := 1];
    assert c == Zeros(20)[10 := 1];
    var bs := MakeBins(c, 0.0, size);
    assert bs == bs[..10] + [bs[10]] + bs[11..];
    FilterConcat(bs[..10] + [bs[10]], bs[11..], NonEmptyBin);
    FilterConcat(bs[..10], [bs[10]], NonEmptyBin);
    FilterDropsAll(bs[..10], NonEmptyBin);
    FilterDropsAll(bs[11..], NonEmptyBin);
    FilterSingle(bs[10], NonEmptyBin);
  }

  // ------------------------------------------------------ duration chart

  function MinutesNumber(t: Track): Number {
    Finite(MinutesOf(t))
  }

  predicate IsNumber(v: Number) {
    v.Finite?
  }

  predicate InChartRange(t: Track) {
    0.0 <= MinutesOf(t) <= 10.0
  }

  /** The chart's minute values: every record's minutes, NaN excluded. */
  function DurationValues(view: seq<Track>): seq<Number> {
    Filter(MapSeq(view, MinutesNumber), IsNumber)
  }

  /** The duration chart: 20 bins of half a minute over [0, 10]. Its
      counts add up to the number of records whose minutes lie in [0, 10],
      a missing duration counting as 0 minutes. */
  function DurationHistogram(view: seq<Track>): (r: seq<Bin>)
    ensures BinTotal(r) == |Filter(view, InChartRange)|
    ensures forall b :: b in r ==> b.count > 0
  {
    var m := MapSeq(view, MinutesNumber);
    assert forall x :: x in m ==> IsNumber(x);
    FilterKeepsAll(m, IsNumber);
    assert DurationValues(view) == m;
    HistogramTotal(m, 0.0, 10.0, 20);
    FilterMapCount(view, MinutesNumber, InRangePass(0.0, 10.0), InChartRange);
    Histogram(DurationValues(view), 0.0, 10.0, 20)
  }

  // ---------------------------------------------------------------- extent

  /** `getExtent`: the least and greatest number in `values`, or nothing
      when there is none (NaN is skipped). */
  method Extent(values: seq<Number>) returns (r: Option<(real, real)>)
    ensures r.None? <==> forall i :: 0 <= i < |values| ==> values[i].NaN?
    ensures r.Some? ==> exists i :: 0 <= i < |values| && values[i] == Finite(r.value.0)
    ensures r.Some? ==> exists i :: 0 <= i < |values| && values[i] == Finite(r.value.1)
    ensures r.Some? ==> forall i :: 0 <= i < |values| && values[i].Finite? ==>
                          r.value.0 <= values[i].value <= r.value.1
  {
    r := None;
    var k := 0;
    while k < |values|
      invariant 0 <= k <= |values|
      invariant r.None? <==> forall i :: 0 <= i < k ==> values[i].NaN?
      invariant r.Some? ==> exists i :: 0 <= i < k && values[i] == Finite(r.value.0)
      invariant r.Some? ==> exists i :: 0 <= i < k && values[i] == Finite(r.value.1)
      invariant r.Some? ==> forall i :: 0 <= i < k && values[i].Finite? ==>
                              r.value.0 <= values[i].value <= r.value.1
    {
      var v := values[k];
      if v.Finite? {
        if r.None? {
          r := Some((v.value, v.value));
        } else {
          var (lo, hi) := r.value;
          if v.value < lo {
            lo := v.value;
          }
          if v.value > hi {
            hi := v.value;
          }
          r := Some((lo, hi));
        }
      }
      k := k + 1;
    }
  }
}
