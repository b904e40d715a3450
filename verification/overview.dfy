/** `getStatistics`: the headline figures over the filtered view — the
    mean popularity, the mean duration in minutes and the number of
    records, all three zero for an empty view. */
module Overview {
  import opened Common
  import opened Seqs
  import opened Grouping
  import opened Means
  import opened Tracks
  import opened View

  datatype Summary = Summary(avgPop: real, avgDuration: real, trackCount: nat)

  function PopularityOf(t: Track): real {
    t.popularity as real
  }

  /** `d3.mean(view, f) || 0` for values that are never NaN: the mean, or 0
      for an empty view. */
  function Average(view: seq<Track>, f: Track -> real): real {
    if view == [] then 0.0 else SumReal(MapSeq(view, f)) / |view| as real
  }

  function Statistics(view: seq<Track>): (s: Summary)
    ensures s.trackCount == |view|
    ensures view == [] ==> s == Summary(0.0, 0.0, 0)
  {
    Summary(Average(view, PopularityOf), Average(view, MinutesOf), |view|)
  }

  /** The figures for a genre choice and year range: never more records
      than the dataset holds, and all zeros when none is kept. */
  function StatisticsOf(data: seq<Track>, selected: string, range: YearRange, yearOf: string -> Option<int>): (r: Summary)
    ensures r.trackCount <= |data|
    ensures r.trackCount == 0 ==> r == Summary(0.0, 0.0, 0)
  {
    Statistics(FilteredView(data, selected, range, yearOf))
  }

  // ------------------------------------------------------------ proofs

  /** Each mean is what a `{ sum, count }` accumulator fed with the view's
      values reports. */
  lemma StatisticsAccumulator(view: seq<Track>)
    requires view != []
    ensures Statistics(view).avgPop == Mean(FoldL(AddTo, Stats(0.0, 0), MapSeq(view, PopularityOf)))
    ensures Statistics(view).avgDuration == Mean(FoldL(AddTo, Stats(0.0, 0), MapSeq(view, MinutesOf)))
  {
    FoldStats(MapSeq(view, PopularityOf));
    FoldStats(MapSeq(view, MinutesOf));
  }

  /** When every popularity lies in `[lo, hi]` so does the mean popularity,
      and a view without negative durations has a non-negative mean
      duration. */
  lemma StatisticsBounds(view: seq<Track>, lo: int, hi: int)
    requires forall t :: t in view ==> lo <= t.popularity <= hi
    ensures view != [] ==> lo as real <= Statistics(view).avgPop <= hi as real
    ensures (forall t :: t in view ==> MinutesOf(t) >= 0.0) ==> Statistics(view).avgDuration >= 0.0
  {
    if view != [] {
      var ps := MapSeq(view, PopularityOf);
      forall i | 0 <= i < |ps|
        ensures lo as real <= ps[i] <= hi as real
      {
        assert view[i] in view;
      }
      MeanBounds(ps, lo as real, hi as real);
      if forall t :: t in view ==> MinutesOf(t) >= 0.0 {
        var ms := MapSeq(view, MinutesOf);
        forall i | 0 <= i < |ms|
          ensures 0.0 <= ms[i] <= SumReal(ms)
        {
          assert view[i] in view;
          SumRealAtLeast(ms, i);
        }
        MeanBounds(ms, 0.0, SumReal(ms));
      }
    }
  }

  lemma {:induction false} SumRealConcat(a: seq<real>, b: seq<real>)
    ensures SumReal(a + b) == SumReal(a) + SumReal(b)
    decreases |b|
  {
    if b == [] {
      assert a + b == a;
    } else {
      assert Init(a + b) == a + Init(b);
      assert Last(a + b) == Last(b);
      SumRealConcat(a, Init(b));
    }
  }

  /** A sum of non-negative values is at least each of them. */
  lemma SumRealAtLeast(s: seq<real>, i: nat)
    requires i < |s|
    requires forall j :: 0 <= j < |s| ==> s[j] >= 0.0
    ensures SumReal(s) >= s[i]
  {
    assert s == s[..i] + [s[i]] + s[i + 1..];
    SumRealConcat(s[..i] + [s[i]], s[i + 1..]);
    SumRealConcat(s[..i], [s[i]]);
    SumRealNonNegative(s[..i]);
    SumRealNonNegative(s[i + 1..]);
  }

  lemma {:induction false} SumRealNonNegative(s: seq<real>)
    requires forall j :: 0 <= j < |s| ==> s[j] >= 0.0
    ensures SumReal(s) >= 0.0
  {
    if s != [] {
      SumRealNonNegative(Init(s));
    }
  }

  /** The means of two views combine as weighted means: the total of a
      concatenation is the sum of the totals, for the popularity and the
      duration alike. */
  lemma MergeAverage(a: seq<Track>, b: seq<Track>, f: Track -> real)
    ensures Average(a + b, f) * |a + b| as real == Average(a, f) * |a| as real + Average(b, f) * |b| as real
  {
    MapSeqConcat(a, b, f);
    SumRealConcat(MapSeq(a, f), MapSeq(b, f));
    AverageTotal(a, f);
    AverageTotal(b, f);
    AverageTotal(a + b, f);
  }

  /** The mean times the number of records is the total. */
  lemma AverageTotal(v: seq<Track>, f: Track -> real)
    ensures Average(v, f) * |v| as real == SumReal(MapSeq(v, f))
  {
    if v != [] {
      var n := |v| as real;
      var t := SumReal(MapSeq(v, f));
      assert t / n * n == t;
    }
  }

  /** Records dated 2010, 2015 and 2020 with popularity 50, 70 and 90,
      every genre, years 2012 to 2025: the two later records remain and
      their mean popularity is 80. */
  lemma RangeExample(t1: Track, t2: Track, t3: Track, yearOf: string -> Option<int>)
    requires t1.releaseDate != "" && yearOf(t1.releaseDate) == Some(2010) && t1.popularity == 50
    requires t2.releaseDate != "" && yearOf(t2.releaseDate) == Some(2015) && t2.popularity == 70
    requires t3.releaseDate != "" && yearOf(t3.releaseDate) == Some(2020) && t3.popularity == 90
    ensures FilteredView([t1, t2, t3], All, YearRange(2012, 2025), yearOf) == [t2, t3]
    ensures StatisticsOf([t1, t2, t3], All, YearRange(2012, 2025), yearOf).trackCount == 2
    ensures StatisticsOf([t1, t2, t3], All, YearRange(2012, 2025), yearOf).avgPop == 80.0
  {
    ExampleView(t1, t2, t3, yearOf);
    ExampleMean(t2, t3);
  }

  lemma ExampleView(t1: Track, t2: Track, t3: Track, yearOf: string -> Option<int>)
    requires t1.releaseDate != "" && yearOf(t1.releaseDate) == Some(2010)
    requires t2.releaseDate != "" && yearOf(t2.releaseDate) == Some(2015)
    requires t3.releaseDate != "" && yearOf(t3.releaseDate) == Some(2020)
    ensures FilteredView([t1, t2, t3], All, YearRange(2012, 2025), yearOf) == [t2, t3]
  {
    var range := YearRange(2012, 2025);
    var keep := KeepPass(All, range, yearOf);
    FilteredViewSpec([t1, t2, t3], All, range, yearOf);
    assert !keep(t1) && keep(t2) && keep(t3);
    FilterThree(t1, t2, t3, keep);
  }

  lemma FilterThree<T>(a: T, b: T, c: T, p: T -> bool)
    requires !p(a) && p(b) && p(c)
    ensures Filter([a, b, c], p) == [b, c]
  {
    assert Init([a, b, c]) == [a, b] && Last([a, b, c]) == c;
    assert Init([a, b]) == [a] && Last([a, b]) == b;
    assert Filter([a], p) == [] by {
      FilterSingle(a, p);
    }
    assert Filter([a, b], p) == [b];
  }

  lemma ExampleMean(t2: Track, t3: Track)
    requires t2.popularity == 70 && t3.popularity == 90
    ensures Statistics([t2, t3]).avgPop == 80.0
  {
    var pops := MapSeq([t2, t3], PopularityOf);
    assert pops == [70.0, 90.0];
    assert Init(pops) == [70.0];
    assert Init([70.0]) == [];
    assert SumReal(pops) == 160.0;
  }
}
