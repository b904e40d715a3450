/** The `{ sum, count }` accumulator the yearly-duration and trend charts
    keep per group, and the mean read off it. */
module Means {
  import opened Seqs
  import opened Grouping

  datatype Stats = Stats(sum: real, count: nat)

  /** A new group starts empty, whatever value opened it. */
  function StatsSeed<V>(v: V): Stats {
    Stats(0.0, 0)
  }

  /** `stats.sum += x; stats.count += 1`. */
  function AddTo(s: Stats, x: real): (r: Stats)
    ensures r.count == s.count + 1
  {
    Stats(s.sum + x, s.count + 1)
  }

  /** `stats.sum / stats.count`. */
  function Mean(s: Stats): real
    requires s.count > 0
  {
    s.sum / s.count as real
  }

  /** Folding values into an empty accumulator gives their sum and their
      number. */
  lemma {:induction false} FoldStats(vs: seq<real>)
    ensures FoldL(AddTo, Stats(0.0, 0), vs) == Stats(SumReal(vs), |vs|)
  {
    if vs != [] {
      FoldStats(Init(vs));
    }
  }

  /** A group's accumulator holds exactly the sum and number of its
      values. */
  lemma AggregateStats(vs: seq<real>)
    requires |vs| > 0
    ensures Aggregate(vs, StatsSeed, AddTo) == Stats(SumReal(vs), |vs|)
    ensures Mean(Aggregate(vs, StatsSeed, AddTo)) == SumReal(vs) / |vs| as real
  {
    FoldStats(vs);
  }

  /** A sum of values that are all at least `lo` is at least `lo` times
      their number, and likewise for an upper bound. */
  lemma {:induction false} SumRealBounds(vs: seq<real>, lo: real, hi: real)
    requires forall i :: 0 <= i < |vs| ==> lo <= vs[i] <= hi
    ensures lo * |vs| as real <= SumReal(vs) <= hi * |vs| as real
  {
    if vs != [] {
      SumRealBounds(Init(vs), lo, hi);
      assert Last(vs) == vs[|vs| - 1];
    }
  }

  /** The mean lies between the least and the greatest value. */
  lemma MeanBounds(vs: seq<real>, lo: real, hi: real)
    requires |vs| > 0
    requires forall i :: 0 <= i < |vs| ==> lo <= vs[i] <= hi
    ensures lo <= SumReal(vs) / |vs| as real <= hi
  {
    SumRealBounds(vs, lo, hi);
    DivideBounds(SumReal(vs), |vs| as real, lo, hi);
  }

  lemma DivideBounds(a: real, n: real, lo: real, hi: real)
    requires n > 0.0 && lo * n <= a <= hi * n
    ensures lo <= a / n <= hi
  {
    assert a / n * n == a;
  }
}
