/** A line chart's points: the entries of a year-keyed `{ sum, count }` map
    sorted by year, each turned into the year and its mean. The yearly
    duration chart and every line of the genre trend chart are built this
    way. */
module Series {
  import opened Seqs
  import opened Grouping
  import opened Sorting
  import opened Means

  datatype Point = Point(year: int, value: real)

  /** The comparator `(a, b) => a[0] - b[0]` sorts ascending by year, which
      is the descending sort by the negated year. */
  function NegYear(e: (int, Stats)): int {
    -e.0
  }

  /** `{ year, value: stats.sum / stats.count }`; every entry of the maps
      this is applied to has a positive count. */
  function ToPoint(e: (int, Stats)): Point {
    Point(e.0, if e.1.count > 0 then Mean(e.1) else 0.0)
  }

  function Points(es: seq<(int, Stats)>): (r: seq<Point>)
    ensures |r| == |es|
  {
    MapSeq(SortDesc(es, NegYear), ToPoint)
  }

  /** Entries with the same year are the same entry when the map has one
      entry per year. */
  lemma SameYearSameEntry(es: seq<(int, Stats)>, a: (int, Stats), b: (int, Stats))
    requires Distinct(Firsts(es))
    requires a in es && b in es && a.0 == b.0
    ensures a == b
  {
    var i :| 0 <= i < |es| && es[i] == a;
    var j :| 0 <= j < |es| && es[j] == b;
    assert Firsts(es)[i] == Firsts(es)[j];
  }

  /** The points of a map with one entry per year: years strictly
      ascending, one point per entry, and nothing else. */
  lemma PointsSpec(es: seq<(int, Stats)>)
    requires Distinct(Firsts(es))
    ensures forall i, j :: 0 <= i < j < |Points(es)| ==> Points(es)[i].year < Points(es)[j].year
    ensures forall e :: e in es ==> ToPoint(e) in Points(es)
    ensures forall p :: p in Points(es) ==> exists e :: e in es && ToPoint(e) == p
  {
    PointsAscending(es);
    PointsMembers(es);
  }

  lemma PointsAscending(es: seq<(int, Stats)>)
    requires Distinct(Firsts(es))
    ensures forall i, j :: 0 <= i < j < |Points(es)| ==> Points(es)[i].year < Points(es)[j].year
  {
    var s := SortDesc(es, NegYear);
    var r := Points(es);
    MultisetKeepsMembers(s, es);
    DistinctEntries(es);
    DistinctPermutation(s, es);
    forall i, j | 0 <= i < j < |r|
      ensures r[i].year < r[j].year
    {
      assert r[i].year == s[i].0 && r[j].year == s[j].0;
      assert s[i] in es && s[j] in es && s[i] != s[j];
      assert NegYear(s[i]) >= NegYear(s[j]);
      if s[i].0 == s[j].0 {
        SameYearSameEntry(es, s[i], s[j]);
      }
    }
  }

  lemma PointsMembers(es: seq<(int, Stats)>)
    ensures forall e :: e in es ==> ToPoint(e) in Points(es)
    ensures forall p :: p in Points(es) ==> exists e :: e in es && ToPoint(e) == p
  {
    var s := SortDesc(es, NegYear);
    var r := Points(es);
    MultisetKeepsMembers(s, es);
    forall e | e in es
      ensures ToPoint(e) in r
    {
      var i :| 0 <= i < |s| && s[i] == e;
      assert r[i] == ToPoint(e);
    }
    forall p | p in r
      ensures exists e :: e in es && ToPoint(e) == p
    {
      var i :| 0 <= i < |r| && r[i] == p;
      assert s[i] in es && ToPoint(s[i]) == p;
    }
  }

  lemma DistinctEntries<K, V>(es: seq<(K, V)>)
    requires Distinct(Firsts(es))
    ensures Distinct(es)
  {
    forall i, j | 0 <= i < j < |es|
      ensures es[i] != es[j]
    {
      assert Firsts(es)[i] != Firsts(es)[j];
    }
  }

  /** The chart line built from a stream of `(year, value)` pairs: the
      per-year `{ sum, count }` map, then its points. */
  function SeriesOf(vs: seq<(int, real)>): seq<Point> {
    Points(Accumulate(vs, StatsSeed, AddTo))
  }

  /** One entry of the per-year map: a year of the stream, holding the sum
      and number of the values paired with it. */
  lemma SeriesEntry(vs: seq<(int, real)>, i: nat)
    requires i < |Accumulate(vs, StatsSeed, AddTo)|
    ensures var e := Accumulate(vs, StatsSeed, AddTo)[i];
            && ValuesOf(vs, e.0) != []
            && e.1 == Stats(SumReal(ValuesOf(vs, e.0)), |ValuesOf(vs, e.0)|)
  {
    AccumulateSpec(vs, StatsSeed, AddTo, i);
    AggregateStats(ValuesOf(vs, Keys(vs)[i]));
  }

  /** A line has one point per year of its stream, years strictly
      ascending, each valued at the mean of the values paired with it. */
  lemma SeriesSpec(vs: seq<(int, real)>)
    ensures forall i, j :: 0 <= i < j < |SeriesOf(vs)| ==> SeriesOf(vs)[i].year < SeriesOf(vs)[j].year
    ensures forall p :: p in SeriesOf(vs) ==>
              ValuesOf(vs, p.year) != [] && p.value == SumReal(ValuesOf(vs, p.year)) / |ValuesOf(vs, p.year)| as real
    ensures forall y :: ValuesOf(vs, y) != [] ==> exists p :: p in SeriesOf(vs) && p.year == y
  {
    var es := Accumulate(vs, StatsSeed, AddTo);
    PointsSpec(es);
    forall p | p in SeriesOf(vs)
      ensures ValuesOf(vs, p.year) != [] && p.value == SumReal(ValuesOf(vs, p.year)) / |ValuesOf(vs, p.year)| as real
    {
      var e :| e in es && ToPoint(e) == p;
      var i :| 0 <= i < |es| && es[i] == e;
      SeriesEntry(vs, i);
    }
    forall y | ValuesOf(vs, y) != []
      ensures exists p :: p in SeriesOf(vs) && p.year == y
    {
      ValuesOfPresence(vs, y);
      var i := FirstIndex(Keys(vs), y);
      assert es[i].0 == Firsts(es)[i] == y;
      assert es[i] in es;
      assert ToPoint(es[i]).year == y;
    }
  }
}
