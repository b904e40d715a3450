/** The "genre popularity trend" line chart. The five most frequent
    non-blank tags of the view are picked first. A second scan then files
    the popularity of every dated record under each of its tags that was
    picked, and under its year. Each picked tag that received a value
    becomes a line of per-year mean popularity, years ascending. The lines
    come in the order in which their tags first received a value, not in
    frequency order. */
module Trend {
  import opened Common
  import opened Seqs
  import opened Grouping
  import opened Means
  import opened Series
  import opened Genres
  import opened Tracks
  import opened GenreCounts

  const TrendSize: nat := 5

  /** The picked tags: counting skips blank tags, and the five most
      frequent are kept, most frequent first. */
  function TopGenres(data: seq<Track>): (top: seq<string>)
    ensures |top| <= TrendSize
    ensures var tags := Filter(Tags(data), NonBlank);
            |top| == if |Dedup(tags)| <= TrendSize then |Dedup(tags)| else TrendSize
  {
    Firsts(TopTags(Filter(Tags(data), NonBlank), TrendSize))
  }

  /** The year a record's popularity is filed under: its date is non-empty
      and names a non-zero year. Unlike the other charts, no range check
      applies here. */
  function TrendYear(t: Track, yearOf: string -> Option<int>): (r: Option<int>)
    ensures r.Some? <==> t.releaseDate != "" && yearOf(t.releaseDate).Some? && yearOf(t.releaseDate).value != 0
    ensures r.Some? ==> r.value == yearOf(t.releaseDate).value
  {
    if t.releaseDate == "" then None
    else
      match yearOf(t.releaseDate)
      case None => None
      case Some(y) => if y == 0 then None else Some(y)
  }

  function InTop(top: seq<string>): string -> bool {
    (g: string) => g in top
  }

  function Tagged(y: int, p: real): string -> (string, (int, real)) {
    (g: string) => (g, (y, p))
  }

  /** What one record files: `(tag, (year, popularity))` for each of its
      picked tags, in list order (a tag listed twice is filed twice). */
  function RecordPairs(t: Track, yearOf: string -> Option<int>, top: seq<string>): seq<(string, (int, real))> {
    match TrendYear(t, yearOf)
    case None => []
    case Some(y) => MapSeq(Filter(t.genres, InTop(top)), Tagged(y, t.popularity as real))
  }

  /** Everything the second scan files, in scan order. */
  function TrendPairs(data: seq<Track>, yearOf: string -> Option<int>, top: seq<string>): seq<(string, (int, real))> {
    if data == [] then []
    else TrendPairs(Init(data), yearOf, top) + RecordPairs(Last(data), yearOf, top)
  }

  /** `new Map()` for a tag met for the first time. */
  function NewYearMap(v: (int, real)): seq<(int, Stats)> {
    []
  }

  /** The update of a tag's year map with one `(year, popularity)`. */
  function AddToYearMap(m: seq<(int, Stats)>, v: (int, real)): seq<(int, Stats)> {
    Upsert(m, v.0, v.1, StatsSeed, AddTo)
  }

  /** The tag -> year -> `{ sum, count }` map. */
  function GenreYearMap(data: seq<Track>, yearOf: string -> Option<int>, top: seq<string>)
    : seq<(string, seq<(int, Stats)>)>
  {
    Accumulate(TrendPairs(data, yearOf, top), NewYearMap, AddToYearMap)
  }

  datatype Line = Line(genre: string, values: seq<Point>)

  function ToLine(e: (string, seq<(int, Stats)>)): Line {
    Line(e.0, Points(e.1))
  }

  function HasValues(l: Line): bool {
    l.values != []
  }

  /** The chart's lines; a tag that received no value draws none. */
  function Lines(data: seq<Track>, yearOf: string -> Option<int>): (r: seq<Line>)
    ensures forall l :: l in r ==> l.values != []
  {
    Filter(MapSeq(GenreYearMap(data, yearOf, TopGenres(data)), ToLine), HasValues)
  }

  // ------------------------------------------------------------ proofs

  /** The picked tags are distinct, non-blank tags of the view, and a tag
      left out is no more frequent than any tag picked. */
  lemma TopGenresSpec(data: seq<Track>)
    ensures Distinct(TopGenres(data))
    ensures forall g :: g in TopGenres(data) ==> g != "" && g in Tags(data)
    ensures var tags := Filter(Tags(data), NonBlank);
            forall g, h :: g in tags && g !in TopGenres(data) && h in TopGenres(data) ==>
              multiset(tags)[h] >= multiset(tags)[g]
  {
    var tags := Filter(Tags(data), NonBlank);
    var c := TopTags(tags, TrendSize);
    TopTagsCounts(tags, TrendSize);
    forall g | g in TopGenres(data)
      ensures g != "" && g in Tags(data)
    {
      var i :| 0 <= i < |c| && Firsts(c)[i] == g;
      assert c[i] in c;
    }
    forall g, h | g in tags && g !in TopGenres(data) && h in TopGenres(data)
      ensures multiset(tags)[h] >= multiset(tags)[g]
    {
      TopGenresRank(data, g, h);
    }
  }

  lemma TopGenresRank(data: seq<Track>, g: string, h: string)
    requires g in Filter(Tags(data), NonBlank) && g !in TopGenres(data)
    requires h in TopGenres(data)
    ensures multiset(Filter(Tags(data), NonBlank))[h] >= multiset(Filter(Tags(data), NonBlank))[g]
  {
    var tags := Filter(Tags(data), NonBlank);
    var c := TopTags(tags, TrendSize);
    var i :| 0 <= i < |c| && Firsts(c)[i] == h;
    assert c[i].1 == multiset(tags)[h] by {
      TopTagsCounts(tags, TrendSize);
      assert c[i] in c;
    }
    assert c[i].1 >= multiset(tags)[g] by {
      forall e | e in c
        ensures e.0 != g
      {
        var j :| 0 <= j < |c| && c[j] == e;
        assert Firsts(c)[j] == e.0;
      }
      TopTagsLargest(tags, TrendSize, g);
      assert c[i] in c;
    }
  }

  /** Updating a year map value by value builds the per-year grouping of
      those values. */
  lemma {:induction false} FoldYearMap(vs: seq<(int, real)>)
    ensures FoldL(AddToYearMap, [], vs) == Accumulate(vs, StatsSeed, AddTo)
  {
    if vs != [] {
      FoldYearMap(Init(vs));
    }
  }

  lemma TrendPairsSnoc(data: seq<Track>, t: Track, yearOf: string -> Option<int>, top: seq<string>)
    ensures TrendPairs(data + [t], yearOf, top) == TrendPairs(data, yearOf, top) + RecordPairs(t, yearOf, top)
  {
    InitLastOfSnoc(data, t);
  }

  /** A pair is filed exactly when some dated record lists the picked tag,
      with that record's year and popularity. */
  lemma {:induction false} TrendPairsMembers(data: seq<Track>, yearOf: string -> Option<int>, top: seq<string>,
                                             g: string, y: int, p: real)
    ensures (g, (y, p)) in TrendPairs(data, yearOf, top) <==>
              exists t :: t in data && TrendYear(t, yearOf) == Some(y) && g in t.genres && g in top
                          && p == t.popularity as real
  {
    if data != [] {
      var q, t := Init(data), Last(data);
      InitLast(data);
      TrendPairsMembers(q, yearOf, top, g, y, p);
      TrendPairsSnoc(q, t, yearOf, top);
      RecordPairsMembers(t, yearOf, top, g, y, p);
      assert forall u :: u in data <==> u in q || u == t;
    }
  }

  lemma RecordPairsMembers(t: Track, yearOf: string -> Option<int>, top: seq<string>, g: string, y: int, p: real)
    ensures (g, (y, p)) in RecordPairs(t, yearOf, top) <==>
              TrendYear(t, yearOf) == Some(y) && g in t.genres && g in top && p == t.popularity as real
  {
    if TrendYear(t, yearOf).Some? {
      var k := TrendYear(t, yearOf).value;
      var f := Filter(t.genres, InTop(top));
      var m := MapSeq(f, Tagged(k, t.popularity as real));
      if g in t.genres && g in top {
        FilterMember(t.genres, InTop(top), g);
        var i :| 0 <= i < |f| && f[i] == g;
        assert m[i] == (g, (k, t.popularity as real));
      }
      if (g, (y, p)) in m {
        var i :| 0 <= i < |m| && m[i] == (g, (y, p));
        assert f[i] in f;
      }
    }
  }

  /** One line per tag that received a value, in the order tags first
      received one; each line is the per-year series of the values filed
      under its tag. */
  lemma LinesSpec(data: seq<Track>, yearOf: string -> Option<int>)
    ensures var ps := TrendPairs(data, yearOf, TopGenres(data));
            && |Lines(data, yearOf)| == |Keys(ps)|
            && forall i :: 0 <= i < |Keys(ps)| ==>
                 Lines(data, yearOf)[i] == Line(Keys(ps)[i], SeriesOf(ValuesOf(ps, Keys(ps)[i])))
  {
    var ps := TrendPairs(data, yearOf, TopGenres(data));
    var es := GenreYearMap(data, yearOf, TopGenres(data));
    var ls := MapSeq(es, ToLine);
    forall i | 0 <= i < |Keys(ps)|
      ensures ls[i] == Line(Keys(ps)[i], SeriesOf(ValuesOf(ps, Keys(ps)[i])))
      ensures HasValues(ls[i])
    {
      var vs := ValuesOf(ps, Keys(ps)[i]);
      AccumulateSpec(ps, NewYearMap, AddToYearMap, i);
      FoldYearMap(vs);
      assert vs[0] in vs;
      LineNonEmpty(vs);
    }
    FilterKeepsAll(ls, HasValues);
  }

  lemma LineNonEmpty(vs: seq<(int, real)>)
    requires vs != []
    ensures SeriesOf(vs) != []
  {
    assert Firsts(vs)[0] == vs[0].0;
  }

  /** Every point of every line: the line's tag is a picked tag, the year
      is that of a dated record listing it, and the value is the mean of
      the popularity values filed under the tag and year; years ascend
      strictly within a line. */
  lemma LinePoints(data: seq<Track>, yearOf: string -> Option<int>, l: Line)
    requires l in Lines(data, yearOf)
    ensures l.genre in TopGenres(data)
    ensures forall i, j :: 0 <= i < j < |l.values| ==> l.values[i].year < l.values[j].year
    ensures forall pt :: pt in l.values ==>
              var vs := ValuesOf(ValuesOf(TrendPairs(data, yearOf, TopGenres(data)), l.genre), pt.year);
              vs != [] && pt.value == SumReal(vs) / |vs| as real
  {
    var ps := TrendPairs(data, yearOf, TopGenres(data));
    LinesSpec(data, yearOf);
    var i :| 0 <= i < |Lines(data, yearOf)| && Lines(data, yearOf)[i] == l;
    assert l == Line(Keys(ps)[i], SeriesOf(ValuesOf(ps, Keys(ps)[i])));
    assert Keys(ps)[i] in Keys(ps);
    LineGenre(data, yearOf, Keys(ps)[i]);
    SeriesSpec(ValuesOf(ps, l.genre));
  }

  /** Only picked tags receive values. */
  lemma LineGenre(data: seq<Track>, yearOf: string -> Option<int>, g: string)
    requires g in Keys(TrendPairs(data, yearOf, TopGenres(data)))
    ensures g in TopGenres(data)
  {
    var top := TopGenres(data);
    var ps := TrendPairs(data, yearOf, top);
    var k :| 0 <= k < |ps| && Firsts(ps)[k] == g;
    assert ps[k] in ps;
    TrendPairsMembers(data, yearOf, top, g, ps[k].1.0, ps[k].1.1);
  }
}
