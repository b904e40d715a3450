/** The "average track duration by release year" line chart: every record
    of the view whose date gives a catalog year and whose duration is a
    positive number of minutes contributes its minutes to its year; the
    chart shows each such year once, ascending, with the mean. */
module Yearly {
  import opened Common
  import opened Seqs
  import opened Grouping
  import opened Means
  import opened Series
  import opened Tracks

  /** The year under which record `t` is counted, if it is counted at all:
      its date is non-empty, names a non-zero year within the catalog
      years, and its duration is positive. */
  function DurationYear(t: Track, yearOf: string -> Option<int>): (r: Option<int>)
    ensures r.Some? <==>
              && t.releaseDate != "" && yearOf(t.releaseDate).Some?
              && InCatalogYears(yearOf(t.releaseDate).value) && MinutesOf(t) > 0.0
    ensures r.Some? ==> r.value == yearOf(t.releaseDate).value
  {
    if t.releaseDate == "" then None
    else
      match yearOf(t.releaseDate)
      case None => None
      case Some(y) =>
        if y == 0 then None
        else if y < YearMin || y > YearMax then None
        else if MinutesOf(t) <= 0.0 then None
        else Some(y)
  }

  /** The `(year, minutes)` pairs the scan feeds into its map, in record
      order. */
  function Contributions(data: seq<Track>, yearOf: string -> Option<int>): seq<(int, real)> {
    if data == [] then []
    else Contributions(Init(data), yearOf) + Contribution(Last(data), yearOf)
  }

  function Contribution(t: Track, yearOf: string -> Option<int>): seq<(int, real)> {
    match DurationYear(t, yearOf)
    case Some(y) => [(y, MinutesOf(t))]
    case None => []
  }

  lemma ContributionsSnoc(data: seq<Track>, t: Track, yearOf: string -> Option<int>)
    ensures Contributions(data + [t], yearOf) == Contributions(data, yearOf) + Contribution(t, yearOf)
  {
    InitLastOfSnoc(data, t);
  }

  function InYear(yearOf: string -> Option<int>, y: int): Track -> bool {
    (t: Track) => DurationYear(t, yearOf) == Some(y)
  }

  /** The records counted under year `y`, in view order. */
  function RecordsOf(data: seq<Track>, yearOf: string -> Option<int>, y: int): seq<Track> {
    Filter(data, InYear(yearOf, y))
  }

  /** The chart's points, years strictly ascending. */
  function YearlyDurations(data: seq<Track>, yearOf: string -> Option<int>): (r: seq<Point>)
    ensures forall i, j :: 0 <= i < j < |r| ==> r[i].year < r[j].year
  {
    SeriesSpec(Contributions(data, yearOf));
    SeriesOf(Contributions(data, yearOf))
  }

  /** The minutes the scan files under `y` are exactly those of the
      records counted under `y`, in view order. */
  lemma {:induction false} ContributionValues(data: seq<Track>, yearOf: string -> Option<int>, y: int)
    ensures ValuesOf(Contributions(data, yearOf), y) == MapSeq(RecordsOf(data, yearOf, y), MinutesOf)
  {
    if data != [] {
      var q, t := Init(data), Last(data);
      InitLast(data);
      ContributionValues(q, yearOf, y);
      ContributionValuesStep(q, t, yearOf, y);
    }
  }

  lemma ContributionValuesStep(q: seq<Track>, t: Track, yearOf: string -> Option<int>, y: int)
    requires ValuesOf(Contributions(q, yearOf), y) == MapSeq(RecordsOf(q, yearOf, y), MinutesOf)
    ensures ValuesOf(Contributions(q + [t], yearOf), y) == MapSeq(RecordsOf(q + [t], yearOf, y), MinutesOf)
  {
    ValuesStep(q, t, yearOf, y);
    RecordsStep(q, t, yearOf, y);
  }

  function MinutesIf(t: Track, yearOf: string -> Option<int>, y: int): seq<real> {
    if DurationYear(t, yearOf) == Some(y) then [MinutesOf(t)] else []
  }

  lemma ValuesStep(q: seq<Track>, t: Track, yearOf: string -> Option<int>, y: int)
    ensures ValuesOf(Contributions(q + [t], yearOf), y) == ValuesOf(Contributions(q, yearOf), y) + MinutesIf(t, yearOf, y)
  {
    var c := Contributions(q, yearOf);
    ContributionsSnoc(q, t, yearOf);
    if DurationYear(t, yearOf).Some? {
      ValuesOfSnoc(c, (DurationYear(t, yearOf).value, MinutesOf(t)), y);
    } else {
      assert c + Contribution(t, yearOf) == c;
    }
  }

  lemma RecordsStep(q: seq<Track>, t: Track, yearOf: string -> Option<int>, y: int)
    ensures MapSeq(RecordsOf(q + [t], yearOf, y), MinutesOf) == MapSeq(RecordsOf(q, yearOf, y), MinutesOf) + MinutesIf(t, yearOf, y)
  {
    var last := Filter([t], InYear(yearOf, y));
    assert RecordsOf(q + [t], yearOf, y) == RecordsOf(q, yearOf, y) + last by {
      FilterConcat(q, [t], InYear(yearOf, y));
    }
    assert MapSeq(last, MinutesOf) == MinutesIf(t, yearOf, y) by {
      FilterSingle(t, InYear(yearOf, y));
    }
    MapSeqConcat(RecordsOf(q, yearOf, y), last, MinutesOf);
  }

  /** The chart: years strictly ascending, each a catalog year with at
      least one counted record, its value the mean of their minutes; and
      every year with a counted record appears. */
  lemma YearlySpec(data: seq<Track>, yearOf: string -> Option<int>)
    ensures var r := YearlyDurations(data, yearOf);
            forall i, j :: 0 <= i < j < |r| ==> r[i].year < r[j].year
    ensures forall p :: p in YearlyDurations(data, yearOf) ==>
              && InCatalogYears(p.year)
              && RecordsOf(data, yearOf, p.year) != []
              && p.value == SumReal(MapSeq(RecordsOf(data, yearOf, p.year), MinutesOf))
                              / |RecordsOf(data, yearOf, p.year)| as real
    ensures forall y :: RecordsOf(data, yearOf, y) != [] ==>
              exists p :: p in YearlyDurations(data, yearOf) && p.year == y
  {
    var c := Contributions(data, yearOf);
    SeriesSpec(c);
    forall p | p in YearlyDurations(data, yearOf)
      ensures && InCatalogYears(p.year)
              && RecordsOf(data, yearOf, p.year) != []
              && p.value == SumReal(MapSeq(RecordsOf(data, yearOf, p.year), MinutesOf))
                              / |RecordsOf(data, yearOf, p.year)| as real
    {
      ContributionValues(data, yearOf, p.year);
      var rs := RecordsOf(data, yearOf, p.year);
      assert rs[0] in rs;
    }
    forall y | RecordsOf(data, yearOf, y) != []
      ensures exists p :: p in YearlyDurations(data, yearOf) && p.year == y
    {
      ContributionValues(data, yearOf, y);
    }
  }
}
