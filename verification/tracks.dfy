/** Ingestion: the two catalog files are read as rows of text cells, rows
    whose release date does not resolve to a catalog year are dropped, and
    the rest are normalised into one `Track` shape. The historical file
    comes first, the modern file after it. */
module Tracks {
  import opened Common
  import opened Seqs
  import opened Genres

  datatype Period = Historical | Modern

  /** A numeric CSV cell as unary `+` reads it: an empty cell, text that is
      not a number, or a number. */
  datatype Cell<T> = Blank | Junk | Num(value: T)

  /** The `explicit` cell: CSV text, or a native boolean. */
  datatype FlagCell = FlagText(text: string) | FlagBool(flag: bool)

  /** One raw row. The historical file fills `durationMs`
      (`track_duration_ms`); the modern file fills `durationMin`
      (`track_duration_min`). A missing text column reads as "". */
  datatype Row = Row(
    trackId: string,
    trackName: string,
    popularity: Cell<int>,
    durationMs: Cell<real>,
    durationMin: Cell<real>,
    explicit: FlagCell,
    artistName: string,
    artistPopularity: Cell<int>,
    followers: Cell<int>,
    genres: GenreCell,
    albumName: string,
    releaseDate: string,
    albumType: string)

  /** One normalised record. `durationMin` exists only on modern records. */
  datatype Track = Track(
    trackId: string,
    trackName: string,
    popularity: int,
    durationMin: Option<real>,
    durationMs: Number,
    explicit: bool,
    artistName: string,
    artistPopularity: int,
    followers: int,
    genres: seq<string>,
    albumName: string,
    releaseDate: string,
    albumType: string,
    period: Period)

  /** `+x || 0`: the number read, with a blank, non-numeric or zero cell
      giving 0. */
  function Coerce(c: Cell<int>): (n: int)
    ensures c.Num? ==> n == c.value
    ensures !c.Num? ==> n == 0
  {
    if c.Num? then c.value else 0
  }

  function CoerceReal(c: Cell<real>): (x: real)
    ensures c.Num? ==> x == c.value
    ensures !c.Num? ==> x == 0.0
  {
    if c.Num? then c.value else 0.0
  }

  /** `(d.track_duration_min || 0) * 60000` applied to the raw cell text: an
      empty cell is falsy and gives 0, non-numeric text gives NaN, and a
      number is scaled to milliseconds. */
  function ModernMs(c: Cell<real>): (ms: Number)
    ensures ms == Finite(0.0) <==> c.Blank? || (c.Num? && c.value == 0.0)
    ensures ms.NaN? <==> c.Junk?
    ensures c.Num? ==> ms == Finite(c.value * 60000.0)
  {
    match c
    case Blank => Finite(0.0)
    case Junk => NaN
    case Num(m) => Finite(m * 60000.0)
  }

  /** `isValidDate`: the date text is non-empty and its year is a number
      within the catalog years. */
  predicate ValidDate(s: string, yearOf: string -> Option<int>) {
    s != "" && yearOf(s).Some? && InCatalogYears(yearOf(s).value)
  }

  /** `explicit === word || explicit === true`. */
  predicate ExplicitFlag(f: FlagCell, word: string) {
    match f
    case FlagText(s) => s == word
    case FlagBool(b) => b
  }

  function NormalizeHistorical(r: Row): (t: Track)
    ensures t.period == Historical && t.durationMin == None
    ensures t.durationMs == Finite(CoerceReal(r.durationMs))
    ensures t.explicit <==> r.explicit == FlagText("True") || r.explicit == FlagBool(true)
    ensures t.genres == ParseGenres(r.genres)
    ensures t.releaseDate == r.releaseDate
  {
    Track(r.trackId, r.trackName, Coerce(r.popularity), None,
          Finite(CoerceReal(r.durationMs)), ExplicitFlag(r.explicit, "True"),
          r.artistName, Coerce(r.artistPopularity), Coerce(r.followers),
          ParseGenres(r.genres), r.albumName, r.releaseDate, r.albumType, Historical)
  }

  function NormalizeModern(r: Row): (t: Track)
    ensures t.period == Modern && t.durationMin == Some(CoerceReal(r.durationMin))
    ensures t.durationMs == ModernMs(r.durationMin)
    ensures t.explicit <==> r.explicit == FlagText("TRUE") || r.explicit == FlagBool(true)
    ensures t.genres == ParseGenres(r.genres)
    ensures t.releaseDate == r.releaseDate
  {
    Track(r.trackId, r.trackName, Coerce(r.popularity), Some(CoerceReal(r.durationMin)),
          ModernMs(r.durationMin), ExplicitFlag(r.explicit, "TRUE"),
          r.artistName, Coerce(r.artistPopularity), Coerce(r.followers),
          ParseGenres(r.genres), r.albumName, r.releaseDate, r.albumType, Modern)
  }

  function HasValidDate(yearOf: string -> Option<int>): Row -> bool {
    (r: Row) => ValidDate(r.releaseDate, yearOf)
  }

  function Dated(rows: seq<Row>, yearOf: string -> Option<int>): seq<Row> {
    Filter(rows, HasValidDate(yearOf))
  }

  /** The base dataset: valid historical rows, then valid modern rows. */
  function Ingest(historical: seq<Row>, modern: seq<Row>, yearOf: string -> Option<int>): (data: seq<Track>)
    ensures |data| == |Dated(historical, yearOf)| + |Dated(modern, yearOf)|
  {
    MapSeq(Dated(historical, yearOf), NormalizeHistorical)
      + MapSeq(Dated(modern, yearOf), NormalizeModern)
  }

  /** The base-dataset invariant: every record's date resolves to a catalog
      year, and its genre tags are clean. */
  predicate Ingested(t: Track, yearOf: string -> Option<int>) {
    ValidDate(t.releaseDate, yearOf) && (forall g :: g in t.genres ==> Keepable(g))
  }

  lemma IngestValid(historical: seq<Row>, modern: seq<Row>, yearOf: string -> Option<int>)
    ensures forall t :: t in Ingest(historical, modern, yearOf) ==> Ingested(t, yearOf)
  {
    var data := Ingest(historical, modern, yearOf);
    forall i | 0 <= i < |data|
      ensures Ingested(data[i], yearOf)
    {
      IngestedAt(historical, modern, yearOf, i);
    }
  }

  lemma IngestedAt(historical: seq<Row>, modern: seq<Row>, yearOf: string -> Option<int>, i: nat)
    requires i < |Ingest(historical, modern, yearOf)|
    ensures Ingested(Ingest(historical, modern, yearOf)[i], yearOf)
  {
    var n := |Dated(historical, yearOf)|;
    if i < n {
      HistoricalIngested(historical, modern, yearOf, i);
    } else {
      ModernIngested(historical, modern, yearOf, i);
    }
  }

  lemma HistoricalIngested(historical: seq<Row>, modern: seq<Row>, yearOf: string -> Option<int>, i: nat)
    requires i < |Dated(historical, yearOf)|
    ensures Ingested(Ingest(historical, modern, yearOf)[i], yearOf)
  {
    var r := Dated(historical, yearOf)[i];
    assert ValidDate(r.releaseDate, yearOf) by {
      DatedAt(historical, yearOf, i);
    }
    assert Ingest(historical, modern, yearOf)[i] == NormalizeHistorical(r) by {
      HistoricalAt(historical, modern, yearOf, i);
    }
    NormalizedIngested(r, yearOf);
  }

  lemma ModernIngested(historical: seq<Row>, modern: seq<Row>, yearOf: string -> Option<int>, j: nat)
    requires |Dated(historical, yearOf)| <= j < |Ingest(historical, modern, yearOf)|
    ensures Ingested(Ingest(historical, modern, yearOf)[j], yearOf)
  {
    var i := j - |Dated(historical, yearOf)|;
    var r := Dated(modern, yearOf)[i];
    assert ValidDate(r.releaseDate, yearOf) by {
      DatedAt(modern, yearOf, i);
    }
    assert Ingest(historical, modern, yearOf)[j] == NormalizeModern(r) by {
      ModernAt(historical, modern, yearOf, i);
    }
    NormalizedIngested(r, yearOf);
  }

  /** The rows kept by the date test are rows of the file with a valid
      date. */
  lemma DatedAt(rows: seq<Row>, yearOf: string -> Option<int>, i: nat)
    requires i < |Dated(rows, yearOf)|
    ensures Dated(rows, yearOf)[i] in rows
    ensures ValidDate(Dated(rows, yearOf)[i].releaseDate, yearOf)
  {
    assert Dated(rows, yearOf)[i] in Dated(rows, yearOf);
  }

  /** A row with a valid date normalises, in either period, to a record
      meeting the base-dataset invariant. */
  lemma NormalizedIngested(r: Row, yearOf: string -> Option<int>)
    requires ValidDate(r.releaseDate, yearOf)
    ensures Ingested(NormalizeHistorical(r), yearOf)
    ensures Ingested(NormalizeModern(r), yearOf)
  {
  }

  lemma HistoricalAt(historical: seq<Row>, modern: seq<Row>, yearOf: string -> Option<int>, i: nat)
    requires i < |Dated(historical, yearOf)|
    ensures Ingest(historical, modern, yearOf)[i] == NormalizeHistorical(Dated(historical, yearOf)[i])
  {
    var h := MapSeq(Dated(historical, yearOf), NormalizeHistorical);
    var m := MapSeq(Dated(modern, yearOf), NormalizeModern);
    assert (h + m)[i] == h[i];
  }

  lemma ModernAt(historical: seq<Row>, modern: seq<Row>, yearOf: string -> Option<int>, i: nat)
    requires i < |Dated(modern, yearOf)|
    ensures Ingest(historical, modern, yearOf)[|Dated(historical, yearOf)| + i]
         == NormalizeModern(Dated(modern, yearOf)[i])
  {
    var h := MapSeq(Dated(historical, yearOf), NormalizeHistorical);
    var m := MapSeq(Dated(modern, yearOf), NormalizeModern);
    assert (h + m)[|h| + i] == m[i];
  }

  /** Provenance and order: the historical part comes first, tagged as
      historical, and the modern part follows, tagged as modern; each part
      keeps the order of its file. */
  lemma IngestOrder(historical: seq<Row>, modern: seq<Row>, yearOf: string -> Option<int>)
    ensures forall i :: 0 <= i < |Dated(historical, yearOf)| ==>
              Ingest(historical, modern, yearOf)[i] == NormalizeHistorical(Dated(historical, yearOf)[i])
    ensures forall i :: 0 <= i < |Dated(modern, yearOf)| ==>
              Ingest(historical, modern, yearOf)[|Dated(historical, yearOf)| + i]
                == NormalizeModern(Dated(modern, yearOf)[i])
  {
    forall i | 0 <= i < |Dated(historical, yearOf)|
      ensures Ingest(historical, modern, yearOf)[i] == NormalizeHistorical(Dated(historical, yearOf)[i])
    {
      HistoricalAt(historical, modern, yearOf, i);
    }
    forall i | 0 <= i < |Dated(modern, yearOf)|
      ensures Ingest(historical, modern, yearOf)[|Dated(historical, yearOf)| + i]
                == NormalizeModern(Dated(modern, yearOf)[i])
    {
      ModernAt(historical, modern, yearOf, i);
    }
  }

  /** Every historical row with a valid date reaches the base dataset. */
  lemma IngestKeepsHistorical(historical: seq<Row>, modern: seq<Row>, yearOf: string -> Option<int>, r: Row)
    requires r in historical && ValidDate(r.releaseDate, yearOf)
    ensures NormalizeHistorical(r) in Ingest(historical, modern, yearOf)
  {
    var h := Dated(historical, yearOf);
    FilterMember(historical, HasValidDate(yearOf), r);
    var i :| 0 <= i < |h| && h[i] == r;
    HistoricalAt(historical, modern, yearOf, i);
  }

  /** Every modern row with a valid date reaches the base dataset. */
  lemma IngestKeepsModern(historical: seq<Row>, modern: seq<Row>, yearOf: string -> Option<int>, r: Row)
    requires r in modern && ValidDate(r.releaseDate, yearOf)
    ensures NormalizeModern(r) in Ingest(historical, modern, yearOf)
  {
    var m := Dated(modern, yearOf);
    FilterMember(modern, HasValidDate(yearOf), r);
    var i :| 0 <= i < |m| && m[i] == r;
    ModernAt(historical, modern, yearOf, i);
  }

  /** Every record of the base dataset comes from a row of its own period
      whose date is valid. */
  lemma IngestSources(historical: seq<Row>, modern: seq<Row>, yearOf: string -> Option<int>, i: nat)
    requires i < |Ingest(historical, modern, yearOf)|
    ensures var t := Ingest(historical, modern, yearOf)[i];
            t.period == Historical ==>
              exists r :: r in historical && ValidDate(r.releaseDate, yearOf) && t == NormalizeHistorical(r)
    ensures var t := Ingest(historical, modern, yearOf)[i];
            t.period == Modern ==>
              exists r :: r in modern && ValidDate(r.releaseDate, yearOf) && t == NormalizeModern(r)
  {
    var hs, ms := Dated(historical, yearOf), Dated(modern, yearOf);
    var t := Ingest(historical, modern, yearOf)[i];
    if i < |hs| {
      var r := hs[i];
      assert r in historical && ValidDate(r.releaseDate, yearOf) by {
        assert r in hs;
      }
      HistoricalAt(historical, modern, yearOf, i);
      assert t == NormalizeHistorical(r) && t.period == Historical;
    } else {
      var r := ms[i - |hs|];
      assert r in modern && ValidDate(r.releaseDate, yearOf) by {
        assert r in ms;
      }
      ModernAt(historical, modern, yearOf, i - |hs|);
      assert t == NormalizeModern(r) && t.period == Modern;
    }
  }

  /** Ingesting more historical rows appends their records to the
      historical part and leaves the rest in place. */
  lemma IngestAppendHistorical(h1: seq<Row>, h2: seq<Row>, modern: seq<Row>, yearOf: string -> Option<int>)
    ensures Ingest(h1 + h2, modern, yearOf)
         == MapSeq(Dated(h1, yearOf), NormalizeHistorical) + MapSeq(Dated(h2, yearOf), NormalizeHistorical)
            + MapSeq(Dated(modern, yearOf), NormalizeModern)
  {
    FilterConcat(h1, h2, HasValidDate(yearOf));
    MapSeqConcat(Dated(h1, yearOf), Dated(h2, yearOf), NormalizeHistorical);
  }

  // ------------------------------------------------------------- minutes

  /** `(d.track_duration_ms || 0) / 60000`: a NaN or zero duration counts
      as 0 minutes. */
  function MinutesOf(t: Track): (m: real)
    ensures t.durationMs.NaN? ==> m == 0.0
    ensures t.durationMs.Finite? ==> m * 60000.0 == t.durationMs.value
  {
    match t.durationMs
    case NaN => 0.0
    case Finite(ms) => ms / 60000.0
  }

  /** Every modern record's minutes, as the charts compute them from the
      millisecond field, equal its coerced minute column. */
  lemma ModernMinutes(r: Row)
    ensures MinutesOf(NormalizeModern(r)) == NormalizeModern(r).durationMin.value
  {
  }

  lemma HistoricalMinutes(r: Row)
    ensures MinutesOf(NormalizeHistorical(r)) * 60000.0 == CoerceReal(r.durationMs)
  {
  }

  /** A modern row with 3.5 in its minute column is stored as 210000 ms. */
  lemma ModernDurationExample(r: Row)
    requires r.durationMin == Num(3.5)
    ensures NormalizeModern(r).durationMs == Finite(210000.0)
  {
  }
}
