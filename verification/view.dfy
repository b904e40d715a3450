/** `getFilteredData`: the records the charts draw from, selected by a
    genre chosen in the drop-down (or "All") and an inclusive year range. */
module View {
  import opened Common
  import opened Seqs
  import opened Text
  import opened Tracks

  /** The selected years, both ends inclusive. */
  datatype YearRange = YearRange(start: int, end: int)

  /** The drop-down value that switches the genre test off. */
  const All: string := "All"

  /** The year the filter reads off a record. A modern record without a
      date counts as the last catalog year; a historical one has no year. */
  function FilterYear(t: Track, yearOf: string -> Option<int>): (y: Option<int>)
    ensures t.releaseDate != "" ==> y == yearOf(t.releaseDate)
    ensures t.releaseDate == "" ==> (y.Some? <==> t.period == Modern)
    ensures t.releaseDate == "" && y.Some? ==> y.value == YearMax
  {
    if t.period == Modern then
      if t.releaseDate == "" then Some(YearMax) else yearOf(t.releaseDate)
    else if t.releaseDate != "" then yearOf(t.releaseDate)
    else None
  }

  /** Some tag equals `selected` up to ASCII letter case. */
  predicate HasGenre(t: Track, selected: string) {
    exists i :: 0 <= i < |t.genres| && Lower(t.genres[i]) == Lower(selected)
  }

  predicate YearMatch(t: Track, range: YearRange, yearOf: string -> Option<int>) {
    var y := FilterYear(t, yearOf);
    y.Some? && InCatalogYears(y.value) && range.start <= y.value <= range.end
  }

  /** The reference predicate: both tests, joined by "and". */
  predicate Keep(t: Track, selected: string, range: YearRange, yearOf: string -> Option<int>) {
    (selected == All || HasGenre(t, selected)) && YearMatch(t, range, yearOf)
  }

  function GenrePass(selected: string): Track -> bool {
    (t: Track) => HasGenre(t, selected)
  }

  function YearPass(range: YearRange, yearOf: string -> Option<int>): Track -> bool {
    (t: Track) => YearMatch(t, range, yearOf)
  }

  function KeepPass(selected: string, range: YearRange, yearOf: string -> Option<int>): Track -> bool {
    (t: Track) => Keep(t, selected, range, yearOf)
  }

  /** The genre pass (skipped for "All"), then the year pass. */
  function FilteredView(data: seq<Track>, selected: string, range: YearRange, yearOf: string -> Option<int>)
    : (view: seq<Track>)
    ensures |view| <= |data|
    ensures forall t :: t in view ==> t in data && Keep(t, selected, range, yearOf)
  {
    var byGenre := if selected == All then data else Filter(data, GenrePass(selected));
    Filter(byGenre, YearPass(range, yearOf))
  }

  /** The two passes select exactly the records satisfying both tests, in
      their original order. */
  lemma FilteredViewSpec(data: seq<Track>, selected: string, range: YearRange, yearOf: string -> Option<int>)
    ensures FilteredView(data, selected, range, yearOf) == Filter(data, KeepPass(selected, range, yearOf))
  {
    if selected == All {
      FilterSamePredicate(data, YearPass(range, yearOf), KeepPass(selected, range, yearOf));
    } else {
      FilterFilter(data, GenrePass(selected), YearPass(range, yearOf), KeepPass(selected, range, yearOf));
    }
  }

  /** A record is in the view exactly when it is in the data and passes
      both tests. */
  lemma FilteredViewMembers(data: seq<Track>, selected: string, range: YearRange, yearOf: string -> Option<int>, t: Track)
    ensures t in FilteredView(data, selected, range, yearOf) <==> t in data && Keep(t, selected, range, yearOf)
  {
    FilteredViewSpec(data, selected, range, yearOf);
    if t in data && Keep(t, selected, range, yearOf) {
      FilterMember(data, KeepPass(selected, range, yearOf), t);
    }
  }

  /** Filtering is a scan: the view of a concatenation is the
      concatenation of the views, so relative order is kept. */
  lemma FilteredViewConcat(a: seq<Track>, b: seq<Track>, selected: string, range: YearRange, yearOf: string -> Option<int>)
    ensures FilteredView(a + b, selected, range, yearOf)
         == FilteredView(a, selected, range, yearOf) + FilteredView(b, selected, range, yearOf)
  {
    FilteredViewSpec(a + b, selected, range, yearOf);
    FilteredViewSpec(a, selected, range, yearOf);
    FilteredViewSpec(b, selected, range, yearOf);
    FilterConcat(a, b, KeepPass(selected, range, yearOf));
  }

  lemma FilteredViewSingle(t: Track, selected: string, range: YearRange, yearOf: string -> Option<int>)
    ensures FilteredView([t], selected, range, yearOf) == if Keep(t, selected, range, yearOf) then [t] else []
  {
    FilteredViewSpec([t], selected, range, yearOf);
    FilterSingle(t, KeepPass(selected, range, yearOf));
  }

  /** With "All" and the full catalog range, the view of the base dataset
      is the whole dataset, in order. */
  lemma FullViewOfBase(data: seq<Track>, yearOf: string -> Option<int>)
    requires forall t :: t in data ==> Ingested(t, yearOf)
    ensures FilteredView(data, All, YearRange(YearMin, YearMax), yearOf) == data
  {
    FilterKeepsAll(data, YearPass(YearRange(YearMin, YearMax), yearOf));
  }
}
