# Visual narrative data pipeline — a Dafny model

This project models the data side of the `VisualNarrative` React component
of a music-catalog dashboard (`app/src/components/VisualNarrative.js`). The
component loads two CSV catalogs and normalises them into one base dataset of
track records. It then selects a view of that dataset by genre and an
inclusive year range, and derives the view-models of six charts and a
summary panel:

- tag frequencies (top 12);
- a duration histogram over 0–10 minutes in 20 bins;
- average duration per release year;
- the top 10 artists by follower count, with genre labels;
- the top 10 tracks by popularity, deduplicated by key;
- a per-genre, per-year popularity trend for the five most frequent tags.

It also models the year-range controls (two sliders and two text boxes) and
the genre drop-down's option list.

Every closure of the component is a pure function here. It takes the base
dataset, the selected genre, the selected range and `yearOf` as arguments.
`yearOf` is a function parameter that stands for
`new Date(s).getFullYear()`. JavaScript numbers are `Number = NaN |
Finite(real)`. CSV cells that go through `+x || 0` are
`Cell = Blank | Junk | Num(v)`.

Each chart's hand-written `Map`/object scan is modelled as one shared
insertion-ordered grouping, `Grouping.Accumulate`. It is proved equal to a
reference: the keys in first-seen order, each with the left fold of its
values. The numeric comparator sorts (`(a, b) => b.key - a.key` and the
year sort) are modelled as one stable insertion sort, `Sorting.SortDesc`.
Its contract covers all three parts: the result is sorted, it is a
permutation, and every group of equal keys keeps its input order. The
default string `sort()` of the drop-down options is a separate
lexicographic sort, `Sorting.SortLex`, whose contract states a sorted
permutation.

Modules follow the structure of the component:

- `Common`, `Seqs`, `Text`, `Grouping`, `Means`, `Sorting`: shared
  vocabulary;
- `Tracks`: ingestion;
- `Genres`: tag parsing and label formatting;
- `View`: the filter;
- `Overview`: the statistics panel;
- `GenreCounts`: the tag chart and the drop-down options;
- `Histogram`: the duration histogram and the extent;
- `Series` and `Yearly`: the yearly duration chart;
- `Artists`: top artists;
- `TopTracks`: top tracks;
- `Trend`: the genre trend chart;
- `Controls`: the year-range controls.

Some behaviours of the code are easy to misread; the model follows the
code in each:

- **Histogram bin boundaries.** A value exactly on an interior bin boundary
  goes to the upper of the two bins, because the code takes `Math.floor` of
  the scaled offset (`Histogram.BoundaryGoesUp`).
- **Dragging a handle past the other.** The moved handle stops at the other
  handle, and the other handle never moves (`Controls.UpdatePins`). The two
  repair tests in `updateYearRange` can therefore never fire.
- **Committing an empty text box.** `Number("")` is `0`, which is not NaN,
  so the range update runs and the year clamps to 2009
  (`Controls.EmptyCommit`). The branch that restores the text box is
  unreachable while the text boxes hold digit strings
  (`Controls.CommitNeverReverts`).
- **Order of trend lines.** The lines come in the order in which their tags
  first received a value, not in frequency order (`Trend.LinesSpec`).

## Model

| member | source | states |
|---|---|---|
| Tracks.Coerce | app/src/components/VisualNarrative.js:41-46 | `+x \|\| 0` on a numeric cell: its number when it holds one; 0 when it is blank or not a number |
| Tracks.CoerceReal | app/src/components/VisualNarrative.js:42 | the historical duration cell coerces to its number, or 0 when blank or junk |
| Tracks.ModernMs | app/src/components/VisualNarrative.js:62 | `(min \|\| 0) * 60000`: blank gives 0; junk gives NaN, since it escapes the `\|\| 0`; a number m gives m·60000 |
| Tracks.NormalizeHistorical | app/src/components/VisualNarrative.js:38-52 | a historical row becomes a record tagged historical with no minutes field; the explicit flag is true exactly for "True" or boolean true; tags are parsed; the date is kept |
| Tracks.NormalizeModern | app/src/components/VisualNarrative.js:57-72 | a modern row becomes a record tagged modern, with minutes coerced and ms derived from the raw minutes; the explicit flag is true exactly for "TRUE" or boolean true |
| Tracks.Ingest | app/src/components/VisualNarrative.js:36-74 | the base dataset has one record per dated historical row plus one per dated modern row |
| Tracks.IngestValid | app/src/components/VisualNarrative.js:29-74 | every record of the base dataset has a non-empty date whose year lies in 2009..2025, and only clean tags |
| Tracks.IngestOrder | app/src/components/VisualNarrative.js:74 | the normalised historical rows come first, in file order, then the normalised modern rows in file order |
| Tracks.IngestKeepsHistorical | app/src/components/VisualNarrative.js:36-52 | every historical row with a valid date appears, normalised, in the base dataset |
| Tracks.IngestKeepsModern | app/src/components/VisualNarrative.js:55-72 | every modern row with a valid date appears, normalised, in the base dataset |
| Tracks.IngestSources | app/src/components/VisualNarrative.js:36-74 | each record comes from a validly dated row of the file its period tag names |
| Tracks.IngestAppendHistorical | app/src/components/VisualNarrative.js:36-52 | ingestion distributes over splitting the historical file into two parts |
| Tracks.MinutesOf | app/src/components/VisualNarrative.js:295-297 | `(ms \|\| 0) / 60000`: NaN ms reads as 0 minutes; otherwise minutes·60000 equals the ms value |
| Tracks.ModernMinutes | app/src/components/VisualNarrative.js:61-62 | for a modern record, the minutes read back from ms equal its coerced minutes field |
| Tracks.HistoricalMinutes | app/src/components/VisualNarrative.js:42 | for a historical record, minutes·60000 equals the coerced ms cell |
| Tracks.ModernDurationExample | app/src/components/VisualNarrative.js:62 | a modern row of 3.5 minutes gets 210000 ms |
| Genres.ParseGenres | app/src/components/VisualNarrative.js:94-107 | every tag produced, from a missing cell, a list or a text cell, is non-empty and not "n/a" in any letter case |
| Genres.ParseGenresClean | app/src/components/VisualNarrative.js:103 | no parsed tag is empty, and none lower-cases to "n/a" |
| Genres.ParseGenresListOrder | app/src/components/VisualNarrative.js:96 | parsing a list distributes over concatenation, so list order is kept |
| Genres.ParseGenresCleanList | app/src/components/VisualNarrative.js:96 | a list of clean tags parses to itself |
| Genres.ParseGenresIdempotent | app/src/components/VisualNarrative.js:94-107 | parsing the parsed list again changes nothing |
| Genres.CleanSpacedToken | app/src/components/VisualNarrative.js:102 | trimming and then stripping quotes turns a token `'g'` (with or without a leading space) back into the plain tag g |
| Genres.ParseRenderedCell | app/src/components/VisualNarrative.js:99-103 | a cell rendered as a Python-style list `['a', 'b']` of plain tags parses to those tags, minus blanks and "n/a" |
| Genres.ParseRenderedClean | app/src/components/VisualNarrative.js:99-103 | round trip: a list of clean plain tags, rendered as a cell, parses back to exactly that list |
| Genres.ParseGenresExample | app/src/components/VisualNarrative.js:94-107 | `"['Pop', 'n/a', '']"` parses to `["Pop"]` |
| Genres.KeepExample | app/src/components/VisualNarrative.js:103 | the keep test drops "n/a" and the empty tag and keeps "Pop" |
| Genres.FormatGenres | app/src/components/VisualNarrative.js:109-116 | the label is either empty or a parenthesised suffix: it starts with ` (` and ends with `)` |
| Genres.FormatTwoGenres | app/src/components/VisualNarrative.js:109-116 | with two non-blank leading tags, the label is ` (a, b)`, plus the ellipsis when there are more than two tags |
| Genres.FormatGenresOpens | app/src/components/VisualNarrative.js:111-115 | a non-empty label starts with ` (` and the first of the first `max` tags that is not blank once trimmed |
| Genres.FormatGenresCut | app/src/components/VisualNarrative.js:114-115 | when more than `max` tags exist, a non-empty label ends with the ellipsis and `)` |
| Genres.FormatGenresCloses | app/src/components/VisualNarrative.js:111-115 | when at most `max` tags exist, a non-empty label ends with the last non-blank trimmed tag and `)` |
| Genres.FormatGenresEmpty | app/src/components/VisualNarrative.js:110-112 | the label is empty exactly when every one of the first `max` tags trims to nothing; this covers the empty list |
| Text.Split | app/src/components/VisualNarrative.js:101 | `split(',')` yields at least one piece, and no piece contains the delimiter |
| Text.JoinSplit | app/src/components/VisualNarrative.js:101 | joining the pieces of a split with the delimiter gives back the original string |
| Text.SplitJoin | app/src/components/VisualNarrative.js:101 | splitting a join of delimiter-free pieces gives back the pieces |
| Text.DropLeading | app/src/components/VisualNarrative.js:102 | `^['"]+` removal: the result is a suffix, it does not start with a quote, and everything removed was a quote |
| Text.DropTrailing | app/src/components/VisualNarrative.js:102 | `['"]+$` removal: the result is a prefix, it does not end with a quote, and everything removed was a quote |
| Text.StripClean | app/src/components/VisualNarrative.js:102 | stripping a string that neither starts nor ends with a quote leaves it unchanged |
| Text.DigitsValueOfDecimal | app/src/components/VisualNarrative.js:187-196 | `Number(String(n))` is n for every non-negative integer |
| Text.DecimalOfDigitsValue | app/src/components/VisualNarrative.js:182-196 | a digit string without a leading zero (or "0") renders back from its value unchanged |
| View.FilterYear | app/src/components/VisualNarrative.js:212-217 | a dated record's filter year is its date's year; an undated modern record counts as 2025; an undated historical record has no year |
| View.FilteredView | app/src/components/VisualNarrative.js:199-225 | the view is a sub-collection of the data, and every record in it passes the genre test (case-insensitive, skipped for "All") and the year test |
| View.FilteredViewSpec | app/src/components/VisualNarrative.js:199-225 | the two passes equal a single order-preserving filter by the conjunction of both tests |
| View.FilteredViewMembers | app/src/components/VisualNarrative.js:203-222 | a record is in the view exactly when it is in the data and passes both tests |
| View.FilteredViewConcat | app/src/components/VisualNarrative.js:199-225 | the view of a concatenation is the concatenation of the views |
| View.FilteredViewSingle | app/src/components/VisualNarrative.js:203-222 | a single record is kept exactly when it passes both tests |
| View.FullViewOfBase | app/src/components/VisualNarrative.js:211-222 | with "All" and the full range 2009..2025, the view of an ingested dataset is the whole dataset |
| Overview.Statistics | app/src/components/VisualNarrative.js:227-237 | the count is the size of the view; an empty view gives all zeros |
| Overview.StatisticsOf | app/src/components/VisualNarrative.js:199-237 | the panel never counts more records than the dataset holds, and shows all zeros when the view is empty |
| Overview.StatisticsAccumulator | app/src/components/VisualNarrative.js:231-232 | each mean equals what a `{sum, count}` accumulator fed with the view's values reports |
| Overview.StatisticsBounds | app/src/components/VisualNarrative.js:231-232 | popularity bounds carry over to the mean popularity; non-negative durations give a non-negative mean duration |
| Overview.MergeAverage | app/src/components/VisualNarrative.js:231-232 | the means of two views combine as weighted means over their concatenation |
| Overview.AverageTotal | app/src/components/VisualNarrative.js:231-232 | the mean times the number of records is the total |
| Overview.RangeExample | app/src/components/VisualNarrative.js:199-237 | records of 2010, 2015 and 2020 with popularity 50, 70 and 90, under "All" and 2012..2025, leave the last two, with count 2 and mean popularity 80 |
| Means.AddTo | app/src/components/VisualNarrative.js:361-362 | each value added to a `{sum, count}` raises the count by one |
| Means.FoldStats | app/src/components/VisualNarrative.js:357-362 | an accumulator fed a sequence of values from `{0, 0}` holds their sum and their number |
| Means.AggregateStats | app/src/components/VisualNarrative.js:357-367 | seeded at the first value, the accumulator also holds sum and number; its mean is the arithmetic mean |
| Grouping.Accumulate | app/src/components/VisualNarrative.js:348-363 | an insertion-ordered map built by upserts has one entry per distinct key, in first-seen order |
| Grouping.AccumulateSpec | app/src/components/VisualNarrative.js:348-363 | each entry of that map holds the fold of all the values filed under its key, in arrival order, from the seed of the first one |
| Series.Points | app/src/components/VisualNarrative.js:365-367 | one point per map entry |
| Series.PointsSpec | app/src/components/VisualNarrative.js:365-367 | for a map with one entry per year, the points ascend strictly by year, and they are exactly the entries' points |
| Series.SeriesEntry | app/src/components/VisualNarrative.js:357-362 | each per-year entry holds the sum and number of the values paired with its year |
| Series.SeriesSpec | app/src/components/VisualNarrative.js:348-367 | a line has strictly ascending years, each valued at the mean of the values paired with it, and every year with a value appears |
| Yearly.DurationYear | app/src/components/VisualNarrative.js:350-356 | a record counts exactly when its date is non-empty, names a non-zero year in 2009..2025, and its duration is positive; it counts under that year |
| Yearly.ContributionValues | app/src/components/VisualNarrative.js:348-363 | the minutes filed under a year are exactly those of the records counted under it, in view order |
| Yearly.YearlyDurations | app/src/components/VisualNarrative.js:348-367 | the points' years ascend strictly |
| Yearly.YearlySpec | app/src/components/VisualNarrative.js:348-367 | the chart's years ascend strictly and are catalog years with counted records; each value is the mean of their minutes; every year with a counted record appears |
| Sorting.SortDesc | app/src/components/VisualNarrative.js:258-260 | sorting by `b.key - a.key` yields a permutation, in descending key order |
| Sorting.SortDescStable | app/src/components/VisualNarrative.js:258-260 | records with equal keys keep their input order (stable sort) |
| Sorting.TakeKeepsLargest | app/src/components/VisualNarrative.js:261 | after a descending sort, each entry kept by the slice has a key at least that of every entry cut off |
| Sorting.SortLex | app/src/components/VisualNarrative.js:799 | the default `sort()` of strings yields a permutation in lexicographic order |
| GenreCounts.Tags | app/src/components/VisualNarrative.js:250-256 | every tag of every record of the view is scanned |
| GenreCounts.TagsCount | app/src/components/VisualNarrative.js:249-256 | a tag's number of occurrences is the sum over records of how often each lists it |
| GenreCounts.Tally | app/src/components/VisualNarrative.js:249-256 | the count object's keys are the distinct tags, in first-seen order |
| GenreCounts.TallySpec | app/src/components/VisualNarrative.js:249-259 | the count object has one entry per distinct tag, in first-seen order, each with the tag's exact number of occurrences |
| GenreCounts.TallyMembers | app/src/components/VisualNarrative.js:249-259 | every entry names a scanned tag with its positive count; every scanned tag has its entry; names are distinct |
| GenreCounts.Ranked | app/src/components/VisualNarrative.js:258-260 | the ranked entries are a permutation of the tally, by descending count |
| GenreCounts.RankedTies | app/src/components/VisualNarrative.js:258-260 | tags with equal counts stay in first-seen order |
| GenreCounts.TopTags | app/src/components/VisualNarrative.js:258-261 | the top entries are a prefix of the ranking, sorted by count, and number n, or every distinct tag when there are fewer than n |
| GenreCounts.TopTagsCounts | app/src/components/VisualNarrative.js:258-261 | each top entry is a scanned tag with its exact positive count; no tag appears twice |
| GenreCounts.TopTagsLargest | app/src/components/VisualNarrative.js:258-261 | a scanned tag that was left out is no more frequent than any tag kept |
| GenreCounts.TopTagsComplete | app/src/components/VisualNarrative.js:258-261 | with at most n distinct tags, every tag is kept with its count |
| GenreCounts.GenreChart | app/src/components/VisualNarrative.js:249-261 | the chart has twelve bars, or one per distinct tag when there are fewer; bars are sorted by count, and each names a scanned tag with its exact positive number of occurrences |
| GenreCounts.GenreOptions | app/src/components/VisualNarrative.js:794-801 | the drop-down starts with "All", followed by tags in lexicographic order |
| GenreCounts.GenreOptionsSpec | app/src/components/VisualNarrative.js:794-801 | after "All", the options are exactly the distinct tags of the base dataset, each once |
| Histogram.BinIndex | app/src/components/VisualNarrative.js:135-137 | the bin index lies in range; it is the floor of the scaled offset, except at the top, which folds into the last bin |
| Histogram.Counts | app/src/components/VisualNarrative.js:132-139 | one counter per bin |
| Histogram.CountsSpec | app/src/components/VisualNarrative.js:132-139 | counter k equals the number of values, neither NaN nor outside [min, max], whose bin index is k |
| Histogram.MakeBins | app/src/components/VisualNarrative.js:127-131 | one bin record per counter |
| Histogram.Histogram | app/src/components/VisualNarrative.js:122-141 | empty input, a non-positive range or a non-positive bin count gives no bins; every bin returned is non-empty |
| Histogram.HistogramSpec | app/src/components/VisualNarrative.js:122-141 | the result is the full grid of bins, with their counts, filtered to the non-empty ones |
| Histogram.HistogramTotal | app/src/components/VisualNarrative.js:122-141 | the counts of the returned bins add up to the number of values inside [min, max]: nothing is lost, nothing counted twice |
| Histogram.HistogramAscending | app/src/components/VisualNarrative.js:127-131 | the returned bins ascend strictly by lower edge, and each is one bin size wide |
| Histogram.BoundaryGoesUp | app/src/components/VisualNarrative.js:135-137 | a value on boundary k goes to bin k (clamped to the last bin), which is the upper of the two neighbours |
| Histogram.HiInLastBin | app/src/components/VisualNarrative.js:134-136 | the maximum value itself folds into the last bin |
| Histogram.SingleValueExample | app/src/components/VisualNarrative.js:122-141 | 5.0 minutes over 0–10 in 20 bins gives the single bin [5.0, 5.5) with count 1 |
| Histogram.DurationHistogram | app/src/components/VisualNarrative.js:295-301 | the duration chart's counts add up to exactly the number of the view's records whose minutes lie in 0..10, a missing duration counting as 0; no bin is empty |
| Histogram.Extent | app/src/components/VisualNarrative.js:143-154 | no extent exactly when no value is a number; otherwise the extent is the least and greatest numeric values, both taken from the input |
| Controls.RoundYear | app/src/components/VisualNarrative.js:162 | `Math.round`: NaN stays NaN; otherwise the result lies within half a unit, with halves rounding up |
| Controls.ClampYear | app/src/components/VisualNarrative.js:156-159 | NaN becomes 2009; in-range years are unchanged; years below go to 2009 and years above to 2025 |
| Controls.Requested | app/src/components/VisualNarrative.js:162 | the requested year is always a catalog year |
| Controls.UpdateYearRange | app/src/components/VisualNarrative.js:161-173 | only the moved handle changes; it stays on its own side of the other handle; a valid range stays valid |
| Controls.UpdatePins | app/src/components/VisualNarrative.js:164-171 | the moved handle takes the requested year when that keeps the order, and otherwise stops at the other handle |
| Controls.UpdateIdempotent | app/src/components/VisualNarrative.js:161-173 | applying the same update twice is applying it once |
| Controls.Put | app/src/components/VisualNarrative.js:183 | writing one text box leaves the other unchanged |
| Controls.Render | app/src/components/VisualNarrative.js:196 | `String(n)` of a non-negative year is a digit string that reads back as n |
| Controls.CommitValue | app/src/components/VisualNarrative.js:187 | `Number` of a digit string is its decimal value |
| Controls.Apply | app/src/components/VisualNarrative.js:175-193 | typing never moves the range, sliding never edits the text boxes, and a commit either moves the range or restores a text box, never both |
| Controls.Resync | app/src/components/VisualNarrative.js:195-197 | the resync effect never touches the range |
| Controls.Step | app/src/components/VisualNarrative.js:175-197 | after an event and its effect the range is the handler's, and whenever the range moved the text boxes show the new range |
| Controls.InitialInv | app/src/components/VisualNarrative.js:11-12 | the initial state has the full range and text boxes mirroring it |
| Controls.StepInv | app/src/components/VisualNarrative.js:175-197 | every slider move, keystroke or commit keeps the range valid and the text boxes digit-only |
| Controls.CommitNeverReverts | app/src/components/VisualNarrative.js:186-193 | while the text boxes hold digits, a commit never takes the revert branch: it leaves the text as typed and updates the range from the typed number |
| Controls.EmptyCommit | app/src/components/VisualNarrative.js:186-193 | committing an empty box asks for year 0: the start handle goes to 2009; the end handle is pinned at the start |
| Controls.ResyncWhenChanged | app/src/components/VisualNarrative.js:195-197 | the text boxes are rewritten exactly when the range changed, and then to the range's decimal strings |
| Controls.TypeSpec | app/src/components/VisualNarrative.js:180-184 | typing stores digit strings, rejects anything else, and never touches the other box or the range |
| Controls.CommitMirrorUnchanged | app/src/components/VisualNarrative.js:186-197 | committing a text box that shows the range changes nothing |
| Artists.AddAllDedup | app/src/components/VisualNarrative.js:463 | adding tags to an insertion-ordered set gives the first-seen deduplication of all the tags |
| Artists.FoldFollowers | app/src/components/VisualNarrative.js:461 | the running maximum dominates every value seen and equals one of them |
| Artists.FoldGenres | app/src/components/VisualNarrative.js:462-463 | the genre set is the first-seen deduplication of all the tags seen |
| Artists.AggregateSummary | app/src/components/VisualNarrative.js:451-466 | an artist's entry holds the largest follower count among their records, and the union of their tags in first-seen order |
| Artists.ArtistMap | app/src/components/VisualNarrative.js:451-466 | the artist map has one entry per distinct artist name of a record with a name and non-zero followers, in first-met order |
| Artists.ArtistEntry | app/src/components/VisualNarrative.js:451-473 | each map entry summarises the listed records of its artist |
| Artists.DistinctArtists | app/src/components/VisualNarrative.js:451-473 | the artist list has no duplicates |
| Artists.TopArtists | app/src/components/VisualNarrative.js:468-475 | ten artists, or every artist when there are fewer, by descending follower count |
| Artists.TopArtistsSpec | app/src/components/VisualNarrative.js:451-475 | the top artists have distinct names, and each summarises its records (maximum followers, union of tags) |
| Artists.TopArtistsLargest | app/src/components/VisualNarrative.js:468-475 | an artist left out has no record with more followers than any artist kept |
| Artists.Label | app/src/components/VisualNarrative.js:483-486 | the label starts with the artist's name |
| Artists.LabelSpec | app/src/components/VisualNarrative.js:483-486 | with two non-blank leading tags, the label is the name followed by ` (a, b)`, plus the ellipsis when there are more tags |
| TopTracks.Ranked | app/src/components/VisualNarrative.js:557-559 | the candidates (records with a name) form a permutation, sorted by descending popularity |
| TopTracks.FirstByKey | app/src/components/VisualNarrative.js:561-569 | the deduplicated list is drawn from its input |
| TopTracks.FirstByKeySnoc | app/src/components/VisualNarrative.js:563-569 | a record is appended exactly when its key (the id, or name-artist) has not been seen |
| TopTracks.PickTop | app/src/components/VisualNarrative.js:561-569 | the loop computes the first ten records of the key-deduplicated list |
| TopTracks.FirstByKeyKeys | app/src/components/VisualNarrative.js:565-567 | the kept keys are the distinct keys of the input, in first-seen order |
| TopTracks.TopPicks | app/src/components/VisualNarrative.js:557-569 | at most ten picks, each a record of the view with a name |
| TopTracks.TopPicksSpec | app/src/components/VisualNarrative.js:557-569 | at most ten picks, by descending popularity, with distinct keys, all candidates of the view; fewer than ten means every candidate's key is represented |
| TopTracks.DisplayName | app/src/components/VisualNarrative.js:573 | names of at most 25 characters are unchanged; longer names become their first 23 characters plus "..." |
| TopTracks.TopTracks | app/src/components/VisualNarrative.js:571-583 | one entry per pick |
| TopTracks.TopTracksSpec | app/src/components/VisualNarrative.js:571-583 | ranks run 1, 2, …; popularity does not increase; display names are bounded; full names and ids come from the picks |
| Trend.TopGenres | app/src/components/VisualNarrative.js:648-660 | five tags are picked, or every distinct non-blank tag when there are fewer |
| Trend.TopGenresSpec | app/src/components/VisualNarrative.js:648-660 | the picked tags are distinct, non-blank tags of the view, and a non-blank tag left out occurs no more often than any tag picked |
| Trend.TrendYear | app/src/components/VisualNarrative.js:670-673 | a record is filed exactly when its date is non-empty and names a non-zero year; no range check applies |
| Trend.RecordPairsMembers | app/src/components/VisualNarrative.js:674-683 | one record files (tag, year, popularity) exactly for its picked tags, under its year |
| Trend.TrendPairsMembers | app/src/components/VisualNarrative.js:668-684 | a value is filed exactly when some dated record lists the picked tag, with that record's year and popularity |
| Trend.FoldYearMap | app/src/components/VisualNarrative.js:676-681 | updating a tag's year map value by value builds the per-year grouping of those values |
| Trend.Lines | app/src/components/VisualNarrative.js:686-694 | every line drawn has at least one point |
| Trend.LinesSpec | app/src/components/VisualNarrative.js:686-694 | one line per tag that received a value, in first-received order; each line is the per-year series of its tag's values |
| Trend.LineGenre | app/src/components/VisualNarrative.js:674-676 | only picked tags receive values |
| Trend.LinePoints | app/src/components/VisualNarrative.js:686-694 | every line's tag is a picked tag, its years ascend strictly, and each point is the mean popularity filed under that tag and year |

## Left out

- Loading the CSV files, React state and effects, the d3 scales, axes and
  SVG drawing, tooltips, and the `toFixed`/`toLocaleString` formatting: the
  model stops at the values handed to rendering.
- `new Date(s).getFullYear()` is the parameter `yearOf`. The model does not
  know which strings parse as dates or what year they name.
- `Number(text)` of non-digit text is the parameter `numberOf`. Digit
  strings are modelled exactly.
- Floating point is modelled as exact reals. Infinities, rounding of sums
  and means, and `-0` are not modelled. Popularity and follower counts are
  held as integers, so a fractional number in those cells is not modelled.
- `String.prototype.toLowerCase` is modelled as ASCII letter case only, and
  strings are sequences of characters, not UTF-16 code units.
- JavaScript object-key quirks of the tag counter are not modelled: it is
  treated as an insertion-ordered map. Real objects put integer-like keys
  first and are open to `__proto__`.
- `hasPopularityScore` is always true of a normalised record, because
  coercion makes popularity a number. The model therefore drops the test.
- The catch branch of `parseGenres` is left out: the modelled inputs cannot
  throw.
- The `allYears` set, the x-domain of the trend chart and of the yearly
  chart (via `getExtent`), and the y-domain padding are left out. They only
  shape axes.
- The range-highlight percentages (lines 804-819) are left out. They only
  shape styling.
- The early returns on empty views or empty chart data are left out. They
  skip drawing.
- `formatGenres` returns `''` for a non-array argument. That case is left
  out: every record's tags are a list after ingestion.
- The ellipsis literal in `formatGenres` is modelled as the three characters
  the file holds (`â€¦`).
- TopTracks.TopTracks: the fallback id contains the index. The model does
  not prove that ids are unique.
- Overview.Statistics: the figures are exact means. Their `toFixed(1)` and
  `toFixed(2)` strings are not modelled.
