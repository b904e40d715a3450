/** The "tracks per genre" bar chart and the genre picker's option list.
    Both read the tag lists of the records: the chart counts every tag of
    the filtered view and keeps the twelve most frequent, the picker lists
    every distinct tag of the whole dataset in string order after "All". */
module GenreCounts {
  import opened Seqs
  import opened Grouping
  import opened Sorting
  import opened Tracks
  import View

  /** Every tag of every record, record by record and in list order; a tag
      a record lists twice is met twice. */
  function Tags(data: seq<Track>): (tags: seq<string>)
    ensures forall t, g :: t in data && g in t.genres ==> g in tags
  {
    if data == [] then []
    else
      assert forall t :: t in data ==> t in Init(data) || t == Last(data) by {
        InitLast(data);
      }
      Tags(Init(data)) + Last(data).genres
  }

  lemma TagsSnoc(data: seq<Track>, t: Track)
    ensures Tags(data + [t]) == Tags(data) + t.genres
  {
    InitLastOfSnoc(data, t);
  }

  /** How many times record `t` lists tag `g`. */
  function TagCount(g: string): Track -> nat {
    (t: Track) => multiset(t.genres)[g]
  }

  /** A tag's occurrences across the records add up record by record, with
      no per-record deduplication. */
  lemma {:induction false} TagsCount(data: seq<Track>, g: string)
    ensures multiset(Tags(data))[g] == SumNat(MapSeq(data, TagCount(g)))
  {
    if data != [] {
      var q, t := Init(data), Last(data);
      InitLast(data);
      TagsCount(q, g);
      TagsSnoc(q, t);
      MapSeqConcat(q, [t], TagCount(g));
      SumNatSnoc(MapSeq(q, TagCount(g)), TagCount(g)(t));
    }
  }

  // --------------------------------------------------------------- tallies

  function Occurrence(g: string): (string, string) {
    (g, g)
  }

  function NoCount(g: string): nat {
    0
  }

  function Increment(n: nat, g: string): nat {
    n + 1
  }

  /** `counts[g] = (counts[g] || 0) + 1` for every tag in turn: one entry
      per tag, in the order tags are first met. */
  function Tally(tags: seq<string>): (r: seq<(string, nat)>)
    ensures Firsts(r) == Dedup(tags)
  {
    assert Firsts(MapSeq(tags, Occurrence)) == tags;
    Accumulate(MapSeq(tags, Occurrence), NoCount, Increment)
  }

  lemma {:induction false} FoldIncrement(vs: seq<string>)
    ensures FoldL(Increment, 0, vs) == |vs|
  {
    if vs != [] {
      FoldIncrement(Init(vs));
    }
  }

  lemma OccurrenceFirsts(tags: seq<string>)
    ensures Firsts(MapSeq(tags, Occurrence)) == tags
  {
  }

  lemma {:induction false} OccurrenceValues(tags: seq<string>, g: string)
    ensures |ValuesOf(MapSeq(tags, Occurrence), g)| == multiset(tags)[g]
  {
    if tags != [] {
      var q, x := Init(tags), Last(tags);
      InitLast(tags);
      OccurrenceValues(q, g);
      MapSeqConcat(q, [x], Occurrence);
      ValuesOfSnoc(MapSeq(q, Occurrence), Occurrence(x), g);
    }
  }

  /** The tally holds one entry per distinct tag, in first-seen order, and
      each entry's count is the number of times the tag occurs. */
  lemma TallySpec(tags: seq<string>)
    ensures |Tally(tags)| == |Dedup(tags)|
    ensures forall i :: 0 <= i < |Dedup(tags)| ==>
              Tally(tags)[i] == (Dedup(tags)[i], multiset(tags)[Dedup(tags)[i]])
    ensures Firsts(Tally(tags)) == Dedup(tags)
  {
    var ps := MapSeq(tags, Occurrence);
    OccurrenceFirsts(tags);
    forall i | 0 <= i < |Dedup(tags)|
      ensures Tally(tags)[i] == (Dedup(tags)[i], multiset(tags)[Dedup(tags)[i]])
    {
      var g := Dedup(tags)[i];
      AccumulateSpec(ps, NoCount, Increment, i);
      var vs := ValuesOf(ps, g);
      FoldIncrement(vs);
      OccurrenceValues(tags, g);
    }
  }

  /** Read entry by entry: a tally entry names a tag that occurs, with its
      number of occurrences, and every tag that occurs has an entry. */
  lemma TallyMembers(tags: seq<string>)
    ensures forall e :: e in Tally(tags) ==> e.0 in tags && e.1 == multiset(tags)[e.0] && e.1 > 0
    ensures forall g :: g in tags ==> (g, multiset(tags)[g]) in Tally(tags)
    ensures Distinct(Firsts(Tally(tags)))
  {
    TallySpec(tags);
    forall e | e in Tally(tags)
      ensures e.0 in tags && e.1 == multiset(tags)[e.0] && e.1 > 0
    {
      var i :| 0 <= i < |Tally(tags)| && Tally(tags)[i] == e;
      assert e.0 == Dedup(tags)[i];
      assert Dedup(tags)[i] in Dedup(tags);
    }
    forall g | g in tags
      ensures (g, multiset(tags)[g]) in Tally(tags)
    {
      var i := FirstIndex(Dedup(tags), g);
      assert Tally(tags)[i] == (g, multiset(tags)[g]);
    }
  }

  // ------------------------------------------------------------ the chart

  function CountOf(e: (string, nat)): int {
    e.1
  }

  /** The tally sorted by count, most frequent first (stable, so equal
      counts keep first-seen order), before truncation. */
  function Ranked(tags: seq<string>): (r: seq<(string, nat)>)
    ensures SortedDesc(r, CountOf)
    ensures multiset(r) == multiset(Tally(tags))
  {
    SortDesc(Tally(tags), CountOf)
  }

  /** The `n` most frequent tags with their counts. */
  function TopTags(tags: seq<string>, n: nat): (r: seq<(string, nat)>)
    ensures |r| <= n
    ensures |r| == if |Dedup(tags)| <= n then |Dedup(tags)| else n
    ensures SortedDesc(r, CountOf)
    ensures r <= Ranked(tags)
  {
    TallySpec(tags);
    assert |Ranked(tags)| == |multiset(Ranked(tags))| == |multiset(Tally(tags))|;
    SortedPrefix(Ranked(tags), CountOf, n);
    Take(Ranked(tags), n)
  }

  const ChartSize: nat := 12

  /** The bars of the chart: the twelve most frequent tags of the view. */
  function GenreChart(data: seq<Track>): (r: seq<(string, nat)>)
    ensures |r| == if |Dedup(Tags(data))| <= ChartSize then |Dedup(Tags(data))| else ChartSize
    ensures SortedDesc(r, CountOf)
    ensures forall e :: e in r ==> e.0 in Tags(data) && e.1 == multiset(Tags(data))[e.0] && e.1 > 0
  {
    TopTagsCounts(Tags(data), ChartSize);
    TopTags(Tags(data), ChartSize)
  }

  /** Every entry names a tag with its exact number of occurrences, and no
      tag appears twice. */
  lemma TopTagsCounts(tags: seq<string>, n: nat)
    ensures forall e :: e in TopTags(tags, n) ==>
              e.0 in tags && e.1 == multiset(tags)[e.0] && e.1 > 0
    ensures forall i, j :: 0 <= i < j < |TopTags(tags, n)| ==> TopTags(tags, n)[i].0 != TopTags(tags, n)[j].0
  {
    var r := Ranked(tags);
    var c := TopTags(tags, n);
    TallyMembers(tags);
    MultisetKeepsMembers(r, Tally(tags));
    forall e | e in c
      ensures e.0 in tags && e.1 == multiset(tags)[e.0] && e.1 > 0
    {
      assert e in r;
    }
    DistinctNames(tags);
    DistinctPermutation(r, Tally(tags));
    forall i, j | 0 <= i < j < |c|
      ensures c[i].0 != c[j].0
    {
      assert c[i] == r[i] && c[j] == r[j];
      assert c[i] in r && c[j] in r;
      assert c[i].1 == multiset(tags)[c[i].0] && c[j].1 == multiset(tags)[c[j].0];
    }
  }

  lemma DistinctNames(tags: seq<string>)
    ensures Distinct(Tally(tags))
  {
    TallyMembers(tags);
    var t := Tally(tags);
    forall i, j | 0 <= i < j < |t|
      ensures t[i] != t[j]
    {
      assert Firsts(t)[i] == t[i].0 && Firsts(t)[j] == t[j].0;
    }
  }

  /** Ties keep first-seen order: among entries with the same count, the
      ranking lists them in the order of the tally, which is the order in
      which their tags were first met. */
  lemma RankedTies(tags: seq<string>)
    ensures forall c :: KeyClass(Ranked(tags), CountOf, c) == KeyClass(Tally(tags), CountOf, c)
    ensures Firsts(Tally(tags)) == Dedup(tags)
  {
    SortDescStable(Tally(tags), CountOf);
    TallySpec(tags);
  }

  /** A tag left out occurs no more often than any tag kept. */
  lemma TopTagsLargest(tags: seq<string>, n: nat, g: string)
    requires g in tags
    requires forall e :: e in TopTags(tags, n) ==> e.0 != g
    ensures forall e :: e in TopTags(tags, n) ==> e.1 >= multiset(tags)[g]
  {
    var r := Ranked(tags);
    var c := TopTags(tags, n);
    TallyMembers(tags);
    MultisetKeepsMembers(r, Tally(tags));
    var entry := (g, multiset(tags)[g]);
    assert entry in r;
    var j :| 0 <= j < |r| && r[j] == entry;
    if j < |c| {
      assert false;
    }
    TakeKeepsLargest(r, CountOf, n);
    forall e | e in c
      ensures e.1 >= multiset(tags)[g]
    {
      var i :| 0 <= i < |c| && c[i] == e;
      assert CountOf(c[i]) >= CountOf(r[j]);
    }
  }

  /** With at most `n` distinct tags every tag is kept. */
  lemma TopTagsComplete(tags: seq<string>, n: nat, g: string)
    requires |Dedup(tags)| <= n
    requires g in tags
    ensures (g, multiset(tags)[g]) in TopTags(tags, n)
  {
    TallySpec(tags);
    TallyMembers(tags);
    MultisetKeepsMembers(Ranked(tags), Tally(tags));
  }

  // ----------------------------------------------------------- the picker

  /** `['All', ...sorted distinct tags]` over the whole dataset. */
  function GenreOptions(data: seq<Track>): (r: seq<string>)
    ensures |r| >= 1 && r[0] == View.All
    ensures SortedLex(r[1..])
  {
    [View.All] + SortLex(Dedup(Tags(data)))
  }

  /** After "All" the picker lists every tag of the dataset exactly once. */
  lemma GenreOptionsSpec(data: seq<Track>)
    ensures Distinct(GenreOptions(data)[1..])
    ensures forall g :: g in GenreOptions(data)[1..] <==> g in Tags(data)
    ensures |GenreOptions(data)| == |Dedup(Tags(data))| + 1
  {
    var d := Dedup(Tags(data));
    var s := SortLex(d);
    assert GenreOptions(data)[1..] == s;
    DistinctPermutation(s, d);
    MultisetKeepsMembers(s, d);
    assert |s| == |multiset(s)| == |multiset(d)| == |d|;
  }
}
