/** The "top tracks by popularity" bar chart. Named records are sorted by
    popularity, most popular first (ties keep view order); the scan then
    keeps each record whose key it has not seen, until ten are kept. A
    record's key is its track id, or its name and artist when the id is
    empty. The kept records are presented with a rank, an id and a display
    name cut to fit the axis. */
module TopTracks {
  import opened Seqs
  import opened Sorting
  import opened Text
  import opened Tracks

  /** `d.track_name && hasPopularityScore(d.track_popularity)`; the score
      is always a number here, since ingestion coerces it. */
  predicate Candidate(t: Track) {
    t.trackName != ""
  }

  function PopularityOf(t: Track): int {
    t.popularity
  }

  /** The candidates, most popular first. */
  function Ranked(data: seq<Track>): (r: seq<Track>)
    ensures SortedDesc(r, PopularityOf)
    ensures multiset(r) == multiset(Filter(data, Candidate))
  {
    SortDesc(Filter(data, Candidate), PopularityOf)
  }

  /** `track.track_id || \`${track.track_name}-${track.artist_name}\``. */
  function TrackKey(t: Track): string {
    if t.trackId != "" then t.trackId else t.trackName + "-" + t.artistName
  }

  function KeySet(r: seq<Track>): set<string> {
    set t | t in r :: TrackKey(t)
  }

  /** The records of `s` whose key has not been met before, in order. */
  function FirstByKey(s: seq<Track>): (r: seq<Track>)
    ensures forall t :: t in r ==> t in s
  {
    if s == [] then []
    else
      var r := FirstByKey(Init(s));
      assert forall t :: t in Init(s) ==> t in s;
      if TrackKey(Last(s)) in KeySet(r) then r else r + [Last(s)]
  }

  const TopCount: nat := 10

  /** The records the chart shows: at most ten named records of the
      view. */
  function TopPicks(data: seq<Track>): (r: seq<Track>)
    ensures |r| <= TopCount
    ensures forall t :: t in r ==> t in data && Candidate(t)
  {
    MultisetKeepsMembers(Ranked(data), Filter(data, Candidate));
    Take(FirstByKey(Ranked(data)), TopCount)
  }

  lemma FirstByKeySnoc(s: seq<Track>, t: Track)
    ensures FirstByKey(s + [t]) ==
              if TrackKey(t) in KeySet(FirstByKey(s)) then FirstByKey(s) else FirstByKey(s) + [t]
  {
    InitLastOfSnoc(s, t);
  }

  /** The scan of the sorted records, as the dashboard runs it: a set of
      seen keys, and nothing kept once ten records are. */
  method PickTop(sorted: seq<Track>) returns (picked: seq<Track>)
    ensures picked == Take(FirstByKey(sorted), TopCount)
    ensures |picked| <= TopCount
  {
    picked := [];
    var seen: set<string> := {};
    var i := 0;
    while i < |sorted|
      invariant 0 <= i <= |sorted|
      invariant picked == Take(FirstByKey(sorted[..i]), TopCount)
      invariant seen == KeySet(picked)
    {
      var t := sorted[i];
      var key := TrackKey(t);
      if |picked| < TopCount && key !in seen {
        KeepStep(sorted, i, picked);
        KeySetSnoc(picked, t);
        seen := seen + {key};
        picked := picked + [t];
      } else {
        SkipStep(sorted, i, picked);
      }
      i := i + 1;
    }
    assert sorted[..i] == sorted;
  }

  /** A record whose key is new is kept while fewer than ten are. */
  lemma KeepStep(sorted: seq<Track>, i: nat, picked: seq<Track>)
    requires i < |sorted| && picked == Take(FirstByKey(sorted[..i]), TopCount)
    requires |picked| < TopCount && TrackKey(sorted[i]) !in KeySet(picked)
    ensures picked + [sorted[i]] == Take(FirstByKey(sorted[..i + 1]), TopCount)
  {
    ScanStep(sorted, i);
    TakeShort(FirstByKey(sorted[..i]), TopCount);
  }

  /** Otherwise the kept records stay as they are. */
  lemma SkipStep(sorted: seq<Track>, i: nat, picked: seq<Track>)
    requires i < |sorted| && picked == Take(FirstByKey(sorted[..i]), TopCount)
    requires |picked| >= TopCount || TrackKey(sorted[i]) in KeySet(picked)
    ensures picked == Take(FirstByKey(sorted[..i + 1]), TopCount)
  {
    var before := FirstByKey(sorted[..i]);
    ScanStep(sorted, i);
    if |picked| >= TopCount {
      TakeFull(before, sorted[i], TopCount);
    } else {
      TakeShort(before, TopCount);
    }
  }

  lemma ScanStep(sorted: seq<Track>, i: nat)
    requires i < |sorted|
    ensures FirstByKey(sorted[..i + 1]) ==
              if TrackKey(sorted[i]) in KeySet(FirstByKey(sorted[..i])) then FirstByKey(sorted[..i])
              else FirstByKey(sorted[..i]) + [sorted[i]]
  {
    assert sorted[..i + 1] == sorted[..i] + [sorted[i]];
    FirstByKeySnoc(sorted[..i], sorted[i]);
  }

  lemma TakeShort<T>(s: seq<T>, n: nat)
    requires |Take(s, n)| < n
    ensures Take(s, n) == s
  {
  }

  lemma TakeFull<T>(s: seq<T>, x: T, n: nat)
    requires |s| >= n
    ensures Take(s + [x], n) == Take(s, n)
  {
    assert (s + [x])[..n] == s[..n];
  }

  lemma KeySetSnoc(r: seq<Track>, t: Track)
    ensures KeySet(r + [t]) == KeySet(r) + {TrackKey(t)}
  {
  }

  // ---------------------------------------------------- the reference

  function Keys(s: seq<Track>): seq<string> {
    MapSeq(s, TrackKey)
  }

  /** The scan keeps exactly one record per key, in the order keys are
      first met. */
  lemma {:induction false} FirstByKeyKeys(s: seq<Track>)
    ensures Keys(FirstByKey(s)) == Dedup(Keys(s))
  {
    if s != [] {
      var q, t := Init(s), Last(s);
      InitLast(s);
      FirstByKeyKeys(q);
      FirstByKeySnoc(q, t);
      var r := FirstByKey(q);
      assert TrackKey(t) in KeySet(r) <==> TrackKey(t) in Keys(q) by {
        assert TrackKey(t) in KeySet(r) <==> TrackKey(t) in Keys(r);
        assert forall k :: k in Keys(r) <==> k in Dedup(Keys(q));
      }
      assert Keys(s) == Keys(q) + [TrackKey(t)];
      DedupSnoc(Keys(q), TrackKey(t));
      MapSeqConcat(r, [t], TrackKey);
    }
  }

  /** The scan keeps the order of its input, so a sorted input stays
      sorted. */
  lemma {:induction false} FirstByKeySorted(s: seq<Track>)
    requires SortedDesc(s, PopularityOf)
    ensures SortedDesc(FirstByKey(s), PopularityOf)
  {
    if s != [] {
      var q, t := Init(s), Last(s);
      InitLast(s);
      assert SortedDesc(q, PopularityOf);
      FirstByKeySorted(q);
      FirstByKeySnoc(q, t);
      SortedSnoc(FirstByKey(q), q, t);
    }
  }

  /** Appending a record no more popular than any of `q` keeps a sorted
      selection from `q` sorted. */
  lemma SortedSnoc(r: seq<Track>, q: seq<Track>, t: Track)
    requires SortedDesc(r, PopularityOf) && SortedDesc(q + [t], PopularityOf)
    requires forall x :: x in r ==> x in q
    ensures SortedDesc(r + [t], PopularityOf)
  {
    forall x | x in r
      ensures PopularityOf(x) >= PopularityOf(t)
    {
      var k :| 0 <= k < |q| && q[k] == x;
      assert (q + [t])[k] == x && (q + [t])[|q|] == t;
    }
  }

  /** The chart's records: at most ten, popularity non-increasing, no key
      twice, all named records of the view; and when fewer than ten are
      shown, every named record's key is among them. */
  lemma TopPicksSpec(data: seq<Track>)
    ensures |TopPicks(data)| <= TopCount
    ensures SortedDesc(TopPicks(data), PopularityOf)
    ensures Distinct(Keys(TopPicks(data)))
    ensures forall t :: t in TopPicks(data) ==> t in data && Candidate(t)
    ensures |TopPicks(data)| < TopCount ==>
              forall t :: t in data && Candidate(t) ==> TrackKey(t) in Keys(TopPicks(data))
  {
    TopPicksShape(data);
    TopPicksComplete(data);
  }

  lemma TopPicksShape(data: seq<Track>)
    ensures SortedDesc(TopPicks(data), PopularityOf)
    ensures Distinct(Keys(TopPicks(data)))
    ensures forall t :: t in TopPicks(data) ==> t in data && Candidate(t)
  {
    var s := Ranked(data);
    var f := FirstByKey(s);
    var r := TopPicks(data);
    FirstByKeySorted(s);
    SortedPrefix(f, PopularityOf, TopCount);
    FirstByKeyKeys(s);
    MultisetKeepsMembers(s, Filter(data, Candidate));
    assert Keys(r) == Take(Keys(f), TopCount);
    assert forall t :: t in r ==> t in f;
  }

  lemma TopPicksComplete(data: seq<Track>)
    ensures |TopPicks(data)| < TopCount ==>
              forall t :: t in data && Candidate(t) ==> TrackKey(t) in Keys(TopPicks(data))
  {
    var s := Ranked(data);
    var f := FirstByKey(s);
    var r := TopPicks(data);
    if |r| < TopCount {
      FirstByKeyKeys(s);
      MultisetKeepsMembers(s, Filter(data, Candidate));
      assert r == f;
      forall t | t in data && Candidate(t)
        ensures TrackKey(t) in Keys(r)
      {
        FilterMember(data, Candidate, t);
        var k :| 0 <= k < |s| && s[k] == t;
        assert TrackKey(t) == Keys(s)[k];
      }
    }
  }

  // ------------------------------------------------------ presentation

  const NameLimit: nat := 25
  const CutAt: nat := 23

  /** `fullName.length > 25 ? \`${fullName.substring(0, 23)}...\` : fullName`. */
  function DisplayName(full: string): (d: string)
    ensures |d| <= NameLimit + 1
    ensures |full| <= NameLimit ==> d == full
    ensures |full| > NameLimit ==> full[..CutAt] <= d && d[CutAt..] == "..."
  {
    if |full| > NameLimit then full[..CutAt] + "..." else full
  }

  datatype TopTrack = TopTrack(
    id: string,
    rank: nat,
    name: string,
    fullName: string,
    artist: string,
    popularity: int,
    genres: seq<string>)

  /** The `i`-th kept record as the chart presents it. */
  function Present(t: Track, i: nat): TopTrack {
    var full := if t.trackName != "" then t.trackName else "Track " + DecimalString(i + 1);
    var artist := if t.artistName != "" then t.artistName else "unknown";
    var id := if t.trackId != "" then t.trackId else full + "-" + artist + "-" + DecimalString(i);
    TopTrack(id, i + 1, DisplayName(full), full, t.artistName, t.popularity, t.genres)
  }

  function TopTracks(picked: seq<Track>): (r: seq<TopTrack>)
    ensures |r| == |picked|
  {
    seq(|picked|, i requires 0 <= i < |picked| => Present(picked[i], i))
  }

  /** The presented chart: ranks count up from 1, popularity is
      non-increasing, every name fits the axis and, for a record whose name
      fits, is that name; a record with an id keeps it. */
  lemma TopTracksSpec(data: seq<Track>)
    ensures var r := TopTracks(TopPicks(data));
            && |r| <= TopCount
            && (forall i :: 0 <= i < |r| ==> r[i].rank == i + 1)
            && (forall i, j :: 0 <= i < j < |r| ==> r[i].popularity >= r[j].popularity)
            && (forall i :: 0 <= i < |r| ==> |r[i].name| <= NameLimit + 1)
            && (forall i :: 0 <= i < |r| ==> r[i].fullName == TopPicks(data)[i].trackName)
            && (forall i :: 0 <= i < |r| && |TopPicks(data)[i].trackName| <= NameLimit ==>
                  r[i].name == TopPicks(data)[i].trackName)
            && (forall i :: 0 <= i < |r| && TopPicks(data)[i].trackId != "" ==>
                  r[i].id == TopPicks(data)[i].trackId)
  {
    var p := TopPicks(data);
    TopPicksSpec(data);
    forall i | 0 <= i < |p|
      ensures p[i].trackName != ""
    {
      assert p[i] in p;
    }
  }
}
