/** The "top artists by followers" bar chart. Records with an artist name
    and a non-zero follower count are grouped by artist name; each artist
    keeps the largest follower count seen and the set of its tags in the
    order they were first added; the ten artists with most followers are
    shown, each labelled with its name and first two tags. */
module Artists {
  import opened Seqs
  import opened Grouping
  import opened Sorting
  import opened Genres
  import opened Tracks
  import GenreCounts
  import opened Text

  /** `d.artist_name && d.artist_followers`. */
  predicate Listed(t: Track) {
    t.artistName != "" && t.followers != 0
  }

  function ArtistPair(t: Track): (string, Track) {
    (t.artistName, t)
  }

  /** The value of the artist map: `{ followers, genres: new Set() }`. */
  datatype Entry = Entry(followers: int, genres: seq<string>)

  /** `set.add(g)` for every tag in turn: a tag already present stays where
      it is, a new one goes to the end. */
  function AddAll(added: seq<string>, gs: seq<string>): seq<string> {
    if gs == [] then added
    else
      var s := AddAll(added, Init(gs));
      if Last(gs) in s then s else s + [Last(gs)]
  }

  /** Adding to a set built from `x` gives the set built from `x` followed
      by the new tags. */
  lemma {:induction false} AddAllDedup(x: seq<string>, gs: seq<string>)
    ensures AddAll(Dedup(x), gs) == Dedup(x + gs)
  {
    if gs == [] {
      assert x + gs == x;
    } else {
      var q, g := Init(gs), Last(gs);
      InitLast(gs);
      AddAllDedup(x, q);
      assert x + gs == (x + q) + [g];
      DedupSnoc(x + q, g);
    }
  }

  /** A new artist's entry, before its first record is folded in. */
  function Seed(t: Track): Entry {
    Entry(t.followers, [])
  }

  /** `followers = Math.max(followers, d.artist_followers)` and every tag
      added to the set. */
  function Step(e: Entry, t: Track): Entry {
    Entry(if e.followers >= t.followers then e.followers else t.followers, AddAll(e.genres, t.genres))
  }

  /** The artist map: one entry per distinct name of a listed record, in
      the order artists are first met. */
  function ArtistName(t: Track): string {
    t.artistName
  }

  function ArtistMap(data: seq<Track>): (r: seq<(string, Entry)>)
    ensures Firsts(r) == Dedup(MapSeq(Filter(data, Listed), ArtistName))
  {
    assert Firsts(MapSeq(Filter(data, Listed), ArtistPair)) == MapSeq(Filter(data, Listed), ArtistName);
    Accumulate(MapSeq(Filter(data, Listed), ArtistPair), Seed, Step)
  }

  datatype Artist = Artist(name: string, followers: int, genres: seq<string>)

  function ToArtist(e: (string, Entry)): Artist {
    Artist(e.0, e.1.followers, e.1.genres)
  }

  function FollowersOf(a: Artist): int {
    a.followers
  }

  const TopCount: nat := 10

  /** The bars: the artists sorted by followers, most first (ties keep
      first-met order), cut to ten. */
  function TopArtists(data: seq<Track>): (r: seq<Artist>)
    ensures |r| <= TopCount
    ensures |r| == if |ArtistMap(data)| <= TopCount then |ArtistMap(data)| else TopCount
    ensures SortedDesc(r, FollowersOf)
  {
    var s := SortDesc(MapSeq(ArtistMap(data), ToArtist), FollowersOf);
    SortedPrefix(s, FollowersOf, TopCount);
    Take(s, TopCount)
  }

  /** A bar's label: the name followed by the formatted first two tags. */
  function Label(a: Artist): (l: string)
    ensures a.name <= l
  {
    a.name + FormatGenres(a.genres, 2)
  }

  // ------------------------------------------------------- the reference

  function By(name: string): Track -> bool {
    (t: Track) => Listed(t) && t.artistName == name
  }

  function Named(name: string): Track -> bool {
    (t: Track) => t.artistName == name
  }

  function Self(t: Track): Track {
    t
  }

  /** The records grouped under `name`, in view order. */
  function RecordsBy(data: seq<Track>, name: string): seq<Track> {
    Filter(data, By(name))
  }

  /** What the chart shows for an artist, stated from its records alone:
      it has some, its follower count is the largest among them, and its
      tags are theirs without repeats, in first-seen order. */
  predicate Summarises(data: seq<Track>, a: Artist) {
    var rs := RecordsBy(data, a.name);
    && rs != [] && a.name != ""
    && (forall t :: t in rs ==> t.followers <= a.followers)
    && (exists t :: t in rs && t.followers == a.followers)
    && a.genres == Dedup(GenreCounts.Tags(rs))
  }

  // ---------------------------------------------------------- the proofs

  lemma {:induction false} FoldFollowers(a0: Entry, vs: seq<Track>)
    ensures var f := FoldL(Step, a0, vs).followers;
            && a0.followers <= f
            && (forall i :: 0 <= i < |vs| ==> vs[i].followers <= f)
            && (f == a0.followers || exists i :: 0 <= i < |vs| && f == vs[i].followers)
  {
    if vs != [] {
      FoldFollowers(a0, Init(vs));
      InitLast(vs);
    }
  }

  lemma {:induction false} FoldGenres(a0: Entry, vs: seq<Track>, x: seq<string>)
    requires a0.genres == Dedup(x)
    ensures FoldL(Step, a0, vs).genres == Dedup(x + GenreCounts.Tags(vs))
  {
    if vs == [] {
      assert x + [] == x;
    } else {
      var q, t := Init(vs), Last(vs);
      InitLast(vs);
      FoldGenres(a0, q, x);
      FoldGenresStep(a0, q, t, x);
    }
  }

  lemma FoldGenresStep(a0: Entry, q: seq<Track>, t: Track, x: seq<string>)
    requires FoldL(Step, a0, q).genres == Dedup(x + GenreCounts.Tags(q))
    ensures FoldL(Step, a0, q + [t]).genres == Dedup(x + GenreCounts.Tags(q + [t]))
  {
    GenresSnoc(a0, q, t);
    AddAllDedup(x + GenreCounts.Tags(q), t.genres);
    TagsAfter(x, q, t);
  }

  lemma GenresSnoc(a0: Entry, q: seq<Track>, t: Track)
    ensures FoldL(Step, a0, q + [t]).genres == AddAll(FoldL(Step, a0, q).genres, t.genres)
  {
    FoldLSnoc(Step, a0, q, t);
  }

  lemma TagsAfter(x: seq<string>, q: seq<Track>, t: Track)
    ensures (x + GenreCounts.Tags(q)) + t.genres == x + GenreCounts.Tags(q + [t])
  {
    GenreCounts.TagsSnoc(q, t);
  }

  /** The entry an artist ends with, read from its records: the largest
      follower count among them and their tags without repeats. */
  lemma AggregateSummary(rs: seq<Track>)
    requires rs != []
    ensures var e := Aggregate(rs, Seed, Step);
            && (forall t :: t in rs ==> t.followers <= e.followers)
            && (exists t :: t in rs && t.followers == e.followers)
            && e.genres == Dedup(GenreCounts.Tags(rs))
  {
    var a0 := Seed(rs[0]);
    FoldFollowers(a0, rs);
    FoldGenres(a0, rs, []);
    assert [] + GenreCounts.Tags(rs) == GenreCounts.Tags(rs);
    var f := FoldL(Step, a0, rs).followers;
    assert exists t :: t in rs && t.followers == f by {
      if f == a0.followers {
        assert rs[0] in rs;
      } else {
        var k :| 0 <= k < |rs| && f == rs[k].followers;
        assert rs[k] in rs;
      }
    }
    forall t | t in rs
      ensures t.followers <= f
    {
      var k :| 0 <= k < |rs| && rs[k] == t;
    }
  }

  /** The records the map files under `name` are exactly that artist's
      listed records. */
  lemma ArtistValues(data: seq<Track>, name: string)
    ensures ValuesOf(MapSeq(Filter(data, Listed), ArtistPair), name) == RecordsBy(data, name)
  {
    var ls := Filter(data, Listed);
    ValuesOfMapped(ls, ArtistPair, name, Named(name), Self);
    FilterFilter(data, Listed, Named(name), By(name));
    assert MapSeq(Filter(ls, Named(name)), Self) == Filter(ls, Named(name));
  }

  /** Each entry of the map summarises its artist's records. */
  lemma ArtistEntry(data: seq<Track>, i: nat)
    requires i < |ArtistMap(data)|
    ensures Summarises(data, ToArtist(ArtistMap(data)[i]))
  {
    var ps := MapSeq(Filter(data, Listed), ArtistPair);
    var name := Keys(ps)[i];
    AccumulateSpec(ps, Seed, Step, i);
    ArtistValues(data, name);
    var rs := RecordsBy(data, name);
    AggregateSummary(rs);
    assert rs[0] in rs;
  }

  /** Two artists of the map with the same name are the same artist. */
  lemma SameName(data: seq<Track>, a: Artist, b: Artist)
    requires a in MapSeq(ArtistMap(data), ToArtist) && b in MapSeq(ArtistMap(data), ToArtist)
    requires a.name == b.name
    ensures a == b
  {
    var es := ArtistMap(data);
    var ps := MapSeq(Filter(data, Listed), ArtistPair);
    var i :| 0 <= i < |es| && ToArtist(es[i]) == a;
    var j :| 0 <= j < |es| && ToArtist(es[j]) == b;
    assert Firsts(es)[i] == Firsts(es)[j];
  }

  lemma DistinctArtists(data: seq<Track>)
    ensures Distinct(MapSeq(ArtistMap(data), ToArtist))
  {
    var es := ArtistMap(data);
    var ps := MapSeq(Filter(data, Listed), ArtistPair);
    var m := MapSeq(es, ToArtist);
    forall i, j | 0 <= i < j < |m|
      ensures m[i] != m[j]
    {
      assert Firsts(es)[i] != Firsts(es)[j];
    }
  }

  /** The chart: at most ten bars, followers non-increasing, no artist
      twice, and every bar summarises its artist's records. */
  lemma TopArtistsSpec(data: seq<Track>)
    ensures forall i, j :: 0 <= i < j < |TopArtists(data)| ==> TopArtists(data)[i].name != TopArtists(data)[j].name
    ensures forall a :: a in TopArtists(data) ==> Summarises(data, a)
  {
    var m := MapSeq(ArtistMap(data), ToArtist);
    var s := SortDesc(m, FollowersOf);
    var r := TopArtists(data);
    MultisetKeepsMembers(s, m);
    DistinctArtists(data);
    DistinctPermutation(s, m);
    forall i, j | 0 <= i < j < |r|
      ensures r[i].name != r[j].name
    {
      assert r[i] == s[i] && r[j] == s[j];
      assert s[i] in m && s[j] in m && s[i] != s[j];
      if r[i].name == r[j].name {
        SameName(data, s[i], s[j]);
      }
    }
    forall a | a in r
      ensures Summarises(data, a)
    {
      assert a in s;
      var k :| 0 <= k < |m| && m[k] == a;
      ArtistEntry(data, k);
    }
  }

  /** An artist with listed records but no bar has no record with more
      followers than any artist shown. */
  lemma TopArtistsLargest(data: seq<Track>, name: string, t: Track)
    requires t in RecordsBy(data, name)
    requires forall a :: a in TopArtists(data) ==> a.name != name
    ensures forall a :: a in TopArtists(data) ==> a.followers >= t.followers
  {
    var s := SortDesc(MapSeq(ArtistMap(data), ToArtist), FollowersOf);
    var r := TopArtists(data);
    var j := RankedEntry(data, name, t);
    if j < |r| {
      assert false;
    }
    TakeKeepsLargest(s, FollowersOf, TopCount);
    forall a | a in r
      ensures a.followers >= t.followers
    {
      var k :| 0 <= k < |r| && r[k] == a;
      assert FollowersOf(r[k]) >= FollowersOf(s[j]);
    }
  }

  /** The artist of a listed record has a place in the follower ranking,
      with at least that record's followers. */
  lemma RankedEntry(data: seq<Track>, name: string, t: Track) returns (j: nat)
    requires t in RecordsBy(data, name)
    ensures var s := SortDesc(MapSeq(ArtistMap(data), ToArtist), FollowersOf);
            j < |s| && s[j].name == name && s[j].followers >= t.followers
  {
    var es := ArtistMap(data);
    var m := MapSeq(es, ToArtist);
    var s := SortDesc(m, FollowersOf);
    var i := EntryIndex(data, name, t);
    var b := ToArtist(es[i]);
    assert b in m;
    MultisetKeepsMembers(s, m);
    j :| 0 <= j < |s| && s[j] == b;
  }

  /** The artist of a listed record has an entry in the map, holding at
      least that record's followers. */
  lemma EntryIndex(data: seq<Track>, name: string, t: Track) returns (i: nat)
    requires t in RecordsBy(data, name)
    ensures i < |ArtistMap(data)| && ArtistMap(data)[i].0 == name
    ensures ArtistMap(data)[i].1.followers >= t.followers
  {
    var es := ArtistMap(data);
    var ps := MapSeq(Filter(data, Listed), ArtistPair);
    ArtistValues(data, name);
    ValuesOfPresence(ps, name);
    i := FirstIndex(Keys(ps), name);
    assert es[i].0 == Firsts(es)[i] == name;
    ArtistEntry(data, i);
  }

  /** With two usable tags the label is the name, the first two trimmed
      tags, and the marker exactly when a third tag exists. */
  lemma LabelSpec(a: Artist)
    requires |a.genres| >= 2 && Trim(a.genres[0]) != "" && Trim(a.genres[1]) != ""
    ensures Label(a) == a.name + (" (" + Trim(a.genres[0]) + ", " + Trim(a.genres[1])
                                  + (if |a.genres| > 2 then Ellipsis else "") + ")")
  {
    FormatTwoGenres(a.genres);
  }
}
