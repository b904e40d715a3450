/** Genre tags: `parseGenres`, which turns a raw catalog cell into a clean
    ordered tag list, and `formatGenres`, which renders the first tags of a
    list as a parenthesised label suffix. */
module Genres {
  import opened Seqs
  import opened Text

  /** A raw `artist_genres` cell: absent (or any falsy value), text such
      as `['pop', 'dance pop']`, or an already-parsed list. */
  datatype GenreCell = GenreMissing | GenreText(raw: string) | GenreList(items: seq<string>)

  /** A tag survives parsing when it is non-empty and is not "n/a" in any
      letter case. */
  predicate Keepable(g: string) {
    g != "" && Lower(g) != "n/a"
  }

  predicate IsBracket(c: char) {
    c == '[' || c == ']'
  }

  function NotBracket(c: char): bool {
    !IsBracket(c)
  }

  /** `replace(/\[|\]/g, '')`. */
  function RemoveBrackets(s: string): string {
    Filter(s, NotBracket)
  }

  /** One comma-separated token: trimmed, then stripped of the runs of
      quote characters at either end. */
  function CleanToken(tok: string): string {
    Strip(Trim(tok), IsQuote)
  }

  function ParseGenres(cell: GenreCell): (tags: seq<string>)
    ensures forall g :: g in tags ==> Keepable(g)
  {
    match cell
    case GenreMissing => []
    case GenreList(items) => Filter(items, Keepable)
    case GenreText(s) =>
      if s == "" then []
      else Filter(MapSeq(Split(RemoveBrackets(s), ','), CleanToken), Keepable)
  }

  /** No tag is empty and none reads "n/a" in any case. */
  lemma ParseGenresClean(cell: GenreCell)
    ensures forall i :: 0 <= i < |ParseGenres(cell)| ==>
              ParseGenres(cell)[i] != "" && Lower(ParseGenres(cell)[i]) != "n/a"
  {
    forall i | 0 <= i < |ParseGenres(cell)|
      ensures Keepable(ParseGenres(cell)[i])
    {
      assert ParseGenres(cell)[i] in ParseGenres(cell);
    }
  }

  /** A list cell is only filtered: its kept tags stay in order, and a list
      that is already clean passes through unchanged. */
  lemma ParseGenresListOrder(a: seq<string>, b: seq<string>)
    ensures ParseGenres(GenreList(a + b)) == ParseGenres(GenreList(a)) + ParseGenres(GenreList(b))
  {
    FilterConcat(a, b, Keepable);
  }

  lemma ParseGenresCleanList(items: seq<string>)
    requires forall g :: g in items ==> Keepable(g)
    ensures ParseGenres(GenreList(items)) == items
  {
    FilterKeepsAll(items, Keepable);
  }

  /** Parsing is idempotent: feeding the parsed list back in changes
      nothing. */
  lemma ParseGenresIdempotent(cell: GenreCell)
    ensures ParseGenres(GenreList(ParseGenres(cell))) == ParseGenres(cell)
  {
    ParseGenresCleanList(ParseGenres(cell));
  }

  // ----------------------------------------------- the catalog cell format

  /** A tag that the bracketed, quoted cell format can carry verbatim: no
      comma, no bracket, and no quote at either end. */
  predicate Plain(g: string) {
    && (forall i :: 0 <= i < |g| ==> g[i] != ',' && !IsBracket(g[i]))
    && (g == [] || (!IsQuote(g[0]) && !IsQuote(Last(g))))
  }

  /** A plain tag that also survives parsing. */
  predicate Representable(g: string) {
    Keepable(g) && Plain(g)
  }

  function Quoted(g: string): string {
    "'" + g + "'"
  }

  /** The list rendered as the catalog stores it: `['a', 'b']`. */
  function RenderCell(tags: seq<string>): string {
    "[" + Join(MapSeq(tags, Quoted), ", ") + "]"
  }

  /** Tokens as `split(',')` sees them: every one but the first keeps the
      blank that followed the comma. */
  function SpacedTokens(tags: seq<string>): (toks: seq<string>)
    ensures |toks| == |tags|
  {
    seq(|tags|, i requires 0 <= i < |tags| => if i == 0 then Quoted(tags[0]) else " " + Quoted(tags[i]))
  }

  lemma {:induction false} JoinQuotedSpaced(tags: seq<string>)
    requires |tags| >= 1
    ensures Join(MapSeq(tags, Quoted), ", ") == Join(SpacedTokens(tags), [','])
  {
    if |tags| > 1 {
      var q, sp, rest := MapSeq(tags, Quoted), SpacedTokens(tags), tags[1..];
      var spRest := SpacedTokens(rest);
      var x := Join(MapSeq(rest, Quoted), ", ");
      assert Join(q, ", ") == q[0] + ", " + x by {
        assert q == [q[0]] + MapSeq(rest, Quoted);
        JoinCons(q[0], MapSeq(rest, Quoted), ", ");
      }
      assert Join(sp, [',']) == q[0] + [','] + (" " + Join(spRest, [','])) by {
        assert sp == [q[0]] + ([" " + spRest[0]] + spRest[1..]);
        JoinCons(q[0], [" " + spRest[0]] + spRest[1..], [',']);
        JoinPrefixFirst(" ", spRest, [',']);
      }
      JoinQuotedSpaced(rest);
      assert q[0] + ", " + x == q[0] + [','] + (" " + x) by {
        assert ", " + x == [','] + (" " + x);
      }
    }
  }

  lemma {:induction false} JoinNoBrackets(parts: seq<string>, sep: string)
    requires forall i, j :: 0 <= i < |parts| && 0 <= j < |parts[i]| ==> !IsBracket(parts[i][j])
    requires forall j :: 0 <= j < |sep| ==> !IsBracket(sep[j])
    ensures forall c :: c in Join(parts, sep) ==> !IsBracket(c)
  {
    if |parts| > 1 {
      JoinNoBrackets(parts[1..], sep);
    }
  }

  /** `trim` takes off the blank before a quoted token and nothing else. */
  lemma TrimQuoted(g: string, spaced: bool)
    ensures Trim(if spaced then " " + Quoted(g) else Quoted(g)) == Quoted(g)
  {
    var q := Quoted(g);
    var t := if spaced then " " + q else q;
    assert q[0] == '\'' && Last(q) == '\'';
    if spaced {
      DropStep(t, IsSpace);
      assert t[1..] == q;
    }
    DropStop(q, IsSpace);
    DropTrailingStop(q, IsSpace);
  }

  /** Stripping the quote runs of a quoted plain tag gives the tag. */
  lemma StripQuoted(g: string)
    requires Plain(g)
    ensures Strip(Quoted(g), IsQuote) == g
  {
    var q := Quoted(g);
    var g' := g + "'";
    assert q[1..] == g';
    DropStep(q, IsQuote);
    if g == [] {
      assert DropLeading(g', IsQuote) == [] by {
        DropStep(g', IsQuote);
        assert g'[1..] == [];
        DropStop([], IsQuote);
      }
      DropTrailingStop([], IsQuote);
    } else {
      assert DropLeading(g', IsQuote) == g' by {
        assert g'[0] == g[0];
        DropStop(g', IsQuote);
      }
      assert DropTrailing(g', IsQuote) == g by {
        assert Last(g') == '\'' && Init(g') == g;
        DropTrailingStep(g', IsQuote);
        DropTrailingStop(g, IsQuote);
      }
    }
  }

  lemma CleanSpacedToken(g: string, spaced: bool)
    requires Plain(g)
    ensures CleanToken(if spaced then " " + Quoted(g) else Quoted(g)) == g
  {
    TrimQuoted(g, spaced);
    StripQuoted(g);
  }

  /** The spaced tokens carry neither brackets nor commas. */
  lemma SpacedTokensPlain(tags: seq<string>)
    requires forall i :: 0 <= i < |tags| ==> Plain(tags[i])
    ensures forall i, j :: 0 <= i < |SpacedTokens(tags)| && 0 <= j < |SpacedTokens(tags)[i]| ==>
              !IsBracket(SpacedTokens(tags)[i][j]) && SpacedTokens(tags)[i][j] != ','
  {
    var toks := SpacedTokens(tags);
    forall i, j | 0 <= i < |toks| && 0 <= j < |toks[i]|
      ensures !IsBracket(toks[i][j]) && toks[i][j] != ','
    {
      var g := tags[i];
      var q := Quoted(g);
      if i > 0 {
        assert toks[i] == " " + q;
        if j > 0 {
          assert toks[i][j] == q[j - 1];
          if 0 < j - 1 < |q| - 1 {
            assert q[j - 1] == g[j - 2];
          }
        }
      } else {
        assert toks[i] == q;
        if 0 < j < |q| - 1 {
          assert q[j] == g[j - 1];
        }
      }
    }
  }

  /** Removing the brackets of `[inner]` leaves `inner` when `inner` has
      none of its own. */
  lemma RemoveOuterBrackets(inner: string)
    requires forall c :: c in inner ==> !IsBracket(c)
    ensures RemoveBrackets("[" + inner + "]") == inner
  {
    assert Filter("[", NotBracket) == [] by {
      FilterSingle('[', NotBracket);
    }
    assert Filter("]", NotBracket) == [] by {
      FilterSingle(']', NotBracket);
    }
    assert Filter("[" + inner, NotBracket) == inner by {
      FilterConcat("[", inner, NotBracket);
      FilterKeepsAll(inner, NotBracket);
    }
    FilterConcat("[" + inner, "]", NotBracket);
  }

  /** Splitting the rendered cell's interior yields the spaced tokens. */
  lemma SplitRendered(tags: seq<string>)
    requires |tags| >= 1
    requires forall i :: 0 <= i < |tags| ==> Plain(tags[i])
    ensures RemoveBrackets(RenderCell(tags)) == Join(SpacedTokens(tags), [','])
    ensures Split(RemoveBrackets(RenderCell(tags)), ',') == SpacedTokens(tags)
  {
    var toks := SpacedTokens(tags);
    var inner := Join(toks, [',']);
    assert RenderCell(tags) == "[" + inner + "]" by {
      JoinQuotedSpaced(tags);
    }
    SpacedTokensPlain(tags);
    assert forall c :: c in inner ==> !IsBracket(c) by {
      JoinNoBrackets(toks, [',']);
    }
    RemoveOuterBrackets(inner);
    SplitJoin(toks, ',');
  }

  /** Cleaning each spaced token gives back its tag. */
  lemma CleanSpacedTokens(tags: seq<string>)
    requires forall i :: 0 <= i < |tags| ==> Plain(tags[i])
    ensures MapSeq(SpacedTokens(tags), CleanToken) == tags
  {
    var cleaned := MapSeq(SpacedTokens(tags), CleanToken);
    forall i | 0 <= i < |tags|
      ensures cleaned[i] == tags[i]
    {
      CleanSpacedToken(tags[i], i > 0);
    }
  }

  /** Rendering plain tags in the catalog's cell format and parsing the
      cell gives back exactly the tags that parsing keeps, in order. */
  lemma ParseRenderedCell(tags: seq<string>)
    requires forall i :: 0 <= i < |tags| ==> Plain(tags[i])
    ensures ParseGenres(GenreText(RenderCell(tags))) == Filter(tags, Keepable)
  {
    var cell := RenderCell(tags);
    assert cell != "";
    var toks := Split(RemoveBrackets(cell), ',');
    assert ParseGenres(GenreText(cell)) == Filter(MapSeq(toks, CleanToken), Keepable);
    if tags == [] {
      ParseEmptyCell(tags);
    } else {
      assert MapSeq(toks, CleanToken) == tags by {
        SplitRendered(tags);
        CleanSpacedTokens(tags);
      }
    }
  }

  /** The empty list renders as `[]`, which parses to no tags. */
  lemma ParseEmptyCell(tags: seq<string>)
    requires tags == []
    ensures Filter(MapSeq(Split(RemoveBrackets(RenderCell(tags)), ','), CleanToken), Keepable) == []
  {
    var stripped := RemoveBrackets(RenderCell(tags));
    assert stripped == "" by {
      assert RenderCell(tags) == "[" + "" + "]";
      RemoveOuterBrackets("");
    }
    var toks := Split(stripped, ',');
    assert toks == [stripped];
    var cleaned := MapSeq(toks, CleanToken);
    assert cleaned == [stripped] by {
      DropStop(stripped, IsSpace);
      DropStop(stripped, IsQuote);
    }
    FilterSingle(stripped, Keepable);
  }

  /** The round trip: a list of representable tags survives rendering and
      parsing unchanged. */
  lemma ParseRenderedClean(tags: seq<string>)
    requires forall i :: 0 <= i < |tags| ==> Representable(tags[i])
    ensures ParseGenres(GenreText(RenderCell(tags))) == tags
  {
    ParseRenderedCell(tags);
    FilterKeepsAll(tags, Keepable);
  }

  /** The catalog's own example: the empty and "n/a" entries are dropped. */
  lemma ParseGenresExample()
    ensures ParseGenres(GenreText("['Pop', 'n/a', '']")) == ["Pop"]
  {
    var tags := ["Pop", "n/a", ""];
    RenderExample();
    assert forall i :: 0 <= i < |tags| ==> Plain(tags[i]);
    ParseRenderedCell(tags);
    KeepExample();
  }

  lemma RenderExample()
    ensures RenderCell(["Pop", "n/a", ""]) == "['Pop', 'n/a', '']"
  {
    var tags := ["Pop", "n/a", ""];
    var qs := MapSeq(tags, Quoted);
    assert qs == ["'Pop'", "'n/a'", "''"] by {
      assert qs[0] == "'Pop'" && qs[1] == "'n/a'" && qs[2] == "''";
    }
    assert Join(qs, ", ") == "'Pop', 'n/a', ''" by {
      assert qs[1..] == ["'n/a'", "''"];
      assert qs[1..][1..] == ["''"];
      assert Join(qs[1..], ", ") == "'n/a'" + ", " + "''";
      assert "'Pop'" + ", " + ("'n/a'" + ", " + "''") == "'Pop', 'n/a', ''";
    }
  }

  lemma KeepExample()
    ensures Filter(["Pop", "n/a", ""], Keepable) == ["Pop"]
  {
    assert Lower("n/a") == "n/a";
    assert Lower("Pop") == "pop";
    assert ["Pop", "n/a", ""] == ["Pop"] + ["n/a"] + [""];
    FilterConcat(["Pop"] + ["n/a"], [""], Keepable);
    FilterConcat(["Pop"], ["n/a"], Keepable);
    FilterSingle("Pop", Keepable);
    FilterSingle("n/a", Keepable);
    FilterSingle("", Keepable);
  }

  // ------------------------------------------------------------- labels

  /** The ellipsis literal exactly as the source file stores it: the
      three characters U+00E2 U+20AC U+00A6 (a UTF-8 "…" read as
      Windows-1252). */
  const Ellipsis: string := "\U{00E2}\U{20AC}\U{00A6}"

  function NonBlank(g: string): bool {
    g != ""
  }

  /** `formatGenres(genres, max)`: the first `max` tags, trimmed and with
      blanks dropped, as ` (a, b)`, with the ellipsis marker before the
      closing parenthesis when more than `max` tags exist. */
  function FormatGenres(genres: seq<string>, max: nat): (r: string)
    ensures r != "" ==> " (" <= r && r[|r| - 1] == ')'
  {
    if |genres| == 0 then ""
    else
      var shown := Filter(MapSeq(Take(genres, max), Trim), NonBlank);
      if shown == [] then ""
      else " (" + Join(shown, ", ") + (if |genres| > max then Ellipsis else "") + ")"
  }

  /** The label suffix for the default `max` of 2: the first two trimmed
      tags, and the marker exactly when a third tag exists. */
  lemma FormatTwoGenres(genres: seq<string>)
    requires |genres| >= 2 && Trim(genres[0]) != "" && Trim(genres[1]) != ""
    ensures FormatGenres(genres, 2) ==
              " (" + Trim(genres[0]) + ", " + Trim(genres[1]) + (if |genres| > 2 then Ellipsis else "") + ")"
  {
    var a, b := Trim(genres[0]), Trim(genres[1]);
    var e := if |genres| > 2 then Ellipsis else "";
    assert FormatGenres(genres, 2) == " (" + (a + ", " + b) + e + ")" by {
      ShownTwo(genres);
      FormatShown(genres, 2);
      JoinTwo(a, b, ", ");
    }
    Regroup(" (", a, ", ", b, e, ")");
  }

  lemma ShownTwo(genres: seq<string>)
    requires |genres| >= 2 && Trim(genres[0]) != "" && Trim(genres[1]) != ""
    ensures Filter(MapSeq(Take(genres, 2), Trim), NonBlank) == [Trim(genres[0]), Trim(genres[1])]
  {
    var m := MapSeq(Take(genres, 2), Trim);
    assert m == [Trim(genres[0]), Trim(genres[1])];
    FilterKeepsAll(m, NonBlank);
  }

  lemma Regroup(x: string, a: string, y: string, b: string, e: string, z: string)
    ensures x + (a + y + b) + e + z == x + a + y + b + e + z
  {
  }

  lemma FormatShown(genres: seq<string>, max: nat)
    requires Filter(MapSeq(Take(genres, max), Trim), NonBlank) != []
    ensures FormatGenres(genres, max) ==
              " (" + Join(Filter(MapSeq(Take(genres, max), Trim), NonBlank), ", ")
              + (if |genres| > max then Ellipsis else "") + ")"
  {
  }

  /** The first tag shown is the first of the first `max` tags that is
      not blank once trimmed. */
  lemma FirstShown(genres: seq<string>, max: nat) returns (k: nat)
    requires Filter(MapSeq(Take(genres, max), Trim), NonBlank) != []
    ensures k < |genres| && k < max && Trim(genres[k]) != ""
    ensures forall j :: 0 <= j < k ==> Trim(genres[j]) == ""
    ensures Filter(MapSeq(Take(genres, max), Trim), NonBlank)[0] == Trim(genres[k])
  {
    var m := MapSeq(Take(genres, max), Trim);
    k := FilterHead(m, NonBlank);
    forall j | 0 <= j < k
      ensures Trim(genres[j]) == ""
    {
      assert m[j] == Trim(genres[j]) && !NonBlank(m[j]);
    }
  }

  /** The last tag shown is the last of the first `max` tags that is not
      blank once trimmed. */
  lemma LastShown(genres: seq<string>, max: nat) returns (k: nat)
    requires Filter(MapSeq(Take(genres, max), Trim), NonBlank) != []
    ensures k < |genres| && k < max && Trim(genres[k]) != ""
    ensures forall j :: k < j < |genres| && j < max ==> Trim(genres[j]) == ""
    ensures Last(Filter(MapSeq(Take(genres, max), Trim), NonBlank)) == Trim(genres[k])
  {
    var m := MapSeq(Take(genres, max), Trim);
    k := FilterTail(m, NonBlank);
    forall j | k < j < |genres| && j < max
      ensures Trim(genres[j]) == ""
    {
      assert m[j] == Trim(genres[j]) && !NonBlank(m[j]);
    }
  }

  /** A non-empty suffix opens with " (" and the first of the first `max`
      tags that is not blank once trimmed. */
  lemma FormatGenresOpens(genres: seq<string>, max: nat)
    requires FormatGenres(genres, max) != ""
    ensures exists k :: 0 <= k < |genres| && k < max && Trim(genres[k]) != ""
              && (forall j :: 0 <= j < k ==> Trim(genres[j]) == "")
              && " (" + Trim(genres[k]) <= FormatGenres(genres, max)
  {
    var k := OpeningTag(genres, max);
  }

  lemma OpeningTag(genres: seq<string>, max: nat) returns (k: nat)
    requires FormatGenres(genres, max) != ""
    ensures k < |genres| && k < max && Trim(genres[k]) != ""
    ensures forall j :: 0 <= j < k ==> Trim(genres[j]) == ""
    ensures " (" + Trim(genres[k]) <= FormatGenres(genres, max)
  {
    var shown := Filter(MapSeq(Take(genres, max), Trim), NonBlank);
    var tail := (if |genres| > max then Ellipsis else "") + ")";
    var l := FormatGenres(genres, max);
    assert shown != [] && l == " (" + Join(shown, ", ") + tail by {
      FormatShown(genres, max);
    }
    k := FirstShown(genres, max);
    OpensWith(" (", shown, ", ", tail);
  }

  /** When tags were cut off, a non-empty suffix closes with the ellipsis
      and ")". */
  lemma FormatGenresCut(genres: seq<string>, max: nat)
    requires FormatGenres(genres, max) != ""
    requires |genres| > max
    ensures EndsWith(FormatGenres(genres, max), Ellipsis + ")")
  {
    var shown := Filter(MapSeq(Take(genres, max), Trim), NonBlank);
    var head := " (" + Join(shown, ", ");
    var l := FormatGenres(genres, max);
    assert l == head + (Ellipsis + ")") by {
      FormatShown(genres, max);
    }
    EndsWithTail(head, Ellipsis + ")");
  }

  /** When no tag was cut off, a non-empty suffix closes with the last
      non-blank tag and ")". */
  lemma FormatGenresCloses(genres: seq<string>, max: nat)
    requires FormatGenres(genres, max) != ""
    requires |genres| <= max
    ensures exists k :: 0 <= k < |genres| && Trim(genres[k]) != ""
              && (forall j :: k < j < |genres| ==> Trim(genres[j]) == "")
              && EndsWith(FormatGenres(genres, max), Trim(genres[k]) + ")")
  {
    var k := ClosingTag(genres, max);
  }

  lemma ClosingTag(genres: seq<string>, max: nat) returns (k: nat)
    requires FormatGenres(genres, max) != ""
    requires |genres| <= max
    ensures k < |genres| && Trim(genres[k]) != ""
    ensures forall j :: k < j < |genres| ==> Trim(genres[j]) == ""
    ensures EndsWith(FormatGenres(genres, max), Trim(genres[k]) + ")")
  {
    var shown := Filter(MapSeq(Take(genres, max), Trim), NonBlank);
    var l := FormatGenres(genres, max);
    assert shown != [] && l == " (" + Join(shown, ", ") + ")" by {
      FormatShown(genres, max);
    }
    k := LastShown(genres, max);
    ClosingSuffix(shown);
  }

  lemma ClosingSuffix(shown: seq<string>)
    requires |shown| >= 1
    ensures EndsWith(" (" + Join(shown, ", ") + ")", Last(shown) + ")")
  {
    JoinEnds(shown, ", ");
    EndsWithClose(" (", Join(shown, ", "), Last(shown));
  }

  /** The suffix is empty exactly when none of the first `max` tags has a
      non-blank character left after trimming. */
  lemma FormatGenresEmpty(genres: seq<string>, max: nat)
    ensures FormatGenres(genres, max) == "" <==>
              forall i :: 0 <= i < |genres| && i < max ==> Trim(genres[i]) == ""
  {
    var m := MapSeq(Take(genres, max), Trim);
    var shown := Filter(m, NonBlank);
    FilterCount(m, NonBlank);
    if forall i :: 0 <= i < |genres| && i < max ==> Trim(genres[i]) == "" {
      FilterDropsAll(m, NonBlank);
    } else {
      var i :| 0 <= i < |genres| && i < max && Trim(genres[i]) != "";
      assert m[i] in m;
      assert multiset(m)[m[i]] > 0;
      assert multiset(shown)[m[i]] > 0;
      assert shown != [];
      assert FormatGenres(genres, max)[0] == ' ';
    }
  }
}
