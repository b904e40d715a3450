/** The string operations the dashboard applies to CSV cells and user
    input: ASCII lower-casing, `trim`, stripping runs of quote characters,
    `split`/`join` on a separator, the `^\d*$` digit test, and decimal
    rendering and reading of non-negative integers. */
module Text {
  import opened Seqs

  // ---------------------------------------------------------- lower-casing

  function LowerChar(c: char): char {
    if 'A' <= c <= 'Z' then (c as int + 32) as char else c
  }

  /** `toLowerCase`, restricted to ASCII letters. */
  function Lower(s: string): (r: string)
    ensures |r| == |s|
  {
    seq(|s|, i requires 0 <= i < |s| => LowerChar(s[i]))
  }

  // ------------------------------------------------- trimming runs of chars

  /** The JavaScript white-space and line-terminator characters that
      `trim` removes. */
  predicate IsSpace(c: char) {
    || c == ' ' || c == '\t' || c == '\n' || c == '\r'
    || c == '\U{000B}' || c == '\U{000C}' || c == '\U{00A0}' || c == '\U{FEFF}'
    || c == '\U{1680}' || ('\U{2000}' <= c <= '\U{200A}') || c == '\U{2028}' || c == '\U{2029}'
    || c == '\U{202F}' || c == '\U{205F}' || c == '\U{3000}'
  }

  predicate IsQuote(c: char) {
    c == '\'' || c == '"'
  }

  /** Drops the longest prefix of characters satisfying `p`. */
  function DropLeading(s: string, p: char -> bool): (r: string)
    ensures |r| <= |s|
    ensures r == s[|s| - |r|..]
    ensures r == [] || !p(r[0])
    ensures forall i :: 0 <= i < |s| - |r| ==> p(s[i])
  {
    if s != [] && p(s[0]) then DropLeading(s[1..], p) else s
  }

  /** Drops the longest suffix of characters satisfying `p`. */
  function DropTrailing(s: string, p: char -> bool): (r: string)
    ensures |r| <= |s|
    ensures r == s[..|r|]
    ensures r == [] || !p(Last(r))
    ensures forall i :: |r| <= i < |s| ==> p(s[i])
  {
    if s != [] && p(Last(s)) then DropTrailing(Init(s), p) else s
  }

  lemma DropStep(s: string, p: char -> bool)
    requires s != [] && p(s[0])
    ensures DropLeading(s, p) == DropLeading(s[1..], p)
  {
  }

  lemma DropStop(s: string, p: char -> bool)
    requires s == [] || !p(s[0])
    ensures DropLeading(s, p) == s
  {
  }

  lemma DropTrailingStep(s: string, p: char -> bool)
    requires s != [] && p(Last(s))
    ensures DropTrailing(s, p) == DropTrailing(Init(s), p)
  {
  }

  lemma DropTrailingStop(s: string, p: char -> bool)
    requires s == [] || !p(Last(s))
    ensures DropTrailing(s, p) == s
  {
  }

  /** Both runs removed: `trim` for white space, and the replacement of
      `/^['"]+|['"]+$/g` by the empty string for quotes. */
  function Strip(s: string, p: char -> bool): (r: string)
    ensures r == [] || (!p(r[0]) && !p(Last(r)))
  {
    var a := DropLeading(s, p);
    var b := DropTrailing(a, p);
    assert b != [] ==> b[0] == a[0];
    b
  }

  function Trim(s: string): string {
    Strip(s, IsSpace)
  }

  /** Nothing to strip: the string is returned unchanged. */
  lemma StripClean(s: string, p: char -> bool)
    requires s == [] || (!p(s[0]) && !p(Last(s)))
    ensures Strip(s, p) == s
  {
  }

  // ------------------------------------------------------------ split/join

  /** `split(d)` for a one-character separator: the pieces between
      separators, empty pieces included; always at least one piece. */
  function Split(s: string, d: char): (r: seq<string>)
    ensures |r| >= 1
    ensures forall i :: 0 <= i < |r| ==> d !in r[i]
    decreases |s|
  {
    if d in s then
      var i := FirstIndex(s, d);
      [s[..i]] + Split(s[i + 1..], d)
    else [s]
  }

  /** `join(sep)`. */
  function Join(parts: seq<string>, sep: string): string {
    if |parts| == 0 then ""
    else if |parts| == 1 then parts[0]
    else parts[0] + sep + Join(parts[1..], sep)
  }

  lemma JoinTwo(a: string, b: string, sep: string)
    ensures Join([a, b], sep) == a + sep + b
  {
    assert [a, b][1..] == [b];
  }

  lemma JoinCons(a: string, rest: seq<string>, sep: string)
    requires |rest| >= 1
    ensures Join([a] + rest, sep) == a + sep + Join(rest, sep)
  {
    assert ([a] + rest)[1..] == rest;
  }

  /** Prefixing the first piece prefixes the joined text. */
  lemma JoinPrefixFirst(pre: string, parts: seq<string>, sep: string)
    requires |parts| >= 1
    ensures Join([pre + parts[0]] + parts[1..], sep) == pre + Join(parts, sep)
  {
    if |parts| > 1 {
      JoinCons(pre + parts[0], parts[1..], sep);
      JoinCons(parts[0], parts[1..], sep);
      assert parts == [parts[0]] + parts[1..];
    }
  }

  /** `s.endsWith(x)`. */
  predicate EndsWith(s: string, x: string) {
    |x| <= |s| && s[|s| - |x|..] == x
  }

  lemma EndsWithAppend(a: string, b: string, x: string)
    requires EndsWith(b, x)
    ensures EndsWith(a + b, x)
  {
    assert (a + b)[|a + b| - |x|..] == b[|b| - |x|..];
  }

  lemma EndsWithTail(a: string, x: string)
    ensures EndsWith(a + x, x)
  {
    assert (a + x)[|a + x| - |x|..] == x;
  }

  lemma EndsWithClose(a: string, b: string, x: string)
    requires EndsWith(b, x)
    ensures EndsWith(a + b + ")", x + ")")
  {
    assert (a + b + ")")[|a + b + ")"| - |x + ")"|..] == b[|b| - |x|..] + ")";
  }

  /** Text built around a join begins with what precedes it and the first
      piece. */
  lemma OpensWith(pre: string, parts: seq<string>, sep: string, post: string)
    requires |parts| >= 1
    ensures pre + parts[0] <= pre + Join(parts, sep) + post
  {
    assert parts[0] <= Join(parts, sep);
  }

  /** The joined text ends with the last piece. */
  lemma {:induction false} JoinEnds(parts: seq<string>, sep: string)
    requires |parts| >= 1
    ensures EndsWith(Join(parts, sep), Last(parts))
  {
    if |parts| > 1 {
      JoinEnds(parts[1..], sep);
      assert Last(parts[1..]) == Last(parts);
      EndsWithAppend(parts[0] + sep, Join(parts[1..], sep), Last(parts));
    }
  }

  /** The first separator of `s` at `i` splits off the piece before it. */
  lemma SplitAt(s: string, d: char, i: nat)
    requires i < |s| && s[i] == d && d !in s[..i]
    ensures Split(s, d) == [s[..i]] + Split(s[i + 1..], d)
  {
  }

  /** Splitting then joining with the same separator restores the text. */
  lemma {:induction false} JoinSplit(s: string, d: char)
    ensures Join(Split(s, d), [d]) == s
    decreases |s|
  {
    if d in s {
      var i := FirstIndex(s, d);
      var rest := Split(s[i + 1..], d);
      SplitAt(s, d, i);
      JoinCons(s[..i], rest, [d]);
      JoinSplit(s[i + 1..], d);
      assert s == s[..i] + [d] + s[i + 1..];
    }
  }

  /** Joining separator-free pieces then splitting recovers the pieces. */
  lemma {:induction false} SplitJoin(parts: seq<string>, d: char)
    requires |parts| >= 1
    requires forall i :: 0 <= i < |parts| ==> d !in parts[i]
    ensures Split(Join(parts, [d]), d) == parts
  {
    if |parts| > 1 {
      var p, rest := parts[0], parts[1..];
      var s := p + [d] + Join(rest, [d]);
      JoinCons(p, rest, [d]);
      assert parts == [p] + rest;
      assert s[..|p|] == p && s[|p|] == d;
      assert s[|p| + 1..] == Join(rest, [d]);
      SplitAt(s, d, |p|);
      SplitJoin(rest, d);
    }
  }

  // ---------------------------------------------------------------- digits

  /** The test `/^\d*$/`: every character is an ASCII digit. */
  predicate AllDigits(s: string) {
    forall i :: 0 <= i < |s| ==> '0' <= s[i] <= '9'
  }

  function DigitChar(d: nat): char
    requires d < 10
  {
    ('0' as int + d) as char
  }

  /** `String(n)` for a non-negative integer. */
  function DecimalString(n: nat): (s: string)
    ensures |s| >= 1 && AllDigits(s)
    ensures s[0] == '0' ==> n == 0
  {
    if n < 10 then [DigitChar(n)]
    else DecimalString(n / 10) + [DigitChar(n % 10)]
  }

  /** `Number(s)` for a string of digits: its decimal value, with the empty
      string reading as 0. */
  function DigitsValue(s: string): nat
    requires AllDigits(s)
  {
    if s == [] then 0
    else DigitsValue(Init(s)) * 10 + (Last(s) as int - '0' as int)
  }

  /** Reading back a rendered number gives the number. */
  lemma {:induction false} DigitsValueOfDecimal(n: nat)
    ensures DigitsValue(DecimalString(n)) == n
  {
    if n >= 10 {
      var s := DecimalString(n);
      DigitsValueOfDecimal(n / 10);
      InitLastOfSnoc(DecimalString(n / 10), DigitChar(n % 10));
    }
  }

  /** Rendering a canonical digit string (no leading zero) gives it back. */
  lemma {:induction false} DecimalOfDigitsValue(s: string)
    requires AllDigits(s) && |s| >= 1
    requires s[0] == '0' ==> |s| == 1
    ensures DecimalString(DigitsValue(s)) == s
  {
    if |s| > 1 {
      var p := Init(s);
      assert AllDigits(p);
      DecimalOfDigitsValue(p);
      DigitsValuePositive(p);
      InitLast(s);
    }
  }

  lemma DigitsValuePositive(s: string)
    requires AllDigits(s) && |s| >= 1 && s[0] != '0'
    ensures DigitsValue(s) >= 1
  {
    if |s| > 1 {
      DigitsValuePositive(Init(s));
    }
  }
}
