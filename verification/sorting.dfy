/** The two sorts the dashboard uses: `Array.prototype.sort` with a
    numeric comparator `(a, b) => key(b) - key(a)` (stable, so ties keep
    their prior order), and the default `sort()` of strings. Both are
    modelled as insertion sorts whose results are characterised
    independently of the algorithm. */
module Sorting {
  import opened Seqs

  // ------------------------------------------------- stable, by numeric key

  /** Non-increasing by `key`. */
  predicate SortedDesc<T>(s: seq<T>, key: T -> int) {
    forall i, j :: 0 <= i < j < |s| ==> key(s[i]) >= key(s[j])
  }

  /** The elements of `s` whose key is `c`, in their order in `s`. */
  function KeyClass<T>(s: seq<T>, key: T -> int, c: int): seq<T> {
    if s == [] then []
    else (if key(s[0]) == c then [s[0]] else []) + KeyClass(s[1..], key, c)
  }

  /** Places `x` in front of the first element whose key does not exceed
      its own, so `x` precedes every element it ties with. */
  function InsertDesc<T>(x: T, s: seq<T>, key: T -> int): (r: seq<T>)
    ensures |r| == |s| + 1
    ensures multiset(r) == multiset(s) + multiset{x}
  {
    if s == [] || key(s[0]) <= key(x) then [x] + s
    else
      assert s == [s[0]] + s[1..];
      [s[0]] + InsertDesc(x, s[1..], key)
  }

  lemma {:induction false} InsertDescSorted<T>(x: T, s: seq<T>, key: T -> int)
    requires SortedDesc(s, key)
    ensures SortedDesc(InsertDesc(x, s, key), key)
  {
    if s != [] && key(s[0]) > key(x) {
      var t := InsertDesc(x, s[1..], key);
      InsertDescSorted(x, s[1..], key);
      HeadDominates(x, s, t, key);
      ConsSortedDesc(s[0], t, key);
    }
  }

  /** The head of a sorted sequence ranks at least as high as anything in
      its tail with `x` added, when it outranks `x`. */
  lemma HeadDominates<T>(x: T, s: seq<T>, t: seq<T>, key: T -> int)
    requires s != [] && key(s[0]) > key(x) && SortedDesc(s, key)
    requires multiset(t) == multiset(s[1..]) + multiset{x}
    ensures forall j :: 0 <= j < |t| ==> key(s[0]) >= key(t[j])
  {
    forall j | 0 <= j < |t|
      ensures key(s[0]) >= key(t[j])
    {
      assert t[j] in multiset(t);
      if t[j] != x {
        assert t[j] in multiset(s[1..]);
        var k :| 0 <= k < |s[1..]| && s[1..][k] == t[j];
        assert s[k + 1] == t[j];
      }
    }
  }

  lemma ConsSortedDesc<T>(h: T, t: seq<T>, key: T -> int)
    requires SortedDesc(t, key)
    requires forall j :: 0 <= j < |t| ==> key(h) >= key(t[j])
    ensures SortedDesc([h] + t, key)
  {
    var r := [h] + t;
    forall i, j | 0 <= i < j < |r|
      ensures key(r[i]) >= key(r[j])
    {
      assert r[j] == t[j - 1];
      if i > 0 {
        assert r[i] == t[i - 1];
      }
    }
  }

  lemma KeyClassCons<T>(h: T, t: seq<T>, key: T -> int, c: int)
    ensures KeyClass([h] + t, key, c) == (if key(h) == c then [h] else []) + KeyClass(t, key, c)
  {
    assert ([h] + t)[0] == h && ([h] + t)[1..] == t;
  }

  /** `x` joins its key class at the front; other classes are untouched. */
  lemma {:induction false} InsertDescClasses<T>(x: T, s: seq<T>, key: T -> int, c: int)
    ensures KeyClass(InsertDesc(x, s, key), key, c) == (if key(x) == c then [x] else []) + KeyClass(s, key, c)
  {
    if s == [] || key(s[0]) <= key(x) {
      KeyClassCons(x, s, key, c);
    } else {
      var t := InsertDesc(x, s[1..], key);
      var px: seq<T> := if key(x) == c then [x] else [];
      var ph: seq<T> := if key(s[0]) == c then [s[0]] else [];
      assert InsertDesc(x, s, key) == [s[0]] + t;
      assert KeyClass(t, key, c) == px + KeyClass(s[1..], key, c) by {
        InsertDescClasses(x, s[1..], key, c);
      }
      assert KeyClass([s[0]] + t, key, c) == ph + KeyClass(t, key, c) by {
        KeyClassCons(s[0], t, key, c);
      }
      assert KeyClass(s, key, c) == ph + KeyClass(s[1..], key, c);
      assert ph + px == px + ph;
    }
  }

  /** The stable descending sort: non-increasing keys, the same elements,
      and within every key the order of `s` (ties are never reordered). */
  function SortDesc<T>(s: seq<T>, key: T -> int): (r: seq<T>)
    ensures |r| == |s|
    ensures multiset(r) == multiset(s)
    ensures SortedDesc(r, key)
  {
    if s == [] then []
    else
      assert s == [s[0]] + s[1..];
      InsertDescSorted(s[0], SortDesc(s[1..], key), key);
      InsertDesc(s[0], SortDesc(s[1..], key), key)
  }

  /** Stability: within every key value the sorted order is the input order. */
  lemma {:induction false} SortDescStable<T>(s: seq<T>, key: T -> int)
    ensures forall c :: KeyClass(SortDesc(s, key), key, c) == KeyClass(s, key, c)
  {
    if s != [] {
      SortDescStable(s[1..], key);
      forall c
        ensures KeyClass(SortDesc(s, key), key, c) == KeyClass(s, key, c)
      {
        InsertDescClasses(s[0], SortDesc(s[1..], key), key, c);
      }
    }
  }

  /** Truncating a sorted sequence keeps the largest keys: everything cut
      off ranks no higher than anything kept. */
  lemma TakeKeepsLargest<T>(r: seq<T>, key: T -> int, n: nat)
    requires SortedDesc(r, key)
    ensures forall i, j :: 0 <= i < |Take(r, n)| <= j < |r| ==> key(Take(r, n)[i]) >= key(r[j])
  {
  }

  lemma SortedPrefix<T>(r: seq<T>, key: T -> int, n: nat)
    requires SortedDesc(r, key)
    ensures SortedDesc(Take(r, n), key)
  {
  }

  /** Permuting keeps an element-wise property. */
  lemma MultisetKeepsMembers<T>(r: seq<T>, s: seq<T>)
    requires multiset(r) == multiset(s)
    ensures forall x :: x in r <==> x in s
  {
    forall x
      ensures x in r <==> x in s
    {
      assert x in r <==> x in multiset(r);
      assert x in s <==> x in multiset(s);
    }
  }

  /** A permutation of a duplicate-free sequence is duplicate-free. */
  lemma {:induction false} DistinctPermutation<T>(r: seq<T>, s: seq<T>)
    requires multiset(r) == multiset(s) && Distinct(s)
    ensures Distinct(r)
  {
    DistinctMultiplicity(s);
    forall i, j | 0 <= i < j < |r|
      ensures r[i] != r[j]
    {
      assert r == r[..i] + [r[i]] + r[i + 1..j] + [r[j]] + r[j + 1..];
      assert multiset(r) == multiset(r[..i]) + multiset{r[i]} + multiset(r[i + 1..j])
                            + multiset{r[j]} + multiset(r[j + 1..]);
      assert multiset(r)[r[i]] >= multiset{r[i]}[r[i]] + multiset{r[j]}[r[i]];
      assert multiset(s)[r[i]] <= 1;
    }
  }

  lemma {:induction false} DistinctMultiplicity<T>(s: seq<T>)
    requires Distinct(s)
    ensures forall x :: multiset(s)[x] <= 1
  {
    if s != [] {
      InitLast(s);
      DistinctMultiplicity(Init(s));
      assert multiset(s) == multiset(Init(s)) + multiset{Last(s)};
      assert Last(s) !in Init(s);
    }
  }

  // ------------------------------------------------------ strings, sort()

  /** Lexicographic order on code points, the order of the default
      `sort()` (which compares UTF-16 code units; the two agree on the
      Basic Multilingual Plane). */
  predicate LexLe(a: string, b: string) {
    if a == [] then true
    else if b == [] then false
    else if a[0] != b[0] then a[0] < b[0]
    else LexLe(a[1..], b[1..])
  }

  lemma {:induction false} LexLeTotal(a: string, b: string)
    ensures LexLe(a, b) || LexLe(b, a)
  {
    if a != [] && b != [] && a[0] == b[0] {
      LexLeTotal(a[1..], b[1..]);
    }
  }

  lemma {:induction false} LexLeAntisymmetric(a: string, b: string)
    requires LexLe(a, b) && LexLe(b, a)
    ensures a == b
  {
    if a != [] && b != [] {
      LexLeAntisymmetric(a[1..], b[1..]);
      assert a == [a[0]] + a[1..] && b == [b[0]] + b[1..];
    }
  }

  lemma {:induction false} LexLeTransitive(a: string, b: string, c: string)
    requires LexLe(a, b) && LexLe(b, c)
    ensures LexLe(a, c)
  {
    if a != [] && b != [] && c != [] && a[0] == b[0] && b[0] == c[0] {
      LexLeTransitive(a[1..], b[1..], c[1..]);
    }
  }

  predicate SortedLex(s: seq<string>) {
    forall i, j :: 0 <= i < j < |s| ==> LexLe(s[i], s[j])
  }

  function InsertLex(x: string, s: seq<string>): (r: seq<string>)
    ensures multiset(r) == multiset(s) + multiset{x}
    ensures SortedLex(s) ==> SortedLex(r)
  {
    if s == [] || LexLe(x, s[0]) then
      assert SortedLex(s) ==> SortedLex([x] + s) by {
        if SortedLex(s) {
          forall j | 0 <= j < |s|
            ensures LexLe(x, s[j])
          {
            if j > 0 {
              LexLeTransitive(x, s[0], s[j]);
            }
          }
        }
      }
      [x] + s
    else
      var t := InsertLex(x, s[1..]);
      assert s == [s[0]] + s[1..];
      assert SortedLex(s) ==> SortedLex([s[0]] + t) by {
        if SortedLex(s) {
          InsertLexStep(x, s, t);
        }
      }
      [s[0]] + t
  }

  lemma InsertLexStep(x: string, s: seq<string>, t: seq<string>)
    requires s != [] && !LexLe(x, s[0]) && SortedLex(s)
    requires multiset(t) == multiset(s[1..]) + multiset{x} && SortedLex(t)
    ensures SortedLex([s[0]] + t)
  {
    LexLeTotal(x, s[0]);
    forall j | 0 <= j < |t|
      ensures LexLe(s[0], t[j])
    {
      assert t[j] in multiset(t);
      if t[j] != x {
        assert t[j] in multiset(s[1..]);
        var k :| 0 <= k < |s[1..]| && s[1..][k] == t[j];
        assert s[k + 1] == t[j];
      }
    }
    var r := [s[0]] + t;
    forall i, j | 0 <= i < j < |r|
      ensures LexLe(r[i], r[j])
    {
      assert r[j] == t[j - 1];
      if i > 0 {
        assert r[i] == t[i - 1];
      }
    }
  }

  /** The default string `sort()`: ascending, same elements. */
  function SortLex(s: seq<string>): (r: seq<string>)
    ensures multiset(r) == multiset(s)
    ensures SortedLex(r)
  {
    if s == [] then []
    else
      assert s == [s[0]] + s[1..];
      InsertLex(s[0], SortLex(s[1..]))
  }
}
