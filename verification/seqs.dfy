/** Sequence vocabulary shared by the pipeline: order-preserving filter,
    flattening, truncation, first-seen deduplication and sums. Most
    definitions recurse on the LAST element, mirroring the left-to-right
    `forEach` scans of the dashboard. */
module Seqs {

  function Last<T>(s: seq<T>): T
    requires |s| > 0
  {
    s[|s| - 1]
  }

  function Init<T>(s: seq<T>): seq<T>
    requires |s| > 0
  {
    s[..|s| - 1]
  }

  lemma InitLast<T>(s: seq<T>)
    requires |s| > 0
    ensures Init(s) + [Last(s)] == s
  {
  }

  lemma InitLastOfSnoc<T>(s: seq<T>, x: T)
    ensures Init(s + [x]) == s && Last(s + [x]) == x
  {
    assert (s + [x])[..|s|] == s;
  }

  predicate Distinct<T(==)>(s: seq<T>) {
    forall i, j :: 0 <= i < j < |s| ==> s[i] != s[j]
  }

  // ---------------------------------------------------------------- Filter

  /** `Array.prototype.filter`: the elements satisfying `p`, in order. */
  function Filter<T>(s: seq<T>, p: T -> bool): (r: seq<T>)
    ensures |r| <= |s|
    ensures forall x :: x in r ==> x in s && p(x)
  {
    if s == [] then []
    else Filter(Init(s), p) + (if p(Last(s)) then [Last(s)] else [])
  }

  lemma {:induction false} FilterConcat<T>(a: seq<T>, b: seq<T>, p: T -> bool)
    ensures Filter(a + b, p) == Filter(a, p) + Filter(b, p)
    decreases |b|
  {
    if b == [] {
      assert a + b == a;
    } else {
      assert Init(a + b) == a + Init(b);
      assert Last(a + b) == Last(b);
      FilterConcat(a, Init(b), p);
    }
  }

  lemma FilterSingle<T>(x: T, p: T -> bool)
    ensures Filter([x], p) == if p(x) then [x] else []
  {
    assert Init([x]) == [];
  }

  /** Filtering keeps every occurrence of a passing element and none of a
      failing one. */
  lemma {:induction false} FilterCount<T>(s: seq<T>, p: T -> bool)
    ensures forall x :: multiset(Filter(s, p))[x] == if p(x) then multiset(s)[x] else 0
  {
    if s != [] {
      FilterCount(Init(s), p);
      InitLast(s);
      assert multiset(s) == multiset(Init(s)) + multiset{Last(s)} by {
        assert s == Init(s) + [Last(s)];
      }
    }
  }

  /** Every passing element is kept. */
  lemma {:induction false} FilterMember<T>(s: seq<T>, p: T -> bool, x: T)
    requires x in s && p(x)
    ensures x in Filter(s, p)
  {
    if Last(s) != x {
      assert x in Init(s) by {
        InitLast(s);
      }
      FilterMember(Init(s), p, x);
    }
  }

  /** Filtering by two predicates in turn is filtering by their
      conjunction. */
  lemma {:induction false} FilterFilter<T>(s: seq<T>, p: T -> bool, q: T -> bool, r: T -> bool)
    requires forall x :: r(x) == (p(x) && q(x))
    ensures Filter(Filter(s, p), q) == Filter(s, r)
  {
    if s != [] {
      FilterFilter(Init(s), p, q, r);
      var x := Last(s);
      FilterConcat(Filter(Init(s), p), if p(x) then [x] else [], q);
      if p(x) {
        FilterSingle(x, q);
      }
    }
  }

  /** Only the predicate's values matter. */
  lemma {:induction false} FilterSamePredicate<T>(s: seq<T>, p: T -> bool, q: T -> bool)
    requires forall x :: x in s ==> p(x) == q(x)
    ensures Filter(s, p) == Filter(s, q)
  {
    if s != [] {
      InitLast(s);
      FilterSamePredicate(Init(s), p, q);
    }
  }

  /** Filtering keeps any pairwise order the sequence had. */
  lemma {:induction false} FilterKeepsOrder<T>(s: seq<T>, p: T -> bool, lt: (T, T) -> bool)
    requires forall i, j :: 0 <= i < j < |s| ==> lt(s[i], s[j])
    ensures forall i, j :: 0 <= i < j < |Filter(s, p)| ==> lt(Filter(s, p)[i], Filter(s, p)[j])
  {
    if s != [] {
      var a := Filter(Init(s), p);
      FilterKeepsOrder(Init(s), p, lt);
      var r := Filter(s, p);
      forall i, j | 0 <= i < j < |r|
        ensures lt(r[i], r[j])
      {
        if j >= |a| {
          assert r[i] == a[i] && a[i] in a;
          var k :| 0 <= k < |Init(s)| && Init(s)[k] == a[i];
          assert s[k] == r[i];
        }
      }
    }
  }

  /** Filtering the images of a map counts the elements whose image
      passes. */
  lemma {:induction false} FilterMapCount<T, U>(s: seq<T>, f: T -> U, p: U -> bool, q: T -> bool)
    requires forall x :: q(x) == p(f(x))
    ensures |Filter(MapSeq(s, f), p)| == |Filter(s, q)|
  {
    if s != [] {
      FilterMapCount(Init(s), f, p, q);
      assert Init(MapSeq(s, f)) == MapSeq(Init(s), f);
    }
  }

  lemma FilterKeepsAll<T>(s: seq<T>, p: T -> bool)
    requires forall x :: x in s ==> p(x)
    ensures Filter(s, p) == s
  {
    if s != [] {
      FilterKeepsAll(Init(s), p);
      InitLast(s);
    }
  }

  lemma FilterDropsAll<T>(s: seq<T>, p: T -> bool)
    requires forall x :: x in s ==> !p(x)
    ensures Filter(s, p) == []
  {
    if s != [] {
      FilterDropsAll(Init(s), p);
    }
  }

  /** The first kept element is the first element that passes. */
  lemma {:induction false} FilterHead<T>(s: seq<T>, p: T -> bool) returns (k: nat)
    requires Filter(s, p) != []
    ensures k < |s| && p(s[k]) && Filter(s, p)[0] == s[k]
    ensures forall j :: 0 <= j < k ==> !p(s[j])
  {
    if Filter(Init(s), p) != [] {
      k := FilterHead(Init(s), p);
    } else {
      k := |s| - 1;
      forall j | 0 <= j < k
        ensures !p(s[j])
      {
        if p(s[j]) {
          assert s[j] == Init(s)[j];
          FilterMember(Init(s), p, s[j]);
        }
      }
    }
  }

  /** The last kept element is the last element that passes. */
  lemma {:induction false} FilterTail<T>(s: seq<T>, p: T -> bool) returns (k: nat)
    requires Filter(s, p) != []
    ensures k < |s| && p(s[k]) && Last(Filter(s, p)) == s[k]
    ensures forall j :: k < j < |s| ==> !p(s[j])
  {
    if p(Last(s)) {
      k := |s| - 1;
    } else {
      k := FilterTail(Init(s), p);
    }
  }

  // ------------------------------------------------------------- Map, Take

  /** `Array.prototype.map`. */
  function MapSeq<T, U>(s: seq<T>, f: T -> U): (r: seq<U>)
    ensures |r| == |s|
    ensures forall i :: 0 <= i < |s| ==> r[i] == f(s[i])
  {
    seq(|s|, i requires 0 <= i < |s| => f(s[i]))
  }

  lemma MapSeqConcat<T, U>(a: seq<T>, b: seq<T>, f: T -> U)
    ensures MapSeq(a + b, f) == MapSeq(a, f) + MapSeq(b, f)
  {
  }

  /** `slice(0, n)`. */
  function Take<T>(s: seq<T>, n: nat): (r: seq<T>)
    ensures |r| == if |s| <= n then |s| else n
    ensures r <= s
  {
    if |s| <= n then s else s[..n]
  }

  // --------------------------------------------------------------- Flatten

  function Flatten<T>(ss: seq<seq<T>>): seq<T> {
    if ss == [] then [] else Flatten(Init(ss)) + Last(ss)
  }

  lemma FlattenSnoc<T>(ss: seq<seq<T>>, s: seq<T>)
    ensures Flatten(ss + [s]) == Flatten(ss) + s
  {
    InitLastOfSnoc(ss, s);
  }

  lemma FlattenEmpty<T>(ss: seq<seq<T>>)
    requires forall i :: 0 <= i < |ss| ==> ss[i] == []
    ensures Flatten(ss) == []
  {
    if ss != [] {
      FlattenEmpty(Init(ss));
    }
  }

  // ------------------------------------------------------------ FirstIndex

  /** Position of the first occurrence of `x` in `s`. */
  function FirstIndex<T(==)>(s: seq<T>, x: T): (i: nat)
    requires x in s
    ensures i < |s| && s[i] == x && x !in s[..i]
  {
    if s[0] == x then 0
    else
      var j := FirstIndex(s[1..], x);
      assert s[..j + 1] == [s[0]] + s[1..][..j];
      j + 1
  }

  lemma FirstIndexPrefix<T>(a: seq<T>, b: seq<T>, x: T)
    requires x in a
    ensures FirstIndex(a + b, x) == FirstIndex(a, x)
  {
    if a[0] != x {
      assert (a + b)[1..] == a[1..] + b;
      FirstIndexPrefix(a[1..], b, x);
    }
  }

  lemma FirstIndexUnique<T>(s: seq<T>, i: nat)
    requires Distinct(s) && i < |s|
    ensures FirstIndex(s, s[i]) == i
  {
  }

  // ----------------------------------------------------------------- Dedup

  /** Distinct elements of `s` in the order each is first seen, as a
      JavaScript `Set` built by scanning `s` keeps them. */
  function Dedup<T(==)>(s: seq<T>): (r: seq<T>)
    ensures forall x :: x in r ==> x in s
    ensures forall x :: x in s ==> x in r
    ensures Distinct(r)
    ensures |r| <= |s|
  {
    if s == [] then []
    else if Last(s) in Init(s) then Dedup(Init(s))
    else Dedup(Init(s)) + [Last(s)]
  }

  lemma DedupSnoc<T>(s: seq<T>, x: T)
    ensures Dedup(s + [x]) == if x in s then Dedup(s) else Dedup(s) + [x]
  {
    InitLastOfSnoc(s, x);
  }

  /** First-seen order: an element listed earlier was seen earlier. */
  lemma {:induction false} DedupFirstSeenOrder<T>(s: seq<T>)
    ensures forall i, j :: 0 <= i < j < |Dedup(s)| ==>
              FirstIndex(s, Dedup(s)[i]) < FirstIndex(s, Dedup(s)[j])
  {
    if s != [] {
      var p := Init(s);
      DedupFirstSeenOrder(p);
      InitLast(s);
      forall y | y in p
        ensures FirstIndex(s, y) == FirstIndex(p, y)
      {
        FirstIndexPrefix(p, [Last(s)], y);
      }
      if Last(s) !in p {
        assert FirstIndex(s, Last(s)) == |s| - 1 by {
          assert s[..|s| - 1] == p;
        }
      }
    }
  }

  lemma DedupOfDistinct<T>(s: seq<T>)
    requires Distinct(s)
    ensures Dedup(s) == s
  {
    if s != [] {
      InitLast(s);
      assert Distinct(Init(s));
      DedupOfDistinct(Init(s));
    }
  }

  // ------------------------------------------------------------------ Sums

  function SumReal(s: seq<real>): real {
    if s == [] then 0.0 else SumReal(Init(s)) + Last(s)
  }

  function SumNat(s: seq<nat>): nat {
    if s == [] then 0 else SumNat(Init(s)) + Last(s)
  }

  function Zeros(n: nat): (z: seq<nat>)
    ensures |z| == n && forall i :: 0 <= i < n ==> z[i] == 0
  {
    seq(n, _ => 0)
  }

  lemma {:induction false} SumNatZeros(n: nat)
    ensures SumNat(Zeros(n)) == 0
  {
    if n > 0 {
      assert Init(Zeros(n)) == Zeros(n - 1);
      SumNatZeros(n - 1);
    }
  }

  lemma SumRealSnoc(s: seq<real>, x: real)
    ensures SumReal(s + [x]) == SumReal(s) + x
  {
    InitLastOfSnoc(s, x);
  }

  lemma SumNatSnoc(s: seq<nat>, x: nat)
    ensures SumNat(s + [x]) == SumNat(s) + x
  {
    InitLastOfSnoc(s, x);
  }

  lemma {:induction false} SumNatConcat(a: seq<nat>, b: seq<nat>)
    ensures SumNat(a + b) == SumNat(a) + SumNat(b)
    decreases |b|
  {
    if b == [] {
      assert a + b == a;
    } else {
      assert Init(a + b) == a + Init(b);
      SumNatConcat(a, Init(b));
    }
  }

  /** Adding one to one slot adds one to the total. */
  lemma {:induction false} SumNatIncrement(s: seq<nat>, k: nat)
    requires k < |s|
    ensures SumNat(s[k := s[k] + 1]) == SumNat(s) + 1
  {
    var t := s[k := s[k] + 1];
    if k == |s| - 1 {
      assert Init(t) == Init(s);
    } else {
      assert Init(t) == Init(s)[k := s[k] + 1];
      SumNatIncrement(Init(s), k);
    }
  }
}
