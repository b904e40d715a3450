/** Insertion-ordered grouping. Every aggregator of the dashboard scans its
    records once and, for each (key, value) pair it meets, either creates
    an entry in a `Map` (or plain object) or updates the existing one.
    `Accumulate` is that scan; `AccumulateSpec` proves it equals a
    declarative reference: one entry per distinct key, in first-seen
    order, holding the fold of exactly that key's values. */
module Grouping {
  import opened Seqs

  function Firsts<K, V>(ps: seq<(K, V)>): (ks: seq<K>)
    ensures |ks| == |ps|
  {
    seq(|ps|, i requires 0 <= i < |ps| => ps[i].0)
  }

  lemma FirstsSnoc<K, V>(ps: seq<(K, V)>, p: (K, V))
    ensures Firsts(ps + [p]) == Firsts(ps) + [p.0]
  {
  }

  /** The distinct keys of `ps`, in the order each is first seen. */
  function Keys<K(==), V>(ps: seq<(K, V)>): seq<K> {
    Dedup(Firsts(ps))
  }

  /** The values paired with `k`, in scan order. */
  function ValuesOf<K(==), V>(ps: seq<(K, V)>, k: K): seq<V> {
    if ps == [] then []
    else ValuesOf(Init(ps), k) + (if Last(ps).0 == k then [Last(ps).1] else [])
  }

  lemma ValuesOfSnoc<K, V>(ps: seq<(K, V)>, p: (K, V), k: K)
    ensures ValuesOf(ps + [p], k) == ValuesOf(ps, k) + (if p.0 == k then [p.1] else [])
  {
    InitLastOfSnoc(ps, p);
  }

  /** A key has values exactly when it occurs. */
  lemma {:induction false} ValuesOfPresence<K, V>(ps: seq<(K, V)>, k: K)
    ensures ValuesOf(ps, k) == [] <==> k !in Firsts(ps)
  {
    if ps != [] {
      ValuesOfPresence(Init(ps), k);
      InitLast(ps);
      FirstsSnoc(Init(ps), Last(ps));
    }
  }

  /** `reduce` from the left, one value at a time. */
  function FoldL<A, V>(step: (A, V) -> A, a: A, vs: seq<V>): A {
    if vs == [] then a else step(FoldL(step, a, Init(vs)), Last(vs))
  }

  lemma FoldLSnoc<A, V>(step: (A, V) -> A, a: A, vs: seq<V>, v: V)
    ensures FoldL(step, a, vs + [v]) == step(FoldL(step, a, vs), v)
  {
    InitLastOfSnoc(vs, v);
  }

  /** The value a group ends with: created from its first value by `seed`,
      then updated by `step` with every value, the first included. */
  function Aggregate<V, A>(vs: seq<V>, seed: V -> A, step: (A, V) -> A): A
    requires |vs| > 0
  {
    FoldL(step, seed(vs[0]), vs)
  }

  /** One scan step: update the entry of `k` in place, or append a new
      entry when `k` has not been seen. */
  function Upsert<K(==), V, A>(es: seq<(K, A)>, k: K, v: V, seed: V -> A, step: (A, V) -> A)
    : seq<(K, A)>
  {
    if k in Firsts(es) then
      var i := FirstIndex(Firsts(es), k);
      es[i := (k, step(es[i].1, v))]
    else
      es + [(k, step(seed(v), v))]
  }

  /** The scan over all of `ps`: its entries are the distinct keys, in
      first-seen order. */
  function Accumulate<K(==), V, A>(ps: seq<(K, V)>, seed: V -> A, step: (A, V) -> A)
    : (es: seq<(K, A)>)
    ensures Firsts(es) == Keys(ps)
    ensures |es| == |Keys(ps)|
  {
    if ps == [] then []
    else
      var q, p := Init(ps), Last(ps);
      InitLast(ps);
      FirstsSnoc(q, p);
      DedupSnoc(Firsts(q), p.0);
      UpsertFirsts(Accumulate(q, seed, step), p.0, p.1, seed, step);
      Upsert(Accumulate(q, seed, step), p.0, p.1, seed, step)
  }

  lemma AccumulateSnoc<K, V, A>(ps: seq<(K, V)>, p: (K, V), seed: V -> A, step: (A, V) -> A)
    ensures Accumulate(ps + [p], seed, step) == Upsert(Accumulate(ps, seed, step), p.0, p.1, seed, step)
  {
    InitLastOfSnoc(ps, p);
  }

  lemma UpsertFirsts<K, V, A>(es: seq<(K, A)>, k: K, v: V, seed: V -> A, step: (A, V) -> A)
    ensures Firsts(Upsert(es, k, v, seed, step)) == if k in Firsts(es) then Firsts(es) else Firsts(es) + [k]
  {
  }

  /** One entry after one more scan step, given the entry before it. */
  lemma AccumulateStepEntry<K, V, A>(q: seq<(K, V)>, p: (K, V), seed: V -> A, step: (A, V) -> A, j: nat)
    requires j < |Keys(q + [p])|
    requires |Accumulate(q, seed, step)| == |Keys(q)|
    requires forall i :: 0 <= i < |Keys(q)| ==>
               && ValuesOf(q, Keys(q)[i]) != []
               && Accumulate(q, seed, step)[i].1 == Aggregate(ValuesOf(q, Keys(q)[i]), seed, step)
    ensures |Accumulate(q + [p], seed, step)| == |Keys(q + [p])|
    ensures ValuesOf(q + [p], Keys(q + [p])[j]) != []
    ensures Accumulate(q + [p], seed, step)[j].1 == Aggregate(ValuesOf(q + [p], Keys(q + [p])[j]), seed, step)
  {
    if p.0 in Firsts(q) {
      StepEntryKnown(q, p, seed, step, j);
    } else {
      StepEntryFresh(q, p, seed, step, j);
    }
  }

  /** A step on a key already seen updates that key's entry only. */
  lemma StepEntryKnown<K, V, A>(q: seq<(K, V)>, p: (K, V), seed: V -> A, step: (A, V) -> A, j: nat)
    requires j < |Keys(q + [p])|
    requires |Accumulate(q, seed, step)| == |Keys(q)|
    requires forall i :: 0 <= i < |Keys(q)| ==>
               && ValuesOf(q, Keys(q)[i]) != []
               && Accumulate(q, seed, step)[i].1 == Aggregate(ValuesOf(q, Keys(q)[i]), seed, step)
    requires p.0 in Firsts(q)
    ensures |Accumulate(q + [p], seed, step)| == |Keys(q + [p])|
    ensures ValuesOf(q + [p], Keys(q + [p])[j]) != []
    ensures Accumulate(q + [p], seed, step)[j].1 == Aggregate(ValuesOf(q + [p], Keys(q + [p])[j]), seed, step)
  {
    var (k, v) := p;
    var ps := q + [p];
    var e := Accumulate(q, seed, step);
    AccumulateSnoc(q, p, seed, step);
    FirstsSnoc(q, p);
    DedupSnoc(Firsts(q), k);
    assert Keys(ps) == Keys(q);
    var key := Keys(ps)[j];
    ValuesOfSnoc(q, p, key);
    var i := FirstIndex(Firsts(e), k);
    var vs := ValuesOf(q, key);
    assert Accumulate(ps, seed, step) == e[i := (k, step(e[i].1, v))];
    assert Firsts(e)[i] == k && e[i].0 == k;
    if j == i {
      assert key == k && ValuesOf(ps, key) == vs + [v];
      assert vs != [] && e[i].1 == Aggregate(vs, seed, step);
      FoldLSnoc(step, seed(vs[0]), vs, v);
      assert (vs + [v])[0] == vs[0];
    } else {
      assert Keys(q)[j] != Keys(q)[i];
      assert key != k && ValuesOf(ps, key) == vs;
      assert Accumulate(ps, seed, step)[j] == e[j];
    }
  }

  /** A step on a new key appends its entry and keeps the others. */
  lemma StepEntryFresh<K, V, A>(q: seq<(K, V)>, p: (K, V), seed: V -> A, step: (A, V) -> A, j: nat)
    requires j < |Keys(q + [p])|
    requires |Accumulate(q, seed, step)| == |Keys(q)|
    requires forall i :: 0 <= i < |Keys(q)| ==>
               && ValuesOf(q, Keys(q)[i]) != []
               && Accumulate(q, seed, step)[i].1 == Aggregate(ValuesOf(q, Keys(q)[i]), seed, step)
    requires p.0 !in Firsts(q)
    ensures |Accumulate(q + [p], seed, step)| == |Keys(q + [p])|
    ensures ValuesOf(q + [p], Keys(q + [p])[j]) != []
    ensures Accumulate(q + [p], seed, step)[j].1 == Aggregate(ValuesOf(q + [p], Keys(q + [p])[j]), seed, step)
  {
    var (k, v) := p;
    var ps := q + [p];
    var e := Accumulate(q, seed, step);
    AccumulateSnoc(q, p, seed, step);
    FirstsSnoc(q, p);
    DedupSnoc(Firsts(q), k);
    assert Keys(ps) == Keys(q) + [k];
    var key := Keys(ps)[j];
    ValuesOfSnoc(q, p, key);
    if j < |Keys(q)| {
      assert key == Keys(q)[j] && key != k;
      assert Accumulate(ps, seed, step)[j] == e[j];
      assert ValuesOf(ps, key) == ValuesOf(q, key);
      assert e[j].1 == Aggregate(ValuesOf(q, Keys(q)[j]), seed, step);
    } else {
      ValuesOfPresence(q, k);
      FoldLSnoc(step, seed(v), [], v);
    }
  }

  /** Each entry of the scan holds the aggregate of its key's values. */
  lemma {:induction false} AccumulateValues<K, V, A>(ps: seq<(K, V)>, seed: V -> A, step: (A, V) -> A)
    ensures |Accumulate(ps, seed, step)| == |Keys(ps)|
    ensures forall i :: 0 <= i < |Keys(ps)| ==>
              && ValuesOf(ps, Keys(ps)[i]) != []
              && Accumulate(ps, seed, step)[i].1 == Aggregate(ValuesOf(ps, Keys(ps)[i]), seed, step)
  {
    if ps != [] {
      var q, p := Init(ps), Last(ps);
      InitLast(ps);
      AccumulateValues(q, seed, step);
      forall j | 0 <= j < |Keys(ps)|
        ensures ValuesOf(ps, Keys(ps)[j]) != []
        ensures Accumulate(ps, seed, step)[j].1 == Aggregate(ValuesOf(ps, Keys(ps)[j]), seed, step)
      {
        AccumulateStepEntry(q, p, seed, step, j);
      }
    }
  }

  /** The scan builds exactly the reference grouping, read for one entry:
      entry `i` is the `i`-th distinct key in first-seen order and holds
      the aggregate of that key's values. */
  lemma AccumulateSpec<K, V, A>(ps: seq<(K, V)>, seed: V -> A, step: (A, V) -> A, i: nat)
    requires i < |Keys(ps)|
    ensures |Accumulate(ps, seed, step)| == |Keys(ps)|
    ensures Accumulate(ps, seed, step)[i].0 == Keys(ps)[i]
    ensures ValuesOf(ps, Keys(ps)[i]) != []
    ensures Accumulate(ps, seed, step)[i].1 == Aggregate(ValuesOf(ps, Keys(ps)[i]), seed, step)
  {
    AccumulateValues(ps, seed, step);
    assert Firsts(Accumulate(ps, seed, step))[i] == Accumulate(ps, seed, step)[i].0;
  }

  /** Grouping pairs computed from records: the values filed under `k`
      are those of the records whose key is `k`, in record order. */
  lemma {:induction false} ValuesOfMapped<T, K, V>(s: seq<T>, f: T -> (K, V), k: K, sel: T -> bool, val: T -> V)
    requires forall t :: sel(t) == (f(t).0 == k)
    requires forall t :: val(t) == f(t).1
    ensures ValuesOf(MapSeq(s, f), k) == MapSeq(Filter(s, sel), val)
  {
    if s != [] {
      var q, t := Init(s), Last(s);
      InitLast(s);
      ValuesOfMapped(q, f, k, sel, val);
      ValuesOfMappedStep(q, t, f, k, sel, val);
    }
  }

  lemma ValuesOfMappedStep<T, K, V>(q: seq<T>, t: T, f: T -> (K, V), k: K, sel: T -> bool, val: T -> V)
    requires forall t :: sel(t) == (f(t).0 == k)
    requires forall t :: val(t) == f(t).1
    requires ValuesOf(MapSeq(q, f), k) == MapSeq(Filter(q, sel), val)
    ensures ValuesOf(MapSeq(q + [t], f), k) == MapSeq(Filter(q + [t], sel), val)
  {
    MappedValuesSnoc(q, t, f, k);
    FilteredSnoc(q, t, sel, val);
  }

  lemma MappedValuesSnoc<T, K, V>(q: seq<T>, t: T, f: T -> (K, V), k: K)
    ensures ValuesOf(MapSeq(q + [t], f), k) == ValuesOf(MapSeq(q, f), k) + (if f(t).0 == k then [f(t).1] else [])
  {
    MapSeqConcat(q, [t], f);
    ValuesOfSnoc(MapSeq(q, f), f(t), k);
  }

  lemma FilteredSnoc<T, V>(q: seq<T>, t: T, sel: T -> bool, val: T -> V)
    ensures MapSeq(Filter(q + [t], sel), val) == MapSeq(Filter(q, sel), val) + (if sel(t) then [val(t)] else [])
  {
    FilterConcat(q, [t], sel);
    FilterSingle(t, sel);
    MapSeqConcat(Filter(q, sel), Filter([t], sel), val);
  }
}
