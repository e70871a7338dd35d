/**
 * A JavaScript `Map`: a sequence of entries with pairwise distinct keys, kept in insertion
 * order. `set` on a present key replaces the value where it stands; on a new key it appends.
 */
module OrderedMap {
  import opened Wrappers

  /** Position of the first `x` in `xs`, or `|xs|` when `x` does not occur. */
  function FirstIndex<K(==)>(xs: seq<K>, x: K): (i: nat)
    ensures i <= |xs|
    ensures i < |xs| <==> x in xs
    ensures i < |xs| ==> xs[i] == x
  {
    if xs == [] then 0 else if xs[0] == x then 0 else 1 + FirstIndex(xs[1..], x)
  }

  /** The first occurrence in a concatenation is in the first part when `x` occurs there. */
  lemma {:induction false} FirstIndexConcat<K>(xs: seq<K>, ys: seq<K>, x: K)
    ensures FirstIndex(xs + ys, x) == if x in xs then FirstIndex(xs, x) else |xs| + FirstIndex(ys, x)
  {
    if xs == [] {
      assert xs + ys == ys;
    } else {
      assert (xs + ys)[0] == xs[0];
      assert (xs + ys)[1..] == xs[1..] + ys;
      if xs[0] != x {
        FirstIndexConcat(xs[1..], ys, x);
        assert x in xs <==> x in xs[1..];
      }
    }
  }

  /** Appending an element does not move the first occurrence of anything already present. */
  lemma FirstIndexAppend<K>(xs: seq<K>, y: K, x: K)
    ensures FirstIndex(xs + [y], x) == if x in xs then FirstIndex(xs, x) else if x == y then |xs| else |xs| + 1
  {
    FirstIndexConcat(xs, [y], x);
    assert FirstIndex([y], x) == if x == y then 0 else 1;
  }

  predicate Distinct<K(==)>(xs: seq<K>) {
    forall i, j :: 0 <= i < j < |xs| ==> xs[i] != xs[j]
  }

  /** In a sequence without repetitions, the first occurrence of `xs[i]` is at `i`. */
  lemma DistinctFirstIndex<K>(xs: seq<K>, i: nat)
    requires Distinct(xs) && i < |xs|
    ensures FirstIndex(xs, xs[i]) == i
  {
  }

  /** `xs` with every repetition dropped, each element kept where it first occurs. */
  function Dedup<K(==)>(xs: seq<K>): seq<K>
  {
    if xs == [] then []
    else
      var p := xs[..|xs| - 1];
      if xs[|xs| - 1] in p then Dedup(p) else Dedup(p) + [xs[|xs| - 1]]
  }

  /** `Dedup` keeps exactly the elements of its input. */
  lemma {:induction false} DedupMembers<K>(xs: seq<K>, x: K)
    ensures x in Dedup(xs) <==> x in xs
  {
    if xs != [] {
      var p := xs[..|xs| - 1];
      DedupMembers(p, x);
      assert xs == p + [xs[|xs| - 1]];
    }
  }

  /** One more element: already seen, nothing changes; new, it goes last. */
  lemma DedupSnoc<K>(xs: seq<K>, x: K)
    ensures Dedup(xs + [x]) == if x in xs then Dedup(xs) else Dedup(xs) + [x]
  {
    assert (xs + [x])[..|xs|] == xs;
  }

  /** The elements `Dedup` keeps are ordered by where they first occur in its input. */
  lemma {:induction false} DedupOrder<K>(xs: seq<K>)
    ensures forall i, j :: 0 <= i < j < |Dedup(xs)| ==> FirstIndex(xs, Dedup(xs)[i]) < FirstIndex(xs, Dedup(xs)[j])
  {
    if xs != [] {
      var p, x := xs[..|xs| - 1], xs[|xs| - 1];
      assert xs == p + [x];
      DedupOrder(p);
      var d, dp := Dedup(xs), Dedup(p);
      forall i, j | 0 <= i < j < |d| ensures FirstIndex(xs, d[i]) < FirstIndex(xs, d[j]) {
        FirstIndexAppend(p, x, d[i]);
        FirstIndexAppend(p, x, d[j]);
        if x !in p && j == |dp| {
          DedupMembers(p, dp[i]);
          assert d[i] == dp[i] && d[i] in p;
        } else {
          assert d[i] == dp[i] && d[j] == dp[j];
        }
      }
    }
  }

  /** A sequence with no repetitions is its own `Dedup`. */
  lemma {:induction false} DedupDistinct<K>(xs: seq<K>)
    requires Distinct(xs)
    ensures Dedup(xs) == xs
  {
    if xs != [] {
      var p := xs[..|xs| - 1];
      assert xs[|xs| - 1] !in p;
      DedupDistinct(p);
      assert xs == p + [xs[|xs| - 1]];
    }
  }

  function Keys<K, V>(m: seq<(K, V)>): (ks: seq<K>)
    ensures |ks| == |m| && forall i :: 0 <= i < |m| ==> ks[i] == m[i].0
  {
    seq(|m|, i requires 0 <= i < |m| => m[i].0)
  }

  /** What a `Map` is: entries whose keys never repeat. */
  predicate IsMap<K(==), V>(m: seq<(K, V)>) {
    Distinct(Keys(m))
  }

  /** `map.has(k)`. */
  predicate Has<K(==), V>(m: seq<(K, V)>, k: K) {
    k in Keys(m)
  }

  /** `map.get(k)`, `None` standing for `undefined`. */
  function Get<K(==), V>(m: seq<(K, V)>, k: K): (r: Option<V>)
    ensures r.Some? <==> Has(m, k)
  {
    var i := FirstIndex(Keys(m), k);
    if i < |m| then Some(m[i].1) else None
  }

  /** In a `Map`, looking up the key of an entry finds that entry's value. */
  lemma GetEntry<K, V>(m: seq<(K, V)>, i: nat)
    requires IsMap(m) && i < |m|
    ensures Get(m, m[i].0) == Some(m[i].1)
  {
    DistinctFirstIndex(Keys(m), i);
  }

  /** `map.set(k, v)`. */
  function Set<K(==), V>(m: seq<(K, V)>, k: K, v: V): seq<(K, V)>
  {
    var i := FirstIndex(Keys(m), k);
    if i < |m| then m[i := (k, v)] else m + [(k, v)]
  }

  /** `set` keeps a `Map` a `Map`; a present key stays where it was, a new one goes last. */
  lemma SetKeys<K, V>(m: seq<(K, V)>, k: K, v: V)
    requires IsMap(m)
    ensures IsMap(Set(m, k, v))
    ensures Keys(Set(m, k, v)) == if Has(m, k) then Keys(m) else Keys(m) + [k]
  {
    var r := Set(m, k, v);
    if Has(m, k) {
      assert Keys(r) == Keys(m);
    } else {
      assert Keys(r) == Keys(m) + [k];
    }
  }

  /** On a `Map` keyed by `Dedup(xs)`, `k` is present exactly when it is in `xs`, and `set(k, v)` keys it by `Dedup(xs + [k])`. */
  lemma SetDedup<K, V>(m: seq<(K, V)>, xs: seq<K>, k: K, v: V)
    requires IsMap(m) && Keys(m) == Dedup(xs)
    ensures Has(m, k) <==> k in xs
    ensures IsMap(Set(m, k, v))
    ensures Keys(Set(m, k, v)) == Dedup(xs + [k])
  {
    SetKeys(m, k, v);
    DedupSnoc(xs, k);
    DedupMembers(xs, k);
    if k in xs {
      assert Has(m, k);
    } else {
      assert !Has(m, k);
    }
  }

  /** After `set(k, v)`, `k` maps to `v` and any other key to what it did before. */
  lemma SetGet<K, V>(m: seq<(K, V)>, k: K, v: V, k': K)
    ensures Get(Set(m, k, v), k') == if k' == k then Some(v) else Get(m, k')
  {
    var r := Set(m, k, v);
    if Has(m, k) {
      var i := FirstIndex(Keys(m), k);
      assert Keys(r) == Keys(m);
      var j := FirstIndex(Keys(m), k');
      if k' != k && j < |m| {
        assert j != i && r[j] == m[j];
      }
    } else {
      assert Keys(r) == Keys(m) + [k];
      FirstIndexAppend(Keys(m), k, k');
    }
  }

  /** `SetKeys` and `SetGet` together, for every key. */
  lemma SetSpec<K, V>(m: seq<(K, V)>, k: K, v: V)
    requires IsMap(m)
    ensures IsMap(Set(m, k, v))
    ensures Keys(Set(m, k, v)) == if Has(m, k) then Keys(m) else Keys(m) + [k]
    ensures Get(Set(m, k, v), k) == Some(v)
    ensures forall k' :: k' != k ==> Get(Set(m, k, v), k') == Get(m, k')
  {
    SetKeys(m, k, v);
    forall k' ensures Get(Set(m, k, v), k') == if k' == k then Some(v) else Get(m, k') {
      SetGet(m, k, v, k');
    }
  }

  /** `new Map(entries)`, or a `forEach` that calls `set` once per entry, in order. */
  function FromEntries<K(==), V>(es: seq<(K, V)>): seq<(K, V)>
  {
    if es == [] then []
    else
      var e := es[|es| - 1];
      Set(FromEntries(es[..|es| - 1]), e.0, e.1)
  }

  /** The value of the last entry of `es` with key `k`. */
  function LastValue<K(==), V>(es: seq<(K, V)>, k: K): (r: Option<V>)
    ensures r.Some? <==> k in Keys(es)
  {
    if es == [] then None
    else if es[|es| - 1].0 == k then Some(es[|es| - 1].1)
    else
      assert Keys(es) == Keys(es[..|es| - 1]) + [es[|es| - 1].0];
      LastValue(es[..|es| - 1], k)
  }

  /** When every entry with key `k` carries `v`, the last one does too. */
  lemma {:induction false} LastValueUniform<K, V>(es: seq<(K, V)>, k: K, v: V)
    requires forall i :: 0 <= i < |es| && es[i].0 == k ==> es[i].1 == v
    ensures LastValue(es, k) == if k in Keys(es) then Some(v) else None
  {
    if es != [] && es[|es| - 1].0 != k {
      var p := es[..|es| - 1];
      assert Keys(es) == Keys(p) + [es[|es| - 1].0];
      LastValueUniform(p, k, v);
    }
  }

  /** Entries that agree on their values, and on which of them have key `k`, agree on `k`'s last value. */
  lemma {:induction false} LastValueAgree<K, V>(es1: seq<(K, V)>, es2: seq<(K, V)>, k: K)
    requires |es1| == |es2|
    requires forall i :: 0 <= i < |es1| ==> es1[i].1 == es2[i].1 && (es1[i].0 == k <==> es2[i].0 == k)
    ensures LastValue(es1, k) == LastValue(es2, k)
  {
    if es1 != [] {
      LastValueAgree(es1[..|es1| - 1], es2[..|es2| - 1], k);
    }
  }

  /** In any rearrangement of a `Map`'s entries, the last entry with key `k` holds what `get(k)` gives. */
  lemma LastValuePermutedMap<K, V>(m: seq<(K, V)>, d: seq<(K, V)>, k: K)
    requires IsMap(m) && multiset(d) == multiset(m)
    ensures LastValue(d, k) == Get(m, k)
  {
    if Has(m, k) {
      var i := FirstIndex(Keys(m), k);
      var v := m[i].1;
      GetEntry(m, i);
      forall j | 0 <= j < |d| && d[j].0 == k ensures d[j].1 == v {
        assert d[j] in multiset(m);
        var j' :| 0 <= j' < |m| && m[j'] == d[j];
        DistinctFirstIndex(Keys(m), j');
      }
      assert m[i] in multiset(d);
      var j :| 0 <= j < |d| && d[j] == m[i];
      assert Keys(d)[j] == k;
      LastValueUniform(d, k, v);
    } else {
      forall j | 0 <= j < |d| ensures Keys(d)[j] != k {
        assert d[j] in multiset(m);
        var j' :| 0 <= j' < |m| && m[j'] == d[j];
        assert Keys(m)[j'] == d[j].0;
      }
    }
  }

  /** Building a `Map` from entries keeps each key once, at the place where it first occurs. */
  lemma {:induction false} FromEntriesKeys<K, V>(es: seq<(K, V)>)
    ensures IsMap(FromEntries(es))
    ensures Keys(FromEntries(es)) == Dedup(Keys(es))
  {
    if es != [] {
      var p, e := es[..|es| - 1], es[|es| - 1];
      FromEntriesKeys(p);
      SetKeys(FromEntries(p), e.0, e.1);
      assert Keys(es) == Keys(p) + [e.0];
      DedupSnoc(Keys(p), e.0);
      DedupMembers(Keys(p), e.0);
    }
  }

  /** In a `Map` built from entries, a key holds the value of the last entry that names it. */
  lemma {:induction false} FromEntriesGet<K, V>(es: seq<(K, V)>, k: K)
    ensures Get(FromEntries(es), k) == LastValue(es, k)
  {
    if es != [] {
      var p, e := es[..|es| - 1], es[|es| - 1];
      FromEntriesGet(p, k);
      SetGet(FromEntries(p), e.0, e.1, k);
    }
  }

  /**
   * Building a `Map` from entries keeps each key once, at the place where it first occurs,
   * with the value of the last entry that names it.
   */
  lemma FromEntriesSpec<K, V>(es: seq<(K, V)>)
    ensures IsMap(FromEntries(es))
    ensures Keys(FromEntries(es)) == Dedup(Keys(es))
    ensures forall k :: Get(FromEntries(es), k) == LastValue(es, k)
  {
    FromEntriesKeys(es);
    forall k ensures Get(FromEntries(es), k) == LastValue(es, k) {
      FromEntriesGet(es, k);
    }
  }

  /** A `Map` rebuilt from its own entries is itself. */
  lemma {:induction false} FromEntriesOfMap<K, V>(m: seq<(K, V)>)
    requires IsMap(m)
    ensures FromEntries(m) == m
  {
    if m != [] {
      var p, e := m[..|m| - 1], m[|m| - 1];
      assert Keys(p) == Keys(m)[..|m| - 1];
      FromEntriesOfMap(p);
      assert !Has(p, e.0);
      assert m == p + [e];
    }
  }
}
