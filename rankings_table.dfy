/**
 * The `Map<string, number>` work of `updateRankings` in `src/lib/api/sheets.ts`: counting the
 * winner's point and adding the losers the table does not list yet.
 */
module RankingsTable {
  import opened Wrappers
  import opened Gateway
  import OrderedMap

  /** The `Map<string, number>` of rankings, as its entries in insertion order. */
  type Table = seq<(Cell, int)>

  function Strs(names: seq<string>): (cs: seq<Cell>)
    ensures |cs| == |names| && forall i :: 0 <= i < |names| ==> cs[i] == Str(names[i])
  {
    seq(|names|, i requires 0 <= i < |names| => Str(names[i]))
  }

  lemma StrsSnoc(names: seq<string>)
    requires names != []
    ensures Strs(names) == Strs(names[..|names| - 1]) + [Str(names[|names| - 1])]
  {
  }

  lemma ConcatSnoc<T>(xs: seq<T>, ys: seq<T>, y: T)
    ensures xs + (ys + [y]) == (xs + ys) + [y]
  {
  }

  /** `rankings.set(winner, (rankings.get(winner) || 0) + 1)`. */
  function WithWinner(m: Table, winner: string): Table {
    OrderedMap.Set(m, Str(winner), OrderedMap.Get(m, Str(winner)).GetOr(0) + 1)
  }

  /** `losers.forEach(loser => { if (!rankings.has(loser)) rankings.set(loser, 0) })`. */
  function AddMissing(m: Table, losers: seq<string>): Table {
    if losers == [] then m
    else
      var p := AddMissing(m, losers[..|losers| - 1]);
      var l := Str(losers[|losers| - 1]);
      if OrderedMap.Has(p, l) then p else OrderedMap.Set(p, l, 0)
  }

  /** Adding missing losers keeps a `Map` a `Map`. */
  lemma {:induction false} AddMissingIsMap(m: Table, losers: seq<string>)
    requires OrderedMap.IsMap(m)
    ensures OrderedMap.IsMap(AddMissing(m, losers))
  {
    if losers != [] {
      var p, l := losers[..|losers| - 1], Str(losers[|losers| - 1]);
      AddMissingIsMap(m, p);
      var a := AddMissing(m, p);
      if !OrderedMap.Has(a, l) {
        OrderedMap.SetKeys(a, l, 0);
      }
    }
  }

  /** Adding missing losers gives `k`, when it is an absent loser, 0, and otherwise leaves it alone. */
  lemma {:induction false} AddMissingGet(m: Table, losers: seq<string>, k: Cell)
    ensures OrderedMap.Get(AddMissing(m, losers), k)
            == if k in Strs(losers) && !OrderedMap.Has(m, k) then Some(0) else OrderedMap.Get(m, k)
  {
    if losers != [] {
      var p, l := losers[..|losers| - 1], Str(losers[|losers| - 1]);
      AddMissingGet(m, p, k);
      AddMissingGet(m, p, l);
      var a := AddMissing(m, p);
      assert Strs(losers) == Strs(p) + [l];
      assert k in Strs(losers) <==> k in Strs(p) || k == l;
      if !OrderedMap.Has(a, l) {
        OrderedMap.SetGet(a, l, 0, k);
      }
    }
  }

  /** Adding missing losers keeps a `Map` a `Map`, gives each absent loser 0 and leaves every present entry alone. */
  lemma AddMissingMap(m: Table, losers: seq<string>)
    requires OrderedMap.IsMap(m)
    ensures OrderedMap.IsMap(AddMissing(m, losers))
    ensures forall k :: OrderedMap.Get(AddMissing(m, losers), k)
                        == if k in Strs(losers) && !OrderedMap.Has(m, k) then Some(0) else OrderedMap.Get(m, k)
  {
    AddMissingIsMap(m, losers);
    forall k ensures OrderedMap.Get(AddMissing(m, losers), k)
                     == if k in Strs(losers) && !OrderedMap.Has(m, k) then Some(0) else OrderedMap.Get(m, k)
    {
      AddMissingGet(m, losers, k);
    }
  }

  /** One loser more: present, the table stays; absent, it is added last. */
  lemma AddOneKeys(a: Table, zs: seq<Cell>, l: Cell)
    requires OrderedMap.IsMap(a) && OrderedMap.Keys(a) == OrderedMap.Dedup(zs)
    ensures var r := if OrderedMap.Has(a, l) then a else OrderedMap.Set(a, l, 0);
            OrderedMap.IsMap(r) && OrderedMap.Keys(r) == OrderedMap.Dedup(zs + [l])
  {
    OrderedMap.SetDedup(a, zs, l, 0);
    OrderedMap.DedupSnoc(zs, l);
  }

  /** The losers new to the table are appended in argument order, each once. */
  lemma {:induction false} AddMissingKeys(m: Table, losers: seq<string>, xs: seq<Cell>)
    requires OrderedMap.IsMap(m) && OrderedMap.Keys(m) == OrderedMap.Dedup(xs)
    ensures OrderedMap.Keys(AddMissing(m, losers)) == OrderedMap.Dedup(xs + Strs(losers))
  {
    if losers == [] {
      assert xs + Strs(losers) == xs;
    } else {
      var p, l := losers[..|losers| - 1], Str(losers[|losers| - 1]);
      AddMissingKeys(m, p, xs);
      AddMissingIsMap(m, p);
      var a := AddMissing(m, p);
      var zs := xs + Strs(p);
      StrsSnoc(losers);
      ConcatSnoc(xs, Strs(p), l);
      AddOneKeys(a, zs, l);
    }
  }

  /** Counting a win keeps a `Map` a `Map`; a listed winner stays where it is, a new one goes last. */
  lemma WinKeys(m: Table, winner: string)
    requires OrderedMap.IsMap(m)
    ensures OrderedMap.IsMap(WithWinner(m, winner))
    ensures OrderedMap.Keys(WithWinner(m, winner))
            == if OrderedMap.Has(m, Str(winner)) then OrderedMap.Keys(m) else OrderedMap.Keys(m) + [Str(winner)]
  {
    OrderedMap.SetKeys(m, Str(winner), OrderedMap.Get(m, Str(winner)).GetOr(0) + 1);
  }

  /** Counting a win adds one to the winner's entry, 0 standing for a missing one, and changes no other. */
  lemma WinGet(m: Table, winner: string, k: Cell)
    ensures OrderedMap.Get(WithWinner(m, winner), k)
            == if k == Str(winner) then Some(OrderedMap.Get(m, k).GetOr(0) + 1) else OrderedMap.Get(m, k)
  {
    var w := Str(winner);
    var v := OrderedMap.Get(m, w).GetOr(0) + 1;
    OrderedMap.SetGet(m, w, v, k);
    if k == w {
      assert OrderedMap.Get(WithWinner(m, winner), k) == Some(v);
    }
  }

  /** The table `updateRankings` builds from the sheet's entries `es`, in order. */
  function Updated(es: Table, winner: string, losers: seq<string>): Table {
    AddMissing(WithWinner(OrderedMap.FromEntries(es), winner), losers)
  }

  /** The built table is a `Map` keyed by the entries' names, then the winner, then the losers, each once. */
  lemma UpdatedKeys(es: Table, winner: string, losers: seq<string>)
    ensures OrderedMap.IsMap(Updated(es, winner, losers))
    ensures OrderedMap.Keys(Updated(es, winner, losers))
            == OrderedMap.Dedup(OrderedMap.Keys(es) + [Str(winner)] + Strs(losers))
  {
    var m0 := OrderedMap.FromEntries(es);
    OrderedMap.FromEntriesKeys(es);
    WinKeys(m0, winner);
    var ks, w := OrderedMap.Keys(es), Str(winner);
    OrderedMap.DedupSnoc(ks, w);
    OrderedMap.DedupMembers(ks, w);
    var m1 := WithWinner(m0, winner);
    assert OrderedMap.Keys(m1) == OrderedMap.Dedup(ks + [w]);
    AddMissingIsMap(m1, losers);
    AddMissingKeys(m1, losers, OrderedMap.Keys(es) + [Str(winner)]);
  }

  /** Counting the win and then adding the losers, on any `Map`: the score each key ends with. */
  lemma CountedGet(m: Table, winner: string, losers: seq<string>, k: Cell)
    ensures OrderedMap.Get(AddMissing(WithWinner(m, winner), losers), k)
            == if k == Str(winner) then Some(OrderedMap.Get(m, k).GetOr(0) + 1)
               else if k in Strs(losers) then Some(OrderedMap.Get(m, k).GetOr(0))
               else OrderedMap.Get(m, k)
  {
    var m1 := WithWinner(m, winner);
    WinGet(m, winner, k);
    AddMissingGet(m1, losers, k);
    assert OrderedMap.Get(m1, k).Some? <==> OrderedMap.Has(m1, k);
  }

  /**
   * The built table gives the winner its last entry's score plus one, 0 standing for none; a
   * loser its last entry's score, or 0; any other name its last entry's score, or nothing.
   */
  lemma UpdatedGet(es: Table, winner: string, losers: seq<string>, k: Cell)
    ensures OrderedMap.Get(Updated(es, winner, losers), k)
            == if k == Str(winner) then Some(OrderedMap.LastValue(es, k).GetOr(0) + 1)
               else if k in Strs(losers) then Some(OrderedMap.LastValue(es, k).GetOr(0))
               else OrderedMap.LastValue(es, k)
  {
    OrderedMap.FromEntriesGet(es, k);
    CountedGet(OrderedMap.FromEntries(es), winner, losers, k);
  }
}
