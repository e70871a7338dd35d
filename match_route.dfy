/**
 * `src/app/api/match/route.ts`: the group variant of recording a match. The group's sheet
 * `Group_<code>` is read into a `Map` from name to parsed score (NaN kept), the winner gains a
 * point, and the whole `Map`, sorted by score, is written over rows 2 to n+1. The losers are
 * not touched, and the rows below row n+1 are not cleared.
 */
module MatchRoute {
  import opened Wrappers
  import opened Gateway
  import opened SheetRows
  import opened Http
  import OrderedMap
  import Sorting

  /** The JSON body: `players` when it is an array of strings, `groupCode` when it is a string. */
  datatype MatchRequest = MatchRequest(players: Option<seq<string>>, groupCode: Option<string>)

  const CodeRequired: string := "Group code is required"
  const TooFewPlayers: string := "At least 2 players are required"
  const UpdateFailed: string := "Failed to update match results"

  function GroupSheet(code: string): string { "Group_" + code }

  /** `Group_<code>!A:B`. */
  function GroupRange(code: string): A1Range { A1Range(GroupSheet(code), 'A', None, 'B', None) }

  /** `Group_<code>!A2:B<n + 1>`. */
  function UpdateRange(code: string, n: nat): A1Range { A1Range(GroupSheet(code), 'A', Some(2), 'B', Some(n + 1)) }

  /** The `Map` of this route: a name cell to `parseInt(row[1], 10)`, `None` standing for `NaN`. */
  type Scores = seq<(Cell, Option<int>)>

  /** `[row[0], parseInt(row[1], 10)]`. */
  function GroupEntry(row: Row): (Cell, Option<int>) {
    (CellAt(row, 0), ParseScore(CellAt(row, 1)))
  }

  function GroupEntries(rows: seq<Row>): (es: Scores)
    ensures |es| == |DataRows(rows)|
    ensures forall i :: 0 <= i < |es| ==> es[i] == GroupEntry(DataRows(rows)[i])
  {
    var d := DataRows(rows);
    seq(|d|, i requires 0 <= i < |d| => GroupEntry(d[i]))
  }

  /** `new Map(rows.slice(1).map(...))`. */
  function CurrentScores(rows: seq<Row>): Scores {
    OrderedMap.FromEntries(GroupEntries(rows))
  }

  /** `currentRankings.get(winner) || 0`: a missing name and a `NaN` score both count as 0. */
  function WinnerScore(rows: seq<Row>, winner: string): int {
    var g := OrderedMap.Get(CurrentScores(rows), Str(winner));
    if g.Some? && g.value.Some? then g.value.value else 0
  }

  /** The `Map` after `currentRankings.set(winner, currentScore + 1)`. */
  function Counted(rows: seq<Row>, winner: string): Scores {
    OrderedMap.Set(CurrentScores(rows), Str(winner), Some(WinnerScore(rows, winner) + 1))
  }

  /**
   * `(a, b) => b[1] - a[1]`. A `NaN` difference counts as 0 (the ECMAScript `SortCompare` step),
   * so an entry with a `NaN` score compares equal to everything.
   */
  function ByScore(a: (Cell, Option<int>), b: (Cell, Option<int>)): int {
    if a.1.Some? && b.1.Some? then b.1.value - a.1.value else 0
  }

  function ScoreKey(e: (Cell, Option<int>)): int { e.1.GetOr(0) }

  /** `updateData`: the entries of the counted `Map`, sorted. */
  function UpdateData(rows: seq<Row>, winner: string): Scores {
    Sorting.SortWith(Counted(rows, winner), ByScore)
  }

  /** A score as a JSON request value: `NaN` is sent as `null`. */
  function ScoreValue(o: Option<int>): Value {
    match o
    case Some(n) => Number(n)
    case None => Null
  }

  /** The `values` of the update request. */
  function RowValues(d: Scores): (vs: seq<seq<Value>>)
    ensures |vs| == |d|
    ensures forall i :: 0 <= i < |d| ==> vs[i] == [NameValue(d[i].0), ScoreValue(d[i].1)]
  {
    seq(|d|, i requires 0 <= i < |d| => [NameValue(d[i].0), ScoreValue(d[i].1)])
  }

  /** The group sheet after the route's update: rows 2 to n+1 overwritten, everything else left. */
  function Written(rows: seq<Row>, winner: string): seq<Row> {
    Overwrite(rows, 1, RowValues(UpdateData(rows, winner)))
  }

  /** The same update preceded by a clear of `A2:B`, as `updateRankings` in the library does it. */
  function ClearedWritten(rows: seq<Row>, winner: string): seq<Row> {
    Overwrite(rows[..if |rows| < 1 then |rows| else 1], 1, RowValues(UpdateData(rows, winner)))
  }

  /** The route's `Map` steps (lines 39-52 of the route) as `Post` runs them. */
  method Tally(rows: seq<Row>, winner: string) returns (updateData: Scores)
    ensures updateData == UpdateData(rows, winner)
  {
    var current := CurrentScores(rows);
    var got := OrderedMap.Get(current, Str(winner));
    var currentScore := if got.Some? && got.value.Some? then got.value.value else 0;
    var counted := OrderedMap.Set(current, Str(winner), Some(currentScore + 1));
    assert counted == Counted(rows, winner);
    updateData := Sorting.SortWith(counted, ByScore);
  }

  /**
   * `POST /api/match`. Call 0 reads the group sheet, call 1 writes it; a missing sheet or a
   * failing call ends in the 500 response, with the sheet as the calls left it.
   */
  method Post(req: MatchRequest, ss: Spreadsheet, failing: set<nat>) returns (resp: Response, after: Spreadsheet)
    ensures resp.status == 400 || resp.status == 500 || resp.status == 200
    ensures resp == BadRequest(CodeRequired) <==> req.groupCode.None? || req.groupCode == Some("")
    ensures resp == BadRequest(TooFewPlayers) <==>
              req.groupCode.Some? && req.groupCode != Some("") && (req.players.None? || |req.players.value| < 2)
    ensures resp.status == 400 <==>
              req.groupCode.None? || req.groupCode == Some("") || req.players.None? || |req.players.value| < 2
    ensures resp.status == 500 <==>
              && req.groupCode.Some? && req.groupCode != Some("")
              && req.players.Some? && |req.players.value| >= 2
              && (GroupSheet(req.groupCode.value) !in ss || 0 in failing || 1 in failing)
    ensures resp.status == 500 ==> resp == Response(500, Error(UpdateFailed))
    ensures resp.status == 200 <==>
              && req.groupCode.Some? && req.groupCode != Some("")
              && req.players.Some? && |req.players.value| >= 2
              && GroupSheet(req.groupCode.value) in ss && 0 !in failing && 1 !in failing
    ensures resp.status == 200 ==>
              var sheet := GroupSheet(req.groupCode.value);
              && resp.body == Ok
              && after == ss[sheet := Written(ss[sheet], req.players.value[0])]
    ensures resp.status != 200 ==> after == ss
  {
    if req.groupCode.None? || req.groupCode.value == "" {
      return BadRequest(CodeRequired), ss;
    }
    var code := req.groupCode.value;
    if req.players.None? || |req.players.value| < 2 {
      return BadRequest(TooFewPlayers), ss;
    }
    var players := req.players.value;
    var got := Call(ss, failing, 0, GetValues(GroupRange(code)));
    if got.None? {
      return Response(500, Error(UpdateFailed)), ss;
    }
    var rows := got.value.0.rows;
    assert rows == ss[GroupSheet(code)];
    var updateData := Tally(rows, players[0]);
    var write := UpdateValues(UpdateRange(code, |updateData|), RowValues(updateData));
    UpdateRangeExact(code, |updateData|);
    assert Exec(ss, write) == Some((Done, ss[GroupSheet(code) := Overwrite(rows, 1, write.values)]));
    var put := Call(ss, failing, 1, write);
    if put.None? {
      return Response(500, Error(UpdateFailed)), ss;
    }
    return Response(200, Ok), put.value.1;
  }

  /** The update range `A2:B<n + 1>` holds exactly the n rows written: the API accepts n and no more. */
  lemma UpdateRangeExact(code: string, n: nat)
    ensures StartIndex(UpdateRange(code, n)) == 1
    ensures Fits(UpdateRange(code, n), n) && !Fits(UpdateRange(code, n), n + 1)
  {
  }

  /**
   * The counted `Map` has one entry per distinct name on the sheet, in first-row order, and the
   * winner last if new; no loser is ever added. The winner's score is its old one plus one;
   * every other name keeps the score of its last row, `NaN` included.
   */
  lemma CountedSpec(rows: seq<Row>, winner: string)
    ensures OrderedMap.IsMap(Counted(rows, winner))
    ensures OrderedMap.Keys(Counted(rows, winner))
            == OrderedMap.Dedup(OrderedMap.Keys(GroupEntries(rows)) + [Str(winner)])
    ensures forall k :: OrderedMap.Has(Counted(rows, winner), k) <==> k == Str(winner) || k in OrderedMap.Keys(GroupEntries(rows))
    ensures OrderedMap.Get(Counted(rows, winner), Str(winner)) == Some(Some(WinnerScore(rows, winner) + 1))
    ensures forall k :: k != Str(winner) ==>
              OrderedMap.Get(Counted(rows, winner), k) == OrderedMap.LastValue(GroupEntries(rows), k)
  {
    var es := GroupEntries(rows);
    var e := (Str(winner), Some(WinnerScore(rows, winner) + 1));
    assert (es + [e])[..|es|] == es;
    assert Counted(rows, winner) == OrderedMap.FromEntries(es + [e]);
    OrderedMap.FromEntriesSpec(es + [e]);
    assert OrderedMap.Keys(es + [e]) == OrderedMap.Keys(es) + [e.0];
    forall k ensures OrderedMap.Has(Counted(rows, winner), k) <==> k == Str(winner) || k in OrderedMap.Keys(es) {
      OrderedMap.DedupMembers(OrderedMap.Keys(es) + [e.0], k);
    }
  }

  /** The winner's entry in the counted `Map`. */
  lemma CountedWinner(rows: seq<Row>, winner: string)
    ensures OrderedMap.Get(Counted(rows, winner), Str(winner)) == Some(Some(WinnerScore(rows, winner) + 1))
  {
    OrderedMap.FromEntriesSpec(GroupEntries(rows));
    OrderedMap.SetSpec(CurrentScores(rows), Str(winner), Some(WinnerScore(rows, winner) + 1));
  }

  /** The winner's old score is the last parsed score of its rows, 0 when it has none or it is `NaN`. */
  lemma WinnerScoreSpec(rows: seq<Row>, winner: string)
    ensures WinnerScore(rows, winner) == OrderedMap.LastValue(GroupEntries(rows), Str(winner)).GetOr(None).GetOr(0)
  {
    OrderedMap.FromEntriesSpec(GroupEntries(rows));
  }

  /**
   * What is written is a permutation of the counted `Map`'s entries. When every score is a
   * number it is sorted by score, highest first, entries of equal score in `Map` order.
   */
  lemma UpdateDataSpec(rows: seq<Row>, winner: string)
    ensures multiset(UpdateData(rows, winner)) == multiset(Counted(rows, winner))
    ensures (forall i :: 0 <= i < |Counted(rows, winner)| ==> Counted(rows, winner)[i].1.Some?) ==>
              && Sorting.SortedDesc(UpdateData(rows, winner), ScoreKey)
              && forall v :: Sorting.Filter(UpdateData(rows, winner), ScoreKey, v) == Sorting.Filter(Counted(rows, winner), ScoreKey, v)
  {
    var c := Counted(rows, winner);
    if forall i :: 0 <= i < |c| ==> c[i].1.Some? {
      assert Sorting.DescendingBy(c, ByScore, ScoreKey);
      Sorting.SortWithSpec(c, ByScore, ScoreKey);
    }
  }

  /** Reading a name back: a name comes back as written, an `undefined` one as the empty string. */
  function ReadName(c: Cell): Cell {
    match c
    case Undefined => Str("")
    case Str(s) => Str(s)
  }

  /** A written (name, score) row is read back as the entry it was written from, up to `ReadName`. */
  lemma ReadBackRow(e: (Cell, Option<int>))
    ensures GroupEntry(WriteRow([], [NameValue(e.0), ScoreValue(e.1)])) == (ReadName(e.0), e.1)
  {
    var row := WriteRow([], [NameValue(e.0), ScoreValue(e.1)]);
    if e.1.Some? {
      Strings.IntToStringRoundTrip(e.1.value);
    } else {
      assert row[1] == "";
      assert Strings.TrimStart("") == "";
    }
  }

  /** Entries written below at most a header read back as those entries, up to `ReadName`. */
  lemma WrittenEntries(head: seq<Row>, d: Scores)
    requires |head| <= 1
    ensures var es := GroupEntries(Overwrite(head, 1, RowValues(d)));
            && |es| == |d|
            && forall i :: 0 <= i < |d| ==> es[i] == (ReadName(d[i].0), d[i].1)
  {
    var vs := RowValues(d);
    var after := Overwrite(head, 1, vs);
    if d != [] {
      assert |after| == 1 + |d|;
    }
    forall i | 0 <= i < |d| ensures GroupEntries(after)[i] == (ReadName(d[i].0), d[i].1) {
      assert after[i + 1] == WriteRow([], vs[i]);
      ReadBackRow(d[i]);
    }
  }

  /** The rows below the header after the clear and the write, parsed again. */
  lemma ClearedEntries(rows: seq<Row>, winner: string)
    ensures var d := UpdateData(rows, winner);
            var es := GroupEntries(ClearedWritten(rows, winner));
            && |es| == |d|
            && forall i :: 0 <= i < |d| ==> es[i] == (ReadName(d[i].0), d[i].1)
  {
    WrittenEntries(rows[..if |rows| < 1 then |rows| else 1], UpdateData(rows, winner));
  }

  /** With the clear in front, reading back a non-empty name gives what the counted `Map` holds for it. */
  lemma ClearedReadBackAt(rows: seq<Row>, winner: string, k: Cell)
    requires k.Str? && k != Str("")
    ensures OrderedMap.Get(CurrentScores(ClearedWritten(rows, winner)), k) == OrderedMap.Get(Counted(rows, winner), k)
  {
    var d := UpdateData(rows, winner);
    var es := GroupEntries(ClearedWritten(rows, winner));
    ClearedEntries(rows, winner);
    assert forall i :: 0 <= i < |es| ==> es[i].1 == d[i].1 && (es[i].0 == k <==> d[i].0 == k);
    OrderedMap.LastValueAgree(es, d, k);
    CountedSpec(rows, winner);
    UpdateDataSpec(rows, winner);
    OrderedMap.LastValuePermutedMap(Counted(rows, winner), d, k);
    OrderedMap.FromEntriesSpec(es);
  }

  /**
   * With the clear in front, the write is faithful: reading the sheet back gives every
   * non-empty name the score the counted `Map` holds for it, the winner's old score plus one.
   */
  lemma ClearedReadBack(rows: seq<Row>, winner: string)
    ensures forall k: Cell :: k.Str? && k != Str("") ==>
              OrderedMap.Get(CurrentScores(ClearedWritten(rows, winner)), k) == OrderedMap.Get(Counted(rows, winner), k)
    ensures winner != "" ==>
              OrderedMap.Get(CurrentScores(ClearedWritten(rows, winner)), Str(winner)) == Some(Some(WinnerScore(rows, winner) + 1))
  {
    forall k: Cell | k.Str? && k != Str("")
      ensures OrderedMap.Get(CurrentScores(ClearedWritten(rows, winner)), k) == OrderedMap.Get(Counted(rows, winner), k)
    {
      ClearedReadBackAt(rows, winner, k);
    }
    CountedSpec(rows, winner);
  }

  /** The write reaches row `|Counted| + 1` and no further: the rows below it are kept as they were. */
  lemma WrittenKeepsTail(rows: seq<Row>, winner: string, i: nat)
    requires |Counted(rows, winner)| + 1 <= i < |rows|
    ensures |Written(rows, winner)| == |rows| && Written(rows, winner)[i] == rows[i]
  {
    var d := UpdateData(rows, winner);
    assert |d| == |Counted(rows, winner)| by {
      assert |multiset(d)| == |d|;
    }
  }

  /**
   * When the sheet has more data rows than the counted `Map` has entries, its last row survives
   * the write, and the next read takes that stale row's score for its name.
   */
  lemma StaleTail(rows: seq<Row>, winner: string)
    requires |Counted(rows, winner)| + 1 < |rows|
    ensures Written(rows, winner)[|rows| - 1] == rows[|rows| - 1]
    ensures OrderedMap.Get(CurrentScores(Written(rows, winner)), CellAt(rows[|rows| - 1], 0))
            == Some(GroupEntry(rows[|rows| - 1]).1)
  {
    var last := |rows| - 1;
    WrittenKeepsTail(rows, winner, last);
    var after := Written(rows, winner);
    var es := GroupEntries(after);
    var e := GroupEntry(rows[last]);
    assert |es| == last;
    assert DataRows(after)[last - 1] == rows[last];
    assert es[last - 1] == e;
    assert OrderedMap.LastValue(es, e.0) == Some(e.1);
    OrderedMap.FromEntriesSpec(es);
  }

  /** Keeping each element once, where it first occurs. */
  lemma DedupRepeated<K>(b: K, c: K)
    requires b != c
    ensures OrderedMap.Dedup([b, c, b, b]) == [b, c]
  {
    var s1, s2, s3, s4 := [b], [b, c], [b, c, b], [b, c, b, b];
    assert s1 == [] + [b] && s2 == s1 + [c] && s3 == s2 + [b] && s4 == s3 + [b];
    OrderedMap.DedupSnoc([], b);
    OrderedMap.DedupSnoc(s1, c);
    OrderedMap.DedupSnoc(s2, b);
    OrderedMap.DedupSnoc(s3, b);
  }

  lemma ZeroParses()
    ensures Strings.ParseInt("0") == Some(0)
  {
    Strings.IntToStringRoundTrip(0);
  }

  /** A group sheet on which B is listed twice, as the create route writes it for players B, A, B. */
  const DuplicateSheet: seq<Row> := [["Player", "Score"], ["B", "0"], ["A", "0"], ["B", "0"]]

  lemma DuplicateSheetEntries()
    ensures GroupEntries(DuplicateSheet) == [(Str("B"), Some(0)), (Str("A"), Some(0)), (Str("B"), Some(0))]
  {
    ZeroParses();
  }

  /** A sheet listing the winner, another name, and the winner again, all at 0. */
  predicate ListsWinnerTwice(rows: seq<Row>, winner: string, other: Cell) {
    && other != Str(winner)
    && GroupEntries(rows) == [(Str(winner), Some(0)), (other, Some(0)), (Str(winner), Some(0))]
  }

  lemma RepeatedWinnerScore(rows: seq<Row>, winner: string, other: Cell)
    requires ListsWinnerTwice(rows, winner, other)
    ensures WinnerScore(rows, winner) == 0
  {
    WinnerScoreSpec(rows, winner);
  }

  lemma RepeatedKeys(rows: seq<Row>, winner: string, other: Cell)
    requires ListsWinnerTwice(rows, winner, other)
    ensures OrderedMap.Keys(GroupEntries(rows)) + [Str(winner)] == [Str(winner), other, Str(winner), Str(winner)]
  {
  }

  /** Such a sheet gives a counted `Map` of two entries, the winner's at 1. */
  lemma CountedRepeatedSize(rows: seq<Row>, winner: string, other: Cell)
    requires ListsWinnerTwice(rows, winner, other)
    ensures |Counted(rows, winner)| == 2
  {
    CountedSpec(rows, winner);
    RepeatedKeys(rows, winner, other);
    DedupRepeated(Str(winner), other);
  }

  lemma DuplicateSheetCounted()
    ensures |Counted(DuplicateSheet, "B")| == 2
    ensures OrderedMap.Get(Counted(DuplicateSheet, "B"), Str("B")) == Some(Some(1))
  {
    DuplicateSheetEntries();
    CountedRepeatedSize(DuplicateSheet, "B", Str("A"));
    RepeatedWinnerScore(DuplicateSheet, "B", Str("A"));
    CountedWinner(DuplicateSheet, "B");
  }

  /**
   * Without the clear, the write can lose the win. Two rows naming B give a `Map` of two
   * entries; B wins, rows 2 and 3 are rewritten, and the stale row 4 still says B has 0, which
   * the next read takes as B's score. With the clear in front, the next read gives B its point.
   */
  lemma StaleRowLosesWin()
    ensures OrderedMap.Get(Counted(DuplicateSheet, "B"), Str("B")) == Some(Some(1))
    ensures OrderedMap.Get(CurrentScores(Written(DuplicateSheet, "B")), Str("B")) == Some(Some(0))
    ensures OrderedMap.Get(CurrentScores(ClearedWritten(DuplicateSheet, "B")), Str("B")) == Some(Some(1))
  {
    DuplicateSheetCounted();
    StaleTail(DuplicateSheet, "B");
    ZeroParses();
    ClearedReadBack(DuplicateSheet, "B");
  }
}
