/**
 * `src/lib/api/sheets.ts`: the single-leaderboard variant. A match is logged as an audit row in
 * `MatchResults`, then the `Rankings` sheet is read into a `Map`, the winner gains a point, losers
 * not yet listed are added at 0, and the sheet body is cleared and rewritten in `Map` order.
 */
module SheetsApi {
  import opened Wrappers
  import opened Gateway
  import opened SheetRows
  import OrderedMap
  import opened RankingsTable
  import Sorting

  const ResultsSheet: string := "MatchResults"
  const RankingsSheet: string := "Rankings"

  /** `MatchResults!A:E`. */
  const ResultsRange: A1Range := A1Range(ResultsSheet, 'A', None, 'E', None)
  /** `Rankings!A:B`. */
  const RankingsRange: A1Range := A1Range(RankingsSheet, 'A', None, 'B', None)
  /** `Rankings!A2:B`: everything below the header. */
  const RankingsBody: A1Range := A1Range(RankingsSheet, 'A', Some(2), 'B', None)

  /** `[row[0], parseInt(row[1], 10) || 0]`. */
  function RankEntry(row: Row): (Cell, int) {
    (CellAt(row, 0), OrZero(ParseScore(CellAt(row, 1))))
  }

  /** One entry per data row, header skipped. */
  function RankEntries(rows: seq<Row>): (es: seq<(Cell, int)>)
    ensures |es| == |DataRows(rows)|
    ensures forall i :: 0 <= i < |es| ==> es[i] == RankEntry(DataRows(rows)[i])
  {
    var d := DataRows(rows);
    seq(|d|, i requires 0 <= i < |d| => RankEntry(d[i]))
  }

  /** The names in the data rows, in row order, repeats included. */
  function RowNames(rows: seq<Row>): seq<Cell> {
    OrderedMap.Keys(RankEntries(rows))
  }

  /** The score a name has on the sheet: the one on the last row naming it, 0 when no row does. */
  function OldScore(rows: seq<Row>, name: Cell): int {
    OrderedMap.LastValue(RankEntries(rows), name).GetOr(0)
  }

  /** The `Map` built from the sheet by `rows.slice(1).forEach(row => rankings.set(...))`. */
  function CurrentTable(rows: seq<Row>): Table {
    OrderedMap.FromEntries(RankEntries(rows))
  }

  /** The table `updateRankings` writes back. */
  function UpdatedTable(rows: seq<Row>, winner: string, losers: seq<string>): Table {
    Updated(RankEntries(rows), winner, losers)
  }

  /** The current table is a `Map` keyed by each row name once, in first-row order, with last-row scores. */
  lemma CurrentTableSpec(rows: seq<Row>)
    ensures OrderedMap.IsMap(CurrentTable(rows))
    ensures OrderedMap.Keys(CurrentTable(rows)) == OrderedMap.Dedup(RowNames(rows))
    ensures forall k :: OrderedMap.Get(CurrentTable(rows), k) == OrderedMap.LastValue(RankEntries(rows), k)
  {
    OrderedMap.FromEntriesSpec(RankEntries(rows));
  }

  lemma UpdatedTableFacts(rows: seq<Row>, winner: string, losers: seq<string>)
    ensures OrderedMap.IsMap(UpdatedTable(rows, winner, losers))
    ensures OrderedMap.Keys(UpdatedTable(rows, winner, losers))
            == OrderedMap.Dedup(RowNames(rows) + [Str(winner)] + Strs(losers))
    ensures forall k :: (OrderedMap.Get(UpdatedTable(rows, winner, losers), k)
            == if k == Str(winner) then Some(OldScore(rows, k) + 1)
               else if k in Strs(losers) then Some(OldScore(rows, k))
               else OrderedMap.LastValue(RankEntries(rows), k))
  {
    UpdatedKeys(RankEntries(rows), winner, losers);
    forall k ensures (OrderedMap.Get(UpdatedTable(rows, winner, losers), k)
            == if k == Str(winner) then Some(OldScore(rows, k) + 1)
               else if k in Strs(losers) then Some(OldScore(rows, k))
               else OrderedMap.LastValue(RankEntries(rows), k))
    {
      UpdatedGet(RankEntries(rows), winner, losers, k);
    }
  }

  /**
   * After `updateRankings` the winner has its old score plus one (a missing or unparseable score
   * counting as 0); every other player of the match has an entry, with its old score if it had
   * one and 0 if not; every other name keeps the score of its last row.
   */
  lemma UpdatedTableScores(rows: seq<Row>, winner: string, losers: seq<string>)
    ensures OrderedMap.Get(UpdatedTable(rows, winner, losers), Str(winner)) == Some(OldScore(rows, Str(winner)) + 1)
    ensures forall i :: 0 <= i < |losers| && losers[i] != winner ==>
              OrderedMap.Get(UpdatedTable(rows, winner, losers), Str(losers[i])) == Some(OldScore(rows, Str(losers[i])))
    ensures forall i :: 0 <= i < |losers| && Str(losers[i]) !in RowNames(rows) && losers[i] != winner ==>
              OrderedMap.Get(UpdatedTable(rows, winner, losers), Str(losers[i])) == Some(0)
    ensures forall k :: k != Str(winner) && k !in Strs(losers) ==>
              OrderedMap.Get(UpdatedTable(rows, winner, losers), k) == OrderedMap.Get(CurrentTable(rows), k)
  {
    UpdatedTableFacts(rows, winner, losers);
    CurrentTableSpec(rows);
    forall i | 0 <= i < |losers| ensures Str(losers[i]) in Strs(losers) {
      assert Strs(losers)[i] == Str(losers[i]);
    }
  }

  /**
   * The table written back names each player once. Names keep the place of their first row;
   * names new to the sheet follow, the winner first, then the losers in argument order.
   */
  lemma UpdatedTableOrder(rows: seq<Row>, winner: string, losers: seq<string>)
    ensures OrderedMap.IsMap(UpdatedTable(rows, winner, losers))
    ensures OrderedMap.Keys(UpdatedTable(rows, winner, losers))
            == OrderedMap.Dedup(RowNames(rows) + [Str(winner)] + Strs(losers))
    ensures var ks := OrderedMap.Keys(UpdatedTable(rows, winner, losers));
            var all := RowNames(rows) + [Str(winner)] + Strs(losers);
            forall i, j :: 0 <= i < j < |ks| ==> OrderedMap.FirstIndex(all, ks[i]) < OrderedMap.FirstIndex(all, ks[j])
  {
    UpdatedTableFacts(rows, winner, losers);
    OrderedMap.DedupOrder(RowNames(rows) + [Str(winner)] + Strs(losers));
  }

  /** The `Map` work of `updateRankings`, loop by loop as the source does it. */
  method BuildRankings(rows: seq<Row>, winner: string, losers: seq<string>) returns (rankings: Table)
    ensures rankings == UpdatedTable(rows, winner, losers)
  {
    var data := DataRows(rows);
    ghost var entries := RankEntries(rows);
    rankings := [];
    var i := 0;
    while i < |data|
      invariant 0 <= i <= |data|
      invariant rankings == OrderedMap.FromEntries(entries[..i])
    {
      var e := RankEntry(data[i]);
      assert entries[..i + 1][..i] == entries[..i];
      rankings := OrderedMap.Set(rankings, e.0, e.1);
      i := i + 1;
    }
    assert entries[..|data|] == entries;
    rankings := OrderedMap.Set(rankings, Str(winner), OrderedMap.Get(rankings, Str(winner)).GetOr(0) + 1);
    ghost var start := rankings;
    var j := 0;
    while j < |losers|
      invariant 0 <= j <= |losers|
      invariant rankings == AddMissing(start, losers[..j])
    {
      assert losers[..j + 1][..j] == losers[..j];
      if !OrderedMap.Has(rankings, Str(losers[j])) {
        rankings := OrderedMap.Set(rankings, Str(losers[j]), 0);
      }
      j := j + 1;
    }
    assert losers[..|losers|] == losers;
  }

  /** `Array.from(rankings.entries()).map(([name, score]) => [name, score])` as request values. */
  function TableValues(t: Table): (vs: seq<seq<Value>>)
    ensures |vs| == |t|
    ensures forall i :: 0 <= i < |t| ==> vs[i] == [NameValue(t[i].0), Number(t[i].1)]
  {
    seq(|t|, i requires 0 <= i < |t| => [NameValue(t[i].0), Number(t[i].1)])
  }

  /** The `Rankings` rows after clearing `A2:B` and writing `t` from row 2. */
  function Rewritten(rows: seq<Row>, t: Table): seq<Row> {
    Overwrite(rows[..if |rows| < 1 then |rows| else 1], 1, TableValues(t))
  }

  /** The sheet `Rankings` after its body is cleared: the header row alone, if there is one. */
  function HeaderOf(rows: seq<Row>): seq<Row> {
    rows[..if |rows| < 1 then |rows| else 1]
  }

  /** The spreadsheet after `updateRankings` succeeds on it. */
  function RankingsUpdated(ss: Spreadsheet, winner: string, losers: seq<string>): Spreadsheet
    requires RankingsSheet in ss
  {
    ss[RankingsSheet := Rewritten(ss[RankingsSheet], UpdatedTable(ss[RankingsSheet], winner, losers))]
  }

  /** Call `k`: `values.clear` of `Rankings!A2:B`. */
  method ClearBody(ss: Spreadsheet, failing: set<nat>, k: nat) returns (ok: bool, after: Spreadsheet)
    requires RankingsSheet in ss
    ensures ok <==> k !in failing
    ensures ok ==> after == ss[RankingsSheet := HeaderOf(ss[RankingsSheet])]
    ensures !ok ==> after == ss
  {
    var cleared := Call(ss, failing, k, ClearValues(RankingsBody));
    if cleared.None? {
      return false, ss;
    }
    return true, cleared.value.1;
  }

  /** Call `k`: `values.update` of `Rankings!A2:B` with the entries of `t`. */
  method WriteBody(ss: Spreadsheet, failing: set<nat>, k: nat, t: Table) returns (ok: bool, after: Spreadsheet)
    requires RankingsSheet in ss
    ensures ok <==> k !in failing
    ensures ok ==> after == ss[RankingsSheet := Overwrite(ss[RankingsSheet], 1, TableValues(t))]
    ensures !ok ==> after == ss
  {
    var written := Call(ss, failing, k, UpdateValues(RankingsBody, TableValues(t)));
    if written.None? {
      return false, ss;
    }
    return true, written.value.1;
  }

  /**
   * `updateRankings`: read `Rankings!A:B`, update the `Map`, clear `Rankings!A2:B`, write the
   * entries from `A2`. Its calls are numbered `k`, `k + 1`, `k + 2`. A failing write after the
   * clear leaves the sheet cleared: nothing is rolled back.
   */
  method UpdateRankings(ss: Spreadsheet, failing: set<nat>, k: nat, winner: string, losers: seq<string>)
    returns (ok: bool, after: Spreadsheet)
    ensures ok <==> RankingsSheet in ss && k !in failing && k + 1 !in failing && k + 2 !in failing
    ensures ok ==> after == RankingsUpdated(ss, winner, losers)
    ensures RankingsSheet !in ss || k in failing || k + 1 in failing ==> after == ss
    ensures RankingsSheet in ss && k !in failing && k + 1 !in failing && k + 2 in failing
            ==> after == ss[RankingsSheet := HeaderOf(ss[RankingsSheet])]
  {
    var got := Call(ss, failing, k, GetValues(RankingsRange));
    if got.None? {
      return false, ss;
    }
    var rows := got.value.0.rows;
    assert rows == ss[RankingsSheet];
    var table := BuildRankings(rows, winner, losers);
    var clearedOk, cleared := ClearBody(ss, failing, k + 1);
    if !clearedOk {
      return false, ss;
    }
    var writtenOk, written := WriteBody(cleared, failing, k + 2, table);
    if !writtenOk {
      return false, cleared;
    }
    assert written == ss[RankingsSheet := Rewritten(rows, table)];
    return true, written;
  }

  /** The audit row `[timestamp, winner, ...losers, losers.length + 1]`. */
  function AuditRow(timestamp: string, winner: string, losers: seq<string>): (row: seq<Value>)
  {
    [Chars(timestamp), Chars(winner)] + seq(|losers|, i requires 0 <= i < |losers| => Chars(losers[i]))
    + [Number(|losers| + 1)]
  }

  /**
   * The audit row of a match holds the timestamp, then every player in order (the winner
   * first), then the number of players: two cells more than there are players.
   */
  lemma AuditRowShape(timestamp: string, players: seq<string>)
    requires |players| >= 1
    ensures var row := AuditRow(timestamp, players[0], players[1..]);
            && |row| == |players| + 2
            && row[0] == Chars(timestamp)
            && (forall i :: 0 <= i < |players| ==> row[i + 1] == Chars(players[i]))
            && row[|row| - 1] == Number(|players|)
  {
    var row := AuditRow(timestamp, players[0], players[1..]);
    forall i | 1 <= i < |players| ensures row[i + 1] == Chars(players[i]) {
      assert players[1..][i - 1] == players[i];
    }
  }

  const InvalidCount: string := "Invalid number of players"
  const RecordFailed: string := "Failed to record match result"

  /** The spreadsheet after the audit row is appended to `MatchResults`. */
  function Logged(ss: Spreadsheet, timestamp: string, players: seq<string>): (logged: Spreadsheet)
    requires ResultsSheet in ss && |players| >= 1
    ensures forall t :: t in logged <==> t in ss
    ensures forall t :: t in ss && t != ResultsSheet ==> logged[t] == ss[t]
  {
    ss[ResultsSheet := ss[ResultsSheet] + [WriteRow([], AuditRow(timestamp, players[0], players[1..]))]]
  }

  /** What the spreadsheet holds after a match is fully recorded. */
  function Recorded(ss: Spreadsheet, timestamp: string, players: seq<string>): Spreadsheet
    requires ResultsSheet in ss && RankingsSheet in ss && |players| >= 1
  {
    RankingsUpdated(Logged(ss, timestamp, players), players[0], players[1..])
  }

  /**
   * A recorded match adds its audit row below the rows of `MatchResults`, rewrites `Rankings`
   * from its own previous rows, and leaves every other sheet as it was.
   */
  lemma RecordedSpec(ss: Spreadsheet, timestamp: string, players: seq<string>)
    requires ResultsSheet in ss && RankingsSheet in ss && |players| >= 1
    ensures var r := Recorded(ss, timestamp, players);
            && r.Keys == ss.Keys
            && r[ResultsSheet] == ss[ResultsSheet] + [WriteRow([], AuditRow(timestamp, players[0], players[1..]))]
            && r[RankingsSheet] == Rewritten(ss[RankingsSheet], UpdatedTable(ss[RankingsSheet], players[0], players[1..]))
            && forall t :: t in ss && t != ResultsSheet && t != RankingsSheet ==> r[t] == ss[t]
  {
  }

  /** The append of the audit row: call 0 of `recordMatchResult`. */
  method AppendAudit(ss: Spreadsheet, failing: set<nat>, timestamp: string, players: seq<string>)
    returns (ok: bool, after: Spreadsheet)
    requires |players| >= 1
    ensures ok <==> ResultsSheet in ss && 0 !in failing
    ensures ok ==> after == Logged(ss, timestamp, players)
    ensures !ok ==> after == ss
  {
    var audit := [AuditRow(timestamp, players[0], players[1..])];
    var appended := Call(ss, failing, 0, AppendValues(ResultsRange, audit));
    if appended.None? {
      return false, ss;
    }
    assert seq(|audit|, i requires 0 <= i < |audit| => WriteRow([], audit[i])) == [WriteRow([], audit[0])];
    return true, appended.value.1;
  }

  /**
   * `recordMatchResult(players)`, the clock reading passed in as `timestamp`. Fewer than 2 or more
   * than 4 players throw before anything is written. Otherwise the audit row is appended (call 0)
   * and `updateRankings` runs (calls 1 to 3); any failing call makes it throw, leaving what the
   * calls before it did: the audit row stays, and a failing final write leaves `Rankings` cleared.
   */
  method RecordMatchResult(players: seq<string>, timestamp: string, ss: Spreadsheet, failing: set<nat>)
    returns (r: Result<()>, after: Spreadsheet)
    ensures (|players| < 2 || |players| > 4) ==> r == Failure(InvalidCount) && after == ss
    ensures 2 <= |players| <= 4 ==>
              (r.Success? <==> ResultsSheet in ss && RankingsSheet in ss && 0 !in failing && 1 !in failing
                               && 2 !in failing && 3 !in failing)
    ensures 2 <= |players| <= 4 && r.Failure? ==> r.message == RecordFailed
    ensures r.Success? ==> after == Recorded(ss, timestamp, players)
    ensures 2 <= |players| <= 4 && (ResultsSheet !in ss || 0 in failing) ==> after == ss
    ensures 2 <= |players| <= 4 && ResultsSheet in ss && 0 !in failing
            && (RankingsSheet !in ss || 1 in failing || 2 in failing)
            ==> after == Logged(ss, timestamp, players)
    ensures 2 <= |players| <= 4 && ResultsSheet in ss && RankingsSheet in ss
            && 0 !in failing && 1 !in failing && 2 !in failing && 3 in failing
            ==> after == Logged(ss, timestamp, players)[RankingsSheet := HeaderOf(ss[RankingsSheet])]
  {
    if |players| < 2 || |players| > 4 {
      return Failure(InvalidCount), ss;
    }
    var appendedOk, logged := AppendAudit(ss, failing, timestamp, players);
    if !appendedOk {
      return Failure(RecordFailed), ss;
    }
    var ok, updated := UpdateRankings(logged, failing, 1, players[0], players[1..]);
    if !ok {
      return Failure(RecordFailed), updated;
    }
    return Success(()), updated;
  }

  /** An entry of the leaderboard `getRankings` returns. */
  datatype Ranking = Ranking(name: Cell, score: int)

  /** `rows.slice(1).map(row => ({ name: row[0], score: parseInt(row[1], 10) || 0 }))`. */
  function ParseRankings(rows: seq<Row>): (rs: seq<Ranking>)
    ensures |rs| == |DataRows(rows)|
    ensures forall i :: 0 <= i < |rs| ==> rs[i] == Ranking(RankEntry(DataRows(rows)[i]).0, RankEntry(DataRows(rows)[i]).1)
  {
    var d := DataRows(rows);
    seq(|d|, i requires 0 <= i < |d| => Ranking(CellAt(d[i], 0), OrZero(ParseScore(CellAt(d[i], 1)))))
  }

  /** The comparator `(a, b) => b.score - a.score`. */
  function ByScoreDescending(a: Ranking, b: Ranking): int {
    b.score - a.score
  }

  function ScoreOf(r: Ranking): int {
    r.score
  }

  /** `getRankings()`: the parsed rows of `Rankings!A:B`, stably sorted by score, highest first. */
  function GetRankings(ss: Spreadsheet, failing: set<nat>): Result<seq<Ranking>> {
    match Call(ss, failing, 0, GetValues(RankingsRange))
    case None => Failure("Failed to get rankings")
    case Some(res) => Success(Sorting.SortWith(ParseRankings(res.0.rows), ByScoreDescending))
  }

  /**
   * `getRankings` fails only when the read does. It returns a permutation of the parsed data rows,
   * one per row (header dropped, unparseable scores 0), sorted by score non-increasing, rows of
   * equal score in sheet order; a sheet with at most a header gives no entries.
   */
  lemma GetRankingsSpec(ss: Spreadsheet, failing: set<nat>)
    ensures GetRankings(ss, failing).Success? <==> RankingsSheet in ss && 0 !in failing
    ensures GetRankings(ss, failing).Success? ==>
              var parsed := ParseRankings(ss[RankingsSheet]);
              var out := GetRankings(ss, failing).value;
              && multiset(out) == multiset(parsed)
              && Sorting.SortedDesc(out, ScoreOf)
              && (forall v :: Sorting.Filter(out, ScoreOf, v) == Sorting.Filter(parsed, ScoreOf, v))
              && (|ss[RankingsSheet]| <= 1 ==> out == [])
  {
    if GetRankings(ss, failing).Success? {
      var parsed := ParseRankings(ss[RankingsSheet]);
      Sorting.SortWithSpec(parsed, ByScoreDescending, ScoreOf);
      if |ss[RankingsSheet]| <= 1 {
        assert parsed == [];
      }
    }
  }
}
