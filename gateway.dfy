/**
 * The Google Sheets spreadsheet the routes use as their database, reduced to the calls they make.
 * A spreadsheet maps each sheet title to its rows; a row is the list of cell texts that
 * `values.get` returns for it. Each call either takes effect or throws.
 */
module Gateway {
  import opened Wrappers
  import Strings

  type Row = seq<string>

  type Spreadsheet = map<string, seq<Row>>

  /** A cell as JavaScript sees it: `row[i]` is `undefined` past the end of the row. */
  datatype Cell = Undefined | Str(text: string)

  function CellAt(row: Row, i: nat): (c: Cell)
    ensures c.Str? <==> i < |row|
  {
    if i < |row| then Str(row[i]) else Undefined
  }

  /** A value sent in a request body: a string, an integer, or `null` (JSON for `undefined` and `NaN`). */
  datatype Value = Chars(s: string) | Number(n: int) | Null

  /** An A1-notation range `sheet!<fromCol><fromRow>:<toCol><toRow>`; an absent row number is an open end. */
  datatype A1Range = A1Range(sheet: string, fromCol: char, fromRow: Option<nat>, toCol: char, toRow: Option<nat>)

  /** The row index (from 0) a range starts at. */
  function StartIndex(r: A1Range): nat {
    match r.fromRow
    case Some(n) => if n > 0 then n - 1 else 0
    case None => 0
  }

  datatype Request =
    | GetValues(range: A1Range)                              // spreadsheets.values.get
    | AppendValues(range: A1Range, values: seq<seq<Value>>)  // spreadsheets.values.append
    | ClearValues(range: A1Range)                            // spreadsheets.values.clear
    | UpdateValues(range: A1Range, values: seq<seq<Value>>)  // spreadsheets.values.update
    | AddSheet(title: string)                                // spreadsheets.batchUpdate with addSheet
    | GetSpreadsheet                                         // spreadsheets.get

  datatype Reply = ValueRows(rows: seq<Row>) | SheetTitles(titles: set<string>) | Done

  /** The text a written value leaves in its cell; `null` leaves the cell as it was. */
  function Render(v: Value, prev: string): string {
    match v
    case Chars(s) => s
    case Number(n) => Strings.IntToString(n)
    case Null => prev
  }

  function Max(a: nat, b: nat): nat { if a < b then b else a }

  /** Writing `vs` from column A over the row `prev`. */
  function WriteRow(prev: Row, vs: seq<Value>): (r: Row)
    ensures |r| == Max(|prev|, |vs|)
    ensures forall j :: 0 <= j < |vs| ==> r[j] == Render(vs[j], if j < |prev| then prev[j] else "")
    ensures forall j :: |vs| <= j < |prev| ==> r[j] == prev[j]
  {
    seq(Max(|prev|, |vs|), j requires 0 <= j < Max(|prev|, |vs|) =>
      if j < |vs| then Render(vs[j], if j < |prev| then prev[j] else "") else prev[j])
  }

  function RowOrEmpty(rows: seq<Row>, i: nat): Row {
    if i < |rows| then rows[i] else []
  }

  /** The rows after writing `vs` from row index `at` on. */
  function Overwrite(rows: seq<Row>, at: nat, vs: seq<seq<Value>>): (r: seq<Row>)
    ensures |r| == if vs == [] then |rows| else Max(|rows|, at + |vs|)
    ensures forall i :: 0 <= i < |r| ==>
      r[i] == if at <= i < at + |vs| then WriteRow(RowOrEmpty(rows, i), vs[i - at]) else RowOrEmpty(rows, i)
  {
    var n := if vs == [] then |rows| else Max(|rows|, at + |vs|);
    seq(n, i requires 0 <= i < n =>
      if at <= i < at + |vs| then WriteRow(RowOrEmpty(rows, i), vs[i - at]) else RowOrEmpty(rows, i))
  }

  /** The sheet a request addresses, if any. */
  function Target(req: Request): Option<string> {
    match req
    case GetValues(r) => Some(r.sheet)
    case AppendValues(r, _) => Some(r.sheet)
    case ClearValues(r) => Some(r.sheet)
    case UpdateValues(r, _) => Some(r.sheet)
    case AddSheet(t) => Some(t)
    case GetSpreadsheet => None
  }

  /** Whether an update of `n` rows stays inside the range (the API rejects one that does not). */
  predicate Fits(r: A1Range, n: nat) {
    r.toRow.None? || StartIndex(r) + n <= r.toRow.value
  }

  /**
   * One call against the spreadsheet: `None` when it throws (a missing sheet, an update that
   * overflows its range, a sheet title that is taken), otherwise the reply and the new state.
   * Reads change nothing; a write changes only the sheet it names.
   */
  function Exec(ss: Spreadsheet, req: Request): (res: Option<(Reply, Spreadsheet)>)
    ensures res.Some? && (req.GetValues? || req.GetSpreadsheet?) ==> res.value.1 == ss
    ensures res.Some? ==> res.value.1.Keys == if req.AddSheet? then ss.Keys + {req.title} else ss.Keys
    ensures res.Some? ==> forall t :: t in ss && Some(t) != Target(req) ==> res.value.1[t] == ss[t]
    ensures req.AddSheet? ==> (res.Some? <==> req.title !in ss)
    ensures req.GetValues? ==> res == if req.range.sheet in ss then Some((ValueRows(ss[req.range.sheet]), ss)) else None
    ensures req.GetSpreadsheet? ==> res == Some((SheetTitles(ss.Keys), ss))
  {
    match req
    case GetValues(r) =>
      if r.sheet in ss then Some((ValueRows(ss[r.sheet]), ss)) else None
    case AppendValues(r, vs) =>
      if r.sheet in ss
      then Some((Done, ss[r.sheet := ss[r.sheet] + seq(|vs|, i requires 0 <= i < |vs| => WriteRow([], vs[i]))]))
      else None
    case ClearValues(r) =>
      if r.sheet in ss
      then
        var rows := ss[r.sheet];
        Some((Done, ss[r.sheet := rows[..if StartIndex(r) < |rows| then StartIndex(r) else |rows|]]))
      else None
    case UpdateValues(r, vs) =>
      if r.sheet in ss && Fits(r, |vs|)
      then Some((Done, ss[r.sheet := Overwrite(ss[r.sheet], StartIndex(r), vs)]))
      else None
    case AddSheet(t) =>
      if t in ss then None else Some((Done, ss[t := []]))
    case GetSpreadsheet =>
      Some((SheetTitles(ss.Keys), ss))
  }

  /** The `k`-th call a handler makes; the calls numbered in `failing` throw (the service is unreachable). */
  function Call(ss: Spreadsheet, failing: set<nat>, k: nat, req: Request): Option<(Reply, Spreadsheet)> {
    if k in failing then None else Exec(ss, req)
  }
}
