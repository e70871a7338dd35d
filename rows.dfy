/** How the handlers read a name/score sheet and what they write back into one. */
module SheetRows {
  import opened Wrappers
  import Strings
  import opened Gateway

  /** `rows.slice(1)`: every row after the header; nothing when the sheet is empty. */
  function DataRows(rows: seq<Row>): (d: seq<Row>)
    ensures |d| == if rows == [] then 0 else |rows| - 1
    ensures forall i :: 0 <= i < |d| ==> d[i] == rows[i + 1]
  {
    if rows == [] then [] else rows[1..]
  }

  /** `parseInt(cell, 10)`, `None` standing for `NaN`; `parseInt(undefined, 10)` is `NaN`. */
  function ParseScore(c: Cell): Option<int> {
    match c
    case Undefined => None
    case Str(s) => Strings.ParseInt(s)
  }

  /** `x || 0` on a number that may be `NaN`: both `NaN` and `0` give `0`. */
  function OrZero(o: Option<int>): int {
    o.GetOr(0)
  }

  /** A name as a JSON request value: `undefined` in an array is sent as `null`. */
  function NameValue(c: Cell): Value {
    match c
    case Undefined => Null
    case Str(s) => Chars(s)
  }

  /** A written name is read back as the same name. */
  lemma NameRoundTrip(prev: Row, name: string, rest: seq<Value>)
    ensures CellAt(WriteRow(prev, [Chars(name)] + rest), 0) == Str(name)
  {
    assert ([Chars(name)] + rest)[0] == Chars(name);
  }

  /** A written score is parsed back as the same integer. */
  lemma ScoreRoundTrip(prev: Row, first: Value, n: int)
    ensures ParseScore(CellAt(WriteRow(prev, [first, Number(n)]), 1)) == Some(n)
  {
    assert [first, Number(n)][1] == Number(n);
    Strings.IntToStringRoundTrip(n);
  }
}
