/**
 * How the routes work together on one group sheet: the sheet the create route writes, the first
 * match recorded on it, and which created codes the verify route lets a user sign in with.
 */
module Workflow {
  import opened Wrappers
  import opened Gateway
  import Strings
  import OrderedMap
  import SheetRows
  import MatchRoute
  import CreateGroupRoute
  import VerifyRoute
  import Http

  /** A value that is written over the whole of a row's old cells leaves nothing of them. */
  lemma WriteRowCovers(prev: Row, vs: seq<Value>)
    requires |prev| <= |vs|
    requires forall j :: 0 <= j < |vs| ==> !vs[j].Null?
    ensures WriteRow(prev, vs) == WriteRow([], vs)
  {
    var a, b := WriteRow(prev, vs), WriteRow([], vs);
    forall j | 0 <= j < |vs| ensures a[j] == b[j] {
      assert vs[j].Chars? || vs[j].Number?;
    }
  }

  /** Counted entries that all have a name and a numeric score. */
  predicate Complete(es: MatchRoute.Scores) {
    forall i :: 0 <= i < |es| ==> es[i].0.Str? && es[i].1.Some?
  }

  /** A rearrangement of complete entries is complete. */
  lemma CompletePermuted(es: MatchRoute.Scores, d: MatchRoute.Scores)
    requires Complete(es) && multiset(d) == multiset(es)
    ensures Complete(d) && |d| == |es|
  {
    assert |multiset(d)| == |d|;
    forall i | 0 <= i < |d| ensures d[i].0.Str? && d[i].1.Some? {
      assert d[i] in multiset(es);
      var j :| 0 <= j < |es| && es[j] == d[i];
    }
  }

  /** Writing two non-null values into every row below the header, when no row is wider or left over. */
  lemma OverwriteCovers(rows: seq<Row>, vs: seq<seq<Value>>)
    requires |rows| <= |vs| + 1
    requires forall i :: 1 <= i < |rows| ==> |rows[i]| <= 2
    requires forall i :: 0 <= i < |vs| ==> |vs[i]| == 2 && !vs[i][0].Null? && !vs[i][1].Null?
    ensures Overwrite(rows, 1, vs) == Overwrite(rows[..if |rows| < 1 then |rows| else 1], 1, vs)
  {
    var head := rows[..if |rows| < 1 then |rows| else 1];
    var a, b := Overwrite(rows, 1, vs), Overwrite(head, 1, vs);
    assert |a| == |b|;
    forall i | 0 <= i < |a| ensures a[i] == b[i] {
      if i >= 1 {
        assert RowOrEmpty(head, i) == [];
        WriteRowCovers(RowOrEmpty(rows, i), vs[i - 1]);
      } else {
        assert RowOrEmpty(head, i) == RowOrEmpty(rows, i);
      }
    }
  }

  /**
   * When the counted `Map` has an entry for every data row, each with a name and a score, and
   * no row has more than two cells, the update alone leaves the same sheet as the clear and the
   * update together: there is no stale row.
   */
  lemma NoStaleRows(rows: seq<Row>, winner: string)
    requires |rows| <= |MatchRoute.Counted(rows, winner)| + 1
    requires forall i :: 1 <= i < |rows| ==> |rows[i]| <= 2
    requires Complete(MatchRoute.Counted(rows, winner))
    ensures MatchRoute.Written(rows, winner) == MatchRoute.ClearedWritten(rows, winner)
  {
    var d := MatchRoute.UpdateData(rows, winner);
    MatchRoute.UpdateDataSpec(rows, winner);
    CompletePermuted(MatchRoute.Counted(rows, winner), d);
    var vs: seq<seq<Value>> := MatchRoute.RowValues(d);
    forall i: nat | i < |vs| ensures |vs[i]| == 2 && !vs[i][0].Null? && !vs[i][1].Null? {
      assert d[i].0.Str? && d[i].1.Some?;
    }
    OverwriteCovers(rows, vs);
  }

  /** The entries read from a newly created sheet: one per player, in order, at 0. */
  predicate FreshScores(es: MatchRoute.Scores, players: seq<string>) {
    |es| == |players| && forall i :: 0 <= i < |players| ==> es[i] == (Str(players[i]), Some(0))
  }

  /** Distinct players make the entries of a created sheet a `Map` already. */
  lemma FreshScoresMap(es: MatchRoute.Scores, players: seq<string>)
    requires FreshScores(es, players) && OrderedMap.Distinct(players)
    ensures OrderedMap.IsMap(es)
  {
    var ks := OrderedMap.Keys(es);
    forall i, j | 0 <= i < j < |ks| ensures ks[i] != ks[j] {
      assert ks[i] == Str(players[i]) && ks[j] == Str(players[j]);
    }
  }

  /** Fresh scores are their own `Map`; the first player reads 0 there, and setting it to 1 replaces the first entry. */
  lemma FreshSet(es: MatchRoute.Scores, players: seq<string>)
    requires |players| >= 1 && OrderedMap.Distinct(players) && FreshScores(es, players)
    ensures OrderedMap.IsMap(es) && OrderedMap.FromEntries(es) == es
    ensures OrderedMap.Get(es, Str(players[0])) == Some(Some(0))
    ensures OrderedMap.Set(es, Str(players[0]), Some(1)) == es[0 := (Str(players[0]), Some(1))]
  {
    FreshScoresMap(es, players);
    OrderedMap.FromEntriesOfMap(es);
    assert OrderedMap.Keys(es)[0] == Str(players[0]);
    assert OrderedMap.FirstIndex(OrderedMap.Keys(es), Str(players[0])) == 0;
  }

  /** On fresh scores, the first winner had 0 and the counted `Map` is the sheet's with the winner at 1. */
  lemma FreshCounted(rows: seq<Row>, players: seq<string>)
    requires |players| >= 1 && OrderedMap.Distinct(players)
    requires FreshScores(MatchRoute.GroupEntries(rows), players)
    ensures var es := MatchRoute.GroupEntries(rows);
            && OrderedMap.IsMap(es)
            && MatchRoute.Counted(rows, players[0]) == es[0 := (Str(players[0]), Some(1))]
  {
    var es := MatchRoute.GroupEntries(rows);
    FreshSet(es, players);
    assert MatchRoute.CurrentScores(rows) == es;
    assert MatchRoute.WinnerScore(rows, players[0]) == 0;
  }

  /** The same for the sheet the create route writes. */
  lemma CreatedCounted(players: seq<string>)
    requires |players| >= 1 && OrderedMap.Distinct(players)
    ensures var es := MatchRoute.GroupEntries(CreateGroupRoute.CreatedSheet(players));
            && FreshScores(es, players)
            && OrderedMap.IsMap(es)
            && MatchRoute.Counted(CreateGroupRoute.CreatedSheet(players), players[0]) == es[0 := (Str(players[0]), Some(1))]
  {
    var rows := CreateGroupRoute.CreatedSheet(players);
    CreateGroupRoute.CreatedSheetEntries(players);
    assert FreshScores(MatchRoute.GroupEntries(rows), players);
    FreshCounted(rows, players);
  }

  /** The first match on a created sheet writes no stale row. */
  lemma CreatedNoStale(players: seq<string>)
    requires |players| >= 1 && OrderedMap.Distinct(players)
    ensures var rows := CreateGroupRoute.CreatedSheet(players);
            MatchRoute.Written(rows, players[0]) == MatchRoute.ClearedWritten(rows, players[0])
  {
    var rows := CreateGroupRoute.CreatedSheet(players);
    CreatedCounted(players);
    CreateGroupRoute.CreatedSheetRows(players);
    var c := MatchRoute.Counted(rows, players[0]);
    assert |c| == |players|;
    forall i | 0 <= i < |c| ensures c[i].0.Str? && c[i].1.Some? {
      if i > 0 { assert c[i] == (Str(players[i]), Some(0)); }
    }
    forall i | 1 <= i < |rows| ensures |rows[i]| <= 2 {
      assert rows[(i - 1) + 1] == [players[i - 1], "0"];
    }
    NoStaleRows(rows, players[0]);
  }

  /** What a read finds that agrees with the fresh scores bumped for the first player, on every non-empty name. */
  lemma BumpedLookups(es: MatchRoute.Scores, players: seq<string>, after: MatchRoute.Scores)
    requires |players| >= 1 && FreshScores(es, players) && OrderedMap.IsMap(es)
    requires forall k: Cell :: k.Str? && k != Str("") ==>
               OrderedMap.Get(after, k) == OrderedMap.Get(es[0 := (Str(players[0]), Some(1))], k)
    requires forall i :: 0 <= i < |players| ==> players[i] != ""
    ensures OrderedMap.Get(after, Str(players[0])) == Some(Some(1))
    ensures forall i :: 1 <= i < |players| ==> OrderedMap.Get(after, Str(players[i])) == Some(Some(0))
    ensures forall name :: name != "" && name !in players ==> OrderedMap.Get(after, Str(name)) == None
  {
    var c := es[0 := (Str(players[0]), Some(1))];
    assert OrderedMap.Keys(c) == OrderedMap.Keys(es);
    OrderedMap.GetEntry(c, 0);
    forall i | 1 <= i < |players| ensures OrderedMap.Get(after, Str(players[i])) == Some(Some(0)) {
      OrderedMap.GetEntry(c, i);
    }
    forall name | name != "" && name !in players ensures OrderedMap.Get(after, Str(name)) == None {
      assert forall i :: 0 <= i < |c| ==> OrderedMap.Keys(c)[i] == Str(players[i]);
    }
  }

  /**
   * A group created with distinct, non-empty player names, and a first match won by the first of
   * them: reading the sheet back, the winner has 1, every other player 0, and no one else is listed.
   */
  lemma FirstMatchAfterCreate(players: seq<string>)
    requires |players| >= 1 && OrderedMap.Distinct(players)
    requires forall i :: 0 <= i < |players| ==> players[i] != ""
    ensures var after := MatchRoute.CurrentScores(MatchRoute.Written(CreateGroupRoute.CreatedSheet(players), players[0]));
            && OrderedMap.Get(after, Str(players[0])) == Some(Some(1))
            && (forall i :: 1 <= i < |players| ==> OrderedMap.Get(after, Str(players[i])) == Some(Some(0)))
            && forall name :: name != "" && name !in players ==> OrderedMap.Get(after, Str(name)) == None
  {
    var rows := CreateGroupRoute.CreatedSheet(players);
    var es := MatchRoute.GroupEntries(rows);
    CreatedCounted(players);
    CreatedNoStale(players);
    MatchRoute.ClearedReadBack(rows, players[0]);
    var after := MatchRoute.CurrentScores(MatchRoute.Written(rows, players[0]));
    BumpedLookups(es, players, after);
  }

  /** `Group_` followed by one code names the same sheet as `Group_` followed by another only when the codes are equal. */
  lemma GroupSheetInjective(a: string, b: string)
    requires MatchRoute.GroupSheet(a) == MatchRoute.GroupSheet(b)
    ensures a == b
  {
    var p := "Group_";
    assert a == MatchRoute.GroupSheet(a)[|p|..];
    assert b == MatchRoute.GroupSheet(b)[|p|..];
  }

  /**
   * The create route accepts codes with letters, but the verify route only accepts digits: no
   * code a user can send signs in to a group whose code has a letter.
   */
  lemma LetterCodeNeverSignsIn(code: string, sent: string, ss: Spreadsheet, failing: set<nat>)
    requires Strings.HasLetter(code)
    ensures VerifyRoute.Post(Some(sent), ss, failing).status == 200 ==>
              MatchRoute.GroupSheet(sent) != CreateGroupRoute.SheetTitle(code)
  {
    Strings.ToUpperProperties(code);
    Strings.DigitCodeIsAlphanumeric(Strings.ToUpper(code));
    if MatchRoute.GroupSheet(sent) == CreateGroupRoute.SheetTitle(code) {
      GroupSheetInjective(sent, Strings.ToUpper(code));
    }
  }

  /** A group created with a code of five digits can be signed in to with that code. */
  lemma DigitCodeSignsIn(code: string, ss: Spreadsheet, rows: seq<Row>, failing: set<nat>)
    requires Strings.IsDigitCode(code) && 0 !in failing
    ensures VerifyRoute.Post(Some(code), ss[CreateGroupRoute.SheetTitle(code) := rows], failing) == Http.Response(200, Http.Ok)
  {
    Strings.ToUpperProperties(code);
  }

  /**
   * The create route does not check its players for repeats: players `b, a, b` give a sheet that
   * lists `b` twice, the shape of `MatchRoute.DuplicateSheet`, on which a win is lost.
   */
  lemma RepeatedPlayersSheet(b: string, a: string)
    ensures CreateGroupRoute.CreatedSheet([b, a, b]) == [["Player", "Score"], [b, "0"], [a, "0"], [b, "0"]]
  {
    var players := [b, a, b];
    CreateGroupRoute.CreatedSheetRows(players);
    var rows := CreateGroupRoute.CreatedSheet(players);
    assert players[0] == b && players[1] == a && players[2] == b;
    FourRows(rows, ["Player", "Score"], [b, "0"], [a, "0"], [b, "0"]);
  }

  lemma FourRows(rows: seq<Row>, r0: Row, r1: Row, r2: Row, r3: Row)
    requires |rows| == 4 && rows[0] == r0 && rows[1] == r1 && rows[2] == r2 && rows[3] == r3
    ensures rows == [r0, r1, r2, r3]
  {
  }
}
