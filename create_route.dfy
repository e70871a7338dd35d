/**
 * `src/app/api/groups/create/route.ts`: creating a group. The code must be five ASCII letters or
 * digits and must not name an existing sheet once upper-cased; the route then adds the sheet
 * `Group_<CODE>`, writes the header row and one row per player with a score of 0.
 */
module CreateGroupRoute {
  import opened Wrappers
  import opened Gateway
  import opened Http
  import Strings
  import MatchRoute
  import SheetRows

  /** The JSON body: `groupCode` when it is a string, `players` when it is an array of strings. */
  datatype CreateRequest = CreateRequest(groupCode: Option<string>, players: Option<seq<string>>)

  const InvalidData: string := "Invalid group data"
  const InvalidFormat: string := "Group code must be exactly 5 characters (letters or numbers)"
  const CodeTaken: string := "Group code already exists"
  const CreateFailed: string := "Failed to create group"

  /** The title of the sheet a code names: `Group_${code.toUpperCase()}`. */
  function SheetTitle(code: string): string {
    MatchRoute.GroupSheet(Strings.ToUpper(code))
  }

  /**
   * `isGroupCodeUnique(code)`, making call `k`: true when the spreadsheet could be read and no
   * sheet has the code's title; a failing read counts as "not unique".
   */
  function IsGroupCodeUnique(ss: Spreadsheet, failing: set<nat>, k: nat, code: string): (unique: bool)
    ensures unique <==> k !in failing && SheetTitle(code) !in ss
  {
    match Call(ss, failing, k, GetSpreadsheet)
    case None => false
    case Some((reply, _)) => reply.SheetTitles? && SheetTitle(code) !in reply.titles
  }

  /** `Group_<CODE>!A1:B1`, where the header goes. */
  function HeaderRange(code: string): A1Range {
    A1Range(SheetTitle(code), 'A', Some(1), 'B', Some(1))
  }

  /** `Group_<CODE>!A2:B<n + 1>`, where the `n` player rows go. */
  function PlayersRange(code: string, n: nat): A1Range {
    A1Range(SheetTitle(code), 'A', Some(2), 'B', Some(n + 1))
  }

  /** The header row `[['Player', 'Score']]`. */
  const Header: seq<seq<Value>> := [[Chars("Player"), Chars("Score")]]

  /** `players.map(player => [player, 0])`. */
  function PlayerData(players: seq<string>): (vs: seq<seq<Value>>)
    ensures |vs| == |players|
    ensures forall i :: 0 <= i < |players| ==> vs[i] == [Chars(players[i]), Number(0)]
  {
    seq(|players|, i requires 0 <= i < |players| => [Chars(players[i]), Number(0)])
  }

  /** The new sheet after the header write. */
  function HeaderOnly(): seq<Row> {
    Overwrite([], 0, Header)
  }

  /** The new sheet after both writes. */
  function CreatedSheet(players: seq<string>): seq<Row> {
    Overwrite(HeaderOnly(), 1, PlayerData(players))
  }

  /** The request passes `!groupCode || !players || !Array.isArray(players) || players.length < 2`. */
  predicate HasGroupData(req: CreateRequest) {
    req.groupCode.Some? && req.groupCode.value != "" && req.players.Some? && |req.players.value| >= 2
  }

  /** The request has group data and its code matches `^[a-zA-Z0-9]{5}$`. */
  predicate WellFormed(req: CreateRequest) {
    HasGroupData(req) && Strings.IsAlphanumericCode(req.groupCode.value)
  }

  /**
   * `POST /api/groups/create`. Call 0 is the uniqueness check, call 1 adds the sheet, call 2
   * writes the header, call 3 the players. Nothing is rolled back: a failing call leaves what
   * the calls before it did.
   */
  method Post(req: CreateRequest, ss: Spreadsheet, failing: set<nat>) returns (resp: Response, after: Spreadsheet)
    ensures resp.status == 400 || resp.status == 500 || resp.status == 200
    ensures resp == BadRequest(InvalidData) <==> !HasGroupData(req)
    ensures resp == BadRequest(InvalidFormat) <==> HasGroupData(req) && !Strings.IsAlphanumericCode(req.groupCode.value)
    ensures resp == BadRequest(CodeTaken) <==> WellFormed(req) && !IsGroupCodeUnique(ss, failing, 0, req.groupCode.value)
    ensures resp.status == 400 ==> after == ss
    ensures resp.status != 400 ==>
              WellFormed(req) && 0 !in failing && SheetTitle(req.groupCode.value) !in ss
    ensures resp.status == 500 <==>
              WellFormed(req) && IsGroupCodeUnique(ss, failing, 0, req.groupCode.value)
              && (1 in failing || 2 in failing || 3 in failing)
    ensures resp.status == 500 ==>
              var title := SheetTitle(req.groupCode.value);
              && resp == Response(500, Error(CreateFailed))
              && (1 in failing ==> after == ss)
              && (1 !in failing && 2 in failing ==> after == ss[title := []])
              && (1 !in failing && 2 !in failing ==> after == ss[title := HeaderOnly()])
    ensures resp.status == 200 <==>
              WellFormed(req) && IsGroupCodeUnique(ss, failing, 0, req.groupCode.value)
              && 1 !in failing && 2 !in failing && 3 !in failing
    ensures resp.status == 200 ==>
              && resp.body == GroupCreated(Strings.ToUpper(req.groupCode.value))
              && after == ss[SheetTitle(req.groupCode.value) := CreatedSheet(req.players.value)]
  {
    if req.groupCode.None? || req.groupCode.value == "" || req.players.None? || |req.players.value| < 2 {
      return BadRequest(InvalidData), ss;
    }
    var code, players := req.groupCode.value, req.players.value;
    if !Strings.IsAlphanumericCode(code) {
      return BadRequest(InvalidFormat), ss;
    }
    var isUnique := IsGroupCodeUnique(ss, failing, 0, code);
    if !isUnique {
      return BadRequest(CodeTaken), ss;
    }
    var created, afterCreate := CreateSheet(ss, failing, code, players);
    if !created {
      return Response(500, Error(CreateFailed)), afterCreate;
    }
    return Response(200, GroupCreated(Strings.ToUpper(code))), afterCreate;
  }

  /**
   * Calls 1 to 3 of the route: add the sheet, write the header, write the players. A failing
   * call stops the rest and leaves what the calls before it did.
   */
  method CreateSheet(ss: Spreadsheet, failing: set<nat>, code: string, players: seq<string>)
    returns (ok: bool, after: Spreadsheet)
    requires SheetTitle(code) !in ss
    ensures ok <==> 1 !in failing && 2 !in failing && 3 !in failing
    ensures ok ==> after == ss[SheetTitle(code) := CreatedSheet(players)]
    ensures 1 in failing ==> after == ss
    ensures 1 !in failing && 2 in failing ==> after == ss[SheetTitle(code) := []]
    ensures 1 !in failing && 2 !in failing && 3 in failing ==> after == ss[SheetTitle(code) := HeaderOnly()]
  {
    var title := SheetTitle(code);
    var added := Call(ss, failing, 1, AddSheet(title));
    if added.None? {
      return false, ss;
    }
    assert added.value.1 == ss[title := []];
    var headerWrite := UpdateValues(HeaderRange(code), Header);
    assert StartIndex(headerWrite.range) == 0 && Fits(headerWrite.range, |Header|);
    assert Exec(added.value.1, headerWrite) == Some((Done, ss[title := []][title := HeaderOnly()]));
    var headed := Call(added.value.1, failing, 2, headerWrite);
    if headed.None? {
      return false, added.value.1;
    }
    var playerData := PlayerData(players);
    var playersWrite := UpdateValues(PlayersRange(code, |playerData|), playerData);
    assert StartIndex(playersWrite.range) == 1 && Fits(playersWrite.range, |playerData|);
    assert headed.value.1 == ss[title := HeaderOnly()];
    assert Exec(headed.value.1, playersWrite) == Some((Done, ss[title := HeaderOnly()][title := CreatedSheet(players)]));
    var filled := Call(headed.value.1, failing, 3, playersWrite);
    if filled.None? {
      return false, headed.value.1;
    }
    return true, filled.value.1;
  }

  /**
   * Both writes go to the sheet of the upper-cased code: the header range holds exactly the one
   * header row, and the players range exactly the `n` player rows, starting below the header.
   */
  lemma CreateRangesExact(code: string, n: nat)
    ensures HeaderRange(code).sheet == PlayersRange(code, n).sheet == MatchRoute.GroupSheet(Strings.ToUpper(code))
    ensures StartIndex(HeaderRange(code)) == 0 && Fits(HeaderRange(code), 1) && !Fits(HeaderRange(code), 2)
    ensures StartIndex(PlayersRange(code, n)) == 1 && Fits(PlayersRange(code, n), n) && !Fits(PlayersRange(code, n), n + 1)
  {
  }

  /** The header write leaves a single row: `Player`, `Score`. */
  lemma HeaderOnlyRows()
    ensures HeaderOnly() == [["Player", "Score"]]
  {
    var w := WriteRow([], Header[0]);
    assert |w| == 2 && w[0] == "Player" && w[1] == "Score";
    assert w == ["Player", "Score"];
    assert HeaderOnly()[0] == w;
  }

  lemma ZeroRendering()
    ensures Strings.IntToString(0) == "0"
  {
    assert Strings.DigitChar(0) == '0';
  }

  /** A player row is the name and the score "0". */
  lemma PlayerRow(player: string)
    ensures WriteRow([], [Chars(player), Number(0)]) == [player, "0"]
  {
    ZeroRendering();
    var w := WriteRow([], [Chars(player), Number(0)]);
    assert |w| == 2 && w[0] == player && w[1] == "0";
  }

  /**
   * A created sheet holds the header row, then one row per player in the order given, each
   * with the player's name and the score "0".
   */
  lemma CreatedSheetRows(players: seq<string>)
    ensures |CreatedSheet(players)| == |players| + 1
    ensures CreatedSheet(players)[0] == ["Player", "Score"]
    ensures forall i :: 0 <= i < |players| ==> CreatedSheet(players)[i + 1] == [players[i], "0"]
  {
    HeaderOnlyRows();
    var after := CreatedSheet(players);
    forall i | 0 <= i < |players| ensures after[i + 1] == [players[i], "0"] {
      assert after[i + 1] == WriteRow([], [Chars(players[i]), Number(0)]);
      PlayerRow(players[i]);
    }
  }

  /** A player row reads back as the player's name with the score 0. */
  lemma PlayerEntry(player: string)
    ensures MatchRoute.GroupEntry([player, "0"]) == (Str(player), Some(0))
  {
    ZeroRendering();
    Strings.IntToStringRoundTrip(0);
    assert CellAt([player, "0"], 1) == Str("0");
  }

  /** Rows holding one `[name, "0"]` per player after a header read back as those players at 0. */
  lemma FreshEntries(rows: seq<Row>, players: seq<string>)
    requires |rows| == |players| + 1
    requires forall i :: 0 <= i < |players| ==> rows[i + 1] == [players[i], "0"]
    ensures var es := MatchRoute.GroupEntries(rows);
            && |es| == |players|
            && forall i :: 0 <= i < |players| ==> es[i] == (Str(players[i]), Some(0))
  {
    var es := MatchRoute.GroupEntries(rows);
    forall i | 0 <= i < |players| ensures es[i] == (Str(players[i]), Some(0)) {
      assert SheetRows.DataRows(rows)[i] == [players[i], "0"];
      PlayerEntry(players[i]);
    }
  }

  /** Read back, a created sheet lists every player, in order, at a score of 0. */
  lemma CreatedSheetEntries(players: seq<string>)
    ensures var es := MatchRoute.GroupEntries(CreatedSheet(players));
            && |es| == |players|
            && forall i :: 0 <= i < |players| ==> es[i] == (Str(players[i]), Some(0))
  {
    CreatedSheetRows(players);
    FreshEntries(CreatedSheet(players), players);
  }

  /** The code a created group answers with is its sheet's code: five characters, upper case. */
  lemma CreatedCodeShape(code: string)
    requires Strings.IsAlphanumericCode(code)
    ensures Strings.IsAlphanumericCode(Strings.ToUpper(code))
    ensures MatchRoute.GroupSheet(Strings.ToUpper(code)) == SheetTitle(code)
    ensures forall i :: 0 <= i < 5 ==> !('a' <= Strings.ToUpper(code)[i] <= 'z')
  {
    Strings.ToUpperProperties(code);
  }

  /** Codes differing only in case name the same group, so the second of them is refused. */
  lemma CaseInsensitiveUniqueness(ss: Spreadsheet, failing: set<nat>, k: nat, code: string)
    ensures IsGroupCodeUnique(ss, failing, k, code) == IsGroupCodeUnique(ss, failing, k, Strings.ToUpper(code))
    ensures SheetTitle(code) in ss ==> !IsGroupCodeUnique(ss, failing, k, Strings.ToUpper(code))
  {
    Strings.ToUpperProperties(code);
  }
}
