# golfrivals leaderboard bookkeeping, modelled in Dafny

golfrivals lets a group of friends record who won a golf match and keeps a leaderboard in a
Google spreadsheet. The spreadsheet has one sheet per group, `Group_<CODE>`, holding a header
row and one `[name, score]` row per player. The library variant has one `Rankings` sheet plus a
`MatchResults` audit log. This project models the logic around those sheets:

- recording a match in `src/lib/api/sheets.ts`: an audit row, then the `Map` fold that counts
  the win, adds missing losers at 0, and clears and rewrites the sheet;
- reading the leaderboard in the same file: rows parsed, stably sorted by score, highest first;
- the group variant of recording a match in `src/app/api/match/route.ts`: only the winner is
  counted, the whole `Map` is sorted and written over rows 2 to n+1, and nothing is cleared;
- group creation in `src/app/api/groups/create/route.ts`: checks in a fixed order, the
  case-insensitive uniqueness test, and the sheet the route writes;
- signing in to a group in `src/app/api/auth/verify/route.ts`;
- the match entry form in `src/components/match-form.tsx`: resizing, editing, validation and
  reset.

How things are modelled:

- A spreadsheet is a `map` from sheet title to rows, and a row is the list of cell texts.
- Each Sheets API call becomes a request run by `Gateway.Exec`.
- A handler numbers its calls 0, 1, 2, … and a set `failing` says which of them throw. This
  covers every mix of successful and failing calls.
- A JavaScript `Map` is a sequence of entries with distinct keys, in insertion order
  (`OrderedMap`): `set` on a present key keeps its place, and `set` on a new key appends it.
- `NaN` and `undefined` are `None`.
- `Array.prototype.sort` is a stable insertion sort. `Sorting.StableSortUnique` shows that, for
  a comparator that is the difference of integer keys, every stable sort gives the same result.
  The match route's comparator is of that kind only while no score is `NaN` (see "## Left out").

The model follows the code where it departs from the application's intended design:

- The group match route does not add losers to the table, and it accepts any number of
  players from two up. The intended design inserts losers at 0 and caps a match at four.
- No route rejects repeated or empty player names; only the form does.
- The sign-in route accepts only five digits and compares the sheet title without
  upper-casing. The create route accepts letters and upper-cases them. `Workflow.LetterCodeNeverSignsIn`
  shows that a group whose code has a letter can never be signed in to.
- `updateRankings` writes the table back in `Map` insertion order, not sorted by score.

## Model

| member | source | states |
|---|---|---|
| Strings.TrimStart | src/components/match-form.tsx:45 | drops exactly the leading white space: it returns a suffix that starts with a non-white character, and everything it drops is white space |
| Strings.TrimEnd | src/components/match-form.tsx:45 | drops exactly the trailing white space, in the same sense |
| Strings.Trim | src/components/match-form.tsx:45 | `s.trim()`; specified by `Strings.TrimIsSlice`, `Strings.TrimEnds` and `Strings.TrimEmptyIffBlank` |
| Strings.TrimIsSlice | src/components/match-form.tsx:52 | `trim` returns a contiguous slice of its input |
| Strings.TrimEnds | src/components/match-form.tsx:52 | what `trim` returns is empty, or starts and ends with a non-white character |
| Strings.TrimEmptyIffBlank | src/components/match-form.tsx:45 | `!player.trim()` holds exactly when every character is white space |
| Strings.ToUpper | src/app/api/groups/create/route.ts:49 | `toUpperCase` keeps the length and upper-cases each ASCII letter in place |
| Strings.ToUpperProperties | src/app/api/groups/create/route.ts:99 | upper-casing keeps a valid code valid, keeps letters letters, leaves no lower-case letter, is idempotent, and fixes a digit code |
| Strings.IsAlphanumericCode | src/app/api/groups/create/route.ts:75 | `/^[a-zA-Z0-9]{5}$/.test`; related to the other pattern by `Strings.DigitCodeIsAlphanumeric` |
| Strings.IsDigitCode | src/app/api/auth/verify/route.ts:20 | `/^\d{5}$/.test`; related to the other pattern by `Strings.DigitCodeIsAlphanumeric` |
| Strings.DigitCodeIsAlphanumeric | src/app/api/auth/verify/route.ts:20 | every code the sign-in pattern accepts also passes the create pattern; a code with a letter never passes the sign-in pattern |
| Strings.DigitPrefixLength | src/lib/api/sheets.ts:88 | the length of the longest run of digits at the start: all digits up to it, a non-digit (or the end) at it |
| Strings.ParseInt | src/lib/api/sheets.ts:88 | `parseInt(s, 10)` is `NaN` exactly when no digit follows the leading white space and an optional sign |
| Strings.ParseIntOf | src/lib/api/sheets.ts:88 | for any white space, optional sign, non-empty digit run and a rest that does not start with a digit, `parseInt` gives the run's decimal value, negated after `-` |
| Strings.IntToString | src/app/api/groups/create/route.ts:118 | a number written to a cell renders as a non-empty text starting with a sign or a digit |
| Strings.IntToStringRoundTrip | src/app/api/match/route.ts:41 | parsing the text a written integer renders as gives that integer back |
| Gateway.CellAt | src/lib/api/sheets.ts:87 | `row[i]` is a string exactly when `i` is within the row, otherwise `undefined` |
| Gateway.WriteRow | src/app/api/match/route.ts:58 | writing values over a row replaces the first cells, keeps the cells past them, and a `null` value leaves its cell as it was |
| Gateway.Overwrite | src/app/api/match/route.ts:55-62 | writing n rows from row `at` replaces exactly those rows, keeps every other row, and extends the sheet only as far as the write |
| Gateway.Exec | src/app/api/groups/create/route.ts:39-126 | a read changes nothing; a write changes only the sheet it names; adding a sheet fails exactly when the title is taken; a read returns the sheet's rows or the titles |
| SheetRows.DataRows | src/lib/api/sheets.ts:86 | `rows.slice(1)`: every row after the header, nothing for an empty sheet |
| SheetRows.NameRoundTrip | src/app/api/match/route.ts:41 | a name written in column A reads back as that name |
| SheetRows.ScoreRoundTrip | src/app/api/match/route.ts:41 | a score written in column B parses back as that integer |
| OrderedMap.FirstIndex | src/lib/api/sheets.ts:116-118 | the position of the first occurrence, less than the length exactly when the element occurs |
| OrderedMap.DedupMembers | src/lib/api/sheets.ts:116-118 | dropping repeats keeps exactly the elements of the input |
| OrderedMap.DedupSnoc | src/lib/api/sheets.ts:116-118 | one element more: seen already, nothing changes; new, it goes last |
| OrderedMap.DedupOrder | src/lib/api/sheets.ts:131 | the kept elements are ordered by where they first occur in the input |
| OrderedMap.DedupDistinct | src/lib/api/sheets.ts:131 | a sequence without repeats is kept as it is |
| OrderedMap.Keys | src/lib/api/sheets.ts:131 | the keys of the entries, in entry order |
| OrderedMap.Get | src/lib/api/sheets.ts:121 | `map.get(k)` is defined exactly when `map.has(k)` |
| OrderedMap.GetEntry | src/lib/api/sheets.ts:121 | in a `Map`, looking up an entry's key finds that entry's value |
| OrderedMap.SetKeys | src/lib/api/sheets.ts:121 | `set` keeps a `Map` a `Map`; a present key keeps its place, a new key goes last |
| OrderedMap.SetDedup | src/lib/api/sheets.ts:117 | on a `Map` keyed by the distinct elements of `xs`, `set(k, v)` gives the `Map` keyed by the distinct elements of `xs + [k]` |
| OrderedMap.SetGet | src/lib/api/sheets.ts:121 | after `set(k, v)`, `k` maps to `v` and every other key to what it mapped to before |
| OrderedMap.Set | src/lib/api/sheets.ts:121 | `Map.prototype.set`; specified by `OrderedMap.SetKeys`, `OrderedMap.SetGet` and `OrderedMap.SetSpec` |
| OrderedMap.SetSpec | src/app/api/match/route.ts:47 | `set` on every key at once: order of keys, the new value, every other value unchanged |
| OrderedMap.LastValue | src/lib/api/sheets.ts:116-118 | the value of the last entry with a key is defined exactly when some entry has that key |
| OrderedMap.LastValueUniform | src/app/api/match/route.ts:40-42 | when every entry with key `k` holds `v`, the last one does too |
| OrderedMap.LastValueAgree | src/app/api/match/route.ts:40-42 | entries that agree on their values, and on which of them have key `k`, agree on `k`'s last value |
| OrderedMap.LastValuePermutedMap | src/app/api/match/route.ts:50-52 | in any rearrangement of a `Map`'s entries, the last entry with key `k` holds `get(k)` |
| OrderedMap.FromEntriesKeys | src/app/api/match/route.ts:40-42 | a `Map` built from entries has each key once, where it first occurs |
| OrderedMap.FromEntries | src/app/api/match/route.ts:40-42 | `new Map(entries)`, and the `forEach` of `set` calls in sheets.ts:116-118; specified by `OrderedMap.FromEntriesSpec` |
| OrderedMap.FromEntriesGet | src/app/api/match/route.ts:40-42 | in a `Map` built from entries, each key holds the value of the last entry naming it |
| OrderedMap.FromEntriesSpec | src/lib/api/sheets.ts:116-118 | the two facts above together, for every key |
| OrderedMap.FromEntriesOfMap | src/app/api/match/route.ts:40-42 | a `Map` rebuilt from its own entries is itself |
| Sorting.Insert | src/lib/api/sheets.ts:92 | inserting adds exactly one element to the multiset |
| Sorting.SortWith | src/lib/api/sheets.ts:92 | `sort` returns a permutation of its input |
| Sorting.InsertSorted | src/lib/api/sheets.ts:92 | inserting into a sequence sorted by a key comparator keeps it sorted |
| Sorting.InsertFilter | src/lib/api/sheets.ts:92 | an inserted element lands before every element of its own key, which is what keeps equal keys in input order when the head is inserted into the sorted tail |
| Sorting.SortWithSpec | src/app/api/match/route.ts:52 | with a comparator `key(b) - key(a)` the result is non-increasing by key, and elements of equal key keep their order |
| Sorting.StableSortUnique | src/lib/api/sheets.ts:92 | two sequences sorted by key that agree on the order within each key are equal, so the stable sort's result is unique |
| RankingsTable.WinKeys | src/lib/api/sheets.ts:121 | counting the win keeps a `Map` a `Map`; a listed winner keeps its place, a new one goes last |
| RankingsTable.WithWinner | src/lib/api/sheets.ts:121 | the winner's `set` to its old score, or 0, plus one; specified by `RankingsTable.WinKeys` and `RankingsTable.WinGet` |
| RankingsTable.WinGet | src/lib/api/sheets.ts:121 | counting the win gives the winner its old score plus one, 0 standing for a missing one, and changes no other key |
| RankingsTable.AddMissingIsMap | src/lib/api/sheets.ts:124-128 | adding missing losers keeps a `Map` a `Map` |
| RankingsTable.AddMissing | src/lib/api/sheets.ts:124-128 | the losers' `has`/`set` loop; specified by `RankingsTable.AddMissingMap` and `RankingsTable.AddMissingKeys` |
| RankingsTable.AddMissingGet | src/lib/api/sheets.ts:124-128 | an absent loser gets 0; every key already present keeps its value; other keys stay absent |
| RankingsTable.AddMissingMap | src/lib/api/sheets.ts:124-128 | both facts above, for every key |
| RankingsTable.AddOneKeys | src/lib/api/sheets.ts:125-127 | one loser more: present, the table is unchanged; absent, it is appended |
| RankingsTable.AddMissingKeys | src/lib/api/sheets.ts:124-128 | new losers are appended once each, in argument order |
| RankingsTable.UpdatedKeys | src/lib/api/sheets.ts:113-128 | the built table names each sheet name, the winner and the losers once, in first-occurrence order |
| RankingsTable.Updated | src/lib/api/sheets.ts:113-128 | the whole `Map` built by `updateRankings`; specified by `RankingsTable.UpdatedKeys` and `RankingsTable.UpdatedGet` |
| RankingsTable.CountedGet | src/lib/api/sheets.ts:121-128 | on any `Map`: the winner ends with old + 1, a loser with its old score or 0, any other key unchanged |
| RankingsTable.UpdatedGet | src/lib/api/sheets.ts:113-128 | the same, measured against the last sheet row naming each key |
| SheetsApi.RankEntries | src/lib/api/sheets.ts:116-117 | one entry per data row, header skipped: `row[0]` and the parsed score, 0 when it is `NaN` |
| SheetsApi.CurrentTable | src/lib/api/sheets.ts:113-118 | the `Map` of the existing rankings; specified by `SheetsApi.CurrentTableSpec` |
| SheetsApi.UpdatedTable | src/lib/api/sheets.ts:113-128 | the `Map` after the winner and losers are counted; specified by `SheetsApi.UpdatedTableFacts`, `SheetsApi.UpdatedTableScores` and `SheetsApi.UpdatedTableOrder`, and computed by `SheetsApi.BuildRankings` |
| SheetsApi.CurrentTableSpec | src/lib/api/sheets.ts:113-118 | the `Map` read from the sheet has each row name once, in first-row order, with the score of its last row |
| SheetsApi.UpdatedTableFacts | src/lib/api/sheets.ts:113-131 | the updated table's keys, and the value of every key, in terms of the sheet rows |
| SheetsApi.UpdatedTableScores | src/lib/api/sheets.ts:117-128 | winner: old score plus one (missing or unparseable counting 0); each loser: its old score, or 0 if new; every other name: unchanged |
| SheetsApi.UpdatedTableOrder | src/lib/api/sheets.ts:116-131 | the written table has distinct names: existing names in first-row order, then the winner if new, then new losers in argument order |
| SheetsApi.BuildRankings | src/lib/api/sheets.ts:112-128 | the loops over rows and losers build exactly the updated table |
| SheetsApi.TableValues | src/lib/api/sheets.ts:131 | one `[name, score]` value row per table entry, in table order |
| SheetsApi.ClearBody | src/lib/api/sheets.ts:134-137 | clearing `A2:B` leaves only the header row, or fails and changes nothing |
| SheetsApi.WriteBody | src/lib/api/sheets.ts:139-146 | the write puts the table from row 2 on, or fails and changes nothing |
| SheetsApi.UpdateRankings | src/lib/api/sheets.ts:101-147 | succeeds exactly when `Rankings` exists and its three calls succeed, then holds the header plus the updated table; a missing sheet, a failed read or a failed clear changes nothing; a failed write leaves the sheet cleared to its header |
| SheetsApi.AuditRowShape | src/lib/api/sheets.ts:55-60 | the audit row is the timestamp, every player in order (winner first), then the player count: two cells more than there are players |
| SheetsApi.AuditRow | src/lib/api/sheets.ts:55-60 | the appended audit row; specified by `SheetsApi.AuditRowShape` |
| SheetsApi.Logged | src/lib/api/sheets.ts:50-62 | appending the audit row keeps the set of sheets and every sheet other than `MatchResults` |
| SheetsApi.AppendAudit | src/lib/api/sheets.ts:50-62 | the append succeeds exactly when `MatchResults` exists and the call succeeds; on failure nothing changes |
| SheetsApi.RecordedSpec | src/lib/api/sheets.ts:37-71 | a recorded match appends its audit row, rewrites `Rankings` from its old rows, and leaves every other sheet |
| SheetsApi.RecordMatchResult | src/lib/api/sheets.ts:37-71 | fewer than 2 or more than 4 players throw before any write (winner `players[0]`, losers `players[1..]`); otherwise success exactly when all four calls succeed, and any failure throws the generic error; the state after each failing call is exact: nothing when the append fails, the audit row when the read or clear fails, the audit row and a cleared `Rankings` when the write fails |
| SheetsApi.ParseRankings | src/lib/api/sheets.ts:83-89 | one ranking per data row: `row[0]` and the parsed score, 0 when unparseable |
| SheetsApi.GetRankingsSpec | src/lib/api/sheets.ts:74-98 | fails only when the read does; otherwise a permutation of the parsed rows, non-increasing by score, equal scores in sheet order, empty for a sheet of at most a header |
| SheetsApi.GetRankings | src/lib/api/sheets.ts:74-98 | the rankings read from `Rankings` and sorted, or the generic error when the read fails; specified by `SheetsApi.GetRankingsSpec` |
| MatchRoute.GroupEntries | src/app/api/match/route.ts:41 | one `[row[0], parseInt(row[1])]` entry per data row, `NaN` kept |
| MatchRoute.CurrentScores | src/app/api/match/route.ts:40-42 | `currentRankings` as read; specified through `OrderedMap.FromEntriesSpec` in `MatchRoute.CountedSpec` |
| MatchRoute.RowValues | src/app/api/match/route.ts:50-51 | one `[name, score]` value row per entry, `NaN` and `undefined` sent as `null` |
| MatchRoute.Post | src/app/api/match/route.ts:15-72 | "Group code is required" exactly when the code is missing, "At least 2 players are required" exactly when the code is there and the players are missing or fewer than 2; both with nothing read; 500 "Failed to update match results" exactly when the data is valid and the sheet is missing or a call fails, with no change; 200 exactly when the sheet exists and both calls succeed, with only rows 2 to n+1 of `Group_<code>` rewritten, to the sorted counted `Map` (`MatchRoute.UpdateData`, which the helper method `MatchRoute.Tally` computes step by step) |
| MatchRoute.UpdateRangeExact | src/app/api/match/route.ts:57 | `A2:B<n+1>` starts below the header and holds n rows and no more |
| MatchRoute.CountedSpec | src/app/api/match/route.ts:40-47 | the counted `Map` has each sheet name once, then the winner if new, and no loser is added; winner at old + 1, every other name at its last row's score, `NaN` included |
| MatchRoute.CountedWinner | src/app/api/match/route.ts:45-47 | the winner's entry in the counted `Map` is its old score plus one |
| MatchRoute.Counted | src/app/api/match/route.ts:45-47 | the `Map` after `set(winner, currentScore + 1)`; specified by `MatchRoute.CountedSpec` and `MatchRoute.CountedWinner` |
| MatchRoute.WinnerScoreSpec | src/app/api/match/route.ts:46 | the winner's old score is the last parsed score of its rows, 0 when it has none or it is `NaN` |
| MatchRoute.WinnerScore | src/app/api/match/route.ts:46 | the winner's `get`, or 0 when that is missing or `NaN`; specified by `MatchRoute.WinnerScoreSpec` |
| MatchRoute.UpdateDataSpec | src/app/api/match/route.ts:50-52 | what is written is a permutation of the counted `Map`; when no score is `NaN` it is non-increasing, with ties in `Map` order |
| MatchRoute.ByScore | src/app/api/match/route.ts:52 | the comparator `b[1] - a[1]`, with a `NaN` difference as 0; used by `MatchRoute.UpdateDataSpec` |
| MatchRoute.UpdateData | src/app/api/match/route.ts:50-52 | `updateData`, the sorted entries; specified by `MatchRoute.UpdateDataSpec` |
| MatchRoute.ReadBackRow | src/app/api/match/route.ts:55-62 | a written row reads back as its entry, an `undefined` name as the empty string |
| MatchRoute.WrittenEntries | src/app/api/match/route.ts:55-62 | entries written below at most a header read back as those entries, in order |
| MatchRoute.ClearedEntries | src/app/api/match/route.ts:55-62 | with a clear in front, the sheet reads back as exactly the written entries |
| MatchRoute.ClearedReadBackAt | src/app/api/match/route.ts:55-62 | with a clear in front, each non-empty name reads back with its counted score |
| MatchRoute.ClearedReadBack | src/app/api/match/route.ts:55-62 | the corrected write is faithful: every non-empty name reads back as in the counted `Map`, the winner with its old score plus one |
| MatchRoute.ClearedWritten | src/app/api/match/route.ts:55-62 | the group sheet after the corrected clear-then-write; specified by `MatchRoute.ClearedEntries` and `MatchRoute.ClearedReadBack` |
| MatchRoute.WrittenKeepsTail | src/app/api/match/route.ts:57 | rows below row n+1 are kept as they were |
| MatchRoute.Written | src/app/api/match/route.ts:55-62 | the group sheet after the route's write, as written; specified by `MatchRoute.WrittenKeepsTail`, `MatchRoute.StaleTail` and `MatchRoute.WrittenEntries` |
| MatchRoute.StaleTail | src/app/api/match/route.ts:55-62 | when the sheet has more data rows than the `Map` has entries, its last row survives, and the next read takes that row's score |
| MatchRoute.DuplicateSheetEntries | src/app/api/match/route.ts:41 | the example sheet parses to B, A, B, all at 0 |
| MatchRoute.RepeatedWinnerScore | src/app/api/match/route.ts:46 | a winner listed twice at 0 has old score 0 |
| MatchRoute.CountedRepeatedSize | src/app/api/match/route.ts:40-47 | such a sheet gives a counted `Map` of two entries |
| MatchRoute.DuplicateSheetCounted | src/app/api/match/route.ts:40-47 | on the example sheet, B wins and the counted `Map` has two entries, B at 1 |
| MatchRoute.StaleRowLosesWin | src/app/api/match/route.ts:55-62 | on the example sheet the counted `Map` gives B 1, but reading back gives B 0; with a clear in front it gives 1 |
| CreateGroupRoute.IsGroupCodeUnique | src/app/api/groups/create/route.ts:32-61 | unique exactly when the spreadsheet read succeeds and no sheet is titled `Group_` plus the upper-cased code |
| CreateGroupRoute.PlayerData | src/app/api/groups/create/route.ts:118 | one `[player, 0]` row per player, in input order |
| CreateGroupRoute.Post | src/app/api/groups/create/route.ts:63-148 | checks in order, each answer exactly when its condition holds: "Invalid group data" when data is missing, the format error when the code is not five letters or digits, "Group code already exists" when the check says not unique; each 400 with nothing changed; 500 "Failed to create group" exactly when a valid, unique request has call 1, 2 or 3 failing, leaving what the earlier calls did; 200 exactly when all four calls succeed, with the upper-cased code and the new sheet |
| CreateGroupRoute.CreateSheet | src/app/api/groups/create/route.ts:91-126 | add the sheet, write the header, write the players: all three succeed and the sheet is complete, or it stops at the first failure with the earlier effects kept |
| CreateGroupRoute.CreateRangesExact | src/app/api/groups/create/route.ts:110-121 | both writes go to the upper-cased sheet; `A1:B1` holds exactly the header row, `A2:B<n+1>` exactly the n player rows |
| CreateGroupRoute.HeaderOnlyRows | src/app/api/groups/create/route.ts:108-115 | after the header write the sheet is the single row `Player`, `Score` |
| CreateGroupRoute.PlayerRow | src/app/api/groups/create/route.ts:118 | a player row is written as the name and the text `0` |
| CreateGroupRoute.CreatedSheetRows | src/app/api/groups/create/route.ts:107-126 | the created sheet is the header, then one `[player, "0"]` row per player in order |
| CreateGroupRoute.CreatedSheet | src/app/api/groups/create/route.ts:107-126 | the new group sheet; specified by `CreateGroupRoute.CreatedSheetRows` and `CreateGroupRoute.CreatedSheetEntries` |
| CreateGroupRoute.CreatedSheetEntries | src/app/api/groups/create/route.ts:118 | read back, a created sheet lists every player in order at 0 |
| CreateGroupRoute.CreatedCodeShape | src/app/api/groups/create/route.ts:132 | the returned code is the sheet's code: five characters, no lower-case letter |
| CreateGroupRoute.CaseInsensitiveUniqueness | src/app/api/groups/create/route.ts:48-50 | codes that differ only in case are equally unique, so a second group with such a code is refused |
| CreateGroupRoute.SheetTitle | src/app/api/groups/create/route.ts:99 | `Group_${groupCode.toUpperCase()}`; specified by `CreateGroupRoute.CreatedCodeShape` and `CreateGroupRoute.CaseInsensitiveUniqueness` |
| VerifyRoute.TestedText | src/app/api/auth/verify/route.ts:17-20 | the pattern sees the code; a missing code never passes |
| VerifyRoute.Post | src/app/api/auth/verify/route.ts:15-52 | 400 exactly when the code is not five digits; then 500 if the read fails; 404 exactly when `Group_<code>` is missing; otherwise 200. The spreadsheet is never changed |
| MatchForm.Blanks | src/components/match-form.tsx:63 | `Array(n).fill('')` is n empty names |
| MatchForm.Resized | src/components/match-form.tsx:29-35 | the names have the new count: the kept prefix unchanged, padding empty |
| MatchForm.Trimmed | src/components/match-form.tsx:52 | each name trimmed, in place |
| MatchForm.ElementsSize | src/components/match-form.tsx:52-53 | `new Set(s).size` equals `s.length` exactly when `s` has no repeats |
| MatchForm.ValidationSpec | src/components/match-form.tsx:44-57 | the "filled in" error exactly when some name is blank; the "unique" error exactly when all are filled and two are equal once trimmed; otherwise submission goes ahead |
| MatchForm.Validation | src/components/match-form.tsx:44-57 | the form's two checks; specified by `MatchForm.ValidationSpec` |
| MatchForm.MatchForm.constructor | src/components/match-form.tsx:13-17 | two empty names, count 2, not submitting, no error, no success |
| MatchForm.MatchForm.HandlePlayerChange | src/components/match-form.tsx:19-23 | for an index of a rendered input (below `playerCount`), the name at `index` becomes `value`; every other name and field is unchanged, and there is still one name per player |
| MatchForm.MatchForm.HandlePlayerCountChange | src/components/match-form.tsx:25-36 | the count becomes `count` and the names are resized to it |
| MatchForm.MatchForm.HandleSubmit | src/components/match-form.tsx:38-69 | `onSubmit` is called, with the untrimmed names, exactly when validation passes; a validation failure sets its error; success resets the names to blanks; a rejected promise sets the retry error; never left submitting |
| MatchForm.ResizeRoundTrip | src/components/match-form.tsx:29-35 | shrinking and growing back keeps the kept names and clears the rest |
| MatchForm.ResizeIdempotent | src/components/match-form.tsx:29-35 | the same count changes nothing, and resizing twice to one count is resizing once |
| MatchForm.SentNamesDistinct | src/components/match-form.tsx:44-60 | the names passed to `onSubmit` are pairwise different and non-empty, even untrimmed |
| Workflow.OverwriteCovers | src/app/api/match/route.ts:55-62 | when the write covers every data row with non-null values and no row is wider, it leaves what clearing first would |
| Workflow.NoStaleRows | src/app/api/match/route.ts:55-62 | when the counted `Map` has an entry for every data row, each named and scored, the route's write equals the corrected one |
| Workflow.FreshScoresMap | src/app/api/groups/create/route.ts:118 | distinct players make a created sheet's entries a `Map` already |
| Workflow.FreshSet | src/app/api/match/route.ts:46-47 | on fresh scores the first player reads 0, and setting it to 1 replaces the first entry |
| Workflow.FreshCounted | src/app/api/match/route.ts:40-47 | on fresh scores the counted `Map` is the sheet's entries with the winner at 1 |
| Workflow.CreatedCounted | src/app/api/groups/create/route.ts:118 | the same for the sheet the create route writes |
| Workflow.CreatedNoStale | src/app/api/match/route.ts:55-62 | the first match on a created sheet with distinct players writes no stale row |
| Workflow.FirstMatchAfterCreate | src/app/api/match/route.ts:15-72 | after creating a group and recording its first match, the winner reads 1, every other player 0, and no one else is listed |
| Workflow.LetterCodeNeverSignsIn | src/app/api/auth/verify/route.ts:20 | no code a user sends signs in to a group whose code has a letter |
| Workflow.DigitCodeSignsIn | src/app/api/auth/verify/route.ts:33-44 | a group created with a five-digit code can be signed in to with that code |
| Workflow.RepeatedPlayersSheet | src/app/api/groups/create/route.ts:118 | players `b, a, b` give a sheet listing `b` twice, the example sheet of the finding |

## Left out

- Building the Google Sheets client, its credentials and the environment-variable checks. The
  spreadsheet is a parameter, and a call that would throw is one whose number is in `failing`.
- The clock: `recordMatchResult` takes its timestamp as a parameter.
- JSON decoding of the request body. The model takes each field as absent (`None`) or as a string
  (or an array of strings), and does not capture these cases:
  - malformed JSON, where `request.json()` throws inside the `try` and every route answers 500;
  - a truthy non-string `groupCode` in the match route, which is not rejected and is interpolated
    into `Group_${groupCode}`;
  - a numeric `groupCode` in the create route, which passes the regular expression. Then
    `code.toUpperCase()` throws inside `isGroupCodeUnique`, its catch answers "not unique", and the
    route answers 400 "Group code already exists";
  - players that are not strings.
- `NextResponse` framing and console logging. A response is a status and a body. The create
  route's 500 body also carries a `details` field with the thrown error's message; the model's
  body is the `error` text alone, and `details` is not modelled.
- `src/app/api/rankings/route.ts`, the page components, `src/components/rankings.tsx` and
  `workers-site/index.js`: rendering, `fetch`, `localStorage` and asset serving.
- Strings.ParseInt: models integer parsing only. Precision loss beyond 2^53 is not modelled, and
  it reads the cell text as stored (see the `USER_ENTERED` line below).
- SheetsApi.AuditRow: the audit row (sheets.ts:53) and the rankings table of
  `SheetsApi.TableValues` (sheets.ts:142) are written with `USER_ENTERED`, so the Sheets API may
  store something other than the text sent: the ISO timestamp may become a date value, and a name
  that looks like a formula, a number or a date may become one. The model stores the text as sent.
  The group routes write with `RAW`, so their sheets are not affected.
- Strings.ToUpper: models ASCII upper-casing only. The routes apply it only to string codes that
  passed an ASCII pattern.
- Concurrent requests and their read-modify-write races: the model is sequential.
- Gateway.Exec: checks a write against the rows of its range only, not its columns. Every update
  in the routes writes two cells per row into an `A:B` range, so this matters only for the audit
  append (see the SheetsApi.AppendAudit line).
- SheetsApi.AppendAudit: the column bound of `MatchResults!A:E` is not modelled. The audit row has
  `|players| + 2` cells, so a four-player match sends six cells, one past column E. The model
  accepts that append. Whether the Sheets API rejects a value outside the range's columns on an
  append, as it does on an update, is not modelled.
- SheetsApi.RecordMatchResult: succeeds for a four-player match when every call succeeds, because
  the append's column bound is not modelled. If the Sheets API rejects the six-cell row, the source
  throws "Failed to record match result" for every four-player match, after nothing was written.
- Gateway.Exec: a stored row keeps every cell written to it, empty ones included, and a read
  returns the rows as stored. `values.get` leaves out trailing empty cells and trailing empty rows.
  A row written as `["", ""]` therefore reads back as `[]` inside the sheet, where `row[0]` is
  `undefined`, and not at all at its end. Only an entry with an empty or missing name and a `NaN`
  score can leave such a row. For every other row the two readings agree: a trailing empty score
  cell and a missing one both parse as `NaN`.
- SheetRows.NameRoundTrip: an empty name written with nothing after it reads back as `""` in the
  model. Because `values.get` drops trailing empty cells, the source reads that cell back as
  `undefined`.
- MatchRoute.ReadBackRow: an entry with an empty or missing name and a `NaN` score reads back as
  the name `""` in the model. The source reads it back as `undefined`, or not at all when it is the
  last row.
- MatchRoute.WrittenEntries: `|es| == |d|` holds in the model. In the source, a blank entry at the
  end of `d` (empty or missing name, `NaN` score) is dropped by `values.get`, and one inside `d`
  reads back with an `undefined` name.
- MatchRoute.ClearedEntries: the same gap as MatchRoute.WrittenEntries, for the clear-then-write.
  `MatchRoute.ClearedReadBack` covers only non-empty string names, so it is not affected.
- Gateway.Exec: resolves the sheet title of an A1 range by exact match, as a `map` key. Whether
  the Sheets API also accepts a title that differs only in case is not modelled; if it does, the
  match route with a lower-case code would reach `Group_<CODE>` where the model answers 500.
- MatchForm.MatchForm.HandlePlayerChange: requires one name per player and `index` below
  `playerCount`. The form renders one input per index below `playerCount`, and only those inputs
  call it. Writing past the end of a JavaScript array, which leaves holes, is not modelled.
- MatchForm.MatchForm.HandlePlayerCountChange: the count is a `nat`. The select offers 2 to 4, so
  negative or fractional counts cannot occur.
- React's batching of state updates and re-rendering. Each handler sees the state as the
  previous one left it. The `await` in `handleSubmit` is the parameter `resolves`.
- VerifyRoute.Post: a numeric `code` in the JSON body is taken as the text `String(code)` that the
  pattern test sees. A missing `code` is tested as `"undefined"` and fails.
- MatchRoute.Post: the model fixes the order of the rows written even when a score reads as `NaN`.
  A `NaN` score comes from an empty or non-numeric score cell. The comparator
  `(b[1] as number) - (a[1] as number)` is then not consistent, and ECMAScript leaves the order of
  `sort` implementation-defined. The model's `after` is the order its insertion sort produces
  (`MatchRoute.UpdateData`). Only the permutation half of `MatchRoute.UpdateDataSpec` holds for
  every engine; the sortedness half covers only scores without `NaN`.
- CreateGroupRoute.IsGroupCodeUnique: the read always returns the list of sheets. The
  "no sheets in the response" case, which answers "not unique", is the same as a failing read.

## Findings

| source | as written | input that shows it | evidently intended | confidence | as-written member | corrected member |
|---|---|---|---|---|---|---|
| src/app/api/match/route.ts:55-62 | the update writes the n entries of the `Map` over rows 2 to n+1 and does not clear the rows below | a group sheet `Player/Score, B/0, A/0, B/0` (the create route writes it for players B, A, B), and B wins: the `Map` has two entries, B at 1 and A at 0; rows 2 and 3 are rewritten, row 4 still says B 0, and the next read takes that row, so B has 0 again | clear `A2:B` before writing, as `updateRankings` in `src/lib/api/sheets.ts` does, so the sheet holds exactly the updated table | not executed | MatchRoute.StaleRowLosesWin | MatchRoute.ClearedReadBack |

The route's `Post` models the code as written. It writes with `MatchRoute.Written`, and
`MatchRoute.StaleTail` gives the general form of the failure. The corrected write is
`MatchRoute.ClearedWritten`, which `Workflow.FirstMatchAfterCreate` relies on.
`Workflow.NoStaleRows` and `Workflow.CreatedNoStale` show that the two writes agree when every
data row has its own entry in the `Map`, as on a new group with distinct players.
