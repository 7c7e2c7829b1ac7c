# picks — a Dafny model of the scraper and scoring core

`picks` runs a group's weekly NFL pick'em contest. It scrapes ESPN's
"Group Picks" grid (one table of entries, one of picks, several pages per
week, one drop-down option per week), builds a ledger of picks per team and
week, scores each week as *correct − 2 × incorrect*, and ranks the teams by
season total. A test script compares the result with ESPN's own standings
after normalising team names.

This project models that core in Dafny and proves properties of the model:

- `wrappers.dfy`, `text.dfy`, `html.dfy`: the Python string operations the
  code relies on (`str.isspace`, `strip`, `int()`, `split`, ASCII
  `lower`/`upper`), and the parsed page as BeautifulSoup presents it
  (tables, rows with `data-idx`, cells with classes, anchors and images).
- `models.dfy` (`espn/models.py`): the `Pick` value and the `Team` class with
  its per-week pick lists, counts, score and record text.
- `scoreboard.dfy` (`scoreboard/scoreboard.py`): the `Scoreboard` class, its
  week submission, and the ranking part of `render`.
- `pagination.dfy`: `_click_pagination_button`, `_go_to_first_page` and
  `_scrape_pages_for_week` of `espn/PickEmClient.py`. They run against a
  browser oracle, which is a function from a page state and an XPath to the
  page a click leads to.
- `weeks.dfy`: the week drop-down filtering and the week loop of
  `_scrape_all_weeks`.
- `extraction.dfy`: `_parse_soups`, `_parse_team_names` and `_parse_picks`
  as functions over the parsed pages. Each one stops at the first exception
  and records the state reached (`Run`).
- `client.dfy`: the `PickEmClient` class. Its methods change `Team` objects
  in place. Each method is proved equal to the matching function of
  `extraction.dfy`.
- `compare.dfy` (`tests/compare_picks_and_espn.py`): `normalize_key`,
  `compare_dictionaries`, and the W-L score of ESPN's standings.

Points where the model follows the code's exact behaviour:

- The rewind stops only once the click count exceeds 20. It can therefore
  click "prev" 21 times (`Pagination.Rewind`, `Pagination.EndlessRewind`).
- A pick that is both check-marked and on the week's tie list still counts
  as correct. Ties are only taken out of the incorrect count
  (`Models.PointsSum`, `Models.IncorrectExcludesTies`).
- The ranking is standard competition ranking. A total equal to the
  previous one shares its rank; any other total takes its 1-based position
  (`Scoreboard.RankAtIsCompetitionRank`, `Scoreboard.RankExample`).

## Model

| member | source | states |
|---|---|---|
| Models.NewPick | espn/models.py:4-7 | A `Pick` exists exactly when the cell has a first image with an `alt`. Its team is that `alt`. No image gives the `NoImage` error (the `TypeError`). |
| Models.IncorrectExcludesTies | espn/models.py:44-54 | The cross-marked picks are the counted incorrect picks plus the cross-marked ties. So the incorrect count never exceeds the number of cross-marks. |
| Models.ScoreSnoc | espn/models.py:41-62 | Appending a pick changes each count by that pick alone, and changes the score by exactly the pick's points. |
| Models.Score | espn/models.py:41-62 | The weekly score is the sum over the picks of +1 for a check mark and −2 for a counted cross mark. With n picks it lies in [−2n, n]. |
| Models.PointsSum | espn/models.py:41-62 | Correct − 2 × incorrect equals that sum of points. A check-marked tie still counts as correct. |
| Models.Count | espn/models.py:41-57 | A filtered pick count never exceeds the number of picks. |
| Models.CountMonotone | espn/models.py:44-57 | A narrower filter never counts more picks. |
| Models.EmptyWeek | espn/models.py:59-65 | A week without picks scores 0 and reads `(0-0-0)`. |
| Models.RecordText | espn/models.py:64-65 | The record is a parenthesised text of at least seven characters. |
| Models.ParseRecord | espn/models.py:64-65 | Only a parenthesised text of three dash-separated pieces reads back as three counts. |
| Models.RecordRoundTrip | espn/models.py:64-65 | The record text reads back as exactly its three counts. |
| Models.TieOverrideExample | espn/models.py:44-57 | With week 5's tie list `{DAL}`, a cross-marked DAL pick counts as a tie and is neither incorrect nor correct. |
| Models.EmptyWeeks | espn/models.py:31-33 | The initial ledger holds exactly weeks 1..18, each empty. |
| Models.Team.constructor | espn/models.py:28-33 | Sets the name and owner, and every week 1..18 starts empty. |
| Models.Team.AddWeeklyPick | espn/models.py:35-36 | Appends to that week's list only. A week outside the ledger is a `KeyError` and changes nothing. |
| Models.Team.WeeklyPicks | espn/models.py:38-39 | Defined exactly for weeks 1..18. |
| Models.Team.WeeklyScore | espn/models.py:59-62 | Defined exactly for weeks 1..18. The score is the sum of the week's pick points (correct − 2 × incorrect), bounded by the week's number of picks. |
| Models.Team.WeeklyRecord | espn/models.py:64-65 | Defined exactly for weeks 1..18. It parses back to the week's correct, incorrect and tie counts. |
| Scoreboard.Dedup | scoreboard/scoreboard.py:11-14 | Lists each team name once, in first-appearance order (the dict's key order). |
| Scoreboard.Scoreboard.constructor | scoreboard/scoreboard.py:6-18 | Creates one entry per distinct name, with 18 zero score slots and 18 unset record slots. |
| Scoreboard.Scoreboard.SubmitTeamWeek | scoreboard/scoreboard.py:58-62 | Writes the team's week score and record into slot `week − 1` and nowhere else. An unknown team or week raises and changes nothing. |
| Scoreboard.SumUpdate | scoreboard/scoreboard.py:23 | Overwriting one weekly slot moves the season total by exactly the difference. |
| Scoreboard.SumZeros | scoreboard/scoreboard.py:14 | A new team's season total is 0. |
| Scoreboard.Scoreboard.Totals | scoreboard/scoreboard.py:21-23 | Gives each team, in key order, with the sum of its 18 weekly scores. |
| Scoreboard.SortDesc | scoreboard/scoreboard.py:26-31 | The sort returns a permutation of the team totals, highest total first. |
| Scoreboard.SortDescKeepsSorted | scoreboard/scoreboard.py:26-31 | Totals already highest first come back unchanged. |
| Scoreboard.SortDescStable | scoreboard/scoreboard.py:26-31 | Teams with equal totals keep their key order (Python's sort is stable). |
| Scoreboard.CountAbovePermutation | scoreboard/scoreboard.py:26-42 | The number of totals above a value does not depend on the teams' order. So the rank depends only on the totals. |
| Scoreboard.RankAt | scoreboard/scoreboard.py:34-42 | The loop's rank at position i lies between 1 and i + 1. |
| Scoreboard.RankAtShared | scoreboard/scoreboard.py:37-42 | A team shares the previous rank if and only if its total equals the previous total. Otherwise its rank is its 1-based position. |
| Scoreboard.RankAtIsCompetitionRank | scoreboard/scoreboard.py:34-42 | On totals sorted highest first, the rank is 1 + the number of strictly higher totals. |
| Scoreboard.RankSorted | scoreboard/scoreboard.py:34-42 | The ranking loop keeps each team and total in order and gives the loop's rank. On a sorted list, that is the competition rank. |
| Scoreboard.RankedTotals | scoreboard/scoreboard.py:21-42 | The standings list every team total, highest first. Each team is ranked 1 + the number of teams with a higher total. |
| Scoreboard.SortedMembers | scoreboard/scoreboard.py:26-31 | Every sorted entry is one of the team totals. |
| Scoreboard.SortedRanks | scoreboard/scoreboard.py:34-42 | The loop's rank over the sorted totals counts the teams with a strictly higher total. |
| Scoreboard.Scoreboard.Standings | scoreboard/scoreboard.py:21-42 | Gives every team once, ordered by the stable descending sort of the season totals. Each total is the sum of that team's weekly scores, and each rank is 1 + the number of higher totals. |
| Scoreboard.RankExample | scoreboard/scoreboard.py:26-42 | Totals 10, 10, 7, 7, 3 rank 1, 1, 3, 3, 5. |
| Pagination.XPaths | espn/PickEmClient.py:440-449 | Five patterns per direction, in the order the source tries them. |
| Pagination.FirstMatch | espn/PickEmClient.py:470-528 | No page is reached exactly when no pattern finds a button. |
| Pagination.FirstMatchWins | espn/PickEmClient.py:470-528 | A click happens exactly when some pattern finds a button. It goes through the first such pattern. |
| Pagination.ClickPaginationButton | espn/PickEmClient.py:435-546 | Returns true and the page reached through the first pattern that finds a button. Otherwise it returns false and the page is unchanged. |
| Pagination.Rewind | espn/PickEmClient.py:394-407 | The rewind makes at most 21 clicks. It stops before the cap only on a page where "prev" cannot be clicked. |
| Pagination.RewindTrajectory | espn/PickEmClient.py:394-407 | Every click of the rewind succeeds, and it ends on the page those "prev" clicks reach from the start. When it stops before the cap, one more click fails. So the count is the number of clicks before the first failing one, or 21. |
| Pagination.GoToFirstPage | espn/PickEmClient.py:394-407 | The rewinding loop reaches the page the rewind function gives, with at most 21 clicks. Below the cap, "prev" cannot be clicked on the page it reaches. |
| Pagination.EndlessRewind | espn/PickEmClient.py:399-406 | On a site where "prev" always works, the rewind stops at the cap after 21 clicks. |
| Pagination.Walk | espn/PickEmClient.py:303-323 | The walk processes at most 50 pages and keeps at most one grid per page. No kept grid is empty. |
| Pagination.WalkTrajectory | espn/PickEmClient.py:303-323 | Every page the walk processes is reached from the start by clicking "next". The grids are the non-empty captures of those pages, in page order. The walk ends on the last of them when its "next" fails, or, at page 50, on the page that click leads to. |
| Pagination.KeptAlongCons | espn/PickEmClient.py:304-318 | The captures along the way from a page are that page's capture followed by the captures along the way from the page its click leads to. |
| Pagination.WalkStops | espn/PickEmClient.py:315-317 | The walk ends on a page where "next" cannot be clicked, keeping that page's grid. |
| Pagination.WalkCapped | espn/PickEmClient.py:318-323 | After page 50 the walk ends, left on the page the last click led to. |
| Pagination.WalkContinues | espn/PickEmClient.py:304-318 | Otherwise the walk keeps this page's grid and goes on from the next page. |
| Pagination.WalkPages | espn/PickEmClient.py:303-323 | The capture-and-click loop gives exactly the walk from page 1. |
| Pagination.ScrapePagesForWeek | espn/PickEmClient.py:295-326 | Rewinds, then walks. It keeps only non-empty grids, at most one per page, over 1..50 pages. |
| Pagination.ThreePages | espn/PickEmClient.py:295-326 | A three-page week whose second page captures as empty keeps the first and third grids in that order, processes three pages and ends on the third page. |
| Pagination.EndlessWalk | espn/PickEmClient.py:318-323 | When "next" always works, the walk stops at page 50 with one grid per page. |
| Weeks.WeekLabelRoundTrip | espn/PickEmClient.py:138-140 | The label `Week N` parses as week N. |
| Weeks.WeekOfLabel | espn/PickEmClient.py:140 | The result is `int()` of the lower-cased label's text after the last `week ` (or of the whole label when there is none), whether that gives a number or the `ValueError`. A number is always read from after some occurrence of `week ` or from the whole label. |
| Weeks.WeekLabelDigits | espn/PickEmClient.py:140 | `Week ` followed by any run of digits reads as the value of those digits. |
| Weeks.Choice | espn/PickEmClient.py:138-142 | An option yields `(n, value)` exactly when its label parses to n and n is the requested week, if any. |
| Weeks.AvailableWeeksMembership | espn/PickEmClient.py:137-145 | A week is selected exactly when some option's label parses to it and it is the requested week, if any. |
| Weeks.AvailableWeeksSkipsBadLabel | espn/PickEmClient.py:139-145 | A label that does not parse is skipped, and the options around it are unaffected. |
| Weeks.AvailableWeeks | espn/PickEmClient.py:137-145 | At most one entry per option. Each entry is the value of an option whose label reads as that week and that matches the requested week, if any. |
| Weeks.OtherWeekNotChosen | espn/PickEmClient.py:141 | An option for another week than the requested one is not chosen. |
| Weeks.FilterWeekOptions | espn/PickEmClient.py:135-145 | The option loop keeps the selected options in order. With a requested week, it keeps only that week. |
| Weeks.Put | espn/PickEmClient.py:164 | After assigning `v` to key `k`, some item is `(k, v)`. An existing key keeps the length and a new key is appended. Every key keeps its place, other keys keep their values, and keys stay unique. |
| Weeks.InitialWeeks | espn/PickEmClient.py:98 | Keys 0..18 in order, all empty. |
| Weeks.InitialWeeksEmpty | espn/PickEmClient.py:98 | Every week 0..18 is a key and every value is empty. |
| Weeks.ParseGrids | espn/PickEmClient.py:236-238 | Parses every captured grid, in order. |
| Weeks.ScrapeSingleWeek | espn/PickEmClient.py:171-245 | Gives no snapshots when the week's page cannot be reached. Otherwise it gives the parsed grids of that week's pages. |
| Weeks.WeekSnapshots | espn/PickEmClient.py:171-245 | At most 50 snapshots, and none when the week's page cannot be reached. |
| Weeks.ScrapeWeeks | espn/PickEmClient.py:152-167 | The week loop gives exactly the stored snapshots of every selected week, in option order (`Weeks.StoreWeeksGets` says what each week holds). |
| Weeks.StoreWeeks | espn/PickEmClient.py:160-164 | Storing keeps every existing key in place and keeps keys unique. |
| Weeks.StoreWeeksGets | espn/PickEmClient.py:160-164 | A week stored by the loop holds the snapshots of the last option that selected it. |
| Weeks.SelectedWeekStored | espn/PickEmClient.py:135-169 | Each selected week holds the snapshots of the last option that selected it. A week in 0..18 holds them at its own index. |
| Weeks.WeeksToSnapshots | espn/PickEmClient.py:97-169 | The result always starts with keys 0..18 in order, and no key appears twice. |
| Weeks.ScrapeAllWeeks | espn/PickEmClient.py:89-169 | Gives exactly `WeeksToSnapshots`: without a drop-down, only week 1 is scraped, from the landing page, when the grid is there and no other week was requested (`Weeks.LandingPageWeek`). Otherwise every selected week is stored (`Weeks.SelectedWeekStored`). |
| Weeks.LandingPageWeek | espn/PickEmClient.py:100-132 | Without a drop-down, with the grid present and week 1 or no week requested, week 1 holds the landing page's parsed grids. Every other week stays empty. |
| Weeks.NoDropdownOtherWeek | espn/PickEmClient.py:116-119 | Without a drop-down, a request for a week other than 1 leaves every week empty. |
| Weeks.StoreWeeksOnly | espn/PickEmClient.py:160-164 | Only the stored weeks change. |
| Weeks.RequestedWeekOnly | espn/PickEmClient.py:137-164 | With a requested week, every other week of the map stays empty. |
| Weeks.WeeksToSnapshotsAsWritten | espn/PickEmClient.py:135-169 | The scrape as written raises exactly when there is a drop-down but no option is selected. In every other case it equals the corrected scrape. |
| Weeks.NoSelectionScrapesNothing | espn/PickEmClient.py:150-169 | The corrected scrape with nothing selected leaves every week empty. |
| Weeks.UnlistedWeekRequested | espn/PickEmClient.py:150-152 | Requesting week 5 from a drop-down listing only week 3 raises as written. Corrected, it scrapes nothing. |
| Html.FindTd | espn/PickEmClient.py:641-643 | Gives a `td` whose classes contain the marker, with no such `td` before it. None only when no `td` has the marker. |
| Html.FindAnchor | espn/PickEmClient.py:645 | Gives an anchor carrying the class, with no such anchor before it. None only when no anchor carries it. |
| Html.FindAllTd | espn/PickEmClient.py:680 | Each marked `td` appears as often as in the row, and no other cell appears. |
| Html.FindAllTdInOrder | espn/PickEmClient.py:680 | The cells found are the marked cells at increasing positions, so in document order. |
| Extraction.RowName | espn/PickEmClient.py:641-647 | A row names a team exactly when it has a name cell holding an entry link. The name is the link's stripped text. |
| Extraction.Register | espn/PickEmClient.py:650-652 | After registering, the name is a team. |
| Extraction.AddPick | espn/PickEmClient.py:693 | Adding a pick succeeds exactly when the team exists and its ledger has the week. |
| Extraction.NameStep | espn/PickEmClient.py:640-652 | An entries row raises exactly when its `data-idx` is missing or not an integer, and then changes nothing. It never replaces a team: only a new name creates a team, with an empty ledger, appended to the order. |
| Extraction.EntriesRowRegistered | espn/PickEmClient.py:631-653 | Every named entries row registers its team. Its index maps to that name unless a later row carries the same index. |
| Extraction.TeamNames | espn/PickEmClient.py:631-653 | Reading the names of a snapshot never replaces or reorders a known team. |
| Extraction.TeamNamesKeepTeams | espn/PickEmClient.py:631-653 | The same holds across all tables of a snapshot. |
| Extraction.RowPicks | espn/PickEmClient.py:668-699 | A picks row keeps the teams, their order and their weeks, and only appends to weekly lists. |
| Extraction.Picks | espn/PickEmClient.py:655-699 | The same holds across all picks tables. |
| Extraction.PicksOnlyAppend | espn/PickEmClient.py:655-699 | The same holds across all picks tables. |
| Extraction.ParseSoupsGrows | espn/PickEmClient.py:619-629 | Parsing every snapshot never drops a team or removes a pick. |
| Extraction.ParseSoups | espn/PickEmClient.py:619-629 | Parsing every snapshot only adds teams and appends picks. |
| Extraction.ParseSoupsKeepsWeeks | espn/PickEmClient.py:619-629 | Parsing keeps every ledger at exactly weeks 1..18. |
| Extraction.CellsAppend | espn/PickEmClient.py:683-694 | A mapped row's cells raise nothing exactly when every admitted cell makes a `Pick` and the week is in the ledger. Then they append exactly those picks, in cell order. |
| Extraction.MappedRowAddsPicks | espn/PickEmClient.py:668-694 | A row mapped to a known team appends exactly its admitted pick cells' picks, or raises on a cell that makes no `Pick`. |
| Extraction.UnmappedRowSkipped | espn/PickEmClient.py:669-678 | A row without `data-idx`, or whose index names no team, changes nothing. |
| Extraction.EmptyWeekSkipped | espn/PickEmClient.py:623-625 | A week without snapshots changes nothing. |
| Extraction.NoEntriesNoChange | espn/PickEmClient.py:626-629 | A snapshot without an entries table adds no team and no pick. |
| Extraction.NoEntriesIdle | espn/PickEmClient.py:636-637 | Tables that are not entries tables map no index. |
| Extraction.LinkOnlyCell | espn/PickEmClient.py:685-693 | A link-only pick cell raises as written. The corrected test skips it. |
| Extraction.AdmitAsWritten | espn/PickEmClient.py:685-693 | The test as written admits every cell the corrected test admits, and agrees with it on cells with an image. A cell it admits without an image fails to make a `Pick` (the `TypeError`). |
| Extraction.Admit | espn/PickEmClient.py:685-693 | The corrected test never admits a cell that fails for a missing image. |
| Extraction.CellAgree | espn/PickEmClient.py:684-694 | Where the test as written raises nothing, the corrected test does the same for the cell, and it never fails for a missing image. |
| Extraction.RowAgree | espn/PickEmClient.py:668-694 | The same for one row. |
| Extraction.TableAgree | espn/PickEmClient.py:662-694 | The same for one table. |
| Extraction.SnapshotAgree | espn/PickEmClient.py:626-629 | The same for one snapshot. |
| Extraction.WeekAgree | espn/PickEmClient.py:623-629 | The same for one week. |
| Extraction.ParseSoupsAgree | espn/PickEmClient.py:619-693 | Where the parse as written raises nothing, the corrected parse gives the same teams and picks. The corrected parse never fails for a missing image. |
| Client.PickEmClient.constructor | espn/PickEmClient.py:28-33 | Starts with no teams. |
| Client.PickEmClient.GetTeams | espn/PickEmClient.py:701-702 | Gives every team once, in insertion order. |
| Client.PickEmClient.RegisterTeam | espn/PickEmClient.py:650-652 | Creates a team only for a new name. |
| Client.PickEmClient.AddPickTo | espn/PickEmClient.py:693 | Changes exactly the named team's week, as `AddPick` describes. |
| Client.PickEmClient.AddCellPicks | espn/PickEmClient.py:683-694 | The cell loop equals the cell fold. |
| Client.PickEmClient.ParseRowPicks | espn/PickEmClient.py:668-699 | Equals `RowPicks`. |
| Client.PickEmClient.ParseTablePicks | espn/PickEmClient.py:665-699 | Equals the row fold. |
| Client.PickEmClient.ParsePicks | espn/PickEmClient.py:655-699 | Equals `Picks`. |
| Client.PickEmClient.ParseEntriesRows | espn/PickEmClient.py:638-652 | Equals the entries-row fold. |
| Client.PickEmClient.ParseTeamNames | espn/PickEmClient.py:631-653 | Equals `TeamNames`. |
| Client.PickEmClient.ParseSnapshot | espn/PickEmClient.py:626-629 | Equals `SnapshotStep`. |
| Client.PickEmClient.ParseWeek | espn/PickEmClient.py:623-629 | Equals the snapshot fold. |
| Client.PickEmClient.ParseSoups | espn/PickEmClient.py:619-629 | Leaves the teams and the error exactly as `Extraction.ParseSoups` gives them. |
| Compare.NormalizeKeyPerChar | tests/compare_picks_and_espn.py:150-155 | The three passes map each character on its own: to itself lower-cased, to `'`, or to nothing. |
| Compare.NormalizeKeyConcat | tests/compare_picks_and_espn.py:150-155 | The key of `a + b` is the key of `a` followed by the key of `b`. |
| Compare.NormalizedChars | tests/compare_picks_and_espn.py:150-155 | A key holds only lower-case ASCII letters, digits, whitespace and `'`, and is never longer than the input. |
| Compare.NormalizeKeyAsWritten | tests/compare_picks_and_espn.py:150-155 | `normalize_key` as written gives only lower-case ASCII letters, digits, whitespace and `'`, never longer than the name. |
| Compare.NormalizeKey | tests/compare_picks_and_espn.py:150-155 | The same for the corrected apostrophe set. |
| Compare.ApostropheKept | tests/compare_picks_and_espn.py:152 | Each character of the apostrophe set becomes `'` in place. |
| Compare.Dropped | tests/compare_picks_and_espn.py:154 | Any other character outside the kept set is removed. |
| Compare.PlainKey | tests/compare_picks_and_espn.py:154-155 | A name of letters, digits, spaces and `'` is only lower-cased. |
| Compare.NormalizeIdempotent | tests/compare_picks_and_espn.py:150-155 | Normalising twice equals normalising once. |
| Compare.NormalizeIgnoresCase | tests/compare_picks_and_espn.py:155 | Lower-casing first makes no difference. |
| Compare.SameUpToCase | tests/compare_picks_and_espn.py:155 | Names that differ only in ASCII case normalise alike. |
| Compare.CurlyApostropheDropped | tests/compare_picks_and_espn.py:152 | As written, `O’Brien` normalises to `obrien`. |
| Compare.CurlyApostropheKept | tests/compare_picks_and_espn.py:152 | Corrected, `O’Brien` normalises to `o'brien`. |
| Compare.NormalizeScores | tests/compare_picks_and_espn.py:158-159 | For any apostrophe set: every name's normalised key is a key, and every key is some name's normalised key. |
| Compare.NormalizeScoresEntries | tests/compare_picks_and_espn.py:158-159 | For any apostrophe set: a normalised key holds the score of the last name that normalises to it. |
| Compare.NormalizeScoresLower | tests/compare_picks_and_espn.py:155-159 | For any apostrophe set of non-letters: lower-casing every name first gives the same normalised dict. |
| Compare.CompareDictionaries | tests/compare_picks_and_espn.py:157-161 | For any apostrophe set: when the dicts match, every name on either side has a name on the other side with the same normalised key. |
| Compare.CompareIgnoresCase | tests/compare_picks_and_espn.py:157-161 | For any apostrophe set of non-letters: two dicts whose names differ only in case compare equal. |
| Compare.CurlyAndPlainKeys | tests/compare_picks_and_espn.py:150-155 | For any apostrophe set of non-letters without `'`: `O'Brien` gives `o'brien`, and `O’Brien` gives `o'brien` if ’ is in the set and `obrien` otherwise. |
| Compare.CurlyNameMismatchAsWritten | tests/compare_picks_and_espn.py:150-161 | As written, `{"O’Brien": 1}` does not match `{"O'Brien": 1}` but does match `{"OBrien": 1}`. |
| Compare.CurlyNameMatches | tests/compare_picks_and_espn.py:150-161 | Corrected, `{"O’Brien": 1}` matches `{"O'Brien": 1}`. |
| Compare.WinLossRoundTrip | tests/compare_picks_and_espn.py:108-110 | The record `W-L` scores W − 2L. |
| Compare.WinLossScore | tests/compare_picks_and_espn.py:108-110 | A score exists exactly when the stripped text splits at dashes into two pieces that `int()` accepts, and it is the first − 2 × the second. |
| Compare.WinLossDigits | tests/compare_picks_and_espn.py:108-110 | Digits, a dash and digits score the first value − 2 × the second. |
| Compare.WinLossNeedsOneDash | tests/compare_picks_and_espn.py:109 | A record without a dash is a `ValueError`. |
| Text.Strip | espn/PickEmClient.py:647 | `str.strip()` never lengthens the text, leaves no whitespace at either end, and gives the empty text exactly for all-whitespace input. |
| Text.StripUnspaced | espn/PickEmClient.py:647 | A text with no whitespace at either end is its own strip. |
| Text.ParseInt | espn/PickEmClient.py:640 | `int()` gives a value exactly when the stripped text is an optional sign followed by digits. The value is the decimal value of the digits, negated after a `-`. A negative value needs a `-`. |
| Text.ParseDigits | espn/PickEmClient.py:640 | A run of digits reads as its decimal value. |
| Text.ParseShowNat | espn/models.py:65 | The decimal text of a count reads back as that count. |
| Text.Split | espn/PickEmClient.py:140 | `split` gives at least one piece, and joining the pieces with the separator gives the text back. No piece contains the separator. |
| Text.SplitLastSuffix | espn/PickEmClient.py:140 | The last piece is the whole text or the text right after an occurrence of the separator. |
| Text.Lower | espn/PickEmClient.py:140 | Same length, no capital left, and each character differs from the input only in ASCII case. |
| Text.Upper | espn/PickEmClient.py:637 | Same length, no lower-case letter left, and each character differs from the input only in ASCII case. |

## Left out

- Browser automation: Selenium and splinter, waits, sleeps, scrolling and staleness checks. So are the debug scan of buttons and the screenshot (`espn/PickEmClient.py:453-467`, `533-544`) and all logging. The browser is an oracle: `press` gives the page a successful click reaches, and `capture` gives the grid's HTML.
- Navigation to the group page (`_navigate_to_group_picks`, `run`) and the unused `_select_week`. They only drive the browser.
- The `_parallel` copies of the pagination routines. They run the same steps in another browser, so the single-browser model stands for both.
- Threads: `ThreadPoolExecutor` and `as_completed`. The model stores each week's snapshots in option order. When two options give the same week number, the source keeps whichever finishes last, and the model keeps the later option.
- The lock around `self.teams`. Parsing is modelled sequentially.
- HTML parsing: BeautifulSoup is a parameter that turns a grid into a snapshot. The snapshot keeps only what the code reads.
- `espn/helpers.py` is not part of this model. Team abbreviations and the per-week tie lists are parameters (`Models.Helpers`).
- Rendering: the Jinja template and file output of `Scoreboard.render`, and `driver.py`.
- The rest of the test script: fetching the remote table and ESPN's page, and printing the differences.
- Text.ParseInt: `int()` is modelled for ASCII digits with an optional sign and surrounding whitespace. Digit-group underscores and non-ASCII digits are not modelled.
- Text.Lower: `str.lower` is modelled for ASCII letters only. Normalised keys reach it after the non-ASCII letters are removed. For week labels the model assumes they hold only ASCII letters; a label with a non-ASCII letter that Python lower-cases to ASCII, such as the Kelvin sign U+212A becoming `k` at espn/PickEmClient.py:140, is read differently.
- Text.Upper: `str.upper` is modelled for ASCII letters only, while Python maps every Unicode letter. A table whose text reads `Group Entrıes` (dotless ı) upper-cases to `GROUP ENTRIES` in Python but is not an entries table in the model.
- Text.Strip: the contract states the ends, the length and when the result is empty. It does not state that the result is the middle slice of the input; `Text.StripUnspaced` covers the case the proofs need.
- Compare.NormalizeKey: idempotence is stated by the lemma `Compare.NormalizeIdempotent`, not in the function's own contract.
- Weeks.ScrapeSingleWeek and Weeks.ScrapeAllWeeks: the browser oracle cannot raise, so the catch-all handlers are not modelled. In the source a failure while scraping week 1 without a drop-down leaves week 1 empty (`espn/PickEmClient.py:129-130`), and a failing week gives `[]` (`espn/PickEmClient.py:166-167`, `243-245`).
- Extraction.ParseSoups: after an exception the run stops, and the model records the state reached. The source propagates the exception out of `run`.
- Client.PickEmClient.ParseSoups: uses the corrected pick-cell test (`Extraction.Admit`). The test as written is `Extraction.AdmitAsWritten`, related by `Extraction.ParseSoupsAgree`.
- Client.PickEmClient.AddCellPicks: uses the corrected pick-cell test. It admits a cell only when it lacks the `noPick` class and has an image, where the source admits one with a link or an image, so it never raises on a link-only cell as the source does.
- Client.PickEmClient.ParseRowPicks: uses the corrected pick-cell test, through `AddCellPicks`.
- Client.PickEmClient.ParseTablePicks: uses the corrected pick-cell test, through `ParseRowPicks`.
- Client.PickEmClient.ParsePicks: uses the corrected pick-cell test, through `ParseTablePicks`.
- Client.PickEmClient.ParseSnapshot: uses the corrected pick-cell test, through `ParsePicks`.
- Client.PickEmClient.ParseWeek: uses the corrected pick-cell test, through `ParseSnapshot`.
- Weeks.ScrapeAllWeeks: models the corrected week scrape. The failing thread pool is `Weeks.WeeksToSnapshotsAsWritten`.
- Models.Pick: a pick's outcome markers are kept as a set of classes found inside the cell. Their exact nesting is not modelled.

## Findings

| source | as written | input that shows it | evidently intended | confidence | as-written member | corrected member |
|---|---|---|---|---|---|---|
| tests/compare_picks_and_espn.py:152 | `r'[''′`´]'` is two adjacent literals, `r'['` and `'′`´]'`. So the class holds only the prime, the grave accent and the acute accent. | The name `O’Brien` (with U+2019) normalises to `obrien`, so it no longer matches `O'Brien`. | The class also holds ‘ and ’, so every apostrophe variant becomes `'`. | high, not executed | Compare.NormalizeKeyAsWritten, Compare.CurlyApostropheDropped, Compare.CurlyNameMismatchAsWritten | Compare.NormalizeKey, Compare.CurlyApostropheKept, Compare.CurlyNameMatches |
| espn/PickEmClient.py:687-693 | A pick cell with a link but no image passes the admission test. `Pick(cell)` then reads `alt` from `find("img")`, which is `None`, and raises `TypeError`. That aborts the whole parse. | A `td` with class `GroupPickGrid-column--pick` that holds an `<a>` and no `<img>`. | Admit only cells with an image, the team logo the `Pick` is read from. | medium, not executed | Extraction.AdmitAsWritten, Extraction.LinkOnlyCell | Extraction.Admit, Extraction.ParseSoupsAgree |
| espn/PickEmClient.py:150-152 | With a drop-down but no option selected, `max_workers = min(4, 0)` is 0. `ThreadPoolExecutor` then raises `ValueError`, and nothing catches it. | A request for week 5 from a drop-down that lists only `Week 3`. | Nothing is scraped and every week stays empty. | high, not executed | Weeks.WeeksToSnapshotsAsWritten, Weeks.UnlistedWeekRequested | Weeks.WeeksToSnapshots, Weeks.NoSelectionScrapesNothing |
