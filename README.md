# bcli decision logic in Dafny

This project models the decision logic of `bcli.py`, a command-line tool
that looks up baseball season statistics in a local database. It covers
everything the tool decides once the SQL queries, terminal prompts and ANSI
colour codes are set aside:

- how a query string becomes candidate rows;
- how several matching players are told apart;
- which table (pitcher or hitter) a two-way player is shown as;
- which columns a season table has, what each cell holds and how wide each
  column is;
- who leads each league in each stat and season, and how a cell is
  emphasised for it;
- in what order the seasons are printed, with "did not play" lines;
- how the season cell is coloured;
- the comparison, platoon and batter-vs-pitcher commands' choices.

A database row is a `Rows.StatLine`: season, player, team, league, the
optional `player_additional` id, awards and position text, and a map from
each numeric column to an optional value (`None` for NULL). Query results
are input sequences, already in the query's `ORDER BY` order.

Modules, in dependency order:

| module | file | models |
|---|---|---|
| Wrappers | wrappers.dfy | `Option` and `Result` |
| Seqs | seqs.dfy | filtering, joining, splitting, counting and sorting of sequences |
| Text | text.dfy | ASCII case mapping, `strip`, the `[*#+]` marker removal, `in`/`startswith`, decimal digits |
| Parsing | parsing.dfy | `parse_year_filter`, `parse_name_query`, `parse_positions`, `parse_awards`, `normalize_stat_label`, `get_stat_category`, `is_ohtani`, `get_full_team_name` |
| Rows | rows.dfy | the row type and `get_player_team_info` |
| Resolver | resolver.dfy | `find_player` and `fuzzy_find_player` |
| Lookup | lookup.dfy | `main`: modes, "did you mean", several players, the two-way rule |
| Leaders | leaders.dfy | `calculate_yearly_league_leaders` |
| Columns | columns.dfy | `render_player`'s columns, cells and column widths |
| Render | render.dfy | `render_player`'s rows, order, gaps, traded seasons, emphasis, colours |
| Compare | compare.dfy | `compare_to_average_display`, `compare_players`, `display_platoon_splits`' year, `handle_versus_matchup`, `render_matchup_stats` |

Loops that build lists, sets or maps in the source are `method`s. Each has
loop invariants and is proved equal to a specification function. The
properties of those functions are proved as lemmas.

## Model

| member | source | states |
|---|---|---|
| Text.Lower | bcli.py:63-73 | lower-casing keeps the length and maps every character |
| Text.LowerIdempotent | bcli.py:275 | lower-casing twice is lower-casing once |
| Text.UpperOfLower | bcli.py:295 | the upper-cased label does not depend on the case the user typed |
| Text.StripIsTrimmedSlice | bcli.py:329 | `strip()` returns a slice of its input with only whitespace cut from either end and none left at either end |
| Text.StripIdempotent | bcli.py:329 | stripping twice is stripping once |
| Text.RemoveMarkers | bcli.py:329 | `re.sub(r'[*#+]','',…)` is a subsequence of its input holding every non-marker character as often as the input does and no marker |
| Text.StripMarkers | bcli.py:2051 | the cleaned name is the marker-free name with only whitespace cut from either end, and has no space at either end |
| Text.StripMarkersIdempotent | bcli.py:1734 | cleaning a cleaned name changes nothing |
| Text.ContainsAt | bcli.py:101 | Python's `sub in s` holds exactly when `sub` occurs at some offset of `s` |
| Text.NatToString | bcli.py:582 | the decimal text of a season is all digits and reads back as that season |
| Parsing.ParseYearFilter | bcli.py:258-268 | a year is returned exactly for a 2- or 4-character all-digit token: 2000+n for two digits, n for four; the empty token and every other shape give None |
| Parsing.YearRoundTrip | bcli.py:258-268 | the text of any four-digit season parses back to that season |
| Parsing.ShortYearRoundTrip | bcli.py:263-264 | the last two digits of a season 2000-2099 parse back to that season |
| Parsing.ParseNameQuery | bcli.py:40-53 | no dot gives no first name; otherwise the query splits at its first dot only, with no dot in the first part |
| Parsing.FirstPartEndsAtDot | bcli.py:46-53 | for a dot query the first part is the text before the first dot and the last part the text after it |
| Parsing.ParsePositions | bcli.py:160-211 | parse_positions: the empty code gives the empty text; otherwise the text starts with `*` exactly when the code does, as no group text starts with `*` |
| Parsing.GroupPositionsSpec | bcli.py:193-202 | one `/` group's positions hold no duplicate; each comes from a mapped character of the group and every mapped character's position appears |
| Parsing.CollectGroup | bcli.py:194-202 | the `seen_in_part` loop computes the group's positions in first-seen order |
| Parsing.DecodeGroups | bcli.py:193-205 | the loop over the groups keeps exactly the non-empty ones, joined by ", " |
| Parsing.ParsePositionsLoop | bcli.py:160-211 | parse_positions' loop computes the position text |
| Parsing.StarredTwoGroups | bcli.py:186-209 | a starred code with two non-empty groups prints as `*` + first group + " / " + second group |
| Parsing.PositionsExampleSingle | bcli.py:164 | `*6/D` gives `*SS / DH` |
| Parsing.PositionsExamplePitcher | bcli.py:165 | `*D1/H97` gives `*DH, P / PH, RF, LF` |
| Parsing.PositionsExampleOrder | bcli.py:166 | `*98/HD4` gives `*RF, CF / PH, DH, 2B`, in first-seen order |
| Parsing.ParseAwards | bcli.py:213-243 | parse_awards: None exactly for the empty string; otherwise non-empty text: when codes are read, those codes, each an award code, joined by ", "; when none is read, the input unchanged |
| Parsing.AwardTokensAreCodes | bcli.py:221-241 | every award read is an MVP/CYA/ROY code with one or two digits, or AS, GG or SS |
| Parsing.ParseAwardsRoundTrip | bcli.py:213-243 | any non-empty run of award codes written together parses back to those codes joined by ", " |
| Parsing.AwardsExamples | bcli.py:215-216 | `MVP-1AS` gives `MVP-1, AS`; the empty string gives None |
| Parsing.AwardsPlaceExample | bcli.py:222 | `CYA-1MVP-13` gives `CYA-1, MVP-13`: the place takes two digits greedily |
| Parsing.ParseAwardsLoop | bcli.py:230-243 | the `while pos < len` loop ends and computes ParseAwards; the position rises on every iteration |
| Parsing.NormalizeStatLabel | bcli.py:270-296 | a special spelling gives its table entry; any other stat gives its upper-cased label and a key of the same length holding, position by position, the lower-cased character, with `-` and `/` turned into `_` |
| Parsing.NormalizeIgnoresCase | bcli.py:275 | the label does not depend on the case of the stat typed |
| Parsing.StatCategory | bcli.py:332-353 | the corrected categories: `ibb` and `hbp` are common, and every other key has the category get_stat_category gives it |
| Parsing.IsOhtani | bcli.py:327-330 | is_ohtani: "shohei ohtani" occurs at some offset of the lower-cased, marker-stripped name |
| Parsing.IsOhtaniIgnoresMarkers | bcli.py:327-330 | the Ohtani test gives the same answer on a name with or without markers |
| Parsing.FullTeamName | bcli.py:355-390 | a known abbreviation gives its club name; the text comes back unchanged exactly when it is not a known abbreviation |
| Parsing.NoTeamNameIsAbbreviation | bcli.py:357-389 | no club name of the table is itself one of its abbreviations |
| Parsing.FullTeamNameIdempotent | bcli.py:355-390 | expanding an expanded team name changes nothing |
| Rows.SingleTeams | bcli.py:314 | the teams of the rows that are not 2TM/3TM lines, in row order with repeats; each comes from a row and every such row's team is there |
| Rows.ReportSeason | bcli.py:311-319 | 2025 when the player has a 2025 row; otherwise the latest season of the rows |
| Rows.PlayerTeamInfo | bcli.py:303-304 | no team text exactly for an empty match list |
| Rows.PlayerTeamInfoSpec | bcli.py:298-325 | the reported season's single-team clubs joined by ", "; with only aggregate lines, the team of `recent_matches[0]`, the first row of that season |
| Resolver.QualifiedRows | bcli.py:75-87 | exactly the rows with 5 or more innings (pitchers) or at bats (hitters) |
| Resolver.LikePattern | bcli.py:62-73 | for a query without a dot, the lower-cased query between two `%`; for a dot query, the lower-cased query with its first dot turned into `%`, followed by `%` |
| Resolver.SearchTerms | bcli.py:62-69 | a first part exactly for a dot query; the folded parts are the lower-cased text before and after the first dot, or the whole lower-cased query |
| Resolver.LikeRows | bcli.py:75-87 | the qualifying rows whose lower-cased name matches the pattern |
| Resolver.FallbackFilter | bcli.py:97-105 | the fallback loop keeps exactly the matching rows, in table order |
| Resolver.FallbackSpec | bcli.py:99-105 | the fallback result is a subsequence of the table; a row is in it exactly when its folded name contains the last part and, for a dot query, starts with the first part |
| Resolver.FindPlayer | bcli.py:55-124 | the `LIKE` results for the query's pattern, or the fallback over both tables exactly when both are empty; every row found qualifies |
| Resolver.FuzzyFilter | bcli.py:138-148 | the loop keeps, in order, exactly the names whose folded form contains the folded query; a name spelled as the query is always kept |
| Resolver.FilterDistinct | bcli.py:133-137 | names from `SELECT DISTINCT` stay distinct after filtering |
| Lookup.SelectMode | bcli.py:1963-1995 | more than one mode flag is an error; otherwise the one set flag decides, and none means the plain lookup |
| Lookup.Suggestions | bcli.py:2007-2016 | the "did you mean" list: every fuzzy pitcher name, then every fuzzy hitter name, each tagged with its table, in order |
| Lookup.PickSuggestion | bcli.py:2008-2030 | one suggestion is taken only when confirmed; of several, exactly a number 1..n picks the n-th; the name is always one of the suggestions |
| Lookup.CountNames | bcli.py:2076-2079 | the name_counts loop maps exactly the listed names to their numbers of occurrences |
| Lookup.CountsDetectSharedName | bcli.py:2076-2081 | counting over the two tables' distinct names finds a count above one exactly when a name is both a pitcher's and a hitter's |
| Lookup.DuplicateIffShared | bcli.py:2081 | over two lists of distinct names, a duplicate count comes exactly from a name in both lists |
| Lookup.TableChoices | bcli.py:2091-2112 | one prompt entry per distinct cleaned name, in sorted order; each entry holds all the rows of its name from that table, and only those |
| Lookup.Candidates | bcli.py:397-399 | the distinct raw names in strictly sorted order |
| Lookup.Disambiguate | bcli.py:2040-2153 | not found exactly without matches; the prompt exactly for a name shared by both tables without a shared id; otherwise the players are listed exactly when there are several cleaned names, and main goes on exactly when there is one |
| Lookup.ApplyChoice | bcli.py:2121-2134 | a reply 1..n keeps exactly the n-th entry's rows on its own side and empties the other; 0, a negative, a too large or no reply cancels |
| Lookup.ChosenRowsProceed | bcli.py:2121-2134 | after a valid choice only the chosen rows remain, on one side, and nothing is ambiguous any more |
| Lookup.OneNameProceeds | bcli.py:2085-2138 | rows of one name on one side are rendered without asking |
| Lookup.TotalGamesSkipsNull | bcli.py:2191 | TotalGames: rows with a NULL games column do not change the total |
| Lookup.TotalGamesAppend | bcli.py:2191 | TotalGames: the total over two lists of rows is the sum of their totals |
| Lookup.ByGamesIgnoresNullGames | bcli.py:2186-2202 | ByGames: dropping the rows with NULL games leaves the choice of table unchanged |
| Lookup.ByGamesOfParts | bcli.py:2186-2202 | ByGames: when two sets of matches choose the same table, so do they together |
| Lookup.ComparisonType | bcli.py:998-1034 | no table without matches; an error for Ohtani on both sides; by games for another two-way player; otherwise the one side with rows |
| Lookup.OhtaniTables | bcli.py:2163-2176 | the pitcher table is shown exactly when some requested stat is not hitter-only as get_stat_category reads it, the hitter table exactly when some is not pitcher-only |
| Lookup.OhtaniShown | bcli.py:2163-2181 | the tables OhtaniTables' flags select, pitcher first; with any stat requested at least one is shown |
| Lookup.ShownTables | bcli.py:2155-2206 | by games for a two-way player who is not Ohtani; both tables for Ohtani without stats and the tables the stats ask for with them; the one side otherwise; never empty, pitcher before hitter, and only for a side with rows |
| Lookup.Tables | bcli.py:2155-2206 | the same choice stated on the matches: by games when the first pitcher is not Ohtani, the requested tables for Ohtani, the one side otherwise |
| Lookup.TablesShape | bcli.py:2155-2206 | at least one table is rendered, pitcher before hitter, and only a side with rows gets one |
| Leaders.StatValuesMembers | bcli.py:668-684 | a (value, row) entry exists exactly for a row of the league with a value that is eligible |
| Leaders.StatValuesInOrder | bcli.py:664-684 | the entries' rows are the eligible rows of the league in table order |
| Leaders.BestEntry | bcli.py:689-692 | the best entry is one of the entries and none is strictly better |
| Leaders.BestEntryIsFirst | bcli.py:689-692 | every entry before the chosen one is strictly worse: the first best entry wins a tie |
| Leaders.LeagueLeaderSpec | bcli.py:663-692 | LeagueLeader: None exactly when no row of the league is eligible; otherwise the leader is such a row and no eligible row of the league beats it |
| Leaders.LeagueLeaderFirstAmongTies | bcli.py:689-692 | LeagueLeader: every eligible entry before the leader's is strictly worse |
| Leaders.UnqualifiedNeverLeads | bcli.py:675-680 | LeagueLeader: a rate stat's leader has reached 162 innings or 502 plate appearances |
| Leaders.ComputeLeagueLeader | bcli.py:663-692 | the loop over the season's rows computes LeagueLeader |
| Leaders.LeadersByYear | bcli.py:629-694 | leaders_by_year has an entry exactly for every non-zero season of the player; each holds exactly the displayed stats other than year, age, team, league, awards and position, each with that season's NL and AL leaders |
| Leaders.ComputeYearLeaders | bcli.py:657-692 | the loop over the stats gives every leader stat its NL and AL leaders |
| Leaders.ComputeLeadersByYear | bcli.py:629-694 | the loop over the seasons computes LeadersByYear |
| Columns.DefaultColumnsRefusedAsWritten | bcli.py:457-460 | with get_stat_category as written, a default column is refused for its own table exactly when it is a hitter's HBP or IBB |
| Columns.DefaultColumnsAcceptedIntended | bcli.py:457-460 | with the corrected categories, no default column is refused for its own table |
| Columns.Headers | bcli.py:467 | one label per column, in order |
| Columns.SelectionPartitions | bcli.py:448-462 | every requested stat becomes a column or a refused label; kept columns are accepted as bcli.py:452-460 decides and every refused label is of a refused stat |
| Columns.SelectColumns | bcli.py:440-462 | the -s loop gives the four base columns plus the stats accepted as written, and the refused labels, in order |
| Columns.TableColumns | bcli.py:440-492 | the defaults without -s; nothing to show exactly when every requested stat is refused; otherwise the base columns followed by the accepted stats |
| Columns.ComparisonColumns | bcli.py:531-538 | the comparison filter loop computes the kept columns |
| Columns.ComparisonColumnsSpec | bcli.py:521-538 | the kept columns are a subsequence; a column is kept exactly when it is an identity column or a comparison stat with an average column; the position column never is, and every kept stat has a mapped average column |
| Columns.AwardsCellListsCodes | bcli.py:555-561 | Cell: an awards cell shows the codes joined by ", " |
| Columns.PositionCellKeepsStar | bcli.py:562-568 | Cell: a position cell starts with `*` exactly when the position code does |
| Columns.TextCellsShowText | bcli.py:569-572 | Cell: a text column (player, player_additional, team, league) prints its stored text, and a NULL one prints empty |
| Columns.RowCells | bcli.py:553-572 | the cell loop gives one cell per column, each Cell of that column |
| Columns.MaxOf | bcli.py:605-607 | the width is at least the label and every cell, and equals one of them |
| Columns.ColumnWidths | bcli.py:603-627 | the width loop gives every column its Width |
| Columns.ColumnWidth | bcli.py:604-627 | one column's width: its label, its cells, and in comparison mode its average cells |
| Columns.Widen | bcli.py:606-607 | the `max` loop computes the maximum |
| Columns.WidthsFitAverageRows | bcli.py:603-627 | every cell and every average-row cell fits its column's width |
| Render.PlayerRowsSpec | bcli.py:407-432 | PlayerRows: without -y every row is rendered, with -y exactly the season's rows, all of one player; an invalid year is an error exactly for a token parse_year_filter rejects; several players are reported exactly when the rows hold more than one raw name, listed once each, sorted |
| Render.SplitRows | bcli.py:541-587 | the loop splits the rows into historical and 2025 rows in order and records the gaps between historical seasons |
| Render.SplitIsPartition | bcli.py:574-587 | the two lists together hold each row exactly as often as the input; historical rows are not of 2025 and the others are |
| Render.DisplayRows | bcli.py:839-858 | Display: the printed season lines are the historical rows, then the 2025 rows |
| Render.DisplayShowsEveryRow | bcli.py:839-858 | Display: every row is printed once; nothing historical follows a 2025 row |
| Render.GapAtSpec | bcli.py:574-587 | the gap looked up before historical row i lists the seasons between it and the row before, `range(prev+1, cur)`, exactly when they differ by more than one |
| Render.HistoryGapsAreSkippedSeasons | bcli.py:839-843 | the historical block equals Annotated: a gap line before a row exactly when the season skips years, listing prev+1..cur-1 |
| Render.SameSeasonNoGap | bcli.py:578-580 | two rows of one season never get a gap line between them |
| Render.TrailingGapSpec | bcli.py:845-854 | the trailing gap line appears exactly with 2025 rows, historical rows and a latest historical season before 2024, listing the seasons after it up to 2024; `max()` of no non-zero season raises |
| Render.MostRecentYear | bcli.py:847 | the latest non-zero historical season, or none when all are zero |
| Render.TradedSets | bcli.py:592-601 | the loop computes the seasons with an aggregate line and those whose aggregate line is All-Star |
| Render.TradedAllStarIsTraded | bcli.py:598-601 | a traded All-Star season is a traded season |
| Render.SingleTeamColour | bcli.py:799-813 | YearColour: a plain single-team line is yellow when the season's aggregate line is All-Star, grey when the player was otherwise traded that season, uncoloured when not traded |
| Render.AggregateLineColour | bcli.py:804-813 | YearColour: an aggregate line is never grey, and is yellow only for its own All-Star selection |
| Render.WinnerLookahead | bcli.py:802 | for any award code followed by the end or by the next code, the first-place test holds exactly for MVP-1, CYA-1 and ROY-1, so MVP-12 is not a winner |
| Render.OnlySeasonCellColoured | bcli.py:827-832 | YearColour: only the season cell is coloured, and an award season's always magenta |
| Render.AverageEmphasisSpec | bcli.py:714-746 | green exactly when strictly better than the average, orange exactly when strictly worse, nothing on a tie |
| Render.LeaderEmphasisSpec | bcli.py:749-791 | marked only when the row's player is its own league's leader; then bold italic exactly when the other league has no leader or the value is strictly better than the other leader's |
| Render.CellEmphasis | bcli.py:712-791 | get_stat_formatting: green or orange only in comparison mode for a season with an average; bold or bold italic only otherwise and only with a leader entry for the season and stat; outside comparison mode never green or orange |
| Render.NationalLeaderEmphasis | bcli.py:749-791 | with leaders_by_year as computed, an NL leader's own cell is bold italic when it beats the AL leader or the AL has none, and bold otherwise |
| Compare.ShownAverageSpec | bcli.py:955-959 | ShownAverage: a stat with no mapped column is N/A; a rate stat's average is shown as stored |
| Compare.PerPlayerAverageSpec | bcli.py:930-966 | ShownAverage: a counting stat's shown average times the player count gives the stored total; only a NULL count makes it raise |
| Compare.CompareSeason | bcli.py:1101-1107 | 2025 without -y, otherwise parse_year_filter's reading |
| Compare.FirstMultiTeam | bcli.py:1173-1178 | the first 2TM/3TM line of the season, none exactly when there is none |
| Compare.PreferredLine | bcli.py:1167-1186 | the loop with `break` picks the first aggregate line, else the first line |
| Compare.ComparedLinesSpec | bcli.py:1082-1186 | ComparedLines: the compared lines come from the shared table, from the requested season, and are the aggregate line of a traded season |
| Compare.ComparedTypeSpec | bcli.py:1115-1127 | pitching wins when both pitched; different types are refused exactly when neither table is shared |
| Compare.HeadToHeadStatsSpec | bcli.py:1197-1203 | a requested stat is compared exactly when it names a column |
| Compare.HeadToHeadStatsEmpty | bcli.py:1197-1230 | the compared stat list is empty exactly when stats were requested and none names a column, the case where the width `max()` raises |
| Compare.HeadToHeadSpec | bcli.py:1258-1276 | HeadToHead: a value is marked exactly when both are present and it is strictly better; never both, none on a tie; swapping the players swaps the marks |
| Compare.PlatoonAgreesWithYearFilter | bcli.py:1351-1362 | PlatoonYearFilter: apart from `all`, the platoon year is read exactly as parse_year_filter reads a year |
| Compare.RolesSpec | bcli.py:1745-1790 | AssignRoles: the batter has batting rows and the pitcher pitching rows; the prompt appears exactly for two two-way players; no roles exactly when neither arrangement is possible |
| Compare.RolesSymmetric | bcli.py:1745-1790 | AssignRoles: naming the players the other way round swaps the roles |
| Compare.VersusName | bcli.py:1717-1727 | the full name is the first pitcher row's player, else the first hitter row's, and is always the query or a matched row's name |
| Compare.MatchupSelectionSpec | bcli.py:1836-1860 | MatchupSelection: what is shown is a non-empty subsequence of the lines; with `all` exactly the season lines, with the career lines apart; with a year exactly that season's lines; otherwise exactly the career lines; each error exactly when no line is selected |
| Compare.YearTextAgrees | bcli.py:1840-1847 | the season text a digits argument selects is the season parse_year_filter reads |

## Left out

- The SQL queries are inputs: the tables, the per-season table (`yearTable`), the team and league average rows, and the `LIKE` operator (a function parameter). The database engine is not modelled.
- `remove_accents` is a function parameter: it depends on Unicode decomposition tables.
- Case mapping and `isdigit()` are ASCII only. Python's Unicode case tables and digit classes are not modelled. `strip()` cuts the characters Python's `str.isspace()` accepts (Text.IsSpace).
- `format_stat_value` is a function parameter (`fmt`): it prints Python floats, and floating point is not modelled. Stat values are `real`s.
- Terminal output is not modelled: `click` prompts and echo, ANSI codes and `ljust` padding. Styles are datatypes, widths are naturals and replies are inputs.
- The MLB Stats API and its cache (`mlb_api.py`) are not part of this model, and neither are the platoon split tables printed at bcli.py:1402-1690.
- display_platoon_splits is modelled only in its table choice (Lookup.ComparisonType) and its year argument. The MLB id lookup, its own several-players check (bcli.py:1329-1336) and the split tables depend on the API.
- The team and league average rows of comparison mode (bcli.py:495-518) are inputs: fetching them is a query per season. The model does not capture that a traded season never gets a team average.
- render_matchup_stats' title and stat table only print. Only its choice of lines is modelled.
- The fuzzy path re-runs find_player on the chosen name (bcli.py:2033-2037). The model covers the choice of name, not the second query.
- Parsing.IsOhtani: `'shohei ohtani' in name` is modelled on the ASCII-lowered stripped name.
- Columns.TableColumns: the two refusal checks of bcli.py:452-460 are combined into one predicate, Accepts. The refused label is recorded the same way by both.
- Columns.ColumnWidths: the averages are a sequence of (season, row) entries. The model does not capture the dict's iteration order, which does not change a maximum.
- Render.PlayerRows: an empty match list, which the source reaches only through an earlier error, gives NoRows where the source indexes `matches[0]`.
- Render.YearColour: a NULL season is not modelled. Seasons are integers.
- Compare.ShownAverage: compare_to_average_display is not called from any command. Only its value choice is modelled, not its table layout.
- Compare.VersusName: the order of the matchup-cache lookups (bcli.py:1794-1801) is left out, because the cache belongs to the API layer.
- Rows.PlayerTeamInfo, Render.TradedSets and Render.YearColour: a NULL team (the loader stores an empty Team cell as NULL, load_data.py:7-9, 63) is read as the empty text. The source raises TypeError on `'2TM' in None` (bcli.py:314, 320, 597, 803); the model instead gives a team summary and a colour.
- Compare.HeadToHeadStats: when `-s` is given and no stat names a column, bcli.py:1230 raises ValueError on `max()` of an empty list. The model returns the empty list and does not model the raise; Compare.HeadToHeadStatsEmpty states exactly when that happens.
- load_data.py, load_team_stats.py, db_setup.py and setup.py load and create the database. They are not part of this model.
- Render.LeaderEmphasis: bcli.py:781-787 compares the two leagues' leaders strictly, so a tie with the other league's leader is bold, not bold italic. The model does the same.
- Columns.ComparisonColumns: `sampleAverage` is a parameter. The source takes `next(iter(comparison_averages.values()))` (bcli.py:522), the first average row in dict order; which row that is is not modelled.
- Compare.ShownAverageSpec: its first clause covers a stat with no mapped column, which the source never passes (bcli.py:955-959 keeps only mapped keys).

## Findings

| source | as written | input that shows it | evidently intended | confidence | as-written member | corrected member |
|---|---|---|---|---|---|---|
| bcli.py:334-344 | `get_stat_category` lists `ibb` and `hbp` as pitcher-only stats, so `render_player` refuses them for a hitter (bcli.py:457-460) and `main` shows only Ohtani's pitcher table for them (bcli.py:2167-2176) | `bcli judge -s hbp -s ibb` for a hitter: both are refused, though HBP and IBB are columns of the default hitter table (bcli.py:483-492) | `hbp` and `ibb` count for both kinds of player | high, not executed | Columns.DefaultColumnsRefusedAsWritten | Columns.DefaultColumnsAcceptedIntended |

The column selection and the Ohtani tables follow the code as written (Columns.Accepts, Lookup.AsksPitcher and Lookup.AsksHitter use Parsing.StatCategoryAsWritten). Parsing.StatCategory and Columns.AcceptsIntended are the corrected definitions.
