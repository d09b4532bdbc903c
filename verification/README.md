# NBA height and weight analysis: off-court data core

This project models the two data steps of the NBA off-court analysis.

- **Fetching.** `fetch_data` looks up each requested player by full name. For every
  requested season it asks the stats provider for the player's game log. It checks
  the log: empty, then missing values, then non-numeric columns. A log that passes
  is reduced to the mean of each requested stat over all games and stored under the
  key `"<name>_<season>"`. A log that fails leaves a printed message instead.
- **Comparing.** `split_player_season` splits the combined `"Player_Season"` label
  of each table row on its last underscore. `calculate_averages` then takes each
  target row. It averages the player's baseline rows of the two seasons before the
  target season, and those of the two seasons after it. The results go into two
  player-keyed dicts.

Modules:

| module | models |
|---|---|
| `Wrappers` | `Option` (NaN, a missing part, a failed `int()`) and `Result` (a raised exception); `Collect` is a loop that the first exception aborts |
| `Decimal` | Python's `int(s)` on base-10 text and `str(n)` |
| `Texts` | last and first occurrence, regrouping of concatenations, `FlatMap` |
| `Dicts` | a Python dict: insertion order plus last write wins |
| `Averaging` | the mean of a float column (over `real`; empty means NaN, here `None`) |
| `Frames` | pandas rows as maps from column names to cells; a row without a column holds a missing value |
| `Labels` | `split_player_season` |
| `Comparator` | `calculate_averages` |
| `WorkedExample` | the averaging step on a small table |
| `Fetcher` | `fetch_and_process_player_data` and `fetch_data` |

The provider is a parameter of the model:

- the name lookup is `lookup: string -> seq<int>` (the ids of the matching players);
- the game-log request is `gameLog: (int, string) -> Option<GameLog>`, where `None` is a request that fails.

## Model

| member | source | states |
|---|---|---|
| Labels.SplitLabel | dataProcessing_OffCourt.py:6 | `rsplit('_', n=1)`: a season part exists exactly when the label holds `_`; player, `_` and season rebuild the label; the season holds no `_`; without `_` the player part is the whole label |
| Labels.SplitJoin | dataProcessing_OffCourt.py:6 | splitting `f'{player}_{season}'` gives back exactly that player and season if and only if the season holds no `_` |
| Labels.SplitRow | dataProcessing_OffCourt.py:7-9 | a split row has Player and Season set from its label (a missing season part becomes the text "None"), has no label column, and keeps every other column with its value |
| Labels.JoinLabel | fetchData_OffCourt.py:106 | the key `f'{name}_{season}'`; stated by Labels.SplitJoin and Fetcher.StoredKeysSplitBack |
| Labels.SplitTable | dataProcessing_OffCourt.py:4-9 | a table without the label column raises KeyError; with the column present, a non-text label is reported exactly when some label is not text, and at the first such row; an all-text table with no `_` in any label gets no season column; the split succeeds exactly when every label is text and some label holds `_`; it keeps the row count and splits each row in place |
| Labels.SeasonText | dataProcessing_OffCourt.py:8 | `astype(str)` on the season part; its missing-part case is stated by Labels.SplitRow and Comparator.NoneIsNotASeason |
| Decimal.ParseInt | dataProcessing_OffCourt.py:21 | `int(s)` on base-10 text; its properties are Decimal.ParseShow, Decimal.ParseIntDigits and Decimal.ParseIntRejects |
| Decimal.Show | fetchData_OffCourt.py:34 | `str(n)`: never empty, with a leading minus sign exactly for a negative number; read back by Decimal.ParseShow, injective by Decimal.ShowInjective |
| Decimal.ParseShow | dataProcessing_OffCourt.py:21 | `int(str(n)) == n` for every integer; no limit on the number of digits is modelled (see Decimal.ParseInt under Left out) |
| Decimal.ParseIntDigits | dataProcessing_OffCourt.py:21 | a non-empty run of digits parses to the number it denotes, however many digits it has (see Decimal.ParseInt under Left out) |
| Decimal.ParseIntRejects | dataProcessing_OffCourt.py:21 | a text holding a character other than a digit, `_`, a sign or whitespace is no integer (ValueError) |
| Decimal.ShowInjective | fetchData_OffCourt.py:34 | two ids with the same `str` rendering are the same id |
| Comparator.YearOfDigits | dataProcessing_OffCourt.py:21 | the year of `"<digits>-<rest>"` is the value of the digits; a season without a dash is read whole |
| Comparator.SeasonYearOf | dataProcessing_OffCourt.py:21 | for a natural number `y`, `str(y)` followed by a dash and anything reads back as year `y` |
| Comparator.SeasonYearExample | dataProcessing_OffCourt.py:21 | the season "2020-21" is year 2020 |
| Comparator.NoneIsNotASeason | dataProcessing_OffCourt.py:8 | the season text "None", which a label without `_` is given, raises when its year is read |
| Comparator.BeforeFirst | dataProcessing_OffCourt.py:21 | `s.split('-')[0]`: stated by Comparator.BeforeFirstShape (a dash-free prefix ending at the first dash or at the end) and Comparator.BeforeFirstWhole (a text without a dash is kept whole) |
| Comparator.Year | dataProcessing_OffCourt.py:21 | a season that does not parse raises an error naming that season |
| Comparator.SelectWindow | dataProcessing_OffCourt.py:24-28 | a window is never longer than the table; its members and errors are stated by Comparator.WindowMember and Comparator.SelectWindowRaises |
| Comparator.SelectWindowRaises | dataProcessing_OffCourt.py:27 | a window filter raises exactly when one of the player's rows has a season that does not parse, and then with the first such row's season |
| Comparator.SameRaise | dataProcessing_OffCourt.py:27-28 | whether a filter raises does not depend on the years selected, so the after filter never raises once the before filter did not |
| Comparator.WindowMember | dataProcessing_OffCourt.py:24-28 | a row is in a window exactly when it is a baseline row of the player whose year is one of the window's years |
| Comparator.OtherPlayersIgnored | dataProcessing_OffCourt.py:24 | a window, or the error it raises, is the same when the baseline is first restricted to the player's rows |
| Comparator.RowOutsideWindow | dataProcessing_OffCourt.py:27-28 | a row of another player, or one whose year is outside the window, does not change the window wherever it stands |
| Comparator.SelectWindowAppend | dataProcessing_OffCourt.py:27-28 | filtering two concatenated tables filters each in turn: windows concatenate, and the first error wins |
| Comparator.StatValues | dataProcessing_OffCourt.py:31-32 | the values of one stat a window holds, at most one per row; stated by Comparator.StatValuesAll and Comparator.WindowMeanDefined |
| Comparator.WindowMeans | dataProcessing_OffCourt.py:31-32 | a row of means has exactly the four columns PTS, AST, REB and FG_PCT |
| Comparator.WindowMeanDefined | dataProcessing_OffCourt.py:31-32 | a stat's mean is NaN exactly when no row of the window holds the stat, so an empty window gives NaN for every stat |
| Comparator.WindowMeanValue | dataProcessing_OffCourt.py:31-32 | when every row of a non-empty window holds the stat, its mean is the sum of the rows' own values of that stat divided by the number of rows |
| Comparator.WindowMeanBounds | dataProcessing_OffCourt.py:31-32 | a window mean lies between any lower and upper bound of the values averaged |
| Comparator.MeanOfTwo | dataProcessing_OffCourt.py:31 | a window of two rows averages a stat to the midpoint of their values |
| Comparator.TargetWindows | dataProcessing_OffCourt.py:21-28 | a target season that does not parse raises with that season; otherwise the windows carry the target year |
| Comparator.TargetWindowsRaises | dataProcessing_OffCourt.py:20-28 | one target row raises exactly when its own season or a season of one of its player's baseline rows does not parse; the target season is read first |
| Comparator.WindowsExact | dataProcessing_OffCourt.py:24-28 | the before window holds exactly the player's rows of years y-2 and y-1; the after window exactly those of y+1 and y+2 |
| Comparator.WindowsDisjoint | dataProcessing_OffCourt.py:27-28 | no row is in both windows, and a row of the target year is in neither |
| Comparator.Compare | dataProcessing_OffCourt.py:19-32 | one iteration returns exactly when the row's windows can be formed and its player has a baseline row; a season error comes first, then the KeyError of selecting the stat columns for a player absent from the baseline; a result names the target row's player |
| Comparator.RowsOf | dataProcessing_OffCourt.py:24 | `baseline_df[baseline_df['Player'] == player]`; stated by Comparator.RowsOfEmpty and Comparator.OtherPlayersIgnored |
| Comparator.RowsOfEmpty | dataProcessing_OffCourt.py:24 | the player's filtered frame is empty exactly when no baseline row belongs to the player |
| Comparator.CalculateAverages | dataProcessing_OffCourt.py:12-38 | `calculate_averages`; its properties are Comparator.CalculateAveragesRaises, Comparator.OutputKeys, Comparator.OutputOrder and Comparator.LastTargetWins |
| Comparator.CalculateAveragesRaises | dataProcessing_OffCourt.py:19-32 | the computation returns exactly when every target season, and every baseline season of a target player, parses and every target player has a baseline row; otherwise the error is that of the first target row that raises |
| Comparator.OutputKeys | dataProcessing_OffCourt.py:15-32 | when the run returns, both dicts have exactly the target players as keys |
| Comparator.OutputOrder | dataProcessing_OffCourt.py:15-32 | when the run returns, both dicts list the players in the order of their first target row; a repeated player keeps its place |
| Comparator.LastTargetWins | dataProcessing_OffCourt.py:19-32 | when the run returns, a player's entries are the window means of the player's last target row |
| Comparator.CompareReadsOwnRows | dataProcessing_OffCourt.py:24-32 | one target row's result depends on the baseline only through the rows of its own player |
| Comparator.OtherPlayersNeverRead | dataProcessing_OffCourt.py:19-32 | two baselines that agree on the target players' rows give the same result or the same error, even where other players' seasons do not parse |
| Comparator.SingleTarget | dataProcessing_OffCourt.py:12-38 | with a single target row whose season and player's seasons parse, the run returns exactly when the player has a baseline row, and then both dicts hold that row's window means under its player; otherwise it raises the KeyError naming the player |
| Comparator.SurroundingWindows | dataProcessing_OffCourt.py:21-28 | in the worked table the before window is the two earlier rows and the after window the two later ones; the other player's row is in neither |
| WorkedExample.SurroundingAverages | dataProcessing_OffCourt.py:12-38 | in the worked table, a stat held by all four of the player's rows has before mean `(v0+v1)/2` and after mean `(v3+v4)/2` |
| Averaging.Mean | dataProcessing_OffCourt.py:31-32 | a mean is absent exactly for an empty column; otherwise mean times count is the sum |
| Averaging.MeanBounds | dataProcessing_OffCourt.py:31-32 | a mean lies between the least and the greatest value averaged |
| Averaging.MeanExample | dataProcessing_OffCourt.py:31-32 | 20 and 22 average to 21; 30 and 32 average to 31 |
| Wrappers.Collect | dataProcessing_OffCourt.py:19-32 | a loop whose steps may raise returns every value when no step raises, and otherwise the first step's error |
| Dicts.Put | dataProcessing_OffCourt.py:31 | `d[k] = v` maps `k` to `v` and leaves every other key's value |
| Dicts.PutKeepsValid | dataProcessing_OffCourt.py:31-32 | assigning keeps the key order free of repeats; a present key keeps its place, and a new key goes to the end |
| Dicts.PutAllKeys | dataProcessing_OffCourt.py:31-32 | after a run of assignments, the keys are exactly the keys assigned, with at most one per assignment |
| Dicts.PutAllValid | dataProcessing_OffCourt.py:31-32 | after a run of assignments, the iteration order lists each key once |
| Dicts.LastWriteWins | dataProcessing_OffCourt.py:31-32 | a key is present exactly when it was assigned, and it holds the value of its last assignment |
| Dicts.LastWriteAt | dataProcessing_OffCourt.py:31-32 | the last assignment to a key is the one after which no assignment names that key |
| Dicts.OrderIsFirstSeen | dataProcessing_OffCourt.py:31-32 | the iteration order is the order of first assignment, however often a key is overwritten |
| Fetcher.Message | fetchData_OffCourt.py:34-40 | the three f-string messages; stated by Fetcher.MessagesDiffer and Fetcher.MessageInjective |
| Fetcher.ProcessGameLog | fetchData_OffCourt.py:33-45 | the checks and the averaging of one game log; stated by Fetcher.ValidationOrder |
| Fetcher.GameAverages | fetchData_OffCourt.py:43-45 | the dict comprehension of means; stated by Fetcher.AveragesOverAllGames |
| Fetcher.Fetch | fetchData_OffCourt.py:28-45 | `fetch_and_process_player_data`: a provider request that fails escapes as an error; otherwise the game log's checks decide, as Fetcher.ValidationOrder states |
| Fetcher.ValidationOrder | fetchData_OffCourt.py:33-40 | the checks run in order and the first failure decides: an empty frame gives the no-data message; then a requested stat that is no column raises; then a missing value gives the missing-data message; then a non-numeric column gives the data-type message; only a log passing all four is averaged |
| Fetcher.MessagesDiffer | fetchData_OffCourt.py:34-40 | the three messages never coincide, whatever the ids and seasons |
| Fetcher.MessageInjective | fetchData_OffCourt.py:34-40 | a message determines its problem, player id and season |
| Fetcher.AveragesOverAllGames | fetchData_OffCourt.py:42-45 | a passing log yields a dict whose keys are exactly the requested stats, each mapped to the sum of its values over all games divided by the number of games |
| Fetcher.RequestAttempts | fetchData_OffCourt.py:97-104 | the fetches of one requested name: none when the lookup finds nothing, else one per season with the first match's id; stated by Fetcher.AttemptsUseFirstMatch, Fetcher.NoMatchSkipped and Fetcher.AttemptCount |
| Fetcher.Attempts | fetchData_OffCourt.py:96-104 | the fetches of all requests in request order; stated by Fetcher.AttemptsUseFirstMatch, Fetcher.AttemptCount and Fetcher.AttemptsAppend |
| Fetcher.AttemptsUseFirstMatch | fetchData_OffCourt.py:97-104 | every fetch is for a requested season of a name the lookup found, with the id of the first match |
| Fetcher.OnlyFirstMatchMatters | fetchData_OffCourt.py:97-99 | two lookups that find the same names with the same first id make the same fetches |
| Fetcher.NoMatchSkipped | fetchData_OffCourt.py:97-98 | a name the lookup does not find changes nothing: no entry, no message, no error |
| Fetcher.AttemptCount | fetchData_OffCourt.py:96-104 | there are never more fetches than requested (name, season) pairs, and exactly as many when every name is found |
| Fetcher.AttemptsSnoc | fetchData_OffCourt.py:96-100 | one more requested name adds its fetches after all earlier ones |
| Fetcher.AttemptsAppend | fetchData_OffCourt.py:96-100 | the fetches of consecutive requests follow one another |
| Fetcher.Key | fetchData_OffCourt.py:106 | the key a passing fetch is stored under, `f'{name}_{season}'`; stated by Fetcher.StoredKeysSplitBack and Fetcher.KeyPresent |
| Fetcher.Record | fetchData_OffCourt.py:105-109 | storing a dict under its key or printing a message; stated by Fetcher.RunStep |
| Fetcher.Run | fetchData_OffCourt.py:94-111 | the fetches performed in order, the first exception ending them; stated by Fetcher.RunReturns, Fetcher.RunRaises, Fetcher.KeyPresent and Fetcher.LastSuccessWins |
| Fetcher.FetchData | fetchData_OffCourt.py:48-111 | `fetch_data`; equal to the two nested loops by Fetcher.FetchDataLoop, and its keys are described by Fetcher.StoredKeysSplitBack |
| Fetcher.RunReturns | fetchData_OffCourt.py:104 | the run returns exactly when every fetch returns |
| Fetcher.RunRaises | fetchData_OffCourt.py:104 | a run that raises raises the error of the first fetch that fails |
| Fetcher.ErrorEndsRun | fetchData_OffCourt.py:104 | after an exception, further fetches change nothing |
| Fetcher.RunStep | fetchData_OffCourt.py:104-109 | a skipped pair leaves the dict as it was and adds its message; a passing pair replaces or adds only its own key and prints nothing |
| Fetcher.RunSnoc | fetchData_OffCourt.py:104-109 | one more fetch either records its result or ends the run with its error |
| Fetcher.RunKeepsValid | fetchData_OffCourt.py:94-106 | the returned dict lists each stored key once |
| Fetcher.SkippedLeaveAverages | fetchData_OffCourt.py:107-109 | fetches that are all skipped leave the dict unchanged |
| Fetcher.SkippedRequestLeavesAverages | fetchData_OffCourt.py:100-109 | a found name whose every season is skipped leaves the dict unchanged |
| Fetcher.KeysAtMostAttempts | fetchData_OffCourt.py:104-106 | the dict never has more keys than fetches were made |
| Fetcher.KeyCountBound | fetchData_OffCourt.py:94-111 | the dict never has more keys than requested (name, season) pairs |
| Fetcher.KeyPresent | fetchData_OffCourt.py:104-106 | a key is present exactly when some fetch with that key passed the checks |
| Fetcher.LastSuccessWins | fetchData_OffCourt.py:106 | a present key holds the averages of the last passing fetch with that key; no later fetch with that key passed |
| Fetcher.StoredKeysSplitBack | fetchData_OffCourt.py:106 | when the run returns, every stored key is `f'{name}_{season}'` of a requested pair whose name was found, and it splits back into that name and season when the season holds no `_` |
| Fetcher.AttemptsPrefix | fetchData_OffCourt.py:96-100 | the fetches of the first i+1 names extend those of the first i |
| Fetcher.ErrorEndsFetch | fetchData_OffCourt.py:96-111 | an exception among the first names is the outcome of the whole run |
| Fetcher.Perform | fetchData_OffCourt.py:104-109 | the body of the inner loop: it stores the dict or prints the message, and its result is the run extended by that fetch |
| Fetcher.FetchSeasons | fetchData_OffCourt.py:100-109 | the inner loop over one name's seasons; the first exception leaves the loop |
| Fetcher.FetchRequest | fetchData_OffCourt.py:97-109 | one pass of the outer loop: a name the lookup does not find is skipped |
| Fetcher.FetchDataLoop | fetchData_OffCourt.py:94-111 | the two nested loops compute exactly the run of all fetches in request order |

## Left out

- The provider calls `players.find_players_by_full_name` and `playergamelog.PlayerGameLog(...).get_data_frames()[0]` are parameters (`lookup`, `gameLog`). A failing game-log request is the error `TransportFailure`, which escapes as the client's exception would. Which players and game logs the provider returns is not modelled.
- FetchData: the name lookup `players.find_players_by_full_name` is assumed never to raise; `lookup` always returns a list of ids. The library searches with the name as a regular expression, so a malformed pattern would raise and end `fetch_data`; the model, including Fetcher.RequestAttempts, Fetcher.FetchRequest and Fetcher.RunReturns, does not cover that failure. Only the game-log request can fail.
- `time.sleep(request_delay)` and the `request_delay` parameter are left out: the delay does not change any result.
- `print(result)` is modelled as appending the message to `Outcome.messages`. A run that raises returns only its error, so messages printed before the exception are not part of the result.
- The `__main__` block of `dataProcessing_OffCourt.py` is left out: reading the CSV files, printing `head()` and writing the result files are I/O.
- `pd.DataFrame.from_dict(..., orient='index')` is left out. The model returns the two dicts themselves (key order and values); turning them into frames only reshapes them.
- Floats are modelled as exact `real` numbers: there is no rounding, and NaN is `None`.
- Fetcher.GameAverages: the dict of means is a `map`, so the order of its keys, which in Python follows `target_stats`, is not kept. No property of the program depends on that order.
- `Comparator`'s rows are typed (`SeasonRow`: player, season text, stat values). Converting the split table's cells into such rows is not modelled; a stat absent from a row stands for NaN.
- `pd.api.types.is_numeric_dtype`: a column counts as numeric when every game holds a number there. pandas decides this from the column's dtype, so a boolean column, or an object column of numbers, is not distinguished.
- Labels.SplitTable: `split_player_season` adds the Player and Season columns to the caller's frame in place before dropping the label column into a new frame, and the returned frame lists Player and Season last. The model is a pure function over rows that are maps, so neither the in-place change nor the column order is modelled; the only caller rebinds the name to the result, so no result depends on them.
- Labels.SplitTable: a table is its rows, and its columns are those its rows hold, so a frame's header is not modelled apart from its rows. A frame with a `Player_Season` header and no rows is therefore `MissingLabelColumn` here, where pandas finds the label column and does not fail at that lookup.
- Labels.SplitTable: a label cell that is not text is reported as an error. pandas' `.str.rsplit` would give NaN there instead; this case does not arise for the tables the program reads.
- Decimal.ParseInt: only ASCII digits and ASCII whitespace are accepted. Python's `int()` also accepts other Unicode digits and spaces.
- Decimal.ParseInt: the limit on the length of an integer text (by default 4300 digits in current Python releases, configurable and absent in older ones) is not modelled, so `ParseInt`, `Decimal.ParseShow` and `Decimal.ParseIntDigits` accept texts of any length where Python raises ValueError. Season years and player ids have a handful of digits.
- `fetch_players_seasons` is a dict, so a name cannot repeat. The model takes a sequence of requests and allows repeats, so its results also cover a name requested twice.
- WorkedExample.SurroundingAverages: the example is stated for any values and any averaged stat. `Averaging.MeanExample` gives the concrete numbers (20 and 22 average to 21; 30 and 32 to 31).
