/** `calculate_averages`: for each target row, the baseline rows of the same
    player are filtered into the two seasons before the target season and the
    two seasons after it, and each window is reduced to per-stat means. The
    results go into two player-keyed dicts, where a player listed twice in the
    target keeps the later row's result. */
module Comparator {
  import opened Wrappers
  import opened Decimal
  import opened Dicts
  import opened Averaging
  import Labels
  import Texts

  /** The four averaged stat columns. */
  datatype Stat = PTS | AST | REB | FG_PCT

  const AveragedStats: set<Stat> := {PTS, AST, REB, FG_PCT}

  /** A row of a split table: player, season text and the stats the row
      holds; a stat missing from `values` is NaN in the table. */
  datatype SeasonRow = SeasonRow(player: string, season: string, values: map<Stat, real>)

  /** The per-stat means of one window; `None` where pandas gives NaN. */
  type Means = map<Stat, Option<real>>

  /** The errors that abort the whole computation (neither is caught):
      - `BadSeason`: the ValueError raised by `int(...)` on a season that
        does not start with an integer;
      - `MissingColumns`: the KeyError raised when the stat columns are
        selected for a target player with no baseline row at all. Filtering
        an empty frame by `apply` gives an empty mask of object type, which
        pandas reads as an empty list of columns, so the window has no
        `PTS` column to select. */
  datatype CompareError = BadSeason(season: string) | MissingColumns(player: string)

  /** `s.split(c)[0]`: the text before the first `c`, or all of `s`. */
  function BeforeFirst(s: string, c: char): string {
    if |s| == 0 || s[0] == c then [] else [s[0]] + BeforeFirst(s[1..], c)
  }

  /** The text before the first `c` is a prefix of `s` free of `c`, and
      stops at a `c` or at the end. */
  lemma {:induction false} BeforeFirstShape(s: string, c: char)
    ensures var r := BeforeFirst(s, c);
            && c !in r
            && |r| <= |s| && r == s[..|r|]
            && (|r| < |s| ==> s[|r|] == c)
  {
    if |s| != 0 && s[0] != c {
      BeforeFirstShape(s[1..], c);
    }
  }

  lemma {:induction false} BeforeFirstOf(a: string, b: string, c: char)
    requires c !in a
    ensures BeforeFirst(a + [c] + b, c) == a
  {
    if |a| != 0 {
      assert (a + [c] + b)[1..] == a[1..] + [c] + b;
      BeforeFirstOf(a[1..], b, c);
    }
  }

  lemma {:induction false} BeforeFirstWhole(s: string, c: char)
    requires c !in s
    ensures BeforeFirst(s, c) == s
  {
    if |s| != 0 {
      BeforeFirstWhole(s[1..], c);
      assert [s[0]] + s[1..] == s;
    }
  }

  /** `int(season.split('-')[0])`. */
  function Year(season: string): (r: Result<int, CompareError>)
    ensures r.Err? ==> r.error == BadSeason(season)
  {
    match ParseInt(BeforeFirst(season, '-'))
    case Some(y) => Ok(y)
    case None => Err(BadSeason(season))
  }

  /** The year of a "YYYY-YY" season is the integer before the dash; a
      season without a dash is read whole. */
  lemma YearOfDigits(digits: string, rest: string)
    requires 0 < |digits| && AllDigits(digits)
    ensures Year(digits + "-" + rest) == Ok(ValueOf(digits))
    ensures Year(digits) == Ok(ValueOf(digits))
  {
    assert '-' !in digits by {
      assert forall i | 0 <= i < |digits| :: IsDigit(digits[i]);
    }
    ParseIntDigits(digits);
    assert BeforeFirst(digits + "-" + rest, '-') == digits by {
      BeforeFirstOf(digits, rest, '-');
    }
    assert BeforeFirst(digits, '-') == digits by {
      BeforeFirstWhole(digits, '-');
    }
  }

  /** The season text a label without delimiter is given, "None", is not a
      season: reading its year raises. */
  lemma NoneIsNotASeason()
    ensures Year(Labels.SeasonText(None)) == Err(BadSeason("None"))
  {
    assert BeforeFirst("None", '-') == "None";
    ParseIntRejects("None", 0);
  }

  /** Row `x` is one of `player`'s rows and its season's year is in `years`. */
  ghost predicate InWindow(x: SeasonRow, player: string, years: set<int>) {
    x.player == player && Year(x.season).Ok? && Year(x.season).value in years
  }

  /** Row `x` is another player's, or its season's year parses and is not in `years`. */
  ghost predicate OutOfWindow(x: SeasonRow, player: string, years: set<int>) {
    x.player != player || (Year(x.season).Ok? && Year(x.season).value !in years)
  }

  /** Row `x` belongs to `player` and its season does not parse. */
  ghost predicate BadRowOf(x: SeasonRow, player: string) {
    x.player == player && Year(x.season).Err?
  }

  /** Index of the first row of `player` whose season does not parse. */
  ghost function FirstBadRow(rows: seq<SeasonRow>, player: string): (r: Option<nat>)
    ensures r.None? <==> forall i | 0 <= i < |rows| :: !BadRowOf(rows[i], player)
    ensures r.Some? ==> r.value < |rows| && BadRowOf(rows[r.value], player)
    ensures r.Some? ==> forall j | 0 <= j < r.value :: !BadRowOf(rows[j], player)
  {
    if |rows| == 0 then None
    else
      var init := rows[..|rows| - 1];
      assert forall i | 0 <= i < |rows| - 1 :: init[i] == rows[i];
      match FirstBadRow(init, player)
      case Some(i) => Some(i)
      case None => if BadRowOf(rows[|rows| - 1], player) then Some(|rows| - 1) else None
  }

  /** `player_data[player_data['Season'].apply(lambda x: int(...) in years)]`
      where `player_data` is `rows` restricted to `player`: every row of the
      player has its season parsed, in order, and the first one that does
      not parse raises. */
  function SelectWindow(rows: seq<SeasonRow>, player: string, years: set<int>): (r: Result<seq<SeasonRow>, CompareError>)
    ensures r.Ok? ==> |r.value| <= |rows|
  {
    if |rows| == 0 then Ok([])
    else
      var x := rows[|rows| - 1];
      var w :- SelectWindow(rows[..|rows| - 1], player, years);
      if x.player != player then Ok(w)
      else
        var y :- Year(x.season);
        Ok(if y in years then w + [x] else w)
  }

  /** One row's part of a window: nothing for another player's row, the
      row itself when its year is selected, and the error when its season
      does not parse. */
  function SelectWindowOfOne(x: SeasonRow, player: string, years: set<int>): (r: Result<seq<SeasonRow>, CompareError>)
    ensures r.Ok? ==> |r.value| <= 1
  {
    if x.player != player then Ok([])
    else match Year(x.season)
      case Err(e) => Err(e)
      case Ok(y) => Ok(if y in years then [x] else [])
  }

  /** Selecting a window raises exactly when one of the player's rows has a
      season that does not parse, and then on the first such row. */
  lemma {:induction false} SelectWindowRaises(rows: seq<SeasonRow>, player: string, years: set<int>)
    ensures SelectWindow(rows, player, years).Ok? <==> FirstBadRow(rows, player).None?
    ensures SelectWindow(rows, player, years).Err? ==>
              SelectWindow(rows, player, years).error == BadSeason(rows[FirstBadRow(rows, player).value].season)
  {
    if |rows| != 0 {
      SelectWindowRaises(rows[..|rows| - 1], player, years);
    }
  }

  /** Whether a window raises does not depend on the years it selects. */
  lemma {:induction false} SameRaise(rows: seq<SeasonRow>, player: string, years: set<int>, years': set<int>)
    ensures SelectWindow(rows, player, years).Ok? <==> SelectWindow(rows, player, years').Ok?
  {
    if |rows| != 0 {
      SameRaise(rows[..|rows| - 1], player, years, years');
    }
  }

  /** The window holds exactly the player's rows whose year is in `years`. */
  lemma {:induction false} WindowMember(rows: seq<SeasonRow>, player: string, years: set<int>, x: SeasonRow)
    requires SelectWindow(rows, player, years).Ok?
    ensures x in SelectWindow(rows, player, years).value <==> x in rows && InWindow(x, player, years)
  {
    if |rows| != 0 {
      var init := rows[..|rows| - 1];
      assert rows == init + [rows[|rows| - 1]];
      WindowMember(init, player, years, x);
    }
  }

  /** Some row of `rows` belongs to `player`. */
  ghost predicate InBaseline(rows: seq<SeasonRow>, player: string) {
    exists i | 0 <= i < |rows| :: rows[i].player == player
  }

  /** The rows of `player`, in order (`baseline_df[baseline_df['Player'] == player]`). */
  function RowsOf(rows: seq<SeasonRow>, player: string): seq<SeasonRow> {
    if |rows| == 0 then []
    else
      var init := rows[..|rows| - 1];
      assert rows == init + [rows[|rows| - 1]];
      RowsOf(init, player) + (if rows[|rows| - 1].player == player then [rows[|rows| - 1]] else [])
  }

  /** The player's frame is empty exactly when no row belongs to the player. */
  lemma {:induction false} RowsOfEmpty(rows: seq<SeasonRow>, player: string)
    ensures RowsOf(rows, player) == [] <==> !InBaseline(rows, player)
  {
    if |rows| != 0 {
      var init := rows[..|rows| - 1];
      assert forall i | 0 <= i < |init| :: init[i] == rows[i];
      RowsOfEmpty(init, player);
      if InBaseline(init, player) {
        var i :| 0 <= i < |init| && init[i].player == player;
        assert rows[i].player == player;
      }
    }
  }

  /** Selecting a window of two concatenated tables selects from each in turn. */
  lemma {:induction false} SelectWindowAppend(a: seq<SeasonRow>, b: seq<SeasonRow>, player: string, years: set<int>)
    ensures SelectWindow(a + b, player, years) ==
              match SelectWindow(a, player, years)
              case Err(e) => Err(e)
              case Ok(wa) =>
                match SelectWindow(b, player, years)
                case Err(e) => Err(e)
                case Ok(wb) => Ok(wa + wb)
  {
    if |b| == 0 {
      assert a + b == a;
      if SelectWindow(a, player, years).Ok? {
        assert SelectWindow(a, player, years).value + [] == SelectWindow(a, player, years).value;
      }
    } else {
      var init := b[..|b| - 1];
      assert (a + b)[..|a + b| - 1] == a + init;
      assert (a + b)[|a + b| - 1] == b[|b| - 1];
      SelectWindowAppend(a, init, player, years);
      if SelectWindow(a, player, years).Ok? && SelectWindow(init, player, years).Ok? {
        var wa := SelectWindow(a, player, years).value;
        var wi := SelectWindow(init, player, years).value;
        assert wa + (wi + [b[|b| - 1]]) == (wa + wi) + [b[|b| - 1]];
      }
    }
  }

  /** Rows of other players are never looked at: the window, and the error
      if one is raised, are the same when the table is first restricted to
      the player. */
  lemma {:induction false} OtherPlayersIgnored(rows: seq<SeasonRow>, player: string, years: set<int>)
    ensures SelectWindow(rows, player, years) == SelectWindow(RowsOf(rows, player), player, years)
  {
    if |rows| != 0 {
      var init := rows[..|rows| - 1];
      var x := rows[|rows| - 1];
      OtherPlayersIgnored(init, player, years);
      var own := RowsOf(init, player);
      if x.player == player {
        var rs := own + [x];
        assert RowsOf(rows, player) == rs;
        assert rs[..|rs| - 1] == own && rs[|rs| - 1] == x;
      } else {
        assert RowsOf(rows, player) == own;
      }
    }
  }

  /** A row of another player, or one whose year parses to a year outside
      `years`, does not change the window, wherever it stands in the table. */
  lemma RowOutsideWindow(pre: seq<SeasonRow>, x: SeasonRow, post: seq<SeasonRow>, player: string, years: set<int>)
    requires x.player != player || (Year(x.season).Ok? && Year(x.season).value !in years)
    ensures SelectWindow(pre + [x] + post, player, years) == SelectWindow(pre + post, player, years)
  {
    SelectWindowAppend(pre + [x], post, player, years);
    SelectWindowAppend(pre, [x], player, years);
    SelectWindowAppend(pre, post, player, years);
    assert SelectWindow([x], player, years) == SelectWindowOfOne(x, player, years);
  }


  /** The values of stat `k` in `rows`, in order, skipping the rows where it
      is NaN (pandas' `mean()` skips NaN). */
  function StatValues(rows: seq<SeasonRow>, k: Stat): (xs: seq<real>)
    ensures |xs| <= |rows|
  {
    if |rows| == 0 then []
    else
      var x := rows[|rows| - 1];
      StatValues(rows[..|rows| - 1], k) + (if k in x.values then [x.values[k]] else [])
  }

  /** No value is collected exactly when no row holds the stat. */
  lemma {:induction false} StatValuesEmpty(rows: seq<SeasonRow>, k: Stat)
    ensures |StatValues(rows, k)| == 0 <==> forall i | 0 <= i < |rows| :: k !in rows[i].values
  {
    if |rows| != 0 {
      var init := rows[..|rows| - 1];
      assert forall i | 0 <= i < |init| :: init[i] == rows[i];
      StatValuesEmpty(init, k);
    }
  }

  /** When every row holds the stat, the values are the rows' values, in order. */
  lemma {:induction false} StatValuesAll(rows: seq<SeasonRow>, k: Stat)
    requires forall i | 0 <= i < |rows| :: k in rows[i].values
    ensures |StatValues(rows, k)| == |rows|
    ensures forall i | 0 <= i < |rows| :: StatValues(rows, k)[i] == rows[i].values[k]
  {
    if |rows| != 0 {
      var init := rows[..|rows| - 1];
      assert forall i | 0 <= i < |init| :: init[i] == rows[i];
      StatValuesAll(init, k);
    }
  }

  /** Every value collected is the stat's value in some row, so bounds on the
      rows carry over. */
  lemma {:induction false} StatValuesWithin(rows: seq<SeasonRow>, k: Stat, lo: real, hi: real)
    requires forall i | 0 <= i < |rows| && k in rows[i].values :: lo <= rows[i].values[k] <= hi
    ensures forall j | 0 <= j < |StatValues(rows, k)| :: lo <= StatValues(rows, k)[j] <= hi
  {
    if |rows| != 0 {
      var init := rows[..|rows| - 1];
      assert forall i | 0 <= i < |init| :: init[i] == rows[i];
      StatValuesWithin(init, k, lo, hi);
    }
  }

  /** `window[['PTS', 'AST', 'REB', 'FG_PCT']].mean()`. */
  function WindowMeans(rows: seq<SeasonRow>): (m: Means)
    ensures m.Keys == AveragedStats
  {
    map k | k in AveragedStats :: Mean(StatValues(rows, k))
  }

  /** A stat has a mean exactly when some row of the window holds it (an
      empty window has no mean for any stat). */
  lemma WindowMeanDefined(rows: seq<SeasonRow>, k: Stat)
    ensures WindowMeans(rows)[k].None? <==> forall i | 0 <= i < |rows| :: k !in rows[i].values
  {
    assert k in AveragedStats;
    assert WindowMeans(rows)[k] == Mean(StatValues(rows, k));
    StatValuesEmpty(rows, k);
  }

  /** With every row of a non-empty window holding the stat, its mean is the
      sum over the rows divided by their number. */
  lemma WindowMeanValue(rows: seq<SeasonRow>, k: Stat)
    requires 0 < |rows|
    requires forall i | 0 <= i < |rows| :: k in rows[i].values
    ensures |StatValues(rows, k)| == |rows|
    ensures WindowMeans(rows)[k] == Some(Sum(StatValues(rows, k)) / (|rows| as real))
    ensures WindowMeans(rows)[k] == Some(Sum(seq(|rows|, i requires 0 <= i < |rows| => rows[i].values[k])) / (|rows| as real))
  {
    assert k in AveragedStats;
    assert WindowMeans(rows)[k] == Mean(StatValues(rows, k));
    StatValuesAll(rows, k);
    assert StatValues(rows, k) == seq(|rows|, i requires 0 <= i < |rows| => rows[i].values[k]);
  }

  /** A window mean lies between the least and the greatest value averaged. */
  lemma WindowMeanBounds(rows: seq<SeasonRow>, k: Stat, lo: real, hi: real)
    requires forall i | 0 <= i < |rows| && k in rows[i].values :: lo <= rows[i].values[k] <= hi
    requires WindowMeans(rows)[k].Some?
    ensures lo <= WindowMeans(rows)[k].value <= hi
  {
    assert k in AveragedStats;
    var xs := StatValues(rows, k);
    assert WindowMeans(rows)[k] == Mean(xs);
    StatValuesWithin(rows, k, lo, hi);
    MeanBounds(xs, lo, hi);
  }

  function BeforeYears(y: int): set<int> {
    {y - 2, y - 1}
  }

  function AfterYears(y: int): set<int> {
    {y + 1, y + 2}
  }

  /** The target year of a target row and its two windows. */
  datatype Windows = Windows(year: int, before: seq<SeasonRow>, after: seq<SeasonRow>)

  /** Every row of `player` in `baseline` has a season whose year parses. */
  ghost predicate SeasonsParse(baseline: seq<SeasonRow>, player: string) {
    forall i | 0 <= i < |baseline| :: !BadRowOf(baseline[i], player)
  }

  /** The target-season parse and the two window filters, for one target
      row. The target season is parsed first, then the seasons of the
      player's baseline rows, in order; the first that does not parse
      raises. */
  function TargetWindows(baseline: seq<SeasonRow>, target: SeasonRow): (r: Result<Windows, CompareError>)
    ensures Year(target.season).Err? ==> r == Err(BadSeason(target.season))
    ensures r.Ok? ==> r.value.year == Year(target.season).value
  {
    var y :- Year(target.season);
    var before :- SelectWindow(baseline, target.player, BeforeYears(y));
    // The after filter parses the same seasons as the before filter, so it
    // cannot raise once that one has not.
    SameRaise(baseline, target.player, BeforeYears(y), AfterYears(y));
    var after := SelectWindow(baseline, target.player, AfterYears(y)).value;
    Ok(Windows(y, before, after))
  }

  /** One target row raises exactly when its own season, or a season of one
      of its player's baseline rows, does not parse; the target season is
      read first, then the baseline rows in order. */
  lemma TargetWindowsRaises(baseline: seq<SeasonRow>, target: SeasonRow)
    ensures TargetWindows(baseline, target).Ok? <==> Year(target.season).Ok? && SeasonsParse(baseline, target.player)
    ensures Year(target.season).Ok? && TargetWindows(baseline, target).Err? ==>
              TargetWindows(baseline, target).error == BadSeason(baseline[FirstBadRow(baseline, target.player).value].season)
  {
    if Year(target.season).Ok? {
      SelectWindowRaises(baseline, target.player, BeforeYears(Year(target.season).value));
    }
  }

  /** The before window holds exactly the player's rows of the two preceding
      years, the after window exactly those of the two following years. */
  lemma WindowsExact(baseline: seq<SeasonRow>, target: SeasonRow, x: SeasonRow)
    requires TargetWindows(baseline, target).Ok?
    ensures var w := TargetWindows(baseline, target).value;
            x in w.before <==> x in baseline && InWindow(x, target.player, BeforeYears(w.year))
    ensures var w := TargetWindows(baseline, target).value;
            x in w.after <==> x in baseline && InWindow(x, target.player, AfterYears(w.year))
  {
    var y := Year(target.season).value;
    SameRaise(baseline, target.player, BeforeYears(y), AfterYears(y));
    WindowMember(baseline, target.player, BeforeYears(y), x);
    WindowMember(baseline, target.player, AfterYears(y), x);
  }

  /** No row is in both windows, and rows of the target year are in neither. */
  lemma WindowsDisjoint(baseline: seq<SeasonRow>, target: SeasonRow, x: SeasonRow)
    requires TargetWindows(baseline, target).Ok?
    ensures var w := TargetWindows(baseline, target).value;
            !(x in w.before && x in w.after)
    ensures var w := TargetWindows(baseline, target).value;
            Year(x.season) == Ok(w.year) ==> x !in w.before && x !in w.after
  {
    var w := TargetWindows(baseline, target).value;
    var y := w.year;
    WindowsExact(baseline, target, x);
    if x in w.before {
      var v := Year(x.season).value;
      assert v in BeforeYears(y);
      assert v !in AfterYears(y) && v != y;
    } else if x in w.after {
      var v := Year(x.season).value;
      assert v in AfterYears(y);
      assert v != y;
    }
  }

  /** The result of one iteration of the loop: the player and the two rows of means. */
  datatype Comparison = Comparison(player: string, before: Means, after: Means)

  /** One iteration of the loop: the windows are formed (a season error
      comes first), then the stat columns are selected, which raises for a
      player absent from the baseline. A player whose rows all miss the
      window gets NaN means instead. */
  function Compare(baseline: seq<SeasonRow>, target: SeasonRow): (r: Result<Comparison, CompareError>)
    ensures r.Ok? <==> TargetWindows(baseline, target).Ok? && InBaseline(baseline, target.player)
    ensures TargetWindows(baseline, target).Err? ==> r == Err(TargetWindows(baseline, target).error)
    ensures TargetWindows(baseline, target).Ok? && !InBaseline(baseline, target.player) ==>
              r == Err(MissingColumns(target.player))
    ensures r.Ok? ==> r.value.player == target.player
  {
    var w :- TargetWindows(baseline, target);
    RowsOfEmpty(baseline, target.player);
    if RowsOf(baseline, target.player) == [] then Err(MissingColumns(target.player))
    else Ok(Comparison(target.player, WindowMeans(w.before), WindowMeans(w.after)))
  }

  /** A returned comparison holds the means of the two windows. */
  lemma CompareValue(baseline: seq<SeasonRow>, target: SeasonRow)
    requires Compare(baseline, target).Ok?
    ensures TargetWindows(baseline, target).Ok?
    ensures var w := TargetWindows(baseline, target).value;
            Compare(baseline, target).value == Comparison(target.player, WindowMeans(w.before), WindowMeans(w.after))
  {
  }

  /** One comparison per target row, in order. */
  function Comparisons(baseline: seq<SeasonRow>, targets: seq<SeasonRow>): (rs: seq<Result<Comparison, CompareError>>)
    ensures |rs| == |targets| && forall i | 0 <= i < |targets| :: rs[i] == Compare(baseline, targets[i])
  {
    seq(|targets|, i requires 0 <= i < |targets| => Compare(baseline, targets[i]))
  }

  function BeforeWrites(cs: seq<Comparison>): (ws: seq<(string, Means)>)
    ensures |ws| == |cs| && forall i | 0 <= i < |cs| :: ws[i] == (cs[i].player, cs[i].before)
  {
    seq(|cs|, i requires 0 <= i < |cs| => (cs[i].player, cs[i].before))
  }

  function AfterWrites(cs: seq<Comparison>): (ws: seq<(string, Means)>)
    ensures |ws| == |cs| && forall i | 0 <= i < |cs| :: ws[i] == (cs[i].player, cs[i].after)
  {
    seq(|cs|, i requires 0 <= i < |cs| => (cs[i].player, cs[i].after))
  }

  /** The players named by the target rows. */
  function TargetPlayers(targets: seq<SeasonRow>): set<string> {
    set i | 0 <= i < |targets| :: targets[i].player
  }

  /** The `before_averages` and `after_averages` dicts. */
  datatype WindowAverages = WindowAverages(before: Dict<string, Means>, after: Dict<string, Means>)

  /** `calculate_averages(baseline_df, target_df)`: it returns exactly when
      every target season and every baseline season of a target player
      parses and every target player has a baseline row; otherwise the
      first target row that raises decides the error. */
  function CalculateAverages(baseline: seq<SeasonRow>, targets: seq<SeasonRow>): Result<WindowAverages, CompareError> {
    var cs :- Collect(Comparisons(baseline, targets));
    Ok(WindowAverages(PutAll(BeforeWrites(cs)), PutAll(AfterWrites(cs))))
  }

  /** The computation returns exactly when every target season and every
      baseline season of a target player parses, and every target player
      has a baseline row; otherwise the first target row that raises
      decides the error. */
  lemma CalculateAveragesRaises(baseline: seq<SeasonRow>, targets: seq<SeasonRow>)
    ensures CalculateAverages(baseline, targets).Ok? <==>
              forall i | 0 <= i < |targets| ::
                Year(targets[i].season).Ok? && SeasonsParse(baseline, targets[i].player) && InBaseline(baseline, targets[i].player)
    ensures CalculateAverages(baseline, targets).Err? ==>
              var i := FirstFailure(Comparisons(baseline, targets)).value;
              i < |targets| && CalculateAverages(baseline, targets).error == Compare(baseline, targets[i]).error
  {
    forall i | 0 <= i < |targets|
      ensures Compare(baseline, targets[i]).Ok? <==>
                Year(targets[i].season).Ok? && SeasonsParse(baseline, targets[i].player) && InBaseline(baseline, targets[i].player)
    {
      TargetWindowsRaises(baseline, targets[i]);
    }
  }

  /** The players of the target rows, in order. */
  function PlayersOf(targets: seq<SeasonRow>): (ps: seq<string>)
    ensures |ps| == |targets| && forall i | 0 <= i < |targets| :: ps[i] == targets[i].player
  {
    seq(|targets|, i requires 0 <= i < |targets| => targets[i].player)
  }

  /** Index of the last target row of `player`. */
  function LastRowOf(targets: seq<SeasonRow>, player: string): (r: Option<nat>)
    ensures r.None? <==> forall i | 0 <= i < |targets| :: targets[i].player != player
    ensures r.Some? ==> r.value < |targets| && targets[r.value].player == player
    ensures r.Some? ==> forall j | r.value < j < |targets| :: targets[j].player != player
  {
    Texts.LastIndex(PlayersOf(targets), player)
  }

  /** A run that did not raise collected one comparison per target row,
      each naming that row's player, and wrote them in order. */
  lemma Unfold(baseline: seq<SeasonRow>, targets: seq<SeasonRow>) returns (cs: seq<Comparison>)
    requires CalculateAverages(baseline, targets).Ok?
    ensures |cs| == |targets|
    ensures forall i | 0 <= i < |targets| :: Compare(baseline, targets[i]) == Ok(cs[i])
    ensures forall i | 0 <= i < |targets| :: cs[i].player == targets[i].player
    ensures CalculateAverages(baseline, targets).value == WindowAverages(PutAll(BeforeWrites(cs)), PutAll(AfterWrites(cs)))
  {
    cs := Collect(Comparisons(baseline, targets)).value;
  }

  /** The players a run of comparisons writes, as a set and in order. */
  lemma WrittenPlayers(cs: seq<Comparison>, targets: seq<SeasonRow>)
    requires |cs| == |targets|
    requires forall i | 0 <= i < |targets| :: cs[i].player == targets[i].player
    ensures PutAll(BeforeWrites(cs)).entries.Keys == TargetPlayers(targets)
    ensures PutAll(AfterWrites(cs)).entries.Keys == TargetPlayers(targets)
    ensures KeysOf(BeforeWrites(cs)) == PlayersOf(targets)
    ensures KeysOf(AfterWrites(cs)) == PlayersOf(targets)
  {
    var bw, aw := BeforeWrites(cs), AfterWrites(cs);
    assert KeysOf(bw) == PlayersOf(targets) && KeysOf(aw) == PlayersOf(targets);
    PutAllKeys(bw);
    PutAllKeys(aw);
    assert forall p :: p in TargetPlayers(targets) <==> p in PlayersOf(targets);
  }

  /** Both dicts have exactly one key per distinct target player. */
  lemma OutputKeys(baseline: seq<SeasonRow>, targets: seq<SeasonRow>)
    requires CalculateAverages(baseline, targets).Ok?
    ensures CalculateAverages(baseline, targets).value.before.entries.Keys == TargetPlayers(targets)
    ensures CalculateAverages(baseline, targets).value.after.entries.Keys == TargetPlayers(targets)
  {
    var cs := Unfold(baseline, targets);
    WrittenPlayers(cs, targets);
  }

  /** Both dicts list the players in the order of their first target row, a
      player listed again keeping its place. */
  lemma OutputOrder(baseline: seq<SeasonRow>, targets: seq<SeasonRow>)
    requires CalculateAverages(baseline, targets).Ok?
    ensures CalculateAverages(baseline, targets).value.before.order == FirstSeen(PlayersOf(targets))
    ensures CalculateAverages(baseline, targets).value.after.order == FirstSeen(PlayersOf(targets))
  {
    var cs := Unfold(baseline, targets);
    WrittenPlayers(cs, targets);
    OrderIsFirstSeen(BeforeWrites(cs));
    OrderIsFirstSeen(AfterWrites(cs));
  }

  /** A player's entries are the means of the windows of the player's last
      target row: an earlier row of the same player is overwritten. */
  lemma LastTargetWins(baseline: seq<SeasonRow>, targets: seq<SeasonRow>, player: string)
    requires CalculateAverages(baseline, targets).Ok?
    requires LastRowOf(targets, player).Some?
    ensures var r := CalculateAverages(baseline, targets).value;
            var w := TargetWindows(baseline, targets[LastRowOf(targets, player).value]);
            && w.Ok?
            && player in r.before.entries && r.before.entries[player] == WindowMeans(w.value.before)
            && player in r.after.entries && r.after.entries[player] == WindowMeans(w.value.after)
  {
    var i := LastRowOf(targets, player).value;
    var cs := Unfold(baseline, targets);
    CompareValue(baseline, targets[i]);
    LastWriteOf(cs, targets, player, i);
  }

  /** In the dicts written from `cs`, a player holds the means of the
      comparison of the player's last target row. */
  lemma LastWriteOf(cs: seq<Comparison>, targets: seq<SeasonRow>, player: string, i: nat)
    requires |cs| == |targets|
    requires forall j | 0 <= j < |targets| :: cs[j].player == targets[j].player
    requires LastRowOf(targets, player) == Some(i)
    ensures player in PutAll(BeforeWrites(cs)).entries && PutAll(BeforeWrites(cs)).entries[player] == cs[i].before
    ensures player in PutAll(AfterWrites(cs)).entries && PutAll(AfterWrites(cs)).entries[player] == cs[i].after
  {
    WrittenPlayers(cs, targets);
    LastWriteIsLastKey(BeforeWrites(cs), player);
    LastWriteIsLastKey(AfterWrites(cs), player);
  }


  /** One target row's result depends on the baseline only through the rows
      of its own player. */
  lemma CompareReadsOwnRows(b1: seq<SeasonRow>, b2: seq<SeasonRow>, target: SeasonRow)
    requires RowsOf(b1, target.player) == RowsOf(b2, target.player)
    ensures Compare(b1, target) == Compare(b2, target)
  {
    if Year(target.season).Ok? {
      var y := Year(target.season).value;
      OtherPlayersIgnored(b1, target.player, BeforeYears(y));
      OtherPlayersIgnored(b2, target.player, BeforeYears(y));
      OtherPlayersIgnored(b1, target.player, AfterYears(y));
      OtherPlayersIgnored(b2, target.player, AfterYears(y));
    }
  }

  /** Baseline rows of players absent from the target are never read: two
      baselines that agree on the target players' rows give the same result,
      the same error included, even where other players' seasons do not parse. */
  lemma OtherPlayersNeverRead(b1: seq<SeasonRow>, b2: seq<SeasonRow>, targets: seq<SeasonRow>)
    requires forall i | 0 <= i < |targets| :: RowsOf(b1, targets[i].player) == RowsOf(b2, targets[i].player)
    ensures CalculateAverages(b1, targets) == CalculateAverages(b2, targets)
  {
    forall i | 0 <= i < |targets|
      ensures Compare(b1, targets[i]) == Compare(b2, targets[i])
    {
      CompareReadsOwnRows(b1, b2, targets[i]);
    }
    assert Comparisons(b1, targets) == Comparisons(b2, targets);
  }

  /** `str(y)`, a dash and anything after it is a season of year `y`. */
  lemma SeasonYearOf(y: nat, rest: string)
    ensures Year(ShowNat(y) + "-" + rest) == Ok(y)
  {
    YearOfDigits(ShowNat(y), rest);
    ValueOfShowNat(y);
  }

  /** The 2020-21 season is read as year 2020. */
  lemma SeasonYearExample()
    ensures Year("2020-21") == Ok(2020)
  {
    assert "2020-21" == ShowNat(2020) + "-" + "21";
    SeasonYearOf(2020, "21");
  }

  /** Two values of a stat average to their midpoint. */
  lemma MeanOfTwo(x: SeasonRow, y: SeasonRow, k: Stat)
    requires k in x.values && k in y.values
    ensures WindowMeans([x, y])[k] == Some((x.values[k] + y.values[k]) / 2.0)
  {
    StatValuesAll([x, y], k);
    assert StatValues([x, y], k) == [x.values[k], y.values[k]];
    Averaging.MeanOfTwo(x.values[k], y.values[k]);
    assert k in AveragedStats;
  }

  /** A table whose rows are all in the window is selected whole. */
  lemma {:induction false} SelectAll(rows: seq<SeasonRow>, player: string, years: set<int>)
    requires forall i | 0 <= i < |rows| :: InWindow(rows[i], player, years)
    ensures SelectWindow(rows, player, years) == Ok(rows)
  {
    if |rows| != 0 {
      var init := rows[..|rows| - 1];
      assert forall i | 0 <= i < |init| :: init[i] == rows[i];
      SelectAll(init, player, years);
      assert init + [rows[|rows| - 1]] == rows;
    }
  }

  /** A table none of whose rows is in the window, and none of which
      raises, selects nothing. */
  lemma {:induction false} SelectNone(rows: seq<SeasonRow>, player: string, years: set<int>)
    requires forall i | 0 <= i < |rows| :: OutOfWindow(rows[i], player, years)
    ensures SelectWindow(rows, player, years) == Ok([])
  {
    if |rows| != 0 {
      var init := rows[..|rows| - 1];
      assert forall i | 0 <= i < |init| :: init[i] == rows[i];
      SelectNone(init, player, years);
    }
  }

  lemma SelectWindowConcat(a: seq<SeasonRow>, b: seq<SeasonRow>, player: string, years: set<int>, wa: seq<SeasonRow>, wb: seq<SeasonRow>)
    requires SelectWindow(a, player, years) == Ok(wa)
    requires SelectWindow(b, player, years) == Ok(wb)
    ensures SelectWindow(a + b, player, years) == Ok(wa + wb)
  {
    SelectWindowAppend(a, b, player, years);
  }

  /** The single-target result, in terms of the two windows found. */
  lemma MeansOfWindows(rows: seq<SeasonRow>, target: SeasonRow, y: int, before: seq<SeasonRow>, after: seq<SeasonRow>)
    requires TargetWindows(rows, target) == Ok(Windows(y, before, after))
    requires InBaseline(rows, target.player)
    ensures var r := CalculateAverages(rows, [target]);
            && r.Ok?
            && target.player in r.value.before.entries && r.value.before.entries[target.player] == WindowMeans(before)
            && target.player in r.value.after.entries && r.value.after.entries[target.player] == WindowMeans(after)
  {
    SingleTarget(rows, target);
  }

  /** With a single target row whose windows can be formed, the result
      holds that row's window means under its player when the player has a
      baseline row, and is the KeyError otherwise. */
  lemma SingleTarget(baseline: seq<SeasonRow>, target: SeasonRow)
    requires TargetWindows(baseline, target).Ok?
    ensures CalculateAverages(baseline, [target]).Ok? <==> InBaseline(baseline, target.player)
    ensures !InBaseline(baseline, target.player) ==>
              CalculateAverages(baseline, [target]) == Err(MissingColumns(target.player))
    ensures var r := CalculateAverages(baseline, [target]);
            var w := TargetWindows(baseline, target).value;
            r.Ok? ==>
              && target.player in r.value.before.entries && r.value.before.entries[target.player] == WindowMeans(w.before)
              && target.player in r.value.after.entries && r.value.after.entries[target.player] == WindowMeans(w.after)
  {
    if !InBaseline(baseline, target.player) {
      var rs: seq<Result<Comparison, CompareError>> := [Err(MissingColumns(target.player))];
      assert Comparisons(baseline, [target]) == rs;
      assert FirstFailure(rs) == Some(0);
      return;
    }
    var c := Compare(baseline, target).value;
    var rs: seq<Result<Comparison, CompareError>> := [Ok(c)];
    assert Comparisons(baseline, [target]) == rs;
    assert FirstFailure(rs) == None;
    LastTargetWins(baseline, [target], target.player);
  }

  /** The rows of the worked example: `r0` and `r1` are `player`'s rows
      from the two seasons before year `y`, `r3` and `r4` those from the two
      seasons after it. */
  predicate Surrounds(r0: SeasonRow, r1: SeasonRow, r3: SeasonRow, r4: SeasonRow, player: string, y: int) {
    && r0.player == player && Year(r0.season) == Ok(y - 2)
    && r1.player == player && Year(r1.season) == Ok(y - 1)
    && r3.player == player && Year(r3.season) == Ok(y + 1)
    && r4.player == player && Year(r4.season) == Ok(y + 2)
  }

  lemma SelectBoth(a: SeasonRow, b: SeasonRow, player: string, years: set<int>)
    requires InWindow(a, player, years) && InWindow(b, player, years)
    ensures SelectWindow([a, b], player, years) == Ok([a, b])
  {
    SelectAll([a, b], player, years);
  }

  lemma SelectNoneOfThree(a: SeasonRow, b: SeasonRow, c: SeasonRow, player: string, years: set<int>)
    requires OutOfWindow(a, player, years) && OutOfWindow(b, player, years) && OutOfWindow(c, player, years)
    ensures SelectWindow([a, b, c], player, years) == Ok([])
  {
    SelectNone([a, b, c], player, years);
  }

  lemma SurroundingBefore(r0: SeasonRow, r1: SeasonRow, other: SeasonRow, r3: SeasonRow, r4: SeasonRow, player: string, y: int)
    requires Surrounds(r0, r1, r3, r4, player, y) && other.player != player
    ensures SelectWindow([r0, r1] + [other] + [r3, r4], player, BeforeYears(y)) == Ok([r0, r1])
  {
    var ys := BeforeYears(y);
    var rest := [other, r3, r4];
    calc {
      SelectWindow([r0, r1] + [other] + [r3, r4], player, ys);
      { assert [r0, r1] + [other] + [r3, r4] == [r0, r1] + rest; }
      SelectWindow([r0, r1] + rest, player, ys);
      { assert InWindow(r0, player, ys) && InWindow(r1, player, ys);
        SelectBoth(r0, r1, player, ys);
        assert OutOfWindow(other, player, ys) && OutOfWindow(r3, player, ys) && OutOfWindow(r4, player, ys);
        SelectNoneOfThree(other, r3, r4, player, ys);
        SelectWindowConcat([r0, r1], rest, player, ys, [r0, r1], []); }
      Ok([r0, r1] + []);
      { assert [r0, r1] + [] == [r0, r1]; }
      Ok([r0, r1]);
    }
  }

  lemma SurroundingAfter(r0: SeasonRow, r1: SeasonRow, other: SeasonRow, r3: SeasonRow, r4: SeasonRow, player: string, y: int)
    requires Surrounds(r0, r1, r3, r4, player, y) && other.player != player
    ensures SelectWindow([r0, r1] + [other] + [r3, r4], player, AfterYears(y)) == Ok([r3, r4])
  {
    var ys := AfterYears(y);
    var first := [r0, r1, other];
    calc {
      SelectWindow([r0, r1] + [other] + [r3, r4], player, ys);
      { assert [r0, r1] + [other] + [r3, r4] == first + [r3, r4]; }
      SelectWindow(first + [r3, r4], player, ys);
      { assert OutOfWindow(r0, player, ys) && OutOfWindow(r1, player, ys) && OutOfWindow(other, player, ys);
        SelectNoneOfThree(r0, r1, other, player, ys);
        assert InWindow(r3, player, ys) && InWindow(r4, player, ys);
        SelectBoth(r3, r4, player, ys);
        SelectWindowConcat(first, [r3, r4], player, ys, [], [r3, r4]); }
      Ok([] + [r3, r4]);
      { assert [] + [r3, r4] == [r3, r4]; }
      Ok([r3, r4]);
    }
  }

  lemma SurroundingWindows(r0: SeasonRow, r1: SeasonRow, other: SeasonRow, r3: SeasonRow, r4: SeasonRow,
                           player: string, target: SeasonRow, y: int)
    requires Surrounds(r0, r1, r3, r4, player, y) && other.player != player
    requires target.player == player && Year(target.season) == Ok(y)
    ensures TargetWindows([r0, r1] + [other] + [r3, r4], target) == Ok(Windows(y, [r0, r1], [r3, r4]))
  {
    SurroundingBefore(r0, r1, other, r3, r4, player, y);
    SurroundingAfter(r0, r1, other, r3, r4, player, y);
  }
}
