/** `split_player_season`: the combined "Player_Season" label of a table row
    is split on its LAST underscore (a player's name may hold underscores, a
    season never does) into a Player column and a Season column, and the
    combined column is dropped. */
module Labels {
  import opened Wrappers
  import opened Frames
  import Texts

  const Delimiter: char := '_'

  /** The unnamed first column that holds the combined label. */
  const LabelColumn: string := "Unnamed: 0"
  const PlayerColumn: string := "Player"
  const SeasonColumn: string := "Season"

  /** The two parts of one label; `season` is absent when the label holds no
      delimiter. */
  datatype Parts = Parts(player: string, season: Option<string>)

  /** `combined.rsplit('_', 1)`. */
  function SplitLabel(combined: string): (r: Parts)
    ensures r.season.Some? <==> Delimiter in combined
    ensures r.season.Some? ==> r.player + [Delimiter] + r.season.value == combined
    ensures r.season.Some? ==> Delimiter !in r.season.value
    ensures r.season.None? ==> r.player == combined
  {
    match Texts.LastIndex(combined, Delimiter)
    case None => Parts(combined, None)
    case Some(i) =>
      assert combined == combined[..i] + [Delimiter] + combined[i + 1..];
      Parts(combined[..i], Some(combined[i + 1..]))
  }

  /** The label `f'{player}_{season}'`. */
  function JoinLabel(player: string, season: string): string {
    player + [Delimiter] + season
  }

  /** Splitting a joined label gives back its parts exactly when the season
      holds no delimiter. */
  lemma SplitJoin(player: string, season: string)
    ensures SplitLabel(JoinLabel(player, season)) == Parts(player, Some(season)) <==> Delimiter !in season
  {
    var r := SplitLabel(JoinLabel(player, season));
    if Delimiter !in season {
      Texts.SplitAtLast(r.player, r.season.value, player, season, Delimiter);
    }
  }

  /** `astype(str)` of the season part: a label without delimiter leaves the
      part as None, which becomes the text "None". */
  function SeasonText(part: Option<string>): string {
    match part
    case Some(s) => s
    case None => "None"
  }

  /** Why the split cannot be performed on a table. */
  datatype SplitError =
    | MissingLabelColumn     // `df['Unnamed: 0']` raises KeyError
    | NonTextLabel(row: nat) // a label cell that is not text
    | NoSeasonColumn         // no label has a delimiter, so `split_df[1]` raises KeyError

  /** The label of a row, when it is text. */
  function Label(row: Row): Option<string> {
    match CellAt(row, LabelColumn)
    case Text(s) => Some(s)
    case _ => None
  }

  /** One row after the split: Player and Season set from its label, the
      label column gone, every other column as it was. */
  function SplitRow(row: Row, combined: string): (r: Row)
    ensures LabelColumn !in r
    ensures PlayerColumn in r && r[PlayerColumn] == Text(SplitLabel(combined).player)
    ensures SeasonColumn in r && r[SeasonColumn] == Text(SeasonText(SplitLabel(combined).season))
    ensures forall c | c != LabelColumn && c != PlayerColumn && c != SeasonColumn ::
              (c in r <==> c in row) && (c in row ==> r[c] == row[c])
  {
    var parts := SplitLabel(combined);
    (row[PlayerColumn := Text(parts.player)][SeasonColumn := Text(SeasonText(parts.season))]) - {LabelColumn}
  }

  /** Index of the first row whose combined is not text, if any. */
  function FirstNonText(rows: seq<Row>): (r: Option<nat>)
    ensures r.None? <==> forall i | 0 <= i < |rows| :: Label(rows[i]).Some?
    ensures r.Some? ==> r.value < |rows| && Label(rows[r.value]).None?
    ensures r.Some? ==> forall i | 0 <= i < r.value :: Label(rows[i]).Some?
  {
    if |rows| == 0 then None
    else
      var init := rows[..|rows| - 1];
      assert forall i | 0 <= i < |rows| - 1 :: init[i] == rows[i];
      match FirstNonText(init)
      case Some(i) => Some(i)
      case None => if Label(rows[|rows| - 1]).None? then Some(|rows| - 1) else None
  }

  /** Some row's combined holds a delimiter, so the split yields a second column. */
  ghost predicate HasSeasonPart(rows: seq<Row>)
    requires forall i | 0 <= i < |rows| :: Label(rows[i]).Some?
  {
    exists i | 0 <= i < |rows| :: Delimiter in Label(rows[i]).value
  }

  function AnySeasonPart(rows: seq<Row>): (b: bool)
    requires forall i | 0 <= i < |rows| :: Label(rows[i]).Some?
    ensures b <==> HasSeasonPart(rows)
  {
    if |rows| == 0 then false
    else
      var init := rows[..|rows| - 1];
      assert forall i | 0 <= i < |rows| - 1 :: init[i] == rows[i];
      AnySeasonPart(init) || Delimiter in Label(rows[|rows| - 1]).value
  }

  /** `split_player_season(df)`. */
  function SplitTable(rows: seq<Row>): (r: Result<seq<Row>, SplitError>)
    ensures LabelColumn !in Columns(rows) ==> r == Err(MissingLabelColumn)
    ensures r.Err? && r.error.NonTextLabel? ==>
              && r.error.row < |rows|
              && Label(rows[r.error.row]).None?
              && forall i | 0 <= i < r.error.row :: Label(rows[i]).Some?
    ensures r.Err? && r.error.NonTextLabel? <==>
              LabelColumn in Columns(rows) && exists i | 0 <= i < |rows| :: Label(rows[i]).None?
    ensures r == Err(NoSeasonColumn) <==>
              && LabelColumn in Columns(rows)
              && (forall i | 0 <= i < |rows| :: Label(rows[i]).Some?)
              && !HasSeasonPart(rows)
    ensures r.Ok? <==>
              && LabelColumn in Columns(rows)
              && (forall i | 0 <= i < |rows| :: Label(rows[i]).Some?)
              && HasSeasonPart(rows)
    ensures r.Ok? ==> |r.value| == |rows|
    ensures r.Ok? ==> forall i | 0 <= i < |rows| ::
                        r.value[i] == SplitRow(rows[i], Label(rows[i]).value)
  {
    if LabelColumn !in Columns(rows) then Err(MissingLabelColumn)
    else match FirstNonText(rows)
      case Some(i) => Err(NonTextLabel(i))
      case None =>
        if !AnySeasonPart(rows) then Err(NoSeasonColumn)
        else Ok(seq(|rows|, i requires 0 <= i < |rows| => SplitRow(rows[i], Label(rows[i]).value)))
  }
}
