/** The worked example of the averaging step: a player with rows in the two
    seasons before and the two seasons after a target season, and one row of
    another player in between. */
module WorkedExample {
  import opened Wrappers
  import opened Comparator

  /** The worked example: a player's points in the two seasons before the
      target season are averaged into the before entry (20 and 22 give 21),
      those of the two seasons after it into the after entry (30 and 32
      give 31); the other player's row is never read, whatever its season
      text. Stated for any averaged stat `k` the four rows hold. */
  lemma SurroundingAverages(r0: SeasonRow, r1: SeasonRow, other: SeasonRow, r3: SeasonRow, r4: SeasonRow,
                            player: string, target: SeasonRow, y: int, k: Stat)
    requires Surrounds(r0, r1, r3, r4, player, y) && other.player != player
    requires target.player == player && Year(target.season) == Ok(y)
    requires k in r0.values && k in r1.values && k in r3.values && k in r4.values
    ensures var r := CalculateAverages([r0, r1] + [other] + [r3, r4], [target]);
            && r.Ok?
            && r.value.before.entries[player][k] == Some((r0.values[k] + r1.values[k]) / 2.0)
            && r.value.after.entries[player][k] == Some((r3.values[k] + r4.values[k]) / 2.0)
  {
    SurroundingBeforeMean(r0, r1, other, r3, r4, player, target, y, k);
    SurroundingAfterMean(r0, r1, other, r3, r4, player, target, y, k);
  }

  lemma SurroundingBeforeMean(r0: SeasonRow, r1: SeasonRow, other: SeasonRow, r3: SeasonRow, r4: SeasonRow,
                              player: string, target: SeasonRow, y: int, k: Stat)
    requires Surrounds(r0, r1, r3, r4, player, y) && other.player != player
    requires target.player == player && Year(target.season) == Ok(y)
    requires k in r0.values && k in r1.values
    ensures var r := CalculateAverages([r0, r1] + [other] + [r3, r4], [target]);
            && r.Ok?
            && r.value.before.entries[player][k] == Some((r0.values[k] + r1.values[k]) / 2.0)
  {
    var rows := [r0, r1] + [other] + [r3, r4];
    SurroundingWindows(r0, r1, other, r3, r4, player, target, y);
    assert rows[0] == r0;
    MeansOfWindows(rows, target, y, [r0, r1], [r3, r4]);
    var m := CalculateAverages(rows, [target]).value.before.entries;
    EntryMeanOfTwo(r0, r1, m, player, k);
  }

  lemma SurroundingAfterMean(r0: SeasonRow, r1: SeasonRow, other: SeasonRow, r3: SeasonRow, r4: SeasonRow,
                             player: string, target: SeasonRow, y: int, k: Stat)
    requires Surrounds(r0, r1, r3, r4, player, y) && other.player != player
    requires target.player == player && Year(target.season) == Ok(y)
    requires k in r3.values && k in r4.values
    ensures var r := CalculateAverages([r0, r1] + [other] + [r3, r4], [target]);
            && r.Ok?
            && r.value.after.entries[player][k] == Some((r3.values[k] + r4.values[k]) / 2.0)
  {
    var rows := [r0, r1] + [other] + [r3, r4];
    SurroundingWindows(r0, r1, other, r3, r4, player, target, y);
    assert rows[0] == r0;
    MeansOfWindows(rows, target, y, [r0, r1], [r3, r4]);
    var m := CalculateAverages(rows, [target]).value.after.entries;
    EntryMeanOfTwo(r3, r4, m, player, k);
  }

  /** `MeanOfTwo` for the means a dict holds under a player. */
  lemma EntryMeanOfTwo(x: SeasonRow, y: SeasonRow, m: map<string, Means>, player: string, k: Stat)
    requires k in x.values && k in y.values
    requires player in m && m[player] == WindowMeans([x, y])
    ensures m[player][k] == Some((x.values[k] + y.values[k]) / 2.0)
  {
    MeanOfTwo(x, y, k);
  }
}
