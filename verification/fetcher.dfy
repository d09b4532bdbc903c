/** `fetch_and_process_player_data` and `fetch_data`: for each requested
    player and season a game log is obtained from the stats provider,
    checked (empty, missing values, non-numeric columns, in that order) and
    reduced to per-stat means; the means of each passing (player, season)
    pair are stored under the key `f'{name}_{season}'`, and every failing
    pair only leaves a message behind.

    The provider is not part of this model: the name lookup and the game-log
    request are function parameters, and a request that fails outright is an
    error that ends the run, as an exception from the client would. */
module Fetcher {
  import opened Wrappers
  import opened Frames
  import opened Dicts
  import opened Averaging
  import Decimal
  import Labels
  import Texts

  /** One game per row, as the provider's first data frame holds them. */
  type GameLog = seq<Row>

  /** The three reasons a pair is skipped. */
  datatype Problem = NoData | MissingData | WrongTypes

  /** What `fetch_and_process_player_data` returns: a dict of means, or a
      message saying why there is none. */
  datatype Processed = Averages(values: map<string, real>) | Diagnostic(message: string)

  /** Failures that escape the run instead of being reported as a message:
      a requested stat that is no column of a non-empty frame (pandas raises
      KeyError on `df[target_stats]`), and a provider request that fails. */
  datatype FetchError = UnknownColumns | TransportFailure

  function Lead(p: Problem): string {
    match p
    case NoData => "No data available for player ID "
    case MissingData => "Missing data for player ID "
    case WrongTypes => "Incorrect data types for player ID "
  }

  /** The message of a skipped pair; the id is written as `str` writes it. */
  function Message(p: Problem, id: int, season: string): string {
    Lead(p) + Decimal.Show(id) + " in the " + season + " season."
  }

  /** `df.empty`: no rows, or no columns. */
  predicate IsEmptyFrame(log: GameLog) {
    |log| == 0 || Columns(log) == {}
  }

  /** Some requested stat names no column of the frame. */
  predicate MissingColumn(log: GameLog, stats: seq<string>) {
    exists k | k in stats :: k !in Columns(log)
  }

  /** `df[target_stats].isnull().values.any()`: a game lacks a requested
      stat (a row without the column is filled with a missing value). */
  predicate HasNull(log: GameLog, stats: seq<string>) {
    exists i, k | 0 <= i < |log| && k in stats :: CellAt(log[i], k).Null?
  }

  /** `is_numeric_dtype(df[k])` for a column without missing values: every
      game holds a number there. */
  predicate IsNumericColumn(log: GameLog, k: string) {
    forall i | 0 <= i < |log| :: CellAt(log[i], k).Num?
  }

  predicate AllNumeric(log: GameLog, stats: seq<string>) {
    forall k | k in stats :: IsNumericColumn(log, k)
  }

  /** The values of a numeric column, one per game, in game order. */
  function ColumnValues(log: GameLog, k: string): (vs: seq<real>)
    requires IsNumericColumn(log, k)
    ensures |vs| == |log| && forall i | 0 <= i < |log| :: Num(vs[i]) == CellAt(log[i], k)
  {
    seq(|log|, i requires 0 <= i < |log| => CellAt(log[i], k).x)
  }

  /** `fetch_and_process_player_data` once the game log is at hand. */
  function ProcessGameLog(id: int, season: string, stats: seq<string>, log: GameLog): Result<Processed, FetchError> {
    if IsEmptyFrame(log) then Ok(Diagnostic(Message(NoData, id, season)))
    else if MissingColumn(log, stats) then Err(UnknownColumns)
    else if HasNull(log, stats) then Ok(Diagnostic(Message(MissingData, id, season)))
    else if !AllNumeric(log, stats) then Ok(Diagnostic(Message(WrongTypes, id, season)))
    else Ok(Averages(GameAverages(log, stats)))
  }

  /** `{stat: df[stat].mean() for stat in target_stats}` for a non-empty log
      whose requested columns are numeric. */
  function GameAverages(log: GameLog, stats: seq<string>): map<string, real>
    requires 0 < |log| && AllNumeric(log, stats)
  {
    map k | k in stats :: Mean(ColumnValues(log, k)).value
  }

  /** The three messages never coincide: their first letters differ. */
  lemma MessagesDiffer(p: Problem, q: Problem, id: int, id': int, season: string, season': string)
    requires p != q
    ensures Message(p, id, season) != Message(q, id', season')
  {
    assert Message(p, id, season)[0] == Lead(p)[0];
    assert Message(q, id', season')[0] == Lead(q)[0];
  }

  /** A message names its problem, player id and season: reading them back
      is unambiguous. */
  lemma MessageInjective(p: Problem, q: Problem, id: int, id': int, season: string, season': string)
    requires Message(p, id, season) == Message(q, id', season')
    ensures p == q && id == id' && season == season'
  {
    if p != q {
      MessagesDiffer(p, q, id, id', season, season');
    }
    var show := Decimal.Show(id);
    var show' := Decimal.Show(id');
    assert show + [' '] + Tail(season) == show' + [' '] + Tail(season') by {
      MessageShape(p, id, season);
      MessageShape(p, id', season');
      Texts.DropPrefix(Lead(p), show + [' '] + Tail(season), show' + [' '] + Tail(season'));
    }
    assert show == show' && Tail(season) == Tail(season') by {
      NoSpaceInShow(id);
      NoSpaceInShow(id');
      Texts.SplitAtFirst(show, Tail(season), show', Tail(season'), ' ');
    }
    Decimal.ShowInjective(id, id');
    TailInjective(season, season');
  }

  lemma TailInjective(season: string, season': string)
    requires Tail(season) == Tail(season')
    ensures season == season'
  {
    assert Tail(season) == "in the " + (season + " season.");
    assert Tail(season') == "in the " + (season' + " season.");
    Texts.DropPrefix("in the ", season + " season.", season' + " season.");
    Texts.DropSuffix(season, season', " season.");
  }

  /** The words after the player id. */
  function Tail(season: string): string {
    "in the " + season + " season."
  }

  lemma MessageShape(p: Problem, id: int, season: string)
    ensures Message(p, id, season) == Lead(p) + (Decimal.Show(id) + [' '] + Tail(season))
  {
    assert " in the " == [' '] + "in the ";
    Texts.Regroup(Lead(p), Decimal.Show(id), [' '], "in the ", season, " season.");
  }

  lemma NoSpaceInShow(n: int)
    ensures ' ' !in Decimal.Show(n)
  {
    forall i | 0 <= i < |Decimal.Show(n)|
      ensures Decimal.Show(n)[i] != ' '
    {
      Decimal.ShowChars(n, i);
    }
  }

  /** The checks run in order and the first one that fails decides the
      outcome: an empty frame, then a requested stat that is no column, then
      a missing value, then a non-numeric column; only a log that passes all
      four is averaged. */
  lemma ValidationOrder(id: int, season: string, stats: seq<string>, log: GameLog)
    ensures ProcessGameLog(id, season, stats, log) == Ok(Diagnostic(Message(NoData, id, season))) <==>
              IsEmptyFrame(log)
    ensures ProcessGameLog(id, season, stats, log) == Err(UnknownColumns) <==>
              !IsEmptyFrame(log) && MissingColumn(log, stats)
    ensures ProcessGameLog(id, season, stats, log) == Ok(Diagnostic(Message(MissingData, id, season))) <==>
              !IsEmptyFrame(log) && !MissingColumn(log, stats) && HasNull(log, stats)
    ensures ProcessGameLog(id, season, stats, log) == Ok(Diagnostic(Message(WrongTypes, id, season))) <==>
              !IsEmptyFrame(log) && !MissingColumn(log, stats) && !HasNull(log, stats) && !AllNumeric(log, stats)
    ensures (ProcessGameLog(id, season, stats, log).Ok? && ProcessGameLog(id, season, stats, log).value.Averages?) <==>
              !IsEmptyFrame(log) && !MissingColumn(log, stats) && !HasNull(log, stats) && AllNumeric(log, stats)
  {
    MessagesDiffer(NoData, MissingData, id, id, season, season);
    MessagesDiffer(NoData, WrongTypes, id, id, season, season);
    MessagesDiffer(MissingData, WrongTypes, id, id, season, season);
  }

  /** A log that passes the checks is averaged: every requested stat, and
      nothing else, maps to the sum of its values over all games divided by
      the number of games. */
  lemma AveragesOverAllGames(id: int, season: string, stats: seq<string>, log: GameLog, k: string)
    requires !IsEmptyFrame(log) && !MissingColumn(log, stats) && !HasNull(log, stats) && AllNumeric(log, stats)
    ensures 0 < |log| && ProcessGameLog(id, season, stats, log) == Ok(Averages(GameAverages(log, stats)))
    ensures k in GameAverages(log, stats) <==> k in stats
    ensures k in stats ==> IsNumericColumn(log, k) && GameAverages(log, stats)[k] * (|log| as real) == Sum(ColumnValues(log, k))
  {
    if k in stats {
      GameAverageOf(log, stats, k);
    }
  }

  lemma GameAverageOf(log: GameLog, stats: seq<string>, k: string)
    requires 0 < |log| && AllNumeric(log, stats) && k in stats
    ensures k in GameAverages(log, stats) && IsNumericColumn(log, k)
    ensures GameAverages(log, stats)[k] * (|log| as real) == Sum(ColumnValues(log, k))
  {
    var m := Mean(ColumnValues(log, k));
    assert m.Some?;
  }

  /** A (player, season) pair as `fetch_data` receives it: a player's full
      name and the seasons asked for, in order. */
  datatype Request = Request(name: string, seasons: seq<string>)

  /** One call of `fetch_and_process_player_data`. */
  datatype Attempt = Attempt(name: string, id: int, season: string)

  /** The key a successful attempt is stored under. */
  function Key(a: Attempt): string {
    Labels.JoinLabel(a.name, a.season)
  }

  function SeasonAttempts(name: string, id: int, seasons: seq<string>): (r: seq<Attempt>)
    ensures |r| == |seasons| && forall j | 0 <= j < |seasons| :: r[j] == Attempt(name, id, seasons[j])
  {
    seq(|seasons|, j requires 0 <= j < |seasons| => Attempt(name, id, seasons[j]))
  }

  /** The calls made for one request: none when the lookup finds nothing,
      otherwise one per season, all with the id of the first match. */
  function RequestAttempts(q: Request, lookup: string -> seq<int>): seq<Attempt> {
    var matches := lookup(q.name);
    if |matches| == 0 then [] else SeasonAttempts(q.name, matches[0], q.seasons)
  }

  /** The calls the loops of `fetch_data` make, in order. */
  function Attempts(requests: seq<Request>, lookup: string -> seq<int>): seq<Attempt> {
    Texts.FlatMap(requests, q => RequestAttempts(q, lookup))
  }

  lemma AttemptsSnoc(requests: seq<Request>, q: Request, lookup: string -> seq<int>)
    ensures Attempts(requests + [q], lookup) == Attempts(requests, lookup) + RequestAttempts(q, lookup)
  {
    Texts.FlatMapSnoc(requests, q, q => RequestAttempts(q, lookup));
  }

  /** The total number of (player, season) pairs asked for. */
  function PairCount(requests: seq<Request>): nat {
    if |requests| == 0 then 0 else PairCount(requests[..|requests| - 1]) + |requests[|requests| - 1].seasons|
  }

  /** One attempt: the request to the provider, then the checks. */
  function Fetch(a: Attempt, stats: seq<string>, gameLog: (int, string) -> Option<GameLog>): Result<Processed, FetchError> {
    match gameLog(a.id, a.season)
    case None => Err(TransportFailure)
    case Some(log) => ProcessGameLog(a.id, a.season, stats, log)
  }

  /** What the run leaves: the dict of averages and the printed messages. */
  datatype Outcome = Outcome(averages: Dict<string, map<string, real>>, messages: seq<string>)

  /** The body of the inner loop after the call: store a dict, print a message. */
  function Record(o: Outcome, a: Attempt, p: Processed): Outcome
  {
    match p
    case Averages(v) => Outcome(Put(o.averages, Key(a), v), o.messages)
    case Diagnostic(m) => Outcome(o.averages, o.messages + [m])
  }

  /** The call made for each attempt. */
  type Call = Attempt -> Result<Processed, FetchError>

  /** Performs the attempts in order with `call`; the first error ends the run. */
  function Run(attempts: seq<Attempt>, call: Call): Result<Outcome, FetchError> {
    if |attempts| == 0 then Ok(Outcome(Empty(), []))
    else
      var o :- Run(attempts[..|attempts| - 1], call);
      var a := attempts[|attempts| - 1];
      var p :- call(a);
      Ok(Record(o, a, p))
  }

  /** The dict a run returns is well formed: its iteration order lists
      each stored key once. */
  lemma {:induction false} RunKeepsValid(attempts: seq<Attempt>, call: Call)
    requires Run(attempts, call).Ok?
    ensures Valid(Run(attempts, call).value.averages)
  {
    if |attempts| != 0 {
      var init := attempts[..|attempts| - 1];
      var a := attempts[|attempts| - 1];
      RunKeepsValid(init, call);
      var o := Run(init, call).value;
      if call(a).value.Averages? {
        PutKeepsValid(o.averages, Key(a), call(a).value.values);
      }
    }
  }

  function CallOf(stats: seq<string>, gameLog: (int, string) -> Option<GameLog>): Call {
    a => Fetch(a, stats, gameLog)
  }

  /** `fetch_data`. */
  function FetchData(requests: seq<Request>, stats: seq<string>,
                     lookup: string -> seq<int>, gameLog: (int, string) -> Option<GameLog>): Result<Outcome, FetchError> {
    Run(Attempts(requests, lookup), CallOf(stats, gameLog))
  }

  /** Every attempt belongs to a requested season of a name the lookup
      found, and uses the first match's id. */
  lemma {:induction false} AttemptsUseFirstMatch(requests: seq<Request>, lookup: string -> seq<int>, a: Attempt)
    requires a in Attempts(requests, lookup)
    ensures 0 < |lookup(a.name)| && a.id == lookup(a.name)[0]
    ensures exists i | 0 <= i < |requests| :: requests[i].name == a.name && a.season in requests[i].seasons
  {
    var n := |requests|;
    var q := requests[n - 1];
    var init := requests[..n - 1];
    if a in Attempts(init, lookup) {
      AttemptsUseFirstMatch(init, lookup, a);
      var i :| 0 <= i < |init| && init[i].name == a.name && a.season in init[i].seasons;
      assert requests[i] == init[i];
    } else {
      var j :| 0 <= j < |q.seasons| && a == Attempt(q.name, lookup(q.name)[0], q.seasons[j]);
      assert requests[n - 1].name == a.name && a.season in requests[n - 1].seasons;
    }
  }

  /** Only the first match of a lookup matters: two lookups that find the
      same names with the same first id give the same run. */
  lemma {:induction false} OnlyFirstMatchMatters(requests: seq<Request>, lookup: string -> seq<int>, lookup': string -> seq<int>)
    requires forall i | 0 <= i < |requests| ::
               && (|lookup(requests[i].name)| == 0 <==> |lookup'(requests[i].name)| == 0)
               && (0 < |lookup(requests[i].name)| ==> lookup(requests[i].name)[0] == lookup'(requests[i].name)[0])
    ensures Attempts(requests, lookup) == Attempts(requests, lookup')
  {
    if |requests| != 0 {
      var init := requests[..|requests| - 1];
      assert forall i | 0 <= i < |init| :: init[i] == requests[i];
      OnlyFirstMatchMatters(init, lookup, lookup');
    }
  }

  /** A name the lookup does not find adds no attempt, so no entry, no
      message and no error. */
  lemma NoMatchSkipped(requests: seq<Request>, q: Request, stats: seq<string>,
                       lookup: string -> seq<int>, gameLog: (int, string) -> Option<GameLog>)
    requires |lookup(q.name)| == 0
    ensures FetchData(requests + [q], stats, lookup, gameLog) == FetchData(requests, stats, lookup, gameLog)
  {
    assert Attempts(requests + [q], lookup) == Attempts(requests, lookup) by {
      AttemptsSnoc(requests, q, lookup);
      assert Attempts(requests, lookup) + [] == Attempts(requests, lookup);
    }
  }

  /** At most one attempt per requested (player, season) pair, and exactly
      one when every name is found. */
  lemma {:induction false} AttemptCount(requests: seq<Request>, lookup: string -> seq<int>)
    ensures |Attempts(requests, lookup)| <= PairCount(requests)
    ensures (forall i | 0 <= i < |requests| :: 0 < |lookup(requests[i].name)|) ==>
              |Attempts(requests, lookup)| == PairCount(requests)
  {
    if |requests| != 0 {
      var init := requests[..|requests| - 1];
      assert forall i | 0 <= i < |init| :: init[i] == requests[i];
      AttemptCount(init, lookup);
    }
  }

  /** The run returns exactly when every attempt returns. */
  lemma {:induction false} RunReturns(attempts: seq<Attempt>, call: Call)
    ensures Run(attempts, call).Ok? <==> forall i | 0 <= i < |attempts| :: call(attempts[i]).Ok?
  {
    if |attempts| != 0 {
      var init := attempts[..|attempts| - 1];
      RunReturns(init, call);
      assert forall i | 0 <= i < |init| :: init[i] == attempts[i];
    }
  }

  /** A run that raises raises the error of the first attempt that fails. */
  lemma {:induction false} RunRaises(attempts: seq<Attempt>, call: Call)
    requires Run(attempts, call).Err?
    ensures exists i | 0 <= i < |attempts| ::
              && call(attempts[i]).Err?
              && Run(attempts, call).error == call(attempts[i]).error
              && forall j | 0 <= j < i :: call(attempts[j]).Ok?
  {
    var n := |attempts| - 1;
    var init := attempts[..n];
    assert forall i | 0 <= i < n :: init[i] == attempts[i];
    if Run(init, call).Err? {
      RunRaises(init, call);
      var i :| 0 <= i < n && call(init[i]).Err? && Run(init, call).error == call(init[i]).error
               && forall j | 0 <= j < i :: call(init[j]).Ok?;
      assert call(attempts[i]).Err? && Run(attempts, call).error == call(attempts[i]).error;
    } else {
      RunReturns(init, call);
      assert call(attempts[n]).Err? && Run(attempts, call).error == call(attempts[n]).error;
    }
  }

  /** Once the run has failed, further attempts change nothing. */
  lemma {:induction false} ErrorEndsRun(attempts: seq<Attempt>, more: seq<Attempt>, call: Call)
    requires Run(attempts, call).Err?
    ensures Run(attempts + more, call) == Run(attempts, call)
  {
    if |more| != 0 {
      var init := more[..|more| - 1];
      ErrorEndsRun(attempts, init, call);
      assert (attempts + more)[..|attempts + more| - 1] == attempts + init;
    } else {
      assert attempts + more == attempts;
    }
  }

  /** A run that returns returned on every shorter prefix too. */
  lemma RunOkParts(attempts: seq<Attempt>, call: Call)
    requires 0 < |attempts| && Run(attempts, call).Ok?
    ensures Run(attempts[..|attempts| - 1], call).Ok? && call(attempts[|attempts| - 1]).Ok?
  {
  }

  /** An attempt that is skipped leaves the dict as it was and adds its
      message; a successful one adds or replaces only its own key. */
  lemma RunStep(attempts: seq<Attempt>, a: Attempt, call: Call)
    requires Run(attempts, call).Ok? && call(a).Ok?
    ensures var before := Run(attempts, call).value;
            var after := Run(attempts + [a], call);
            && after.Ok?
            && (call(a).value.Diagnostic? ==>
                  after.value == Outcome(before.averages, before.messages + [call(a).value.message]))
            && (call(a).value.Averages? ==>
                  && after.value.messages == before.messages
                  && after.value.averages.entries == before.averages.entries[Key(a) := call(a).value.values])
  {
    assert (attempts + [a])[..|attempts|] == attempts;
  }

  /** Seasons that are all skipped leave the dict of averages unchanged. */
  lemma {:induction false} SkippedLeaveAverages(attempts: seq<Attempt>, more: seq<Attempt>, call: Call)
    requires Run(attempts, call).Ok?
    requires forall j | 0 <= j < |more| :: call(more[j]).Ok? && call(more[j]).value.Diagnostic?
    ensures Run(attempts + more, call).Ok?
    ensures Run(attempts + more, call).value.averages == Run(attempts, call).value.averages
  {
    if |more| == 0 {
      assert attempts + more == attempts;
    } else {
      var init := more[..|more| - 1];
      var a := more[|more| - 1];
      assert Run(attempts + init, call).Ok? && Run(attempts + init, call).value.averages == Run(attempts, call).value.averages by {
        assert forall j | 0 <= j < |init| :: init[j] == more[j];
        SkippedLeaveAverages(attempts, init, call);
      }
      assert attempts + more == (attempts + init) + [a];
      RunStep(attempts + init, a, call);
    }
  }

  /** A found name whose every season is skipped leaves the dict of averages
      unchanged. */
  lemma SkippedRequestLeavesAverages(requests: seq<Request>, q: Request, stats: seq<string>,
                                     lookup: string -> seq<int>, gameLog: (int, string) -> Option<GameLog>)
    requires FetchData(requests, stats, lookup, gameLog).Ok?
    requires 0 < |lookup(q.name)|
    requires forall j | 0 <= j < |q.seasons| ::
               var r := Fetch(Attempt(q.name, lookup(q.name)[0], q.seasons[j]), stats, gameLog);
               r.Ok? && r.value.Diagnostic?
    ensures FetchData(requests + [q], stats, lookup, gameLog).Ok?
    ensures FetchData(requests + [q], stats, lookup, gameLog).value.averages == FetchData(requests, stats, lookup, gameLog).value.averages
  {
    AttemptsSnoc(requests, q, lookup);
    SkippedLeaveAverages(Attempts(requests, lookup), RequestAttempts(q, lookup), CallOf(stats, gameLog));
  }

  /** The dict holds one key per distinct successful attempt, so never more
      keys than attempts. */
  lemma {:induction false} KeysAtMostAttempts(attempts: seq<Attempt>, call: Call)
    requires Run(attempts, call).Ok?
    ensures |Run(attempts, call).value.averages.entries| <= |attempts|
  {
    if |attempts| != 0 {
      KeysAtMostAttempts(attempts[..|attempts| - 1], call);
    }
  }

  /** The output never has more keys than (player, season) pairs were asked for. */
  lemma KeyCountBound(requests: seq<Request>, stats: seq<string>,
                      lookup: string -> seq<int>, gameLog: (int, string) -> Option<GameLog>)
    requires FetchData(requests, stats, lookup, gameLog).Ok?
    ensures |FetchData(requests, stats, lookup, gameLog).value.averages.entries| <= PairCount(requests)
  {
    KeysAtMostAttempts(Attempts(requests, lookup), CallOf(stats, gameLog));
    AttemptCount(requests, lookup);
  }

  /** Attempt `a` returned averages, which are stored under `k`. */
  ghost predicate Stores(call: Call, a: Attempt, k: string) {
    Key(a) == k && call(a).Ok? && call(a).value.Averages?
  }

  /** The attempt at `i` is the last one whose averages are stored under `k`. */
  ghost predicate LastStoreAt(attempts: seq<Attempt>, call: Call, k: string, i: int) {
    && 0 <= i < |attempts|
    && Stores(call, attempts[i], k)
    && forall j | i < j < |attempts| :: !Stores(call, attempts[j], k)
  }

  /** A key is present exactly when some attempt with that key succeeded. */
  lemma {:induction false} KeyPresent(attempts: seq<Attempt>, call: Call, k: string)
    requires Run(attempts, call).Ok?
    ensures k in Run(attempts, call).value.averages.entries <==>
              exists i | 0 <= i < |attempts| :: Stores(call, attempts[i], k)
  {
    if |attempts| != 0 {
      var init := attempts[..|attempts| - 1];
      var a := attempts[|attempts| - 1];
      RunOkParts(attempts, call);
      KeyPresent(init, call, k);
      assert forall i | 0 <= i < |init| :: init[i] == attempts[i];
      assert init + [a] == attempts;
      RunStep(init, a, call);
    }
  }

  lemma LastStoreLift(init: seq<Attempt>, a: Attempt, call: Call, k: string, i: int)
    requires LastStoreAt(init, call, k, i) && !Stores(call, a, k)
    ensures LastStoreAt(init + [a], call, k, i)
  {
    assert forall j | 0 <= j < |init| :: (init + [a])[j] == init[j];
  }

  /** A present key holds the means of the last successful attempt with
      that key: the last write wins. */
  lemma {:induction false} LastSuccessWins(attempts: seq<Attempt>, call: Call, k: string)
    requires Run(attempts, call).Ok?
    requires k in Run(attempts, call).value.averages.entries
    ensures exists i :: LastStoreAt(attempts, call, k, i) &&
              call(attempts[i]) == Ok(Averages(Run(attempts, call).value.averages.entries[k]))
  {
    var init := attempts[..|attempts| - 1];
    var a := attempts[|attempts| - 1];
    var d := Run(attempts, call).value.averages.entries;
    assert init + [a] == attempts;
    RunOkParts(attempts, call);
    RunStep(init, a, call);
    if Stores(call, a, k) {
      assert LastStoreAt(attempts, call, k, |attempts| - 1);
    } else {
      var d0 := Run(init, call).value.averages.entries;
      assert k in d0 && d[k] == d0[k];
      LastSuccessWins(init, call, k);
      var i :| LastStoreAt(init, call, k, i) && call(init[i]) == Ok(Averages(d0[k]));
      LastStoreLift(init, a, call, k, i);
      assert attempts[i] == init[i];
    }
  }

  /** Every stored key is `f'{name}_{season}'` of a requested pair whose
      name was found, and it splits back into that name and season when the
      season holds no underscore. */
  lemma StoredKeysSplitBack(requests: seq<Request>, stats: seq<string>,
                            lookup: string -> seq<int>, gameLog: (int, string) -> Option<GameLog>, k: string)
    ensures var r := FetchData(requests, stats, lookup, gameLog);
            r.Ok? && k in r.value.averages.entries ==>
            exists i, season | 0 <= i < |requests| && season in requests[i].seasons ::
              && 0 < |lookup(requests[i].name)|
              && k == Labels.JoinLabel(requests[i].name, season)
              && (Labels.Delimiter !in season ==> Labels.SplitLabel(k) == Labels.Parts(requests[i].name, Some(season)))
  {
    var r := FetchData(requests, stats, lookup, gameLog);
    if !(r.Ok? && k in r.value.averages.entries) {
      return;
    }
    var attempts := Attempts(requests, lookup);
    var call := CallOf(stats, gameLog);
    KeyPresent(attempts, call, k);
    var n :| 0 <= n < |attempts| && Stores(call, attempts[n], k);
    var a := attempts[n];
    AttemptsUseFirstMatch(requests, lookup, a);
    var i :| 0 <= i < |requests| && requests[i].name == a.name && a.season in requests[i].seasons;
    Labels.SplitJoin(a.name, a.season);
  }

  /** Attempts of consecutive requests follow one another. */
  lemma AttemptsAppend(xs: seq<Request>, ys: seq<Request>, lookup: string -> seq<int>)
    ensures Attempts(xs + ys, lookup) == Attempts(xs, lookup) + Attempts(ys, lookup)
  {
    Texts.FlatMapAppend(xs, ys, q => RequestAttempts(q, lookup));
  }

  /** One more attempt: the call's result is recorded, or its error ends the run. */
  lemma RunSnoc(attempts: seq<Attempt>, a: Attempt, call: Call)
    requires Run(attempts, call).Ok?
    ensures Run(attempts + [a], call) ==
              if call(a).Err? then Err(call(a).error) else Ok(Record(Run(attempts, call).value, a, call(a).value))
  {
    assert (attempts + [a])[..|attempts|] == attempts;
  }

  /** The body of the inner loop of `fetch_data`: one call, then the dict
      is stored or the message printed. */
  method Perform(a: Attempt, call: Call, averages: Dict<string, map<string, real>>, messages: seq<string>,
                 ghost prefix: seq<Attempt>)
    returns (r: Result<Outcome, FetchError>)
    requires Run(prefix, call) == Ok(Outcome(averages, messages))
    ensures r == Run(prefix + [a], call)
  {
    RunSnoc(prefix, a, call);
    var p := call(a);
    if p.Err? {
      return Err(p.error);
    }
    match p.value {
      case Averages(v) => r := Ok(Outcome(Put(averages, Key(a), v), messages));
      case Diagnostic(m) => r := Ok(Outcome(averages, messages + [m]));
    }
  }

  /** The inner loop of `fetch_data`: every season of one found name, in
      order, with the first match's id; an error leaves at once. */
  method FetchSeasons(name: string, id: int, seasons: seq<string>, call: Call,
                      averages0: Dict<string, map<string, real>>, messages0: seq<string>, ghost done: seq<Attempt>)
    returns (r: Result<Outcome, FetchError>)
    requires Run(done, call) == Ok(Outcome(averages0, messages0))
    ensures r == Run(done + SeasonAttempts(name, id, seasons), call)
  {
    var averages := averages0;
    var messages := messages0;
    ghost var todo := SeasonAttempts(name, id, seasons);
    assert done + todo[..0] == done;
    for j := 0 to |seasons|
      invariant Run(done + todo[..j], call) == Ok(Outcome(averages, messages))
    {
      var a := Attempt(name, id, seasons[j]);
      assert a == todo[j];
      Texts.AppendSnoc(done, todo, j);
      var step := Perform(a, call, averages, messages, done + todo[..j]);
      if step.Err? {
        r := step;
        Texts.AppendSplit(done, todo, j + 1);
        ErrorEndsRun(done + todo[..j + 1], todo[j + 1..], call);
        return;
      }
      averages, messages := step.value.averages, step.value.messages;
    }
    assert todo[..|seasons|] == todo;
    r := Ok(Outcome(averages, messages));
  }

  /** The attempts of the first `i + 1` requests extend those of the first `i`. */
  lemma AttemptsPrefix(requests: seq<Request>, i: nat, lookup: string -> seq<int>)
    requires i < |requests|
    ensures Attempts(requests[..i + 1], lookup) == Attempts(requests[..i], lookup) + RequestAttempts(requests[i], lookup)
  {
    assert requests[..i + 1] == requests[..i] + [requests[i]];
    AttemptsSnoc(requests[..i], requests[i], lookup);
  }

  /** An error in the first `i` requests is the error of the whole run. */
  lemma ErrorEndsFetch(requests: seq<Request>, i: nat, lookup: string -> seq<int>, call: Call)
    requires i <= |requests| && Run(Attempts(requests[..i], lookup), call).Err?
    ensures Run(Attempts(requests, lookup), call) == Run(Attempts(requests[..i], lookup), call)
  {
    var rest := Attempts(requests[i..], lookup);
    assert Attempts(requests, lookup) == Attempts(requests[..i], lookup) + rest by {
      AttemptsAppend(requests[..i], requests[i..], lookup);
      assert requests[..i] + requests[i..] == requests;
    }
    ErrorEndsRun(Attempts(requests[..i], lookup), rest, call);
  }

  /** One pass of the outer loop of `fetch_data`: a name the lookup does
      not find is skipped, a found one has all its seasons fetched. */
  method FetchRequest(q: Request, lookup: string -> seq<int>, call: Call,
                      averages: Dict<string, map<string, real>>, messages: seq<string>, ghost done: seq<Attempt>)
    returns (r: Result<Outcome, FetchError>)
    requires Run(done, call) == Ok(Outcome(averages, messages))
    ensures r == Run(done + RequestAttempts(q, lookup), call)
  {
    var matches := lookup(q.name);
    if |matches| == 0 {
      assert done + RequestAttempts(q, lookup) == done;
      r := Ok(Outcome(averages, messages));
    } else {
      r := FetchSeasons(q.name, matches[0], q.seasons, call, averages, messages, done);
    }
  }

  /** `fetch_data` with its two loops: over the names, and for a found name
      over its seasons, storing each dict and collecting each message; the
      first error leaves the method at once. */
  method FetchDataLoop(requests: seq<Request>, stats: seq<string>,
                       lookup: string -> seq<int>, gameLog: (int, string) -> Option<GameLog>)
    returns (r: Result<Outcome, FetchError>)
    ensures r == FetchData(requests, stats, lookup, gameLog)
  {
    var call := CallOf(stats, gameLog);
    var averages: Dict<string, map<string, real>> := Empty();
    var messages: seq<string> := [];
    for i := 0 to |requests|
      invariant Run(Attempts(requests[..i], lookup), call) == Ok(Outcome(averages, messages))
    {
      var q := requests[i];
      ghost var done := Attempts(requests[..i], lookup);
      AttemptsPrefix(requests, i, lookup);
      var step := FetchRequest(q, lookup, call, averages, messages, done);
      if step.Err? {
        r := step;
        ErrorEndsFetch(requests, i + 1, lookup, call);
        return;
      }
      averages, messages := step.value.averages, step.value.messages;
    }
    assert requests[..|requests|] == requests;
    r := Ok(Outcome(averages, messages));
  }
}
