// The match scoring engine of `useVolleyGame`: one game-state record, the transitions the hook
// applies to it and the values it derives from it.
module VolleyGame {
  import opened Types
  import opened PlayerQueue
  import opened QueueRotation

  datatype GameState = GameState(
    teamAName: string,
    teamBName: string,
    scoreA: int,
    scoreB: int,
    setsA: int,
    setsB: int,
    currentSet: int,
    history: seq<SetHistory>,
    actionLog: seq<ActionLog>,
    isMatchOver: bool,
    matchWinner: Option<TeamId>,
    servingTeam: Option<TeamId>,
    swappedSides: bool,
    config: GameConfig,
    timeoutsA: int,
    timeoutsB: int,
    inSuddenDeath: bool,
    matchDurationSeconds: int,
    isTimerRunning: bool,
    teamARoster: Team,
    teamBRoster: Team,
    queue: seq<Team>,
    rotationReport: Option<RotationReport>)

  /** The constants of the rules module: `MIN_LEAD_TO_WIN` and `SETS_TO_WIN_MATCH`. */
  datatype Rules = Rules(minLead: int, setsToWin: int -> int)

  /** `INITIAL_STATE`, with `DEFAULT_CONFIG` as a parameter. */
  function InitialState(defaultConfig: GameConfig): GameState
  {
    GameState("Home", "Guest", 0, 0, 0, 0, 1, [], [], false, None, None, false, defaultConfig, 0, 0, false, 0, false,
      Team("A", "Home", "", []), Team("B", "Guest", "", []), [], None)
  }

  // ---------------------------------------------------------------------------------------------
  // Derived values

  /** `isTieBreak`: the deciding set of a match played with a tie-break. */
  predicate IsTieBreak(s: GameState)
  {
    s.config.hasTieBreak && s.currentSet == s.config.maxSets
  }

  /** `pointsToWinCurrentSet`. */
  function Target(s: GameState): (r: int)
    ensures r == s.config.tieBreakPoints || r == s.config.pointsPerSet
    ensures r == s.config.tieBreakPoints <== IsTieBreak(s)
    ensures !IsTieBreak(s) ==> r == s.config.pointsPerSet
  {
    if IsTieBreak(s) then s.config.tieBreakPoints else s.config.pointsPerSet
  }

  /** `getGameStatus(...).isSetPoint`. */
  predicate IsSetPoint(s: GameState, my: int, opponent: int)
  {
    my >= Target(s) - 1 && my > opponent
  }

  /** `getGameStatus(...).isMatchPoint`. */
  predicate IsMatchPoint(s: GameState, rules: Rules, my: int, opponent: int, setsMy: int)
  {
    IsSetPoint(s, my, opponent) && setsMy == rules.setsToWin(s.config.maxSets) - 1
  }

  predicate IsDeuce(s: GameState)
  {
    s.scoreA == s.scoreB && s.scoreA >= Target(s) - 1
  }

  /** `isMatchActive`: a point or a set has been played. */
  predicate IsMatchActive(s: GameState)
  {
    s.scoreA > 0 || s.scoreB > 0 || s.setsA > 0 || s.setsB > 0 || s.currentSet > 1
  }

  function ScoreOf(s: GameState, t: TeamId): int
  {
    if t == A then s.scoreA else s.scoreB
  }

  function SetsOf(s: GameState, t: TeamId): int
  {
    if t == A then s.setsA else s.setsB
  }

  function TimeoutsOf(s: GameState, t: TeamId): int
  {
    if t == A then s.timeoutsA else s.timeoutsB
  }

  /** How many sets of the history `t` won. */
  function Wins(history: seq<SetHistory>, t: TeamId): (r: nat)
    ensures r <= |history|
  {
    if history == [] then 0 else Wins(history[..|history| - 1], t) + (if history[|history| - 1].winner == t then 1 else 0)
  }

  /**
   * What the hook keeps true of its state: scores never negative, at most two timeouts a side,
   * set counts matching the history, the set number following the history, and a match winner
   * exactly when the match is over.
   */
  predicate Valid(s: GameState)
  {
    s.scoreA >= 0 && s.scoreB >= 0 &&
    0 <= s.timeoutsA <= 2 && 0 <= s.timeoutsB <= 2 &&
    s.setsA == Wins(s.history, A) && s.setsB == Wins(s.history, B) &&
    s.currentSet == |s.history| + (if s.isMatchOver then 0 else 1) &&
    (s.isMatchOver <==> s.matchWinner.Some?)
  }

  lemma InitialValid(defaultConfig: GameConfig)
    ensures Valid(InitialState(defaultConfig)) && !IsMatchActive(InitialState(defaultConfig))
  {
  }

  // ---------------------------------------------------------------------------------------------
  // addPoint

  /**
   * The scores after `team` scores, and whether this point enters sudden death: with the 3-point
   * sudden death rule, a point bringing both sides to one short of the target resets both to 0.
   */
  function PointScores(s: GameState, team: TeamId): (r: (int, int, bool))
    ensures r.2 <==>
      (s.config.deuceType == SuddenDeath3pt && !s.inSuddenDeath &&
       ScoreOf(s, team) + 1 == Target(s) - 1 && ScoreOf(s, Other(team)) == Target(s) - 1)
    ensures r.2 ==> r.0 == 0 && r.1 == 0
    ensures !r.2 ==> (r.0, r.1) == (if team == A then (s.scoreA + 1, s.scoreB) else (s.scoreA, s.scoreB + 1))
  {
    var a := if team == A then s.scoreA + 1 else s.scoreA;
    var b := if team == B then s.scoreB + 1 else s.scoreB;
    var target := Target(s);
    assert a == target - 1 && b == target - 1 <==>
      ScoreOf(s, team) + 1 == target - 1 && ScoreOf(s, Other(team)) == target - 1;
    if s.config.deuceType == SuddenDeath3pt && !s.inSuddenDeath && a == target - 1 && b == target - 1 then (0, 0, true)
    else (a, b, false)
  }

  /**
   * The side that takes the set at scores `a`:`b`: in sudden death the first to 3 while strictly
   * ahead, otherwise the first to `target` with a lead of `minLead`; side A is checked first.
   */
  function SetWinner(a: int, b: int, sudden: bool, target: int, minLead: int): Option<TeamId>
  {
    if sudden then
      if a >= 3 && a > b then Some(A) else if b >= 3 && b > a then Some(B) else None
    else
      if a >= target && a >= b + minLead then Some(A) else if b >= target && b >= a + minLead then Some(B) else None
  }

  /** The scores and the sudden-death flag the rules look at once `team` has scored. */
  function Scored(s: GameState, team: TeamId): (int, int, bool)
  {
    var (a, b, entering) := PointScores(s, team);
    (a, b, s.inSuddenDeath || entering)
  }

  /** Who, if anyone, takes the set with this point. */
  function PointWinner(s: GameState, team: TeamId, rules: Rules): Option<TeamId>
  {
    var (a, b, sudden) := Scored(s, team);
    SetWinner(a, b, sudden, Target(s), rules.minLead)
  }

  /** The state after a set won by `w` at scores `a`:`b`; the match report comes from the queue. */
  function WinSet(s: GameState, w: TeamId, a: int, b: int, rules: Rules, qs: QueueState, courtLimit: int,
                  newId: nat -> string): GameState
  {
    var setsA := if w == A then s.setsA + 1 else s.setsA;
    var setsB := if w == B then s.setsB + 1 else s.setsB;
    var needed := rules.setsToWin(s.config.maxSets);
    var matchWinner := if setsA == needed then Some(A) else if setsB == needed then Some(B) else None;
    var report := if matchWinner.Some? then RotationPreview(qs, matchWinner.value, courtLimit, newId) else None;
    s.(scoreA := if matchWinner.Some? then a else 0, scoreB := if matchWinner.Some? then b else 0,
       setsA := setsA, setsB := setsB,
       history := s.history + [SetHistory(s.currentSet, a, b, w)],
       currentSet := if matchWinner.Some? then s.currentSet else s.currentSet + 1,
       matchWinner := matchWinner, isMatchOver := matchWinner.Some?, rotationReport := report,
       servingTeam := None, isTimerRunning := matchWinner.None?, timeoutsA := 0, timeoutsB := 0,
       inSuddenDeath := false, actionLog := [])
  }

  /**
   * `addPoint`: nothing once the match is over; a point that takes the set closes it, otherwise
   * the scorer serves and the point is logged.
   */
  function AddPoint(s: GameState, team: TeamId, rules: Rules, qs: QueueState, courtLimit: int, newId: nat -> string): GameState
  {
    if s.isMatchOver then s
    else
      var (a, b, sudden) := Scored(s, team);
      match SetWinner(a, b, sudden, Target(s), rules.minLead)
      case Some(w) => WinSet(s, w, a, b, rules, qs, courtLimit, newId)
      case None =>
        s.(scoreA := a, scoreB := b, servingTeam := Some(team), isTimerRunning := true,
           inSuddenDeath := sudden, actionLog := s.actionLog + [Point(team, None, None)])
  }

  /** Once the match is over, scoring changes nothing. */
  lemma AddPointAfterMatch(s: GameState, team: TeamId, rules: Rules, qs: QueueState, courtLimit: int, newId: nat -> string)
    requires s.isMatchOver
    ensures AddPoint(s, team, rules, qs, courtLimit, newId) == s
  {
  }

  /**
   * In standard play a point that takes no set raises the scorer's score by one and nothing
   * else, hands the serve to the scorer and logs one POINT entry.
   */
  lemma PlainPoint(s: GameState, team: TeamId, rules: Rules, qs: QueueState, courtLimit: int, newId: nat -> string)
    requires !s.isMatchOver && !s.inSuddenDeath && s.config.deuceType == Standard
    requires PointWinner(s, team, rules).None?
    ensures var r := AddPoint(s, team, rules, qs, courtLimit, newId);
      ScoreOf(r, team) == ScoreOf(s, team) + 1 && ScoreOf(r, Other(team)) == ScoreOf(s, Other(team)) &&
      r.servingTeam == Some(team) && r.actionLog == s.actionLog + [Point(team, None, None)] &&
      r == s.(scoreA := r.scoreA, scoreB := r.scoreB, servingTeam := Some(team), isTimerRunning := true,
              actionLog := r.actionLog)
  {
  }

  /**
   * In standard play the scorer takes the set exactly when it reaches the target with the minimum
   * lead, and only the scorer can (for a positive minimum lead and a set not already decided).
   */
  lemma StandardSetWin(s: GameState, team: TeamId, rules: Rules)
    requires !s.isMatchOver && !s.inSuddenDeath && s.config.deuceType == Standard && rules.minLead > 0
    requires SetWinner(s.scoreA, s.scoreB, false, Target(s), rules.minLead).None?
    ensures var my, their := ScoreOf(s, team) + 1, ScoreOf(s, Other(team));
      PointWinner(s, team, rules) == (if my >= Target(s) && my >= their + rules.minLead then Some(team) else None)
  {
  }

  /**
   * With a minimum lead of 2, `isSetPoint` means exactly that the next point of that side takes
   * the set (in standard play).
   */
  lemma SetPointMeansNextPointWins(s: GameState, team: TeamId, rules: Rules)
    requires !s.isMatchOver && !s.inSuddenDeath && s.config.deuceType == Standard && rules.minLead == 2
    requires SetWinner(s.scoreA, s.scoreB, false, Target(s), rules.minLead).None?
    ensures IsSetPoint(s, ScoreOf(s, team), ScoreOf(s, Other(team))) <==> PointWinner(s, team, rules) == Some(team)
  {
    StandardSetWin(s, team, rules);
  }

  /**
   * `isMatchPoint`: at a match point of a side one set short of the match, in standard play with a
   * minimum lead of 2, that side's next point ends the match in its favour.
   */
  lemma MatchPointMeansNextPointWinsMatch(s: GameState, team: TeamId, rules: Rules, qs: QueueState, courtLimit: int,
                                          newId: nat -> string)
    requires !s.isMatchOver && !s.inSuddenDeath && s.config.deuceType == Standard && rules.minLead == 2
    requires SetWinner(s.scoreA, s.scoreB, false, Target(s), rules.minLead).None?
    requires SetsOf(s, Other(team)) != rules.setsToWin(s.config.maxSets)
    requires IsMatchPoint(s, rules, ScoreOf(s, team), ScoreOf(s, Other(team)), SetsOf(s, team))
    ensures var r := AddPoint(s, team, rules, qs, courtLimit, newId);
      r.isMatchOver && r.matchWinner == Some(team)
  {
    SetPointMeansNextPointWins(s, team, rules);
    SetWinEffect(s, team, rules, qs, courtLimit, newId);
  }

  /**
   * `isDeuce`: level at one short of the target or beyond. Then neither side is at set point, and
   * with a minimum lead of 2 no single point takes the set in standard play.
   */
  lemma DeuceMeansNoSetPoint(s: GameState, team: TeamId, rules: Rules)
    requires !s.inSuddenDeath && s.config.deuceType == Standard && rules.minLead >= 2
    requires IsDeuce(s)
    ensures !IsSetPoint(s, ScoreOf(s, team), ScoreOf(s, Other(team)))
    ensures PointWinner(s, team, rules).None?
  {
  }

  /**
   * Sudden death: the point that brings both sides to one short of the target resets both scores
   * to 0 and starts sudden death, without taking the set.
   */
  lemma EnterSuddenDeath(s: GameState, team: TeamId, rules: Rules, qs: QueueState, courtLimit: int, newId: nat -> string)
    requires !s.isMatchOver && !s.inSuddenDeath && s.config.deuceType == SuddenDeath3pt
    requires ScoreOf(s, team) + 1 == Target(s) - 1 && ScoreOf(s, Other(team)) == Target(s) - 1
    ensures var r := AddPoint(s, team, rules, qs, courtLimit, newId);
      r.scoreA == 0 && r.scoreB == 0 && r.inSuddenDeath && r.setsA == s.setsA && r.setsB == s.setsB &&
      r.actionLog == s.actionLog + [Point(team, None, None)]
  {
  }

  /** In sudden death the scorer takes the set exactly when it has 3 points or more and leads. */
  lemma SuddenDeathWin(s: GameState, team: TeamId, rules: Rules)
    requires !s.isMatchOver && s.inSuddenDeath
    requires s.scoreA >= 0 && s.scoreB >= 0 && SetWinner(s.scoreA, s.scoreB, true, Target(s), rules.minLead).None?
    ensures var my, their := ScoreOf(s, team) + 1, ScoreOf(s, Other(team));
      PointWinner(s, team, rules) == (if my >= 3 && my > their then Some(team) else None)
  {
  }

  /**
   * A set win: only the winner's set count rises, the set is recorded with its final score, the
   * timeouts, the action log and sudden death are cleared; reaching the sets needed ends the match
   * with the scores kept, otherwise the next set starts at 0:0.
   */
  lemma SetWinEffect(s: GameState, team: TeamId, rules: Rules, qs: QueueState, courtLimit: int, newId: nat -> string)
    requires !s.isMatchOver && PointWinner(s, team, rules).Some?
    ensures var w := PointWinner(s, team, rules).value;
      var (a, b, _) := Scored(s, team);
      var r := AddPoint(s, team, rules, qs, courtLimit, newId);
      SetsOf(r, w) == SetsOf(s, w) + 1 && SetsOf(r, Other(w)) == SetsOf(s, Other(w)) &&
      r.history == s.history + [SetHistory(s.currentSet, a, b, w)] &&
      r.timeoutsA == 0 && r.timeoutsB == 0 && r.actionLog == [] && !r.inSuddenDeath && r.servingTeam == None &&
      (SetsOf(r, w) == rules.setsToWin(s.config.maxSets) && SetsOf(s, Other(w)) != rules.setsToWin(s.config.maxSets) ==>
        r.matchWinner == Some(w)) &&
      (r.setsA == rules.setsToWin(s.config.maxSets) || r.setsB == rules.setsToWin(s.config.maxSets) ==>
        r.isMatchOver && r.scoreA == a && r.scoreB == b && r.currentSet == s.currentSet) &&
      (r.setsA != rules.setsToWin(s.config.maxSets) && r.setsB != rules.setsToWin(s.config.maxSets) ==>
        !r.isMatchOver && r.scoreA == 0 && r.scoreB == 0 && r.currentSet == s.currentSet + 1)
  {
  }

  lemma {:induction false} WinsSnoc(history: seq<SetHistory>, h: SetHistory, t: TeamId)
    ensures Wins(history + [h], t) == Wins(history, t) + (if h.winner == t then 1 else 0)
  {
    assert (history + [h])[..|history|] == history;
  }

  /** Scoring keeps the state valid. */
  lemma AddPointValid(s: GameState, team: TeamId, rules: Rules, qs: QueueState, courtLimit: int, newId: nat -> string)
    requires Valid(s)
    ensures Valid(AddPoint(s, team, rules, qs, courtLimit, newId))
  {
    if !s.isMatchOver {
      var (a, b, sudden) := Scored(s, team);
      ScoredNonNegative(s, team);
      match SetWinner(a, b, sudden, Target(s), rules.minLead)
      case Some(w) =>
        WinSetValid(s, w, a, b, rules, qs, courtLimit, newId);
      case None =>
    }
  }

  /** A point never takes a score below zero. */
  lemma ScoredNonNegative(s: GameState, team: TeamId)
    requires Valid(s)
    ensures Scored(s, team).0 >= 0 && Scored(s, team).1 >= 0
  {
  }

  /** Closing a set, and with it perhaps the match, keeps the state consistent. */
  lemma WinSetValid(s: GameState, w: TeamId, a: int, b: int, rules: Rules, qs: QueueState, courtLimit: int,
                    newId: nat -> string)
    requires Valid(s) && !s.isMatchOver && a >= 0 && b >= 0
    ensures Valid(WinSet(s, w, a, b, rules, qs, courtLimit, newId))
  {
    WinsSnoc(s.history, SetHistory(s.currentSet, a, b, w), A);
    WinsSnoc(s.history, SetHistory(s.currentSet, a, b, w), B);
  }

  // ---------------------------------------------------------------------------------------------
  // subtractPoint, useTimeout, toggleService, toggleSides

  /** `subtractPoint`: a correction, never logged, refused at 0 and once the match is over. */
  function SubtractPoint(s: GameState, team: TeamId): GameState
  {
    if s.isMatchOver || ScoreOf(s, team) == 0 then s
    else if team == A then s.(scoreA := s.scoreA - 1) else s.(scoreB := s.scoreB - 1)
  }

  /**
   * Subtracting takes one point from the named side only, never from a side at 0 nor once the
   * match is over, and leaves the action log alone. The hook never calls
   * `isValidScoreOperation(score, -1)`; for scores up to 201 it still goes ahead exactly when that
   * guard holds.
   */
  lemma SubtractEffect(s: GameState, team: TeamId)
    ensures var r := SubtractPoint(s, team);
      r.actionLog == s.actionLog && ScoreOf(r, Other(team)) == ScoreOf(s, Other(team)) &&
      r == s.(scoreA := r.scoreA, scoreB := r.scoreB)
    ensures s.isMatchOver || ScoreOf(s, team) == 0 ==> SubtractPoint(s, team) == s
    ensures !s.isMatchOver && ScoreOf(s, team) != 0 ==> ScoreOf(SubtractPoint(s, team), team) == ScoreOf(s, team) - 1
    ensures !s.isMatchOver && 0 <= ScoreOf(s, team) <= 201 ==>
      (Security.IsValidScoreOperation(ScoreOf(s, team), -1) <==> SubtractPoint(s, team) != s)
  {
  }

  lemma SubtractValid(s: GameState, team: TeamId)
    requires Valid(s)
    ensures Valid(SubtractPoint(s, team))
  {
  }

  /** `useTimeout`: granted while the side has used fewer than 2, and then logged. */
  function UseTimeout(s: GameState, team: TeamId): GameState
  {
    if TimeoutsOf(s, team) >= 2 then s
    else
      var s' := if team == A then s.(timeoutsA := s.timeoutsA + 1) else s.(timeoutsB := s.timeoutsB + 1);
      s'.(actionLog := s.actionLog + [Timeout(team)])
  }

  /**
   * A timeout is granted exactly when `isValidTimeoutRequest(used, 2)` holds; a granted one adds
   * one to that side and one TIMEOUT entry to the log, a refused one changes nothing, and no side
   * ever goes beyond 2.
   */
  lemma TimeoutEffect(s: GameState, team: TeamId)
    requires 0 <= TimeoutsOf(s, team) <= 2
    ensures var r := UseTimeout(s, team);
      (Security.IsValidTimeoutRequest(TimeoutsOf(s, team), 2) ==>
        TimeoutsOf(r, team) == TimeoutsOf(s, team) + 1 && r.actionLog == s.actionLog + [Timeout(team)] &&
        TimeoutsOf(r, Other(team)) == TimeoutsOf(s, Other(team))) &&
      (!Security.IsValidTimeoutRequest(TimeoutsOf(s, team), 2) <==> r == s) &&
      TimeoutsOf(r, team) <= 2
  {
  }

  lemma TimeoutValid(s: GameState, team: TeamId)
    requires Valid(s)
    ensures Valid(UseTimeout(s, team))
  {
  }

  /** The next server in the cycle A, B, nobody, A. */
  function NextServer(t: Option<TeamId>): (r: Option<TeamId>)
    ensures r != t
  {
    match t
    case Some(A) => Some(B)
    case Some(B) => None
    case None => Some(A)
  }

  /** `toggleService`: moves the serve along the cycle and logs the previous server. */
  function ToggleService(s: GameState): GameState
  {
    s.(servingTeam := NextServer(s.servingTeam), actionLog := s.actionLog + [ToggleServe(s.servingTeam)])
  }

  function ToggleSides(s: GameState): (r: GameState)
    ensures r.swappedSides != s.swappedSides
  {
    s.(swappedSides := !s.swappedSides)
  }

  /** Three toggles of the serve bring it back; two toggles of the sides do. */
  lemma ToggleCycles(s: GameState)
    ensures NextServer(NextServer(NextServer(s.servingTeam))) == s.servingTeam
    ensures ToggleSides(ToggleSides(s)) == s
  {
  }

  lemma ToggleValid(s: GameState)
    requires Valid(s)
    ensures Valid(ToggleService(s)) && Valid(ToggleSides(s))
  {
  }

  // ---------------------------------------------------------------------------------------------
  // undo

  /**
   * `undo`: nothing once the match is over or with an empty log; otherwise the last entry is
   * popped and reversed: a point comes off its side (never below 0) and the serve is cleared, a
   * timeout is given back (never below 0), a serve toggle restores the previous server.
   */
  function Undo(s: GameState): GameState
  {
    if s.isMatchOver || s.actionLog == [] then s
    else
      var log := s.actionLog[..|s.actionLog| - 1];
      match s.actionLog[|s.actionLog| - 1]
      case Timeout(t) =>
        s.(actionLog := log,
           timeoutsA := if t == A then Max(0, s.timeoutsA - 1) else s.timeoutsA,
           timeoutsB := if t == B then Max(0, s.timeoutsB - 1) else s.timeoutsB)
      case Point(t, _, _) =>
        s.(actionLog := log,
           scoreA := if t == A then Max(0, s.scoreA - 1) else s.scoreA,
           scoreB := if t == B then Max(0, s.scoreB - 1) else s.scoreB,
           servingTeam := None)
      case ToggleServe(previous) =>
        s.(actionLog := log, servingTeam := previous)
  }

  /** Undo pops exactly one entry of a non-empty log. */
  lemma UndoPopsOne(s: GameState)
    requires !s.isMatchOver && s.actionLog != []
    ensures Undo(s).actionLog == s.actionLog[..|s.actionLog| - 1]
  {
  }

  lemma UndoValid(s: GameState)
    requires Valid(s)
    ensures Valid(Undo(s))
  {
  }

  /** Undoing a serve toggle restores the server and the log exactly. */
  lemma UndoToggleService(s: GameState)
    requires !s.isMatchOver
    ensures Undo(ToggleService(s)) == s
  {
    assert (s.actionLog + [ToggleServe(s.servingTeam)])[..|s.actionLog|] == s.actionLog;
  }

  /** Undoing a granted timeout restores the state exactly. */
  lemma UndoTimeout(s: GameState, team: TeamId)
    requires !s.isMatchOver && 0 <= TimeoutsOf(s, team) < 2
    ensures Undo(UseTimeout(s, team)) == s
  {
    assert (s.actionLog + [Timeout(team)])[..|s.actionLog|] == s.actionLog;
  }

  /**
   * Undoing a point that took no set and did not start sudden death restores the state, except
   * that the serve is cleared and the clock keeps running.
   */
  lemma UndoPoint(s: GameState, team: TeamId, rules: Rules, qs: QueueState, courtLimit: int, newId: nat -> string)
    requires !s.isMatchOver && s.scoreA >= 0 && s.scoreB >= 0
    requires PointWinner(s, team, rules).None? && !PointScores(s, team).2
    ensures Undo(AddPoint(s, team, rules, qs, courtLimit, newId)) == s.(servingTeam := None, isTimerRunning := true)
  {
    assert (s.actionLog + [Point(team, None, None)])[..|s.actionLog|] == s.actionLog;
  }

  // ---------------------------------------------------------------------------------------------
  // resetMatch, applySettings, rotateTeams

  /** The initial state with the names, rosters, queue and configuration kept. */
  function Restart(s: GameState, config: GameConfig): (r: GameState)
  {
    InitialState(config).(teamAName := s.teamAName, teamBName := s.teamBName, teamARoster := s.teamARoster,
      teamBRoster := s.teamBRoster, queue := s.queue)
  }

  /** `resetMatch`. */
  function ResetMatch(s: GameState): GameState
  {
    Restart(s, s.config)
  }

  /** `applySettings(config, shouldReset)`. */
  function ApplySettings(s: GameState, config: GameConfig, shouldReset: bool): GameState
  {
    if shouldReset then Restart(s, config) else s.(config := config)
  }

  /**
   * A reset leaves a fresh, valid, inactive match that keeps the names, rosters, queue and
   * configuration; applying settings with a reset does the same under the new configuration, and
   * without one changes the configuration only.
   */
  lemma ResetEffect(s: GameState, config: GameConfig)
    ensures var r := ResetMatch(s);
      Valid(r) && !IsMatchActive(r) && r.actionLog == [] && r.history == [] &&
      r.teamAName == s.teamAName && r.teamBName == s.teamBName && r.teamARoster == s.teamARoster &&
      r.teamBRoster == s.teamBRoster && r.queue == s.queue && r.config == s.config
    ensures ApplySettings(s, config, true) == ResetMatch(s).(config := config)
    ensures ApplySettings(s, config, false) == s.(config := config)
  {
  }

  /** The part of `rotateTeams` that concerns the game: a new match with the same rosters. */
  function RotateReset(s: GameState): GameState
  {
    if s.matchWinner.None? then s
    else
      s.(scoreA := 0, scoreB := 0, setsA := 0, setsB := 0, currentSet := 1, history := [], actionLog := [],
         isMatchOver := false, matchWinner := None, servingTeam := None, timeoutsA := 0, timeoutsB := 0,
         inSuddenDeath := false, matchDurationSeconds := 0, isTimerRunning := false)
  }

  lemma RotateResetValid(s: GameState)
    requires Valid(s)
    ensures Valid(RotateReset(s))
    ensures s.matchWinner.Some? ==> !IsMatchActive(RotateReset(s)) && !RotateReset(s).isMatchOver
  {
  }

  /**
   * The effect that copies the queue manager's courts and queue into the game: the rosters, the
   * queue and the team names follow the courts, and the last report is kept when there is none.
   */
  function SyncFromQueue(s: GameState, qs: QueueState): (r: GameState)
    ensures r.teamARoster == qs.courtA && r.teamBRoster == qs.courtB && r.queue == qs.queue
    ensures r.teamAName == qs.courtA.name && r.teamBName == qs.courtB.name
    ensures qs.lastReport.None? ==> r.rotationReport == s.rotationReport
  {
    var report := if qs.lastReport.Some? then qs.lastReport else s.rotationReport;
    s.(teamARoster := qs.courtA, teamBRoster := qs.courtB, queue := qs.queue, rotationReport := report,
       teamAName := qs.courtA.name, teamBName := qs.courtB.name)
  }

  /** Following the queue touches no score, set, timeout or log. */
  lemma SyncValid(s: GameState, qs: QueueState)
    requires Valid(s)
    ensures Valid(SyncFromQueue(s, qs))
  {
  }
}
