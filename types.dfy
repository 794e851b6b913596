/** Shapes shared by the scoreboard: teams, players, configuration, set history and the action log. */
module Types {

  datatype Option<T> = None | Some(value: T)

  /** The two sides of the scoreboard. */
  datatype TeamId = A | B

  function Other(t: TeamId): TeamId
  {
    if t == A then B else A
  }

  datatype DeuceType = Standard | SuddenDeath3pt
  datatype RotationMode = StandardRotation | Balanced
  datatype GameMode = Indoor | Beach
  datatype SkillType = Attack | Block | Ace | OpponentError

  datatype GameConfig = GameConfig(
    mode: GameMode,
    maxSets: int,
    pointsPerSet: int,
    hasTieBreak: bool,
    tieBreakPoints: int,
    deuceType: DeuceType,
    rotationMode: RotationMode,
    enablePlayerStats: bool,
    enableSound: bool)

  /** A player instance on a court or in the queue; `fixedSide` is the team it is pinned to, if any. */
  datatype Player = Player(
    id: string,
    profileId: Option<string>,
    name: string,
    number: Option<string>,
    skillLevel: int,
    isFixed: bool,
    fixedSide: Option<string>,
    originalIndex: int)

  datatype Team = Team(id: string, name: string, color: string, players: seq<Player>)

  datatype SetHistory = SetHistory(setNumber: int, scoreA: int, scoreB: int, winner: TeamId)

  datatype RotationReport = RotationReport(
    outgoingTeam: Team,
    incomingTeam: Team,
    retainedPlayers: seq<Player>,
    stolenPlayers: seq<Player>,
    queueAfterRotation: seq<Team>,
    logs: Option<seq<string>>)

  /** One undoable action, with the fields the game actually records. */
  datatype ActionLog =
    | Point(team: TeamId, playerId: Option<string>, skill: Option<SkillType>)
    | Timeout(team: TeamId)
    | ToggleServe(previousServer: Option<TeamId>)

  /** A value produced by `JSON.parse` (numbers restricted to integers). */
  datatype Json =
    | JNull
    | JBool(b: bool)
    | JNum(n: int)
    | JStr(str: string)
    | JArr(items: seq<Json>)
    | JObj(fields: seq<(string, Json)>)

  /** Concatenation of the player lists of a sequence of teams. */
  function AllPlayers(ts: seq<Team>): seq<Player>
  {
    if ts == [] then [] else ts[0].players + AllPlayers(ts[1..])
  }

  lemma {:induction false} AllPlayersAppend(s: seq<Team>, t: seq<Team>)
    ensures AllPlayers(s + t) == AllPlayers(s) + AllPlayers(t)
  {
    if s == [] {
      assert s + t == t;
    } else {
      assert (s + t)[1..] == s[1..] + t;
      AllPlayersAppend(s[1..], t);
    }
  }

  function Ids(ps: seq<Player>): seq<string>
    ensures |Ids(ps)| == |ps|
    ensures forall i :: 0 <= i < |ps| ==> Ids(ps)[i] == ps[i].id
  {
    if ps == [] then [] else [ps[0].id] + Ids(ps[1..])
  }

  predicate HasPlayer(ps: seq<Player>, id: string)
  {
    exists i :: 0 <= i < |ps| && ps[i].id == id
  }

  function Max(a: int, b: int): int { if a < b then b else a }
  function Min(a: int, b: int): int { if a < b then a else b }
}
