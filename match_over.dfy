/**
 * The derived values of the match-over dialog (`components/modals/MatchOverModal.tsx`): the
 * winner's name and background colour, the incoming squad split into core players and
 * reinforcements, and the MVP, which the dialog computes exactly as the MVP hook does.
 */
module MatchOver {
  import opened Types
  import opened JsString
  import opened Lists
  import opened VolleyGame
  import Mvp
  import PlayerQueue

  /** `state.matchWinner === 'A' ? state.teamAName : state.teamBName`: no winner shows B's name. */
  function WinnerName(s: GameState): (r: string)
    ensures s.matchWinner == Some(A) ==> r == s.teamAName
    ensures s.matchWinner != Some(A) ==> r == s.teamBName
  {
    if s.matchWinner == Some(A) then s.teamAName else s.teamBName
  }

  /**
   * The dialog the deciding point opens names the side whose set count reached the sets needed,
   * under the name it played with; a state still in play has no winner and shows B's name.
   */
  lemma DecidingPointNamesWinner(s: GameState, team: TeamId, rules: Rules, qs: PlayerQueue.QueueState, courtLimit: int,
                                 newId: nat -> string)
    requires Valid(s) && !s.isMatchOver
    ensures WinnerName(s) == s.teamBName
    ensures var r := AddPoint(s, team, rules, qs, courtLimit, newId);
      r.isMatchOver ==>
        (r.matchWinner.Some? && SetsOf(r, r.matchWinner.value) == rules.setsToWin(s.config.maxSets) &&
         WinnerName(r) == (if r.matchWinner.value == A then s.teamAName else s.teamBName))
  {
    var (a, b, sudden) := Scored(s, team);
    var w := SetWinner(a, b, sudden, Target(s), rules.minLead);
    if w.Some? {
      var r := WinSet(s, w.value, a, b, rules, qs, courtLimit, newId);
      assert AddPoint(s, team, rules, qs, courtLimit, newId) == r;
    }
  }

  /** The colour key of the winning side: the roster's colour, or its default when that is empty. */
  function WinnerColorKey(s: GameState): (r: string)
    ensures r != ""
    ensures s.matchWinner == Some(A) && s.teamARoster.color != "" ==> r == s.teamARoster.color
    ensures s.matchWinner != Some(A) && s.teamBRoster.color != "" ==> r == s.teamBRoster.color
  {
    if s.matchWinner == Some(A) then (if s.teamARoster.color != "" then s.teamARoster.color else "indigo")
    else if s.teamBRoster.color != "" then s.teamBRoster.color else "rose"
  }

  /** The eight colour names the dialog's mapping knows. */
  const Palette: seq<string> := ["indigo", "rose", "emerald", "amber", "sky", "violet", "slate", "fuchsia"]

  /** `getBgColor(c)`: an arbitrary-value class for a hex colour, the 600 shade of a known name, else indigo. */
  function BgColor(c: string): (r: string)
    ensures StartsWith(r, "bg-")
    ensures StartsWith(c, "#") ==> r == "bg-[" + c + "]"
    ensures !StartsWith(c, "#") && c in Palette ==> r == "bg-" + c + "-600"
    ensures !StartsWith(c, "#") && c !in Palette ==> r == "bg-indigo-600"
  {
    if StartsWith(c, "#") then "bg-[" + c + "]"
    else if c in Palette then "bg-" + c + "-600"
    else "bg-indigo-600"
  }

  /** The colour a background class names: the inside of `bg-[…]`, or the middle of `bg-…-600`. */
  function ClassColor(r: string): (c: string)
    ensures |c| <= |r|
  {
    if |r| >= 5 && r[..4] == "bg-[" && r[|r| - 1] == ']' then r[4..|r| - 1]
    else if |r| >= 7 && r[..3] == "bg-" && r[|r| - 4..] == "-600" then r[3..|r| - 4]
    else ""
  }

  /** The class names its colour back for hex colours and the known names; every other colour reads as indigo. */
  lemma BgColorNamesColor(c: string)
    ensures StartsWith(c, "#") || c in Palette ==> ClassColor(BgColor(c)) == c
    ensures !StartsWith(c, "#") && c !in Palette ==> ClassColor(BgColor(c)) == "indigo"
  {
    var r := BgColor(c);
    if StartsWith(c, "#") {
      assert r[..4] == "bg-[" && r[|r| - 1] == ']';
      assert r[4..|r| - 1] == c;
    } else if c in Palette {
      assert |c| >= 1 && c[0] != '[' by {
        var i :| 0 <= i < |Palette| && Palette[i] == c;
      }
      assert r[3] == c[0];
      assert r[..3] == "bg-" && r[|r| - 4..] == "-600";
      assert r[3..|r| - 4] == c;
    } else {
      assert r[..4] != "bg-[" by {
        assert r[3] == 'i';
      }
      assert r[3..|r| - 4] == "indigo";
    }
  }

  // ---------------------------------------------------------------------------------------------
  // The incoming squad

  /** The ids of the players the rotation stole for the incoming team. */
  function StolenIds(report: Option<RotationReport>): (r: seq<string>)
    ensures report.None? ==> r == []
    ensures report.Some? ==> forall id :: id in r <==> HasPlayer(report.value.stolenPlayers, id)
  {
    if report.None? then []
    else
      var ids := Ids(report.value.stolenPlayers);
      assert forall id :: id in ids <==> HasPlayer(report.value.stolenPlayers, id) by {
        forall id | id in ids ensures HasPlayer(report.value.stolenPlayers, id)
        {
          var i :| 0 <= i < |ids| && ids[i] == id;
        }
      }
      ids
  }

  /** `coreSquad`: the incoming team's players whose ids were not stolen, in their order. */
  function CoreSquad(report: Option<RotationReport>): seq<Player>
  {
    if report.None? then []
    else
      var stolen := StolenIds(report);
      Filter(report.value.incomingTeam.players, (p: Player) => p.id !in stolen)
  }

  /** `reinforcements`: the stolen players, or none without a report. */
  function Reinforcements(report: Option<RotationReport>): seq<Player>
  {
    if report.None? then [] else report.value.stolenPlayers
  }

  /** `logs`: the report's log lines, or none. */
  function Logs(report: Option<RotationReport>): seq<string>
  {
    if report.None? || report.value.logs.None? then [] else report.value.logs.value
  }

  /**
   * Without a report the three lists are empty. With one, the core squad holds exactly the incoming
   * players whose ids are not among the reinforcements', so no reinforcement is listed twice.
   */
  lemma SquadSplit(report: Option<RotationReport>)
    ensures report.None? ==> CoreSquad(report) == [] && Reinforcements(report) == [] && Logs(report) == []
    ensures report.Some? ==> forall p :: (p in CoreSquad(report) <==>
      p in report.value.incomingTeam.players && !HasPlayer(Reinforcements(report), p.id))
  {
    if report.Some? {
      var stolen := StolenIds(report);
      FilterKeeps(report.value.incomingTeam.players, (p: Player) => p.id !in stolen);
    }
  }

  // ---------------------------------------------------------------------------------------------
  // The MVP

  /**
   * The dialog's `mvpData`, which repeats the MVP hook: `null` without a match log, with an empty one,
   * or when no point credits a rostered player; otherwise a player with at least one point.
   */
  lemma MvpDataNull(s: GameState, matchLog: Option<seq<ActionLog>>)
    ensures var r := Mvp.MvpOf(matchLog, s.teamARoster, s.teamBRoster);
      (r.None? <==> matchLog.None? || forall k :: 0 <= k < |matchLog.value| ==>
        !Mvp.Counted(matchLog.value[k], Mvp.PlayerMap(s.teamARoster, s.teamBRoster))) &&
      (r.Some? ==> r.value.totalPoints >= 1)
  {
    if matchLog.Some? && matchLog.value != [] {
      Mvp.MvpIsTopScorer(matchLog.value, s.teamARoster, s.teamBRoster);
    }
  }
}
