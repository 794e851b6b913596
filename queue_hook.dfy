// The state cell of `usePlayerQueue`: the courts and queue, and the stack of removals that can
// still be undone. Each operation replaces the state by the updater modelled in PlayerQueue,
// QueueRotation and QueueRoster. Fresh ids and the clock are parameters.
module QueueHook {
  import opened Types
  import opened PlayerQueue
  import opened QueueRotation
  import opened QueueRoster

  class PlayerQueueHook {
    var state: QueueState
    var deleted: seq<DeletedRecord>
    /** `PLAYER_LIMIT_ON_COURT`. */
    const courtLimit: nat
    /** `PLAYERS_PER_TEAM`. */
    const perTeam: nat

    /** The hook starts from the initial queue state, with nothing to undo. */
    constructor (courtLimit: nat, perTeam: nat)
      requires perTeam > 0
      ensures state == InitialQueueState && deleted == []
      ensures this.courtLimit == courtLimit && this.perTeam == perTeam
    {
      this.courtLimit := courtLimit;
      this.perTeam := perTeam;
      state := InitialQueueState;
      deleted := [];
    }

    /**
     * `generateTeams`: one player per non-blank name, courts filled in order, the rest chunked into
     * queue teams; the deletion history is cleared.
     */
    method GenerateTeams(names: seq<string>, newId: nat -> string)
      requires perTeam > 0
      modifies this
      ensures state == Distribute(old(state), GeneratedPlayers(names, newId), courtLimit, perTeam, newId)
      ensures Everyone(state) == GeneratedPlayers(names, newId)
      ensures |state.courtA.players| <= courtLimit && |state.courtB.players| <= courtLimit
      ensures deleted == []
    {
      var all := GeneratedPlayers(names, newId);
      var i := Min(courtLimit, |all|);
      var j := Min(2 * courtLimit, |all|);
      var q := ChunkQueue(all[j..], perTeam, newId, QueueTeamLabel, |all|);
      DistributeShape(state, all, courtLimit, perTeam, newId);
      state := QueueState(state.courtA.(players := all[..i], name := "Team A"),
                          state.courtB.(players := all[i..j], name := "Team B"), q, None);
      deleted := [];
    }

    /** `updateTeamName`: the team gets the sanitised name; no player moves. */
    method UpdateTeamName(teamId: string, name: string)
      modifies this
      ensures state == RenameTeam(old(state), teamId, SafeName(name)) && deleted == old(deleted)
      ensures Everyone(state) == Everyone(old(state))
    {
      RenameKeepsPlayers(state, teamId, SafeName(name));
      state := RenameTeam(state, teamId, SafeName(name));
    }

    /** `updatePlayerName`: the player gets the sanitised name. */
    method UpdatePlayerName(playerId: string, newName: string)
      modifies this
      ensures state == RenamePlayer(old(state), playerId, SafeName(newName)) && deleted == old(deleted)
      ensures DistinctIds(Everyone(old(state))) ==>
        Everyone(state) == RenameIn(Everyone(old(state)), playerId, SafeName(newName))
    {
      if DistinctIds(Everyone(state)) {
        RenamePlayerEffect(state, playerId, SafeName(newName));
      }
      state := RenamePlayer(state, playerId, SafeName(newName));
    }

    /** `togglePlayerFixed`: the optional team id the caller passes plays no part. */
    method TogglePlayerFixed(playerId: string, teamId: Option<string>)
      modifies this
      ensures state == QueueRotation.TogglePlayerFixed(old(state), playerId) && deleted == old(deleted)
    {
      state := QueueRotation.TogglePlayerFixed(state, playerId);
    }

    /** `getRotationPreview`: a report for the current state, none without a waiting team. */
    method GetRotationPreview(winner: TeamId, newId: nat -> string) returns (r: Option<RotationReport>)
      ensures r == RotationPreview(state, winner, courtLimit, newId)
      ensures r.None? <==> state.queue == []
    {
      r := RotationPreview(state, winner, courtLimit, newId);
    }

    /** `rotateTeams`: the winner stays, everyone else keeps playing or waiting. */
    method RotateTeams(winner: TeamId, newId: nat -> string)
      modifies this
      ensures state == RotateState(old(state), winner, courtLimit, newId) && deleted == old(deleted)
      ensures DistinctIds(Everyone(old(state))) ==> multiset(Everyone(state)) == multiset(Everyone(old(state)))
    {
      if DistinctIds(Everyone(state)) {
        RotateConserves(state, winner, courtLimit, newId);
      }
      state := RotateState(state, winner, courtLimit, newId);
    }

    /** `addPlayer`: refused for a blank name or a full court; otherwise one more player. */
    method AddPlayer(name: string, target: AddTarget, newId: nat -> string)
      modifies this
      ensures state == AddPlayerState(old(state), SafeName(name), target, courtLimit, perTeam, newId, QueueTeamLabel)
      ensures deleted == old(deleted)
      ensures AddRefused(old(state), SafeName(name), target, courtLimit) <==> state == old(state)
    {
      var safeName := SafeName(name);
      AddPlayerRefusedIff(state, safeName, target, courtLimit, perTeam, newId, QueueTeamLabel);
      if safeName == "" {
        return;
      }
      state := AddPlayerState(state, safeName, target, courtLimit, perTeam, newId, QueueTeamLabel);
    }

    /** `removePlayer`: a removed player is pushed, with where it stood, on the deletion stack. */
    method RemovePlayer(playerId: string, now: int)
      modifies this
      ensures state == RemovePlayerState(old(state), playerId)
      ensures match RemovalOrigin(old(state), playerId)
        case None => deleted == old(deleted) && state == old(state)
        case Some((p, origin)) => deleted == old(deleted) + [DeletedRecord(p, origin, now)]
    {
      match RemovalOrigin(state, playerId)
      case None =>
      case Some((p, origin)) =>
        deleted := deleted + [DeletedRecord(p, origin, now)];
        state := RemovePlayerState(state, playerId);
    }

    /**
     * `undoRemovePlayer`: the latest record is popped and its player restored where there is room;
     * the record is consumed even when its court is full.
     */
    method UndoRemovePlayer(teamId: string)
      modifies this
      ensures !old(HasDeletedPlayers()) ==> state == old(state) && deleted == []
      ensures old(HasDeletedPlayers()) ==> DeletedCount() == old(DeletedCount()) - 1
      ensures old(HasDeletedPlayers()) ==>
        deleted == old(deleted)[..|old(deleted)| - 1] &&
        state == RestoreState(old(state), old(deleted)[|old(deleted)| - 1], courtLimit, perTeam, teamId, QueueTeamLabel)
    {
      if deleted == [] {
        return;
      }
      var rec := deleted[|deleted| - 1];
      deleted := deleted[..|deleted| - 1];
      state := RestoreState(state, rec, courtLimit, perTeam, teamId, QueueTeamLabel);
    }

    /** `commitDeletions`: nothing is left to undo. */
    method CommitDeletions()
      modifies this
      ensures deleted == [] && state == old(state)
    {
      deleted := [];
    }

    /** `movePlayer`, with the source team kept while it is also the target. */
    method MovePlayer(playerId: string, fromId: string, toId: string, teamId: string)
      modifies this
      ensures state == QueueRoster.MovePlayer(old(state), playerId, fromId, toId, courtLimit, perTeam, teamId, QueueTeamLabel)
      ensures deleted == old(deleted)
      ensures DistinctIds(Everyone(old(state))) && DistinctTeamIds(old(state).queue) ==>
        |Everyone(state)| == |Everyone(old(state))|
    {
      if DistinctIds(Everyone(state)) && DistinctTeamIds(state.queue) {
        MoveKeepsCount(state, playerId, fromId, toId, courtLimit, perTeam, teamId, QueueTeamLabel);
      }
      state := QueueRoster.MovePlayer(state, playerId, fromId, toId, courtLimit, perTeam, teamId, QueueTeamLabel);
    }

    /** `hasDeletedPlayers`. */
    function HasDeletedPlayers(): (r: bool)
      reads this
      ensures r <==> deleted != []
    {
      |deleted| > 0
    }

    /** `deletedCount`. */
    function DeletedCount(): (r: nat)
      reads this
      ensures r == 0 <==> !HasDeletedPlayers()
    {
      |deleted|
    }
  }
}
