// `useVolleyGame` as a class: the game state cell next to the queue manager the hook owns. Each
// method replaces the state by the transition modelled in VolleyGame.
module GameHook {
  import opened Types
  import opened PlayerQueue
  import opened QueueRotation
  import opened QueueHook
  import opened VolleyGame

  /** `useVolleyGame`: the game state cell next to the queue manager it owns. */
  class Game {
    var state: GameState
    const queueManager: PlayerQueueHook
    const rules: Rules

    constructor (queueManager: PlayerQueueHook, rules: Rules, defaultConfig: GameConfig)
      ensures state == InitialState(defaultConfig) && this.queueManager == queueManager && this.rules == rules
      ensures Valid(state)
    {
      this.queueManager := queueManager;
      this.rules := rules;
      state := InitialState(defaultConfig);
    }

    method AddPoint(team: TeamId, newId: nat -> string)
      requires Valid(state)
      modifies this
      ensures state == VolleyGame.AddPoint(old(state), team, rules, queueManager.state, queueManager.courtLimit, newId)
      ensures Valid(state)
    {
      AddPointValid(state, team, rules, queueManager.state, queueManager.courtLimit, newId);
      state := VolleyGame.AddPoint(state, team, rules, queueManager.state, queueManager.courtLimit, newId);
    }

    method SubtractPoint(team: TeamId)
      requires Valid(state)
      modifies this
      ensures state == VolleyGame.SubtractPoint(old(state), team) && Valid(state)
    {
      SubtractValid(state, team);
      state := VolleyGame.SubtractPoint(state, team);
    }

    method UseTimeout(team: TeamId)
      requires Valid(state)
      modifies this
      ensures state == VolleyGame.UseTimeout(old(state), team) && Valid(state)
    {
      TimeoutValid(state, team);
      state := VolleyGame.UseTimeout(state, team);
    }

    method Undo()
      requires Valid(state)
      modifies this
      ensures state == VolleyGame.Undo(old(state)) && Valid(state)
    {
      UndoValid(state);
      state := VolleyGame.Undo(state);
    }

    method ResetMatch()
      modifies this
      ensures state == VolleyGame.ResetMatch(old(state)) && Valid(state)
    {
      ResetEffect(state, state.config);
      state := VolleyGame.ResetMatch(state);
    }

    method ToggleSides()
      requires Valid(state)
      modifies this
      ensures state == VolleyGame.ToggleSides(old(state)) && Valid(state)
    {
      ToggleValid(state);
      state := VolleyGame.ToggleSides(state);
    }

    method ToggleService()
      requires Valid(state)
      modifies this
      ensures state == VolleyGame.ToggleService(old(state)) && Valid(state)
    {
      ToggleValid(state);
      state := VolleyGame.ToggleService(state);
    }

    method ApplySettings(config: GameConfig, shouldReset: bool)
      requires Valid(state)
      modifies this
      ensures state == VolleyGame.ApplySettings(old(state), config, shouldReset) && Valid(state)
    {
      ResetEffect(state, config);
      state := VolleyGame.ApplySettings(state, config, shouldReset);
    }

    /**
     * `rotateTeams`: with a match winner, the queue manager rotates and a new match starts;
     * without one nothing happens.
     */
    method RotateTeams(newId: nat -> string)
      requires Valid(state)
      modifies this, queueManager
      ensures old(state).matchWinner.None? ==> state == old(state) && queueManager.state == old(queueManager.state)
      ensures old(state).matchWinner.Some? ==>
        queueManager.state == RotateState(old(queueManager.state), old(state).matchWinner.value, queueManager.courtLimit, newId)
      ensures state == RotateReset(old(state)) && Valid(state)
      ensures queueManager.deleted == old(queueManager.deleted)
    {
      RotateResetValid(state);
      if state.matchWinner.None? {
        return;
      }
      queueManager.RotateTeams(state.matchWinner.value, newId);
      state := RotateReset(state);
    }

    /** The effect run whenever the queue manager's state changes. */
    method SyncFromQueue()
      requires Valid(state)
      modifies this
      ensures state == VolleyGame.SyncFromQueue(old(state), queueManager.state) && Valid(state)
    {
      SyncValid(state, queueManager.state);
      state := VolleyGame.SyncFromQueue(state, queueManager.state);
    }

    /**
     * `canUndo`: the undo button is enabled exactly when the log is not empty, which during play
     * is exactly when `undo` would change the state.
     */
    function CanUndo(): (r: bool)
      reads this
      ensures r <==> state.actionLog != []
      ensures !state.isMatchOver ==> (r <==> VolleyGame.Undo(state) != state)
    {
      |state.actionLog| > 0
    }
  }
}
