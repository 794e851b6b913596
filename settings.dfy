/**
 * The rules part of `components/modals/SettingsModal.tsx`: the three rule presets, the tests that
 * light up the active one, the tie-break switch, and the save that asks for a reset when a match
 * in progress gets new rules. The edited configuration is a value the modal replaces on each edit.
 */
module Settings {
  import opened Types
  import VolleyGame

  /** The three preset buttons. */
  datatype Preset = FIVB | BeachPreset | Segunda

  /** `setPresetFIVB`, `setPresetBeach`, `setPresetSegunda`: the preset's five rule fields. */
  function ApplyPreset(p: Preset, c: GameConfig): (r: GameConfig)
    ensures r.mode == c.mode && r.rotationMode == c.rotationMode
    ensures r.enablePlayerStats == c.enablePlayerStats && r.enableSound == c.enableSound
    ensures r.tieBreakPoints == 15
  {
    match p
    case FIVB => c.(maxSets := 5, pointsPerSet := 25, hasTieBreak := true, tieBreakPoints := 15, deuceType := Standard)
    case BeachPreset => c.(maxSets := 3, pointsPerSet := 21, hasTieBreak := true, tieBreakPoints := 15, deuceType := Standard)
    case Segunda => c.(maxSets := 1, pointsPerSet := 15, hasTieBreak := false, tieBreakPoints := 15, deuceType := SuddenDeath3pt)
  }

  /** `isFIVB`, `isBeach`, `isSegunda`: the button shown as active. */
  predicate IsActive(p: Preset, c: GameConfig)
  {
    match p
    case FIVB => c.maxSets == 5 && c.pointsPerSet == 25 && c.hasTieBreak && c.deuceType == Standard
    case BeachPreset => c.maxSets == 3 && c.pointsPerSet == 21 && c.hasTieBreak && c.deuceType == Standard
    case Segunda => c.maxSets == 1 && c.pointsPerSet == 15 && !c.hasTieBreak && c.deuceType == SuddenDeath3pt
  }

  /** After a preset is applied, its button is the active one, and no other is. */
  lemma PresetActivates(p: Preset, q: Preset, c: GameConfig)
    ensures IsActive(q, ApplyPreset(p, c)) <==> q == p
  {
  }

  /** At most one preset is active at a time: they ask for different numbers of sets. */
  lemma AtMostOneActive(p: Preset, q: Preset, c: GameConfig)
    requires IsActive(p, c) && IsActive(q, c)
    ensures p == q
  {
  }

  /** A preset is active exactly when applying it would change nothing but the tie-break points. */
  lemma ActiveIffFixedPoint(p: Preset, c: GameConfig)
    ensures IsActive(p, c) <==> ApplyPreset(p, c) == c.(tieBreakPoints := 15)
  {
    if ApplyPreset(p, c) == c.(tieBreakPoints := 15) {
      assert ApplyPreset(p, c).maxSets == c.maxSets;
      assert ApplyPreset(p, c).pointsPerSet == c.pointsPerSet;
      assert ApplyPreset(p, c).hasTieBreak == c.hasTieBreak;
      assert ApplyPreset(p, c).deuceType == c.deuceType;
    }
  }

  /** The tests ignore the tie-break points: a preset stays active whatever the tie-break is played to. */
  lemma ActiveIgnoresTieBreakPoints(p: Preset, c: GameConfig, points: int)
    ensures IsActive(p, c.(tieBreakPoints := points)) == IsActive(p, c)
  {
  }

  /** The tie-break switch of line 181. */
  function ToggleTieBreak(c: GameConfig): (r: GameConfig)
    ensures r.hasTieBreak != c.hasTieBreak
    ensures r.(hasTieBreak := c.hasTieBreak) == c
  {
    c.(hasTieBreak := !c.hasTieBreak)
  }

  /** Switching the tie-break twice restores the configuration. */
  lemma ToggleTieBreakTwice(c: GameConfig)
    ensures ToggleTieBreak(ToggleTieBreak(c)) == c
  {
  }

  /**
   * `hasConfigChanged`: the two configurations print to different JSON texts, which for these
   * flat records means they differ in some field.
   */
  predicate HasConfigChanged(localConfig: GameConfig, config: GameConfig)
  {
    localConfig != config
  }

  predicate RequiresReset(localConfig: GameConfig, config: GameConfig, isMatchActive: bool)
  {
    HasConfigChanged(localConfig, config) && isMatchActive
  }

  /**
   * `handleSave` followed by the game's `applySettings`: the edited rules are saved, and the match
   * is reset exactly when it was under way and the rules changed.
   */
  function Save(s: VolleyGame.GameState, localConfig: GameConfig): (r: VolleyGame.GameState)
    ensures r.config == localConfig
  {
    VolleyGame.ApplySettings(s, localConfig, RequiresReset(localConfig, s.config, VolleyGame.IsMatchActive(s)))
  }

  /**
   * What a save does to the game: with unchanged rules, nothing; before the first point, only
   * the rules change; during a match with new rules, a fresh inactive match with the same teams.
   */
  lemma SaveEffect(s: VolleyGame.GameState, localConfig: GameConfig)
    ensures localConfig == s.config ==> Save(s, localConfig) == s
    ensures !VolleyGame.IsMatchActive(s) ==> Save(s, localConfig) == s.(config := localConfig)
    ensures localConfig != s.config && VolleyGame.IsMatchActive(s) ==>
      Save(s, localConfig) == VolleyGame.ResetMatch(s).(config := localConfig) &&
      !VolleyGame.IsMatchActive(Save(s, localConfig))
  {
    VolleyGame.ResetEffect(s, localConfig);
    if localConfig == s.config {
      assert s.(config := localConfig) == s;
    }
  }
}
