# VolleyScore Pro — a verified model of the scoreboard's rules

VolleyScore Pro is a volleyball scoreboard for phones and tablets. A match engine keeps score. It
decides set and match wins under the minimum-lead rule, the tie-break target and a three-point
"sudden death" variant. It also caps timeouts, cycles the server and undoes logged actions. Around
the engine sit a roster manager (two courts plus a queue of teams waiting to play, with
king-of-the-court rotation), team-balancing drafts, a match-history store with JSON import, player
profiles, name parsing and sanitising, an MVP tally, match statistics, a gesture classifier for the
score cards, and the small formatting rules of the screens (clocks, durations, name
abbreviation, rule presets, drag targets).

This project restates that behaviour in Dafny and proves what each operation promises. Modules
follow the source's concerns rather than its files: `hooks/usePlayerQueue.ts` is split into
`PlayerQueue`, `QueueRoster`, `QueueRotation` and `QueueHook`, `utils/balanceUtils.ts` into
`Balance`, `BalanceRotation` and `BalancedRotation`, and the small rules of several screens share
`Hud` and `TimeFormat`.

- Pure code (updaters built from spreads, filters, maps and arithmetic) becomes datatypes, functions
  and lemmas.
- The mutable cells of the app are classes whose methods call the transition functions:
  - the game hook's state (`GameHook.Game`);
  - the queue hook's state (`QueueHook.PlayerQueueHook`);
  - the history store (`HistoryStore.Store`);
  - the profile map (`Profiles.Profiles`);
  - the gesture refs (`Gestures.ScoreGestures`).
- Loops that push into buckets, scan with early returns or fill maps are methods with loop
  invariants, each proved equal to a specification function whose properties are proved as lemmas.

Shared modules:

- `Types`: the data shapes of `types.ts`.
- `JsString`: the JavaScript string operations the code relies on (`trim`, `toLowerCase`,
  `toUpperCase`, `includes`, `split`, `join`, `padStart`, number printing).
- `Lists`: `filter` and the stable `Array.prototype.sort`.
- `Dict`: an insertion-ordered `Map`.

Constants defined in a module outside this model (`PLAYER_LIMIT_ON_COURT`, `PLAYERS_PER_TEAM`,
`MIN_LEAD_TO_WIN`, `SETS_TO_WIN_MATCH`, `DEFAULT_CONFIG`) are parameters. Fresh ids (`Math.random`,
`uuidv4`) and clock readings (`Date.now`) are parameters too: a function from a counter to an id,
and a timestamp.

## Model

| member | source | states |
|---|---|---|
| Types.AllPlayersAppend | types.ts:20-136 | The players of a list of teams, taken team by team, split over a concatenation of the lists. |
| QueueRoster.AllPlayersSplice | types.ts:20-136 | The players of three lists of teams joined are the three lists' players joined. |
| Lists.Filter | stores/historyStore.ts:101 | `filter` keeps only elements meeting the predicate, never more than it was given, and nothing it was not given. |
| Lists.FilterKeeps | stores/historyStore.ts:101 | Every element meeting the predicate survives the filter, and no element gains occurrences. |
| Lists.FilterKeepsMembers | stores/historyStore.ts:101 | Every element meeting the predicate survives the filter. |
| Lists.FilterSubMultiset | stores/historyStore.ts:101 | The filter only drops elements: no element gains occurrences. |
| Lists.FilterAppend | stores/historyStore.ts:101 | The filter works on a concatenation part by part, keeping order. |
| Lists.FilterAll | stores/historyStore.ts:101 | A filter that every element passes changes nothing. |
| Lists.SortBy | utils/balanceUtils.ts:53-55 | `sort` with a comparator returns a permutation of its input. |
| Lists.SortBySorted | utils/balanceUtils.ts:53-55 | For a total preorder the sort's result is ordered. |
| Lists.SortByStable | utils/balanceUtils.ts:53-55 | The sort is stable, as JavaScript's is: the elements the comparator ties with any given one come out in their input order. |
| Dict.KeyIndex | components/History/MatchDetail.tsx:194-236 | A key is found exactly when the map holds it, at a position that carries it. |
| Dict.Get | components/History/MatchDetail.tsx:194-236 | `map.get` answers nothing exactly for an absent key, and otherwise a value stored under it. |
| Dict.Set | components/History/MatchDetail.tsx:194-236 | `map.set` keeps the insertion order: an existing key keeps its place, a new key is appended, and every other entry stays. |
| Dict.Delete | hooks/usePlayerProfiles.ts:61-67 | `map.delete` removes exactly the entries with that key. |
| Dict.ValuesAreGets | hooks/useMvp.ts:45 | With distinct keys, `map.values()` lists in insertion order what `map.get` returns for each key, and a value is listed exactly when some key gets it. |
| Dict.SetGet | components/History/MatchDetail.tsx:194-236 | After `set` the key reads back the new value, every other key reads what it did before, and keys stay distinct. |
| Dict.DeleteGet | hooks/usePlayerProfiles.ts:61-67 | After `delete` the key is absent, every other key reads what it did before, and keys stay distinct. |
| Dict.DeleteDistinct | hooks/usePlayerProfiles.ts:61-67 | Deleting a key keeps the keys distinct. |
| Dict.DeleteOther | hooks/usePlayerProfiles.ts:61-67 | Deleting one key leaves the value read under every other key unchanged. |
| JsString.TrimFacts | utils/security.ts:22 | `trim` returns the slice left after dropping whitespace, and only whitespace, from both ends; the result does not start or end with whitespace. |
| JsString.TrimOfTrimmed | utils/security.ts:22 | A string with no whitespace at either end is its own trim. |
| JsString.TrimIdempotent | utils/security.ts:22 | Trimming twice is trimming once. |
| JsString.TrimEmptyIffBlank | utils/playerUtils.ts:28-30 | Trimming leaves nothing exactly when the string is all whitespace. |
| JsString.Lower | utils/playerUtils.ts:35 | `toLowerCase` keeps the length. |
| JsString.LowerIdempotent | utils/playerUtils.ts:35 | Lower-casing twice is lower-casing once. |
| JsString.LowerAppend | utils/playerUtils.ts:35 | Lower-casing works character by character over a concatenation. |
| JsString.Upper | components/Share/ResultCard.tsx:60-62 | `toUpperCase` never shortens a string, and keeps its length when it holds no `ß`. |
| JsString.ContainsEmpty | components/History/HistoryList.tsx:144-156 | Every string includes the empty string. |
| JsString.SplitOn | utils/playerUtils.ts:24-25 | `split` on a one-character delimiter class gives at least one piece, and no piece contains a delimiter. |
| JsString.Join | utils/playerUtils.ts:67 | `join` of no elements is empty and of one element is that element. |
| JsString.SplitJoin | utils/playerUtils.ts:24-25 | Splitting a delimiter-free list joined with a delimiter gives the list back. |
| JsString.NatToString | components/FullscreenHUD.tsx:66 | Printing a natural number gives decimal digits with no leading zero. |
| JsString.NatToStringRoundTrip | components/FullscreenHUD.tsx:66 | Reading the printed digits back gives the number. |
| Security.SanitizeInput | utils/security.ts:18-34 | A non-string gives `''`. Otherwise the result is the trimmed input with every character outside the allow-list removed, cut to `maxLength`: every character is allowed, the length is at most `maxLength`, order is kept and nothing is inserted. |
| Security.SanitizeStripsMarkup | utils/security.ts:8 | `<`, `>`, `/`, `;`, `(`, `)`, quotes and the like never survive sanitising. |
| Security.SanitizeKeepsCleanInput | utils/security.ts:18-34 | A trimmed, allow-listed input within `maxLength` comes back unchanged. |
| Security.SanitizeNotIdempotent | utils/security.ts:22-26 | Sanitising is not idempotent: `"x <"` gives `"x "`, which sanitises to `"x"`. |
| PlayerUtils.DedupDistinct | utils/playerUtils.ts:33-37 | The `Map` keyed by lower-cased name leaves no two names equal once lower-cased. |
| PlayerUtils.DedupCovers | utils/playerUtils.ts:33-37 | Every input name is represented, case-insensitively. |
| PlayerUtils.DedupLast | utils/playerUtils.ts:33-37 | Each kept name is the last spelling the input gave for its key. |
| PlayerUtils.DedupOrder | utils/playerUtils.ts:33-37 | The kept names are ordered by where each key first appeared. |
| PlayerUtils.PutLower | utils/playerUtils.ts:33-37 | `set` keeps each entry's key in place and appends a new key last, growing the map by one exactly for a new key. |
| PlayerUtils.OrderStepKey | utils/playerUtils.ts:33-37 | After one more `set`, every entry spells a key of the names seen so far. |
| PlayerUtils.OrderStepPair | utils/playerUtils.ts:33-37 | After one more `set`, two entries keep the order in which their keys first appeared. |
| PlayerUtils.DedupOfDistinct | utils/playerUtils.ts:33-37 | A list already distinct up to case is left as it is. |
| PlayerUtils.ParseShape | utils/playerUtils.ts:20-40 | `parsePlayerCSV` returns non-empty, trimmed, delimiter-free names, one per case-insensitive spelling, covering every non-empty piece of the input by its last spelling. |
| PlayerUtils.TrimmedPiece | utils/playerUtils.ts:28-30 | A non-empty trimmed piece of the split input is a well-formed name. |
| PlayerUtils.ParseIdempotent | utils/playerUtils.ts:20-40 | Parsing the comma-join of a parsed list gives the same list. |
| PlayerUtils.ReparseWellFormed | utils/playerUtils.ts:20-40 | A non-empty list of distinct well-formed names survives being joined with commas and parsed. |
| PlayerUtils.ValidationErrorsEmpty | utils/playerUtils.ts:69-85 | The cleaned list has no errors exactly when it holds 1 to `maxPlayers` names, none longer than `maxNameLength`, each plain when special characters are refused. |
| PlayerUtils.CheckEachName | utils/playerUtils.ts:77-85 | The `forEach` appends, name by name, the errors of each cleaned name. |
| PlayerUtils.CheckCleanedNames | utils/playerUtils.ts:66-85 | The count checks come first, then the per-name checks, giving exactly the specified error list. |
| PlayerUtils.ValidatePlayerNames | utils/playerUtils.ts:56-92 | `cleanedNames` is the parse of the names joined with commas, `errors` the specified list, and `valid` holds exactly when the cleaned list has 1 to `maxPlayers` acceptable names. |
| PlayerUtils.FormatPlayerListForDisplay | utils/playerUtils.ts:102-110 | `"(no players)"` for no names. With room for every name, the names joined by `", "`. Otherwise the first `maxDisplay` names and `", +N more"` with N the rest. A negative `maxDisplay` drops names from the end, as `slice(0, end)` does. |
| PlayerUtils.NegativeDisplayLimit | utils/playerUtils.ts:105-109 | With a negative limit the shown names and the counted remainder overlap: `["a","b"]` with -1 prints `"a, +3 more"`. |
| TimeFormat.HmsParts | components/HistoryBar.tsx:19-21 | Hours, minutes and seconds of a duration recombine into it, and hours and minutes give the whole minutes. |
| TimeFormat.Pad2 | components/Fullscreen/FloatingTopBar.tsx:39 | A padded clock field is all digits, at least two of them, exactly two below 100, and reads back as the number. |
| TimeFormat.FormatTime | components/Fullscreen/FloatingTopBar.tsx:36-40 | `formatTime` prints digits, a colon, then a two-digit field. |
| TimeFormat.FormatTimeRoundTrip | components/FullscreenHUD.tsx:24-28 | Reading the minutes-and-seconds text back gives the number of seconds. |
| TimeFormat.GameTimerText | components/HistoryBar.tsx:18-25 | `mm:ss` (five characters) under an hour, and `h:mm:ss` from the first hour on. |
| TimeFormat.GameTimerRoundTrip | components/HistoryBar.tsx:18-25 | Reading the game-timer text back gives the duration. |
| TimeFormat.DurationText | components/History/HistoryList.tsx:28-30 | The duration ends in `m`, and has an `h` part exactly from the first hour on. |
| TimeFormat.DurationTextRoundTrip | components/Share/ResultCard.tsx:48-50 | The numbers before `h` and `m` are the hours and the minutes past the hour; seconds are dropped. |
| Hud.ShortDigits | src/components/Fullscreen/FloatingTopBar.tsx:26 | A digit string of at most two digits is worth less than 100. |
| Hud.FormatTimeFields | src/components/Fullscreen/FloatingTopBar.tsx:23-27 | The last two characters read as the seconds past the minute, the digits before the colon as the whole minutes, and from 100 minutes on the text has six characters or more. |
| Hud.UsedDots | components/FullscreenHUD.tsx:82 | Dot `t` is used when `t <= timeouts`, so the number of used dots is the timeouts taken clamped to 0..2. |
| Hud.DotWordingsAgree | src/components/Fullscreen/FloatingTopBar.tsx:71 | The `src/` bar's "available when `i > timeouts`" is exactly the negation of the app bar's "used when `i <= count`" (`components/Fullscreen/FloatingTopBar.tsx:101`). |
| Hud.ClickRequestsTimeout | src/components/Fullscreen/FloatingTopBar.tsx:45-52 | A click reaches the game exactly while fewer than two dots are used. |
| Hud.ExhaustedMatchesGuard | components/FullscreenHUD.tsx:76 | The button is disabled exactly when the game's timeout guard with two per set refuses, and then both dots show as used. |
| Hud.SetLabel | components/FullscreenHUD.tsx:66 | The label is `Tie Break` exactly in the tie-break, and `Set …` otherwise. |
| Hud.SetLabelNumber | components/FullscreenHUD.tsx:66 | The digits after `Set ` read back as the set number. |
| Hud.TruncateName | src/components/Fullscreen/FloatingTopBar.tsx:29-32 | Names of at most eight characters are kept. Longer ones become their first seven characters and `..`, nine in all. |
| Hud.TruncateIdempotent | src/components/Fullscreen/FloatingTopBar.tsx:29-32 | A truncated name truncates to itself. |
| ResultCard.FormatNameLength | components/Share/ResultCard.tsx:57-63 | A printed name has at most eight characters, exactly three when abbreviated, and otherwise as many as the trimmed name (when it holds no `ß`). |
| ResultCard.FormatNameKeepsShortCapitals | components/Share/ResultCard.tsx:57-63 | A trimmed, capitalised name of at most eight characters prints as itself. |
| ResultCard.NameSizeMonotone | components/Share/ResultCard.tsx:69-73 | A longer name never gets a larger font. |
| ResultCard.AbbreviatedNamesAreLargest | components/Share/ResultCard.tsx:57-73 | An abbreviated name is always printed in the largest size. |
| ResultCard.CrownedSide | components/Share/ResultCard.tsx:138-190 | The side styled as the winner (crown, bright name, strong glow) is the recorded winner, and B when no winner is recorded. |
| HistoryStore.Store.constructor | stores/historyStore.ts:91 | The history starts empty. |
| HistoryStore.Store.AddMatch | stores/historyStore.ts:93-97 | The new match goes first and the others follow in their order. |
| HistoryStore.Without | stores/historyStore.ts:99-103 | Every record with the id goes; every other record stays, in order and as often as it was stored. |
| HistoryStore.Store.DeleteMatch | stores/historyStore.ts:99-103 | The history becomes the stored list without the records carrying that id. |
| HistoryStore.DeleteUndoesAdd | stores/historyStore.ts:93-103 | Deleting a match just added under a new id gives the previous history back. |
| HistoryStore.Store.ClearHistory | stores/historyStore.ts:105-107 | The history becomes empty. |
| HistoryStore.Field | stores/historyStore.ts:127-132 | A field read on a parsed object finds a value exactly when the object has a field with that key, and the value is one stored under it. |
| HistoryStore.ValidItems | stores/historyStore.ts:126-138 | Exactly the items passing the five-field test become records, and kept plus rejected items are all the items. |
| HistoryStore.ValidCount | stores/historyStore.ts:126-138 | Each item becomes either a record or a rejection: together they are as many as the items. |
| HistoryStore.ValidKeeps | stores/historyStore.ts:126-138 | Every item that passes the test becomes a kept record. |
| HistoryStore.ValidKeepsAt | stores/historyStore.ts:126-138 | An item that passes the test becomes a kept record. |
| HistoryStore.ValidOnly | stores/historyStore.ts:126-138 | Every kept record comes from an item that passes the five-field test. |
| HistoryStore.RejectedItems | stores/historyStore.ts:126-138 | An item is rejected, with one message naming its index, exactly when it fails the test. |
| HistoryStore.RejectMessageInjective | stores/historyStore.ts:136 | Different indices give different messages. |
| HistoryStore.SomeValid | stores/historyStore.ts:140 | Some record is kept exactly when some item passes the test. |
| HistoryStore.SomeRejected | stores/historyStore.ts:159-162 | Some message is produced exactly when some item fails the test. |
| HistoryStore.Import | stores/historyStore.ts:114-166 | A failed import leaves the history unchanged and reports at least one error. |
| HistoryStore.ImportSucceeds | stores/historyStore.ts:114-166 | An import succeeds exactly when the text parses to an array without `null` items that is empty or holds a valid record. A successful one reports errors exactly when some item was rejected. |
| HistoryStore.MergeAddsNewIds | stores/historyStore.ts:145-152 | Merging keeps every stored record and adds exactly the valid records whose id was not stored before, duplicates inside the import included, ordered newest first. |
| HistoryStore.OverwriteSorts | stores/historyStore.ts:153-156 | Overwriting replaces the history with the valid records, a permutation of them ordered newest first. |
| HistoryStore.NewerFirstPreorder | stores/historyStore.ts:151 | The comparator `b.timestamp - a.timestamp` is a total preorder, so the stable sort orders newest first. |
| HistoryStore.Store.ImportJSON | stores/historyStore.ts:114-166 | The `forEach` that pushes valid records and error messages yields exactly the specified import result and history. |
| HistoryStore.SortStep | stores/historyStore.ts:125-138 | One more item either joins the kept records or adds its rejection message, and nothing else changes. |
| HistoryStore.SortItems | stores/historyStore.ts:125-138 | The loop over the items completes exactly when no item is `null`, and then yields exactly the kept records and the rejection messages. |
| Profiles.ClampSkill | hooks/usePlayerProfiles.ts:47 | The stored skill lies in 1..5, is the given skill when that already does, and is the nearer bound otherwise. |
| Profiles.NewProfile | hooks/usePlayerProfiles.ts:34-50 | The profile has the trimmed name, a clamped skill and `lastUpdated = now`. It keeps the id and creation time of the profile stored under the given id, with a falsy creation time replaced by `now`. Otherwise it gets a fresh id and `now`. |
| Profiles.UpsertIds | hooks/usePlayerProfiles.ts:39-45 | Upserting under the id of a stored profile keeps that id; an id nothing is stored under is not used. |
| Profiles.SetKeyed | hooks/usePlayerProfiles.ts:52-56 | Storing a profile under its own id keeps every profile stored under its id. |
| Profiles.DeleteKeyed | hooks/usePlayerProfiles.ts:61-67 | Deleting keeps every profile stored under its id. |
| Profiles.Profiles.constructor | hooks/usePlayerProfiles.ts:10 | The map starts empty. |
| Profiles.Profiles.UpsertProfile | hooks/usePlayerProfiles.ts:34-59 | Returns the profile built from the arguments and stores it under its id; every other entry is unchanged. |
| Profiles.Profiles.DeleteProfile | hooks/usePlayerProfiles.ts:61-67 | Removes only that key. |
| Profiles.Profiles.GetProfile | hooks/usePlayerProfiles.ts:77 | Finds a profile exactly when one is stored under the id, and that one. |
| Profiles.FirstNamed | hooks/usePlayerProfiles.ts:69-75 | Nothing exactly when no profile's lower-cased name is the search; otherwise the first such profile in insertion order. |
| Profiles.Profiles.FindProfileByName | hooks/usePlayerProfiles.ts:69-75 | The early-return loop over `profiles.values()` finds the first profile whose lower-cased name equals the trimmed, lower-cased query. |
| HistoryList.WinnerOf | components/History/HistoryList.tsx:150-155 | The winner of an added match is its recorded winner. An imported item counts as won by A or by B exactly when its `winner` field is the string `"A"` or `"B"`. |
| HistoryList.Filtered | components/History/HistoryList.tsx:144-156 | The filtered list is no longer than the history, and every match in it passes the search and winner tests. |
| HistoryList.FilteredCounts | components/History/HistoryList.tsx:144-156 | A match that passes is kept exactly as often as it is stored, and one that fails is dropped. |
| HistoryList.FilteredAppend | components/History/HistoryList.tsx:144-156 | The filter keeps order: it works on a concatenation part by part. |
| HistoryList.EmptySearchShowsAll | components/History/HistoryList.tsx:144-156 | An empty search with the filter on `'all'` shows every match, in order. |
| HistoryList.EmptySearchShows | components/History/HistoryList.tsx:144-156 | Any match passes an empty search with the filter on `'all'`. |
| HistoryList.FilteredIdempotent | components/History/HistoryList.tsx:144-156 | Filtering the filtered list again changes nothing. |
| HistoryList.SearchIgnoresCase | components/History/HistoryList.tsx:146-148 | A term and its lower-cased form show the same matches. |
| HistoryList.SideFilterRefines | components/History/HistoryList.tsx:150-155 | A side filter shows exactly the `'all'` matches won by that side. |
| HistoryList.Toggle | components/History/HistoryList.tsx:276 | A card is expanded after the toggle exactly when it was not expanded before, and no other card is. |
| HistoryList.ToggleTwice | components/History/HistoryList.tsx:276 | Toggling the same card twice, from a state where it or nothing is open, restores that state. |
| Settings.ApplyPreset | components/modals/SettingsModal.tsx:45-47 | A preset keeps mode, rotation mode, player-stats and sound settings, and plays the tie-break to 15. |
| Settings.PresetActivates | components/modals/SettingsModal.tsx:45-51 | After a preset is applied, its button is active and no other is. |
| Settings.AtMostOneActive | components/modals/SettingsModal.tsx:49-51 | Two active presets are the same preset. |
| Settings.ActiveIffFixedPoint | components/modals/SettingsModal.tsx:45-51 | A preset is active exactly when applying it would change nothing but the tie-break points. |
| Settings.ActiveIgnoresTieBreakPoints | components/modals/SettingsModal.tsx:49-51 | The active tests ignore the tie-break points. |
| Settings.ToggleTieBreak | components/modals/SettingsModal.tsx:181 | The switch flips `hasTieBreak` and changes nothing else. |
| Settings.ToggleTieBreakTwice | components/modals/SettingsModal.tsx:181 | Switching twice restores the configuration. |
| Settings.Save | components/modals/SettingsModal.tsx:36-42 | After a save the game plays by the edited rules. |
| Settings.SaveEffect | components/modals/SettingsModal.tsx:36-42 | With unchanged rules a save does nothing. With no match under way only the rules change. During a match with new rules, the match is reset to a fresh, inactive one with the same teams. |
| VolleyGame.Wins | hooks/useVolleyGame.ts:155-157 | A side never has won more sets than the history records. |
| VolleyGame.InitialValid | hooks/useVolleyGame.ts:10-34 | The initial state is valid and no match is under way. |
| VolleyGame.PointScores | hooks/useVolleyGame.ts:130-142 | Under the three-point sudden-death rule, the point that brings both sides to one short of the target resets both scores to 0 and starts sudden death. Every other point adds one to the scorer only. |
| VolleyGame.AddPointAfterMatch | hooks/useVolleyGame.ts:128 | Once the match is over, scoring changes nothing. |
| VolleyGame.PlainPoint | hooks/useVolleyGame.ts:181-189 | In standard play a point that takes no set raises only the scorer's score, by one. It hands the serve to the scorer and logs one POINT entry. |
| VolleyGame.StandardSetWin | hooks/useVolleyGame.ts:148-151 | In standard play the scorer takes the set exactly when it reaches the target with the minimum lead, and only the scorer can. The target is the tie-break points in the deciding set of a match with a tie-break, and the points per set otherwise (`pointsToWinCurrentSet`, lines 108-109). |
| VolleyGame.SetPointMeansNextPointWins | hooks/useVolleyGame.ts:112-113 | With a minimum lead of 2, `isSetPoint` holds exactly when that side's next point takes the set. |
| VolleyGame.MatchPointMeansNextPointWinsMatch | hooks/useVolleyGame.ts:112-114 | At a match point the side's next point ends the match in its favour. |
| VolleyGame.DeuceMeansNoSetPoint | hooks/useVolleyGame.ts:121 | At deuce neither side is at set point, and with a minimum lead of 2 no single point takes the set. |
| VolleyGame.EnterSuddenDeath | hooks/useVolleyGame.ts:136-142 | The point that brings both sides to one short of the target resets both to 0 and starts sudden death, without taking a set. |
| VolleyGame.SuddenDeathWin | hooks/useVolleyGame.ts:145-147 | In sudden death the scorer takes the set exactly when it has 3 points or more and leads. |
| VolleyGame.SetWinEffect | hooks/useVolleyGame.ts:154-178 | A set win raises only the winner's set count and records the set with its final score. It clears timeouts, log, serve and sudden death. Reaching the sets needed ends the match with the scores kept; otherwise the next set starts at 0:0. |
| VolleyGame.AddPointValid | hooks/useVolleyGame.ts:127-191 | Scoring keeps the state valid: no negative score, at most 2 timeouts a side, set counts equal to the wins in the history, set number consistent with the history, and the match over exactly when there is a winner. |
| VolleyGame.ScoredNonNegative | hooks/useVolleyGame.ts:130-142 | A point never takes a score below zero. |
| VolleyGame.WinSetValid | hooks/useVolleyGame.ts:154-178 | Closing a set, and with it perhaps the match, keeps the state valid. |
| VolleyGame.SubtractEffect | hooks/useVolleyGame.ts:193-201 | Subtracting takes one point from the named side only and leaves the action log alone. It does nothing to a side at 0 or once the match is over; any other score, negative ones included, drops by one. The hook never calls `isValidScoreOperation`, but for scores up to 201 it goes ahead exactly when `isValidScoreOperation(score, -1)` (`utils/security.ts:42-49`) would allow it. |
| VolleyGame.SubtractValid | hooks/useVolleyGame.ts:193-201 | Subtracting keeps the state valid. |
| VolleyGame.TimeoutEffect | hooks/useVolleyGame.ts:203-225 | A timeout is granted exactly when `isValidTimeoutRequest(used, 2)` holds, that is, with fewer than two used (`utils/security.ts:57-59`). A granted one adds one to that side and one TIMEOUT entry to the log; a refused one changes nothing. |
| VolleyGame.TimeoutValid | hooks/useVolleyGame.ts:203-225 | Timeouts keep the state valid: no side goes beyond 2. |
| VolleyGame.NextServer | hooks/useVolleyGame.ts:288 | The serve always moves on in the cycle A, B, nobody. |
| VolleyGame.ToggleSides | hooks/useVolleyGame.ts:283 | Swapping sides flips the flag. |
| VolleyGame.ToggleCycles | hooks/useVolleyGame.ts:283-295 | Three serve toggles bring the server back; two side swaps restore the state. |
| VolleyGame.ToggleValid | hooks/useVolleyGame.ts:283-295 | Toggling serve or sides keeps the state valid. |
| VolleyGame.UndoPopsOne | hooks/useVolleyGame.ts:233-236 | Undo pops exactly the last entry of a non-empty log. |
| VolleyGame.UndoValid | hooks/useVolleyGame.ts:227-269 | Undo keeps the state valid. |
| VolleyGame.UndoToggleService | hooks/useVolleyGame.ts:259-265 | Undoing a serve toggle restores the state exactly. |
| VolleyGame.UndoTimeout | hooks/useVolleyGame.ts:238-245 | Undoing a granted timeout restores the state exactly. |
| VolleyGame.UndoPoint | hooks/useVolleyGame.ts:247-257 | Undoing a point that took no set and did not start sudden death restores the state, except that the serve is cleared and the clock keeps running. |
| VolleyGame.ResetEffect | hooks/useVolleyGame.ts:271-313 | A reset gives a valid, inactive match with empty log and history that keeps names, rosters, queue and configuration. Settings applied with a reset do the same under the new configuration; without one, only the configuration changes. |
| VolleyGame.RotateResetValid | hooks/useVolleyGame.ts:315-321 | The game side of `rotateTeams` keeps the state valid, and after a decided match leaves a new, inactive one. |
| VolleyGame.SyncFromQueue | hooks/useVolleyGame.ts:53-70 | The game's rosters, queue and team names follow the queue manager's courts, and the last rotation report is kept when the manager has none. |
| VolleyGame.SyncValid | hooks/useVolleyGame.ts:53-70 | Following the queue manager keeps the state valid. |
| GameHook.Game.constructor | hooks/useVolleyGame.ts:37 | The hook starts in the initial state, which is valid. |
| GameHook.Game.AddPoint | hooks/useVolleyGame.ts:127-191 | The state becomes the scoring transition of the old state, with the queue manager supplying the rotation preview, and stays valid. |
| GameHook.Game.SubtractPoint | hooks/useVolleyGame.ts:193-201 | The state becomes the subtraction transition of the old state and stays valid. |
| GameHook.Game.UseTimeout | hooks/useVolleyGame.ts:203-225 | The state becomes the timeout transition of the old state and stays valid. |
| GameHook.Game.Undo | hooks/useVolleyGame.ts:227-269 | The state becomes the undo transition of the old state and stays valid. |
| GameHook.Game.ResetMatch | hooks/useVolleyGame.ts:271-281 | The state becomes the reset of the old state, which is valid. |
| GameHook.Game.ToggleSides | hooks/useVolleyGame.ts:283 | The sides are swapped and the state stays valid. |
| GameHook.Game.ToggleService | hooks/useVolleyGame.ts:285-295 | The serve moves on, a TOGGLE_SERVE entry records the previous server, and the state stays valid. |
| GameHook.Game.ApplySettings | hooks/useVolleyGame.ts:298-313 | The state becomes the settings transition of the old state and stays valid. |
| GameHook.Game.RotateTeams | hooks/useVolleyGame.ts:315-321 | Without a match winner nothing changes. With one, the queue manager rotates for the winner and the game starts a new match. |
| GameHook.Game.SyncFromQueue | hooks/useVolleyGame.ts:53-70 | The effect copies the queue manager's courts and queue into the game and keeps it valid. |
| GameHook.Game.CanUndo | hooks/useVolleyGame.ts:325 | The undo button is enabled exactly when the log is not empty. During play that is exactly when `undo` would change the state. |
| PlayerQueue.IdSetMember | hooks/usePlayerQueue.ts:188 | An id is in the set of a list's ids exactly when some player of the list carries it. |
| PlayerQueue.Unfixed | hooks/usePlayerQueue.ts:180 | Filtering out fixed players leaves only unfixed ones. |
| PlayerQueue.DropIds | hooks/usePlayerQueue.ts:188-189 | Dropping a set of ids leaves only players of the list that carry none of them. |
| PlayerQueue.FindPlayer | hooks/usePlayerQueue.ts:305 | `find` by id fails exactly when no player carries the id, and otherwise returns a player of the list carrying it. |
| PlayerQueue.FindTeam | hooks/usePlayerQueue.ts:351 | `findIndex` by id returns the first team carrying the id, or nothing when none does. |
| PlayerQueue.NonEmptyTeams | hooks/usePlayerQueue.ts:215 | Dropping empty teams leaves only non-empty teams and loses no player. |
| PlayerQueue.DropOne | hooks/usePlayerQueue.ts:318-319 | With distinct ids, dropping one player's id removes exactly that player. |
| PlayerQueue.DistinctTail | hooks/usePlayerQueue.ts:318-319 | Below the head of a list with distinct ids, the ids stay distinct and differ from the head's. |
| PlayerQueue.DropHead | hooks/usePlayerQueue.ts:318-319 | Dropping the head's id, which no later player carries, removes exactly the head. |
| PlayerQueue.DropLater | hooks/usePlayerQueue.ts:318-319 | A head that does not carry the id is kept, and the id is dropped from the tail. |
| PlayerQueue.ConsBalance | hooks/usePlayerQueue.ts:318-319 | A player kept in front of both lists keeps the one-player difference between them. |
| PlayerQueue.StealSplit | hooks/usePlayerQueue.ts:180-189 | Taking the first `k` unfixed players and dropping their ids splits the list: the two parts together hold exactly the original players. |
| PlayerQueue.NonBlank | hooks/usePlayerQueue.ts:53 | The names kept are the non-blank ones of the list. |
| PlayerQueue.CreatePlayers | hooks/usePlayerQueue.ts:44-49 | Each kept name yields one player. |
| PlayerQueue.GeneratedPlayersFromNames | hooks/usePlayerQueue.ts:52-54 | Blank names are dropped and every other name yields one unfixed player of that name, in order. |
| PlayerQueue.ChunksShape | hooks/usePlayerQueue.ts:62-66 | The queue teams hold the remaining players in order, each with 1 to `PLAYERS_PER_TEAM` players and named `Queue Team k`. |
| PlayerQueue.ChunksPlayers | hooks/usePlayerQueue.ts:62-66 | The queue teams hold the remaining players in order. |
| PlayerQueue.ChunksSizes | hooks/usePlayerQueue.ts:62-66 | Each queue team holds between 1 and `PLAYERS_PER_TEAM` players. |
| PlayerQueue.ChunkQueue | hooks/usePlayerQueue.ts:62-66 | The `for` loop that pushes queue teams builds exactly the specified chunks. |
| PlayerQueue.ChunkedStart | hooks/usePlayerQueue.ts:62-66 | Before the loop no team is pushed and the invariant holds. |
| PlayerQueue.ChunkedNext | hooks/usePlayerQueue.ts:62-66 | Pushing the next chunk as a team keeps the teams pushed a prefix of the chunks. |
| PlayerQueue.ChunkIndex | hooks/usePlayerQueue.ts:62-64 | At the k-th chunk the loop index gives team number k + 1, and one step moves to the next chunk's index. |
| PlayerQueue.ChunkedDone | hooks/usePlayerQueue.ts:62-66 | When the loop stops, the teams pushed are all the chunks. |
| PlayerQueue.MulDiv | hooks/usePlayerQueue.ts:64 | The loop index of the k-th chunk divided by the chunk size gives back k, so the k-th team is numbered k + 1. |
| PlayerQueue.DistributeShape | hooks/usePlayerQueue.ts:51-79 | `generateTeams` keeps every created player, in order. Each court gets at most `PLAYER_LIMIT_ON_COURT`; nobody queues before court B is full; queue teams have 1 to `PLAYERS_PER_TEAM` players; the courts are renamed `Team A` and `Team B` and the report cleared. |
| PlayerQueue.RenameQueueTeams | hooks/usePlayerQueue.ts:93-95 | Exactly the queue teams carrying the id are renamed. |
| PlayerQueue.RenameKeepsPlayers | hooks/usePlayerQueue.ts:81-99 | Renaming a team moves no player and changes no team id. |
| PlayerQueue.RenameIn | hooks/usePlayerQueue.ts:104-105 | Renaming a player in a list keeps its length. |
| PlayerQueue.RenameInTeams | hooks/usePlayerQueue.ts:113-116 | Renaming in the queue renames inside each team. |
| PlayerQueue.RenamePlayerEffect | hooks/usePlayerQueue.ts:101-120 | With distinct ids, renaming a player changes exactly the player carrying the id, wherever it is, and leaves every other player and position as it was. |
| PlayerQueue.HasPlayerAppend | hooks/usePlayerQueue.ts:107-110 | A player is in a concatenation exactly when it is in one of the parts. |
| PlayerQueue.DistinctApart | hooks/usePlayerQueue.ts:107-110 | With distinct ids, an id found in the first part is not in the second. |
| QueueRoster.JoinQueue | hooks/usePlayerQueue.ts:270-283 | A player joins the last queue team while it has fewer than `PLAYERS_PER_TEAM` players, and otherwise opens a new team at the back. No other team changes, and teams stay within the size. |
| QueueRoster.AddPlayerEffect | hooks/usePlayerQueue.ts:256-286 | A refused addition (blank sanitised name or full target court) changes nothing. Any other adds exactly the new player, at the end of the target court when the target is a court. |
| QueueRoster.AddPlayerRefusedIff | hooks/usePlayerQueue.ts:256-286 | `addPlayer` leaves the roster unchanged exactly when it is refused. |
| QueueRoster.FindInQueue | hooks/usePlayerQueue.ts:304-311 | The first queue team holding the player, or nothing exactly when no queue team does. |
| QueueRoster.RemovalOrigin | hooks/usePlayerQueue.ts:290-314 | The player deleted and where it stood: the first of court A, court B and the queue holding it. There is none exactly when nobody carries the id or the holding court has it fixed; a fixed queue player is still removed. |
| QueueRoster.DropInTeams | hooks/usePlayerQueue.ts:318-325 | The queue without the player holds everyone else in the queue. |
| QueueRoster.RemoveEffect | hooks/usePlayerQueue.ts:288-328 | A refused removal changes nothing. Otherwise, with distinct ids, exactly the removed player is gone and no player carries its id any more. |
| QueueRoster.RestoreEffect | hooks/usePlayerQueue.ts:336-367 | Restoring changes nothing exactly when the record's court is full. Otherwise the record's player is added once and nobody else moves. |
| QueueRoster.OriginCourt | hooks/usePlayerQueue.ts:293-302 | A removal recorded as from `A` or `B` was from that court, when no queue team carries those ids. |
| QueueRoster.RemoveRestoreRoundTrip | hooks/usePlayerQueue.ts:288-371 | Undo after remove brings back exactly the players there were, given distinct ids, courts within the limit and no queue team named like a court. |
| QueueRoster.TakeFromQueueShape | hooks/usePlayerQueue.ts:391-403 | `removeFromQueue` takes the player from the first team with the given id that holds it, and only that team changes. It finds nothing exactly when no such team holds the player. |
| QueueRoster.TakeFromQueueNone | hooks/usePlayerQueue.ts:391-403 | `removeFromQueue` finds nothing exactly when no team with the id holds the player. |
| QueueRoster.TakeFromQueueSome | hooks/usePlayerQueue.ts:391-403 | A found player comes from the first team with the id that holds it, and only that team changes. |
| QueueRoster.TakeOneAt | hooks/usePlayerQueue.ts:391-403 | With distinct ids, taking player `p` out of queue team `i` takes exactly `p` out of the queue's players. |
| QueueRoster.TakeOneFromQueue | hooks/usePlayerQueue.ts:391-403 | Taking a player out of its queue team takes exactly that player out of the queue. |
| QueueRoster.Pin | hooks/usePlayerQueue.ts:419-427 | A moved player changes only in its pin. |
| QueueRoster.ReplaceTeams | hooks/usePlayerQueue.ts:435 | Replacing a team by id keeps the queue's length. |
| QueueRoster.ReplaceTeamsAdds | hooks/usePlayerQueue.ts:433-435 | Replacing the target team by itself plus the player adds exactly that player to the queue. |
| QueueRoster.RemoveForMoveEffect | hooks/usePlayerQueue.ts:405-417 | Taking a player out for a move removes exactly that player. |
| QueueRoster.TargetSurvives | hooks/usePlayerQueue.ts:384-397 | After the removal, the target queue team is still there, once, holding the players the move appends to. |
| QueueRoster.TargetSurvivesQueue | hooks/usePlayerQueue.ts:384-397 | The same, when the player comes from a queue team. |
| QueueRoster.PlaceForMoveEffect | hooks/usePlayerQueue.ts:419-452 | Placing the taken player adds it once, pinned to its new side. |
| QueueRoster.PlaceForMoveSide | hooks/usePlayerQueue.ts:419-452 | Placing the taken player adds it once, pinned to the court or queue team it was dropped on, or else to the team it joins at the back of the queue. |
| QueueRoster.MoveWith | hooks/usePlayerQueue.ts:376-456 | A move changes the state only when the target has room and the player was found in `fromId` and may leave it: a fixed player never leaves a court. |
| QueueRoster.MoveAsWritten | hooks/usePlayerQueue.ts:376-456 | `movePlayer` as written. It agrees with the corrected move whenever the source and target differ, so the finding below concerns only moves within one container. |
| QueueRoster.MovePlayer | hooks/usePlayerQueue.ts:376-456 | `movePlayer` as intended: a move that changes the state was accepted, with room in the target and the player taken out of `fromId`. |
| QueueRoster.MoveRefusals | hooks/usePlayerQueue.ts:387-412 | A move is refused, leaving the state as it was, when the target already has `PLAYER_LIMIT_ON_COURT` players or a fixed player is dragged off a court. |
| QueueRoster.MoveUnchangedOnlyIf | hooks/usePlayerQueue.ts:376-456 | The converse of the refusals: a move that leaves the state as it was was refused, found no player it may take, went onto the player's own container, or sent a queue player to the back of the queue. Only those last two kinds can put the player back where it stood. |
| QueueRoster.MovedOntoCourt | hooks/usePlayerQueue.ts:428-432 | An accepted move onto a court from elsewhere adds one player to the two courts together. |
| QueueRoster.MovedOffCourt | hooks/usePlayerQueue.ts:405-412 | An accepted move off a court to the queue leaves that court one player shorter. |
| QueueRoster.MovedBetweenTeams | hooks/usePlayerQueue.ts:433-435 | An accepted move from one queue team to another makes the target team one player longer. |
| QueueRoster.MoveInPlace | hooks/usePlayerQueue.ts:376-456 | Dragging the only player of court A onto court A is accepted and changes nothing: an accepted move need not change the state. |
| QueueRoster.MoveConserves | hooks/usePlayerQueue.ts:376-456 | With distinct player and team ids, a move either changes nothing or moves exactly the player asked for, changing at most its pin: nobody is lost or copied. When the move is accepted, the moved player is the one found in `fromId`, and its new pin is the court or queue team it was dropped on, or else the team it joins at the back of the queue. |
| QueueRoster.MovedOnce | hooks/usePlayerQueue.ts:405-452 | An accepted move takes out the player asked for and puts it back once, pinned to its new side. |
| QueueRoster.MoveLands | hooks/usePlayerQueue.ts:419-452 | Where an accepted move puts the player: last on court A or B, last in the target queue team, or at the back of the queue through `JoinQueue`. It is pinned to its new side, and every other container is as the removal left it. The player is the one asked for, and it is not fixed when it leaves a court. |
| QueueRoster.TakenPlayer | hooks/usePlayerQueue.ts:405-417 | The player a move takes is the one asked for; a court gives up only a player that is not fixed. |
| QueueRoster.LandsOnCourt | hooks/usePlayerQueue.ts:428-432 | A player moved onto a court goes last there, pinned to the court; the other court and the queue are as the removal left them. |
| QueueRoster.LandsInTeam | hooks/usePlayerQueue.ts:433-435 | A player moved onto a queue team goes last in that team, which survived the removal. Every other team and both courts are as the removal left them. |
| QueueRoster.LandsAtBack | hooks/usePlayerQueue.ts:436-452 | A player moved to the queue joins the back of it, and both courts are as the removal left them. |
| QueueRoster.ReplaceTeamsAt | hooks/usePlayerQueue.ts:435 | Replacing a team by id changes exactly the teams with that id. |
| QueueRoster.MoveKeepsCount | hooks/usePlayerQueue.ts:376-456 | With distinct ids, a move never changes how many players there are. |
| QueueRoster.MoveOntoOwnTeamLosesPlayer | hooks/usePlayerQueue.ts:391-435 | Moving the only player of queue team `t` onto `t` loses the player in the code as written, while the corrected move keeps it. |
| QueueRoster.SoloAsWritten | hooks/usePlayerQueue.ts:391-435 | The move as written leaves nobody on the courts or in the queue. |
| QueueRoster.SoloCorrected | hooks/usePlayerQueue.ts:391-435 | The corrected move keeps the only player. |
| QueueRoster.SoloCorrectedState | hooks/usePlayerQueue.ts:391-435 | The corrected move puts the player back at the end of team `t`, which restores the state. |
| QueueRoster.SoloRemoved | hooks/usePlayerQueue.ts:391-397 | The corrected removal keeps team `t` in the queue, empty. |
| QueueRotation.Toggle | hooks/usePlayerQueue.ts:124-131 | The toggle flips `isFixed`, pins the player to its side when now fixed and unpins it otherwise, and changes nothing else. |
| QueueRotation.ToggleTwice | hooks/usePlayerQueue.ts:124-131 | Toggling twice a player whose pin agrees with its side gives the player back. |
| QueueRotation.ToggleIn | hooks/usePlayerQueue.ts:134-137 | Exactly the players carrying the id are toggled. |
| QueueRotation.ToggleInTwice | hooks/usePlayerQueue.ts:134-137 | On a court whose pins all name that court, toggling keeps every pin right, and toggling twice gives the court back. |
| QueueRotation.ToggleInTeams | hooks/usePlayerQueue.ts:144-152 | In the queue branch every team toggles the player, pinning it to that team. |
| QueueRotation.ToggleInTeamsTwice | hooks/usePlayerQueue.ts:144-152 | When every queue player is pinned to its own team or not at all, toggling keeps it so, and toggling twice gives the queue back. |
| QueueRotation.TogglePlayerFixedTwice | hooks/usePlayerQueue.ts:122-156 | When every pin agrees with where its player stands, toggling keeps it so, and toggling the same player again restores the state. |
| QueueRotation.RotationPreview | hooks/usePlayerQueue.ts:159-227 | No report exactly without a waiting team. Otherwise the losing court goes out. The first queue team comes in with its own players followed by the stolen ones, none of which is fixed. No queue team after the rotation is empty. |
| QueueRotation.PreviewFills | hooks/usePlayerQueue.ts:173-204 | The incoming team is topped up as far as the unfixed players of the next team and of the losing court allow, and never beyond `PLAYER_LIMIT_ON_COURT`; a full team takes no one. |
| QueueRotation.FromDonorSize | hooks/usePlayerQueue.ts:175-182 | The next waiting team gives min(needed, its unfixed players) players, and none when nothing is needed or no team waits. |
| QueueRotation.FromLoserSize | hooks/usePlayerQueue.ts:194-203 | The losing court gives min(still needed, its unfixed players) players, and none when nothing is still needed. |
| QueueRotation.StealCount | hooks/usePlayerQueue.ts:176-203 | Taking from the donor first, then from the loser, takes as many as are needed and available. |
| QueueRotation.TakeSplit | hooks/usePlayerQueue.ts:180-190 | Taking unfixed players and dropping their ids splits a team into two parts holding exactly its players. |
| QueueRotation.DonorPart | hooks/usePlayerQueue.ts:178-213 | Every queue player after the first team either waits on in the queue or is taken from the donor. |
| QueueRotation.LoserPart | hooks/usePlayerQueue.ts:194-211 | Every player of the losing court is either taken into the incoming team or goes to the back of the queue. |
| QueueRotation.QueueAfterPlayers | hooks/usePlayerQueue.ts:206-213 | The queue after the rotation holds the waiting players and the losing court's leftovers. |
| QueueRotation.PreviewConserves | hooks/usePlayerQueue.ts:159-227 | The incoming team and the queue after the rotation hold exactly the players of the queue and of the losing court, when ids are distinct. |
| QueueRotation.RotateConserves | hooks/usePlayerQueue.ts:229-254 | The winning court stays as it is, nothing happens without a waiting team, and with distinct ids the players on court and in the queue are the same before and after. |
| QueueHook.PlayerQueueHook.constructor | hooks/usePlayerQueue.ts:23-32 | The hook starts from the initial queue state with nothing to undo. |
| QueueHook.PlayerQueueHook.GenerateTeams | hooks/usePlayerQueue.ts:51-79 | The new roster holds exactly one player per non-blank name, in order, with no court over the limit, and the deletion history is cleared. |
| QueueHook.PlayerQueueHook.UpdateTeamName | hooks/usePlayerQueue.ts:81-99 | The team gets the sanitised name and no player moves. |
| QueueHook.PlayerQueueHook.UpdatePlayerName | hooks/usePlayerQueue.ts:101-120 | The player gets the sanitised name; with distinct ids, exactly that player changes. |
| QueueHook.PlayerQueueHook.TogglePlayerFixed | hooks/usePlayerQueue.ts:122-156 | The state becomes the toggle of the first place holding the player. |
| QueueHook.PlayerQueueHook.GetRotationPreview | hooks/usePlayerQueue.ts:159-227 | The report for the current state, none exactly without a waiting team. |
| QueueHook.PlayerQueueHook.RotateTeams | hooks/usePlayerQueue.ts:229-254 | The state becomes the rotation for the winner, and with distinct ids nobody is lost or copied. |
| QueueHook.PlayerQueueHook.AddPlayer | hooks/usePlayerQueue.ts:256-286 | The state becomes the addition of the sanitised name, and stays the same exactly when the addition is refused. |
| QueueHook.PlayerQueueHook.RemovePlayer | hooks/usePlayerQueue.ts:288-328 | The state becomes the removal; a removed player is pushed on the deletion stack with where it stood, and a refused removal pushes nothing. |
| QueueHook.PlayerQueueHook.UndoRemovePlayer | hooks/usePlayerQueue.ts:330-371 | Nothing happens with an empty stack. Otherwise the latest record is popped and its player restored where there is room; the record is consumed even when its court is full. A record is popped exactly when `hasDeletedPlayers` held, and `deletedCount` then falls by one. |
| QueueHook.PlayerQueueHook.CommitDeletions | hooks/usePlayerQueue.ts:373 | Nothing is left to undo and the roster is unchanged. |
| QueueHook.PlayerQueueHook.MovePlayer | hooks/usePlayerQueue.ts:376-456 | The state becomes the corrected move, and with distinct ids the number of players is unchanged. |
| QueueHook.PlayerQueueHook.DeletedCount | hooks/usePlayerQueue.ts:473 | Is zero exactly when nothing can be undone. |
| Balance.TotalSkillAppend | utils/balanceUtils.ts:19-21 | The total skill of two lists together is the sum of their totals. |
| Balance.TotalSkillBounds | utils/balanceUtils.ts:19-21 | When every skill lies in [lo, hi], the total lies between lo and hi times the number of players. |
| Balance.NumericStrength | utils/balanceUtils.ts:14-17 | The average skill level: 0 for an empty team, and otherwise the value that, times the team size, gives the total skill. |
| Balance.NumericStrengthBounds | utils/balanceUtils.ts:14-17 | The average of skills in [lo, hi] lies in [lo, hi]. |
| Balance.Fixed | utils/balanceUtils.ts:49 | The fixed players of a team, all of them fixed. |
| Balance.RebuiltQueueShape | utils/balanceUtils.ts:136-146 | The rebuilt queue holds the players of buckets 2 and up, in order, and no empty team. |
| Balance.RebuiltQueuePlayers | utils/balanceUtils.ts:136-146 | The rebuilt queue holds the players of buckets 2 up to `n`, in bucket order. |
| Balance.RebuiltQueueNonEmpty | utils/balanceUtils.ts:136-146 | No team of the rebuilt queue is empty. |
| Balance.RebuildQueue | utils/balanceUtils.ts:137-146 | The reconstruction loop builds exactly the rebuilt queue. |
| Balance.RebuildKeepsPlayers | utils/balanceUtils.ts:132-148 | The lineup holds every bucket's players in bucket order, no queue team is empty, and the courts keep their id and name. |
| Balance.SkillDescPreorder | utils/balanceUtils.ts:55 | The descending-skill comparison is a total preorder, so the sort is well defined. |
| Balance.Targets | utils/balanceUtils.ts:78-110 | Every target index names a bucket. |
| Balance.ChosenFirstMin | utils/balanceUtils.ts:112-129 | The player joins the first target with the least total skill: every target before it is strictly stronger. With no target at all, it joins the last bucket. |
| Balance.ScanEndsAtMin | utils/balanceUtils.ts:112-123 | The finished scan holds the first target of least total skill, or -1 when there is no target. |
| Balance.ChosenPriority | utils/balanceUtils.ts:81-125 | While a priority bucket has room, the player joins a priority bucket that has room. |
| Balance.HasPriorityRoom | utils/balanceUtils.ts:79-87 | The loop finds room exactly when some priority bucket has fewer than `limit` players. |
| Balance.CollectTargets | utils/balanceUtils.ts:78-110 | The loops collect exactly the target indices of the draft step. |
| Balance.ChooseBucket | utils/balanceUtils.ts:71-129 | The loops pick exactly the chosen bucket. |
| Balance.Place | utils/balanceUtils.ts:124-129 | The player is appended to the chosen bucket and no other bucket changes. |
| Balance.Draft | utils/balanceUtils.ts:71-130 | The draft keeps the number of buckets. |
| Balance.DraftKeepsFronts | utils/balanceUtils.ts:71-130 | Drafting only appends: every bucket keeps its previous players at its front. |
| Balance.DraftConserves | utils/balanceUtils.ts:71-130 | Drafting adds exactly the pool's players to the buckets. |
| Balance.SnakeBuckets | utils/balanceUtils.ts:57-68 | There are max(2, ceil(players / limit), number of teams) buckets. |
| Balance.BalanceTeamsSnake | utils/balanceUtils.ts:38-149 | The method computes the snake lineup. |
| Balance.SnakeAnchorsStay | utils/balanceUtils.ts:47-130 | Every team's fixed players (its anchors) stay at the front of the bucket at its position. |
| Balance.SnakeBucketsHold | utils/balanceUtils.ts:47-130 | After the draft the buckets hold exactly the anchors and the free players. |
| Balance.SnakeConserves | utils/balanceUtils.ts:38-149 | The lineup holds exactly the anchors plus each player whose id is no anchor's, once each. No queue team is empty, and the courts keep their id and name. |
| Balance.SnakePoolOrdered | utils/balanceUtils.ts:52-55 | The pool holds exactly the free players, strongest first. |
| Balance.IndexAscPreorder | utils/balanceUtils.ts:169 | The original-index comparison is a total preorder. |
| Balance.LastAnchored | utils/balanceUtils.ts:172-175 | The last position with an anchor, with no anchor after it; -1 when there is none. |
| Balance.MaxAnchorIndex | utils/balanceUtils.ts:172-175 | The `forEach` computes exactly the last anchored position. |
| Balance.StartHoldsAnchors | utils/balanceUtils.ts:177 | The starting buckets hold every anchor. |
| Balance.Push | utils/balanceUtils.ts:183-190 | The player goes at the end of bucket `cur`, which is created when it is just past the end; no other bucket changes. |
| Balance.Fill | utils/balanceUtils.ts:180-191 | The fill never removes a bucket. |
| Balance.FillKeepsFronts | utils/balanceUtils.ts:180-191 | The fill only appends: every bucket keeps its players at its front, and those before `cur` are untouched. |
| Balance.FillKeepsOrder | utils/balanceUtils.ts:182-191 | The players the fill adds, bucket after bucket, are exactly the pool in order. |
| Balance.FillLeftToRight | utils/balanceUtils.ts:182-191 | A bucket takes players only while it holds fewer than `limit`. Once a later bucket takes players, every bucket from `cur` up to it is full. |
| Balance.FillBounded | utils/balanceUtils.ts:182-191 | A bucket takes players only while it holds fewer than `limit`. |
| Balance.FillInOrder | utils/balanceUtils.ts:182-191 | Once a later bucket takes players, every bucket from `cur` up to it is full. |
| Balance.FillConserves | utils/balanceUtils.ts:182-191 | The buckets end with their own players plus the pool's. |
| Balance.FillSkip | utils/balanceUtils.ts:184-190 | A full bucket takes nobody and the fill moves on to the next bucket. |
| Balance.FillTake | utils/balanceUtils.ts:184-188 | A bucket with room takes the next player of the pool and the fill goes on from the same bucket. |
| Balance.DistributeStandard | utils/balanceUtils.ts:154-208 | The method computes the index-order lineup. |
| Balance.FillBuckets | utils/balanceUtils.ts:180-191 | The `while` loop over the pool computes exactly the fill from the first bucket. |
| Balance.StandardShape | utils/balanceUtils.ts:161-191 | Anchors stay at the front of their buckets, and the pool is added in original-index order, bucket after bucket. A bucket being filled never goes past `limit`, and the fill moves on only once the buckets before are full. |
| Balance.IndexPoolOrdered | utils/balanceUtils.ts:166-169 | The pool holds exactly the free players, sorted by original index. |
| Balance.StandardBucketsHold | utils/balanceUtils.ts:161-191 | After the fill the buckets hold exactly the anchors and the free players. |
| Balance.StandardConserves | utils/balanceUtils.ts:154-208 | The lineup holds exactly the anchors and the free players, each once. No queue team is empty, and the courts keep their id and name. |
| BalanceRotation.StealEnd | utils/balanceUtils.ts:267-285 | A donor gives only unfixed players. |
| BalanceRotation.StealEndCount | utils/balanceUtils.ts:267-285 | A donor gives min(need, number of unfixed players) players. |
| BalanceRotation.StealEndOrder | utils/balanceUtils.ts:268-283 | The players given are the donor's last unfixed players, last first. |
| BalanceRotation.StealEndKeeps | utils/balanceUtils.ts:268-280 | The donor keeps its remaining unfixed players in order. |
| BalanceRotation.KeepsPastFixed | utils/balanceUtils.ts:268-280 | A fixed last player is kept and does not change which unfixed players the donor keeps. |
| BalanceRotation.KeepsPastUnfixed | utils/balanceUtils.ts:268-280 | An unfixed last player, given away, leaves the donor's kept unfixed players as they were one step earlier. |
| BalanceRotation.StealEndKeepsFixed | utils/balanceUtils.ts:268-280 | The donor keeps all its fixed players in order. |
| BalanceRotation.StealEndConserves | utils/balanceUtils.ts:276-285 | The players given and kept are exactly the donor's players. |
| BalanceRotation.StealEndSplits | utils/balanceUtils.ts:267-285 | The donor gives its last unfixed players, last first, and keeps its fixed players and the rest in order. |
| BalanceRotation.StealEndNone | utils/balanceUtils.ts:277 | A donor asked for nobody gives nobody. |
| BalanceRotation.StealAcross | utils/balanceUtils.ts:260-286 | The donors keep their number, and only unfixed players are taken. |
| BalanceRotation.StealAcrossShape | utils/balanceUtils.ts:260-286 | The donors keep their place, id, name, colour and fixed players. |
| BalanceRotation.StealAcrossCount | utils/balanceUtils.ts:257-286 | Exactly min(need, unfixed players of the queue) players move. |
| BalanceRotation.StealAcrossConserves | utils/balanceUtils.ts:260-286 | The players taken plus those left in the donors are exactly the donors' players. |
| BalanceRotation.StealAcrossInOrder | utils/balanceUtils.ts:260-262 | A donor is touched only once every donor before it has no unfixed player left. |
| BalanceRotation.StealFromDonor | utils/balanceUtils.ts:267-285 | The two inner loops give exactly the donor's share. |
| BalanceRotation.DonorScanTake | utils/balanceUtils.ts:269-283 | An unfixed player met while the need is open moves from the donor to the players given. |
| BalanceRotation.DonorScanSkip | utils/balanceUtils.ts:268-277 | A fixed player, or any player once the need is met, stays with the donor. |
| BalanceRotation.DonorScanDone | utils/balanceUtils.ts:267-285 | A backward pass that reaches the front holds exactly the donor's share and what it keeps. |
| BalanceRotation.StealAcrossQueue | utils/balanceUtils.ts:257-287 | The donor loop takes exactly what the steal across the queue takes. |
| BalanceRotation.StandardRotation | utils/balanceUtils.ts:229-297 | No queue team of the result is empty, and no stolen player is fixed. |
| BalanceRotation.StandardRotationFills | utils/balanceUtils.ts:240-287 | The incoming team is the queue's head (the loser under its fresh id when the queue is empty) with its players followed by the stolen ones. It is filled to `limit` as far as the unfixed players behind it allow, and one already at `limit` takes no one. |
| BalanceRotation.StandardRotationConserves | utils/balanceUtils.ts:229-297 | Every player of the queue and of the loser ends on the incoming team or in the new queue, once. |
| BalanceRotation.GetStandardRotationResult | utils/balanceUtils.ts:229-297 | The method computes the standard rotation. |
| BalancedRotation.FixedUnfixedSplit | utils/balanceUtils.ts:311-312 | Splitting the loser into anchors and leavers loses nobody. |
| BalancedRotation.FirstUnfixed | utils/balanceUtils.ts:328 | The first unfixed player's position, with every earlier player fixed; -1 exactly when every player is fixed. |
| BalancedRotation.Eject | utils/balanceUtils.ts:326-336 | After the overflow loop the team holds min(size, `limit`) players. |
| BalancedRotation.EjectConserves | utils/balanceUtils.ts:326-336 | The overflow plus the players kept are exactly the team's players. |
| BalancedRotation.EjectedOrder | utils/balanceUtils.ts:327-336 | Unfixed players are ejected first, in team order. Fixed players go, from the front, only once none is left. |
| BalancedRotation.EjectKeepsFixed | utils/balanceUtils.ts:327-336 | With enough unfixed players, exactly the first unfixed ones are ejected and every fixed player stays. |
| BalancedRotation.EjectOverflow | utils/balanceUtils.ts:326-336 | The source loop computes exactly the ejection. |
| BalancedRotation.PlaceOverflow | utils/balanceUtils.ts:337-340 | The overflow goes to the end of the last queue team, or into a new team when the queue is empty. The other teams are untouched. |
| BalancedRotation.Delta | utils/balanceUtils.ts:366-367 | The distance to the target average is never negative. |
| BalancedRotation.BestIsFirstMinimum | utils/balanceUtils.ts:353-373 | The scan finds nothing exactly when the queue has no unfixed player. Otherwise it finds the unfixed player that brings the average closest to the target, the first in queue order among ties. |
| BalancedRotation.FindBestCandidate | utils/balanceUtils.ts:353-373 | The nested loops compute exactly the best candidate. |
| BalancedRotation.FillGaps | utils/balanceUtils.ts:352-383 | The fill loop computes exactly the fill, and the incoming team changes only in its players. |
| BalancedRotation.FillShape | utils/balanceUtils.ts:375-379 | The incoming team keeps its players and gets the stolen ones after them, and queue teams keep their place. |
| BalancedRotation.FillKeepsFixed | utils/balanceUtils.ts:364-379 | Only unfixed players are stolen, and every queue team keeps its fixed players. |
| BalancedRotation.FillConserves | utils/balanceUtils.ts:375-379 | The players taken plus those left are exactly the queue's players. |
| BalancedRotation.RemoveAtMultiset | utils/balanceUtils.ts:376 | Splicing out one position takes out exactly that player. |
| BalancedRotation.FillCount | utils/balanceUtils.ts:352-383 | The incoming team ends with `limit` players, or with fewer only when the queue ran out of unfixed players. One at or over `limit` takes nobody. |
| BalancedRotation.FillCountStep | utils/balanceUtils.ts:352-383 | When the scan finds a candidate, the incoming team still ends with min(limit, its players plus the queue's unfixed players). |
| BalancedRotation.CountAfterTake | utils/balanceUtils.ts:375-379 | Moving one candidate into the incoming team leaves the expected final count unchanged. |
| BalancedRotation.FillExhausts | utils/balanceUtils.ts:380-382 | An incoming team left short has taken every unfixed player of the queue. |
| BalancedRotation.FillGreedy | utils/balanceUtils.ts:366-378 | The first player stolen is at least as close to the target as any other unfixed queue player. |
| BalancedRotation.LeaverQueue | utils/balanceUtils.ts:314-316 | The queue gets the loser's unfixed players at its back. |
| BalancedRotation.BalancedResult | utils/balanceUtils.ts:303-392 | No queue team of the result is empty. |
| BalancedRotation.GetBalancedRotationResult | utils/balanceUtils.ts:303-392 | The method computes the balanced rotation. |
| BalancedRotation.BalancedConserves | utils/balanceUtils.ts:303-392 | Every player of the queue and of the loser ends on the incoming team or in the new queue, once. |
| BalancedRotation.BalancedFills | utils/balanceUtils.ts:327-383 | The incoming team never ends over `limit`, and ends under it only when no unfixed player is left in the queue. |
| BalancedRotation.BalancedShape | utils/balanceUtils.ts:319-379 | The incoming team is the queue's head (the loser when the queue is empty) under a fresh id. It holds the players kept through the overflow, then the stolen ones, none of which is fixed. |
| BalancedRotation.BalancedAnchorsStay | utils/balanceUtils.ts:311-336 | With enough unfixed players, the incoming team's fixed players are exactly those of the queue's head followed by the loser's anchors. |
| LegacyBalance.DraftPoolOrdered | src/utils/balanceUtils.ts:53-56 | The pool holds exactly the unfixed players, in descending skill, with equal skills by ascending original index. |
| LegacyBalance.MoreThanOneTeam | src/utils/balanceUtils.ts:61-71 | More than one team is needed exactly when the players exceed `limit`. |
| LegacyBalance.StartBuckets | src/utils/balanceUtils.ts:63-65 | Before the draft, bucket 0 holds court A's anchors and bucket 1 court B's when more than one team is needed. Every other bucket is empty. |
| LegacyBalance.QueueRoom | src/utils/balanceUtils.ts:89-95 | The first queue bucket with room, every earlier one full, or -1 exactly when all are full. |
| LegacyBalance.TargetRule | src/utils/balanceUtils.ts:74-101 | While a court has room, the player joins the court with room that has the least total skill, court A on ties. Once both are full it joins the first queue bucket with room, and when all are full a new bucket at the end. |
| LegacyBalance.SnakeDraftConserves | src/utils/balanceUtils.ts:74-102 | Drafting adds exactly the pool's players to the buckets. |
| LegacyBalance.SnakeDraftKeepsFronts | src/utils/balanceUtils.ts:74-102 | Drafting only appends: every bucket keeps its previous players at its front. |
| LegacyBalance.SnakeDraftKeepsFront | src/utils/balanceUtils.ts:74-102 | Drafting only appends: the given bucket keeps its previous players at its front. |
| LegacyBalance.Padded | src/utils/balanceUtils.ts:105-106 | When only court A's bucket exists, court B gets no players; no bucket's players are lost. |
| LegacyBalance.LegacySnakeBucketsHold | src/utils/balanceUtils.ts:48-102 | The drafted buckets hold court A's anchors, court B's when needed, and the pool. |
| LegacyBalance.LegacySnakeConserves | src/utils/balanceUtils.ts:40-116 | The lineup holds court A's fixed players, court B's only when the players do not fit on one court, and every unfixed player, once each. Queue teams are non-empty, and the courts keep their id and name. |
| LegacyBalance.LegacySnakeAnchorsStay | src/utils/balanceUtils.ts:63-106 | Court A's fixed players open court A, and court B's open court B when the players do not fit on one court. |
| LegacyBalance.LegacySnakeFronts | src/utils/balanceUtils.ts:61-102 | After the draft, bucket 0 opens with court A's fixed players, and bucket 1 with court B's when the players do not fit on one court. |
| LegacyBalance.DraftFronts | src/utils/balanceUtils.ts:63-102 | Drafting from the start buckets keeps court A's anchors at the front of bucket 0, and court B's at the front of bucket 1 when two teams are needed. |
| LegacyBalance.LegacySnakeQueueNames | src/utils/balanceUtils.ts:108-113 | Queue team for bucket i is named "Team i+1" and has a fresh id. |
| LegacyBalance.FindQueueRoom | src/utils/balanceUtils.ts:88-95 | The queue loop finds exactly the first queue bucket with room. |
| LegacyBalance.ChooseTarget | src/utils/balanceUtils.ts:74-101 | One pass of the draft loop picks exactly the target bucket. |
| LegacyBalance.DraftAll | src/utils/balanceUtils.ts:74-102 | The draft loop computes exactly the snake draft. |
| LegacyBalance.LegacyBalanceTeamsSnake | src/utils/balanceUtils.ts:40-116 | The method computes the three-argument snake lineup. |
| LegacyBalance.LegacyDistributeConcat | src/utils/balanceUtils.ts:131-149 | Court A, court B and the queue teams, one after the other, are the players sorted by original index. |
| LegacyBalance.LegacyDistributeOrder | src/utils/balanceUtils.ts:131-149 | Every player appears exactly once, fixed ones included, in ascending original index. |
| LegacyBalance.LegacyDistributeSizes | src/utils/balanceUtils.ts:133-148 | Court A takes min(`limit`, n) players and court B at most `limit`. Queue teams are non-empty, hold at most `PLAYERS_PER_TEAM` each and are named "Team 3", "Team 4", … in order. The courts keep their id and name. |
| LegacyBalance.CutQueue | src/utils/balanceUtils.ts:137-143 | The chunking loop cuts exactly the named chunks. |
| LegacyBalance.CutNext | src/utils/balanceUtils.ts:137-143 | Cutting the next chunk into a team named for its position keeps the teams cut a prefix of the named chunks. |
| LegacyBalance.CutDone | src/utils/balanceUtils.ts:137-143 | When the loop stops, the teams cut are all the named chunks. |
| LegacyBalance.LegacyDistributeStandard | src/utils/balanceUtils.ts:118-150 | The method computes the older index-order lineup. |
| LegacyRotation.StealEndNoUnfixed | src/utils/balanceUtils.ts:197-204 | A donor with no unfixed player gives nobody. |
| LegacyRotation.StealAcrossAt | src/utils/balanceUtils.ts:191-210 | Taking the last unfixed player of the first team that has one, then asking for one fewer, is exactly the donor-by-donor steal. |
| LegacyRotation.LastUnfixedIndex | src/utils/balanceUtils.ts:195-202 | The position of the donor's last unfixed player, or -1 exactly when it has none. |
| LegacyRotation.FindDonor | src/utils/balanceUtils.ts:188-212 | The first team with an unfixed player, every team before it having none, and that player's position; -1 when no team has one. |
| LegacyRotation.LegacyStandardRotation | src/utils/balanceUtils.ts:167-224 | The older one-player-at-a-time fill gives exactly the newer donor-by-donor rotation, so its filling and conservation carry over. |
| LegacyRotation.LegacyFill | src/utils/balanceUtils.ts:186-212 | The fill loop appends the stolen players to the incoming team, and steals exactly what the donor-by-donor steal takes for the missing places. |
| LegacyRotation.OwesSettled | src/utils/balanceUtils.ts:188-212 | Once the queue gives nothing more, what was taken is the whole steal. |
| LegacyRotation.LegacyBalanced | src/utils/balanceUtils.ts:233-302 | No queue team of the result is empty. |
| LegacyRotation.LegacyBalancedRotation | src/utils/balanceUtils.ts:233-302 | The method computes the older balanced rotation. |
| LegacyRotation.LegacyBalancedConserves | src/utils/balanceUtils.ts:233-302 | Every player of the queue and of the loser ends on the incoming team or in the new queue, once. |
| LegacyRotation.LegacyBalancedFills | src/utils/balanceUtils.ts:242-293 | The incoming team is the queue's head (the loser when the queue is empty) with its players, then the unfixed ones taken. It reaches `limit` unless the teams behind it, the loser included, run out of unfixed players. |
| LegacyRotation.LegacyBalancedGreedy | src/utils/balanceUtils.ts:254-288 | The first player taken leaves the incoming team's average at least as close to the winner's as any other unfixed candidate would. |
| Mvp.PlayerMapTeams | hooks/useMvp.ts:25-29 | The lookup knows exactly the rostered ids. A player on B's roster is B's, and one only on A's is A's, under the name the roster gives it. |
| Mvp.BuildPlayerMap | hooks/useMvp.ts:28-29 | The two roster loops build exactly the lookup. |
| Mvp.TalliesCount | hooks/useMvp.ts:32-40 | The points map has one entry per credited rostered player, holding its count of points and its name and side from the lookup. |
| Mvp.TalliesOrder | hooks/useMvp.ts:32-40 | Players enter the points map in the order of their first credited point. |
| Mvp.TalliesEntries | hooks/useMvp.ts:32-40 | The points map has distinct keys, each a rostered player with at least one point, holding its count and its name and side. |
| Mvp.TalliesCover | hooks/useMvp.ts:32-40 | Every player with a credited point has an entry in the points map. |
| Mvp.TalliesEntryAt | hooks/useMvp.ts:32-40 | Each entry of the points map counts its player's credited points, at least one. |
| Mvp.FirstCredit | hooks/useMvp.ts:33 | A player with points has a log entry crediting it. |
| Mvp.TallyPoints | hooks/useMvp.ts:32-40 | The loop over the match log builds exactly the points map. |
| Mvp.FirstMaxIndex | hooks/useMvp.ts:45-46 | The first of the highest tallies: nothing is higher, and everything before it is lower. |
| Mvp.SortHead | hooks/useMvp.ts:45-46 | The descending sort puts the first of the highest tallies in front, where JavaScript's sort, stable for equal tallies, leaves it. |
| Mvp.TopScorer | hooks/useMvp.ts:45-46 | The first of the highest tallies belongs to a player nobody outscores, and who scored before any player with as many points. |
| Mvp.TopIsMax | hooks/useMvp.ts:45-46 | Nobody has more points than the first top scorer. |
| Mvp.TopFirst | hooks/useMvp.ts:32-46 | A player tied with the first top scorer had no point yet when the top scorer first scored. |
| Mvp.TiedLater | hooks/useMvp.ts:32-46 | A player tied with the first top scorer stands after it in the points map. |
| Mvp.NoneCounted | hooks/useMvp.ts:33-42 | The points map is empty exactly when no log entry credits a rostered player. |
| Mvp.UseMvp | hooks/useMvp.ts:19-55 | The method computes the MVP from the log and rosters. |
| Mvp.MvpIsTopScorer | hooks/useMvp.ts:21-50 | An MVP exists exactly when some point credits a rostered player. It is such a player, named and sided by the rosters, with at least one point and no fewer than anyone. It scored before any other player with as many points. |
| MatchDetail.TotalsAppend | components/History/MatchDetail.tsx:176-177 | The point totals add up set by set. |
| MatchDetail.SkillsWithinPoints | components/History/MatchDetail.tsx:230-233 | A player's attacks, blocks and aces are never more than its points. |
| MatchDetail.FirstCreditExists | components/History/MatchDetail.tsx:217-228 | A player has a first crediting point exactly when it has points. |
| MatchDetail.SeedRoster | components/History/MatchDetail.tsx:194-199 | One roster loop enters exactly the seeded entries. |
| MatchDetail.SeedAt | components/History/MatchDetail.tsx:194-199 | Seeding adds exactly the roster's ids, each with zero counts and this side. |
| MatchDetail.RosterAt | components/History/MatchDetail.tsx:193-199 | Every rostered player has an entry with zero counts: on B when B's roster lists it, otherwise on A. |
| MatchDetail.ReplayLog | components/History/MatchDetail.tsx:202-236 | The log loop computes exactly the replayed stats. |
| MatchDetail.ReplayTeams | components/History/MatchDetail.tsx:205-214 | Each team counter counts the points of its side with each skill, whoever scored them. |
| MatchDetail.PlayerEntry | components/History/MatchDetail.tsx:193-236 | Every rostered player has an entry, with zero counts when no point credits it. Any other id has one exactly when a point credits it. Each entry counts its points and those with each skill. |
| MatchDetail.ReplayAt | components/History/MatchDetail.tsx:193-236 | After the replay, each id has an entry exactly when it is rostered or credited, counting its points and skills, with its roster name or a stranger's name. |
| MatchDetail.StepSelf | components/History/MatchDetail.tsx:217-234 | A point crediting the id adds one to its entry, opening a stranger's entry when there is none. |
| MatchDetail.StepSelfKnown | components/History/MatchDetail.tsx:217-234 | A point crediting an id with an entry adds one point to it, and one to the skill it was scored with. |
| MatchDetail.StepSelfNew | components/History/MatchDetail.tsx:217-234 | A point crediting an id without an entry opens a stranger's entry, on the point's side, with one point. |
| MatchDetail.StepOther | components/History/MatchDetail.tsx:217-234 | A point that does not credit the id leaves its entry as it was. |
| MatchDetail.TeamCounters | components/History/MatchDetail.tsx:188-214 | The team counters count every point of their side by skill, with or without a player. |
| MatchDetail.RankingOrder | components/History/MatchDetail.tsx:238-247 | The ranking lists every entry once, by points descending and then by names in collation order. The top scorer has no fewer points than anyone, and there is none exactly when no entry has points. |
| MatchDetail.ComputeStats | components/History/MatchDetail.tsx:186-245 | The `useMemo` body computes exactly the ranking and the two team counters. |
| MatchDetail.WinsSplit | components/History/MatchDetail.tsx:254-257 | Every set counts for exactly one side in the replay. |
| MatchDetail.ReplayStats | components/History/MatchDetail.tsx:250-259 | Once set `replayIndex` is over, each side has the sets it had won by then, covering `replayIndex + 1` sets, and nothing at position -1. |
| MatchDetail.ReplayButtons | components/History/MatchDetail.tsx:424-426 | The buttons keep the replay position in [-1, sets - 1]. Away from the ends, one step forward then back (or back then forward) returns to the same position. |
| MatchOver.DecidingPointNamesWinner | components/modals/MatchOverModal.tsx:29 | After the deciding point the dialog names the side whose set count reached the sets needed. A state still in play has no winner, and the dialog would show B's name. |
| MatchOver.WinnerColorKey | components/modals/MatchOverModal.tsx:34-37 | The winning side's colour, its roster colour when set and otherwise its default, is never empty. |
| MatchOver.BgColor | components/modals/MatchOverModal.tsx:41-48 | A hex colour becomes an arbitrary-value class, a known name its 600 shade, anything else indigo. |
| MatchOver.BgColorNamesColor | components/modals/MatchOverModal.tsx:41-48 | The class names its colour back for hex colours and known names; every other colour reads as indigo. |
| MatchOver.StolenIds | components/modals/MatchOverModal.tsx:51 | Exactly the ids of the stolen players, and none without a report. |
| MatchOver.SquadSplit | components/modals/MatchOverModal.tsx:51-54 | Without a report the three lists are empty. With one, the core squad is exactly the incoming players whose ids are not among the reinforcements'. |
| MatchOver.MvpDataNull | components/modals/MatchOverModal.tsx:57-79 | The dialog's MVP is null without a match log, with an empty one, or when no point credits a rostered player. Otherwise it is a player with at least one point. |
| Gestures.Fire | hooks/useScoreGestures.ts:74-93 | A gesture calls at most one callback, none exactly for no gesture, and only add or subtract. |
| Gestures.SmallMoves | hooks/useScoreGestures.ts:74-80 | A quick release that barely moved adds a point; a slow one that barely moved does nothing. |
| Gestures.SwipeMirror | hooks/useScoreGestures.ts:82-93 | Outside a tap, a release is a swipe exactly when it moved more than 50 vertically and more vertically than horizontally. Mirroring the vertical movement swaps an upward and a downward swipe. An upward swipe moved up by more than 50, a downward one down by more than 50. |
| Gestures.TapNotSwipe | hooks/useScoreGestures.ts:74-82 | A tap never moves as far vertically as a swipe must. |
| Gestures.ScoreGestures.constructor | hooks/useScoreGestures.ts:27-29 | No touch is recorded at the start. |
| Gestures.ScoreGestures.PointerDown | hooks/useScoreGestures.ts:31-50 | A locked card ignores the press. Otherwise the interaction starts and the position and time are recorded. |
| Gestures.ScoreGestures.PointerUp | hooks/useScoreGestures.ts:52-100 | The interaction always ends. Without a recorded touch, nothing else happens. With one, exactly the classified gesture's callback is called and the touch is forgotten. |
| Gestures.ScoreGestures.PointerCancel | hooks/useScoreGestures.ts:102-107 | The interaction ends and the touch is forgotten. |
| Gestures.LockedPressScoresNothing | hooks/useScoreGestures.ts:32-54 | With no touch in progress, a locked press and its release change no score. |
| TeamManager.QueueContainer | components/modals/TeamManagerModal.tsx:630 | The id of the first queue team that has `id` or holds it, or none exactly when no team does. |
| TeamManager.Container | components/modals/TeamManagerModal.tsx:627-632 | Court A is checked first, then court B, then the queue teams in order. |
| TeamManager.SomeHasId | components/modals/TeamManagerModal.tsx:628-630 | The scan finds the id exactly when some player carries it. |
| TeamManager.FindContainer | components/modals/TeamManagerModal.tsx:627-632 | The code with its early returns computes exactly the container. |
| TeamManager.ContainerOfQueuePlayer | components/modals/TeamManagerModal.tsx:627-632 | A queue player not claimed by the courts is found in the first team holding it. |
| TeamManager.DragMove | components/modals/TeamManagerModal.tsx:645-661 | A move is asked only for a drop on another element, when both containers are found and differ. It moves the dragged player from its container to the target's. |
| TeamManager.DragMoveWhenFound | components/modals/TeamManagerModal.tsx:645-661 | A drop on another element whose container is found and differs always asks for the move. |
| TeamManager.LastWithId | components/modals/TeamManagerModal.tsx:636 | The last player carrying the id, or none exactly when nobody does. |
| TeamManager.PlayersById | components/modals/TeamManagerModal.tsx:634-638 | Every player of the courts and the queue under its id, a later one replacing an earlier. |
| TeamManager.ById | components/modals/TeamManagerModal.tsx:634-638 | Setting the next player under its id indexes one more player. |
| TeamManager.SomeLinked | components/modals/TeamManagerModal.tsx:669-672 | The scan finds a link exactly when some player is linked to the profile. |
| TeamManager.GetProfileStatus | components/modals/TeamManagerModal.tsx:668-675 | Court A when a player there is linked to the profile, else court B, else the queue. Null exactly when nobody is linked. |
| TeamManager.LinkedInEveryone | components/modals/TeamManagerModal.tsx:668-675 | Someone is linked exactly when someone on court A, court B or in some queue team is. |
| TeamManager.LinkedInConcat | components/modals/TeamManagerModal.tsx:668-675 | A profile is linked in two lists put together exactly when it is linked in one of them. |
| TeamManager.Sync | components/modals/TeamManagerModal.tsx:131-135 | A card is unlinked exactly without a stored profile. It is synced exactly when name and skill agree with the profile (the test the card computes at lines 373-375), and desynced otherwise. |
| TeamManager.SaveProfileSyncs | components/modals/TeamManagerModal.tsx:373-380 | Saving a linked player's trimmed name and in-range skill to its profile makes the card synced. |
| TeamManager.BatchNames | components/modals/TeamManagerModal.tsx:585 | Every name is non-empty and is one of the trimmed lines. |
| TeamManager.BatchRoundTrip | components/modals/TeamManagerModal.tsx:585 | Trimmed, non-empty, one-line names joined by newlines read back as the same names. |
| TeamManager.TrimAllOfTrimmed | components/modals/TeamManagerModal.tsx:585 | Trimming names that are already trimmed changes none of them. |
| TeamManager.Generate | components/modals/TeamManagerModal.tsx:584-590 | With names, they are generated and the box is cleared. With none, nothing is generated and the box keeps its text. |
| TeamManager.BlankLinesGenerateNothing | components/modals/TeamManagerModal.tsx:584-590 | A box of blank lines generates nothing. |
| TeamManager.TitleSave | components/modals/TeamManagerModal.tsx:179-183 | The trimmed text is saved exactly when it is non-empty and the untrimmed text differs from the name. Otherwise the field goes back to the name. |
| TeamManager.FullColumnRefused | components/modals/TeamManagerModal.tsx:520-574 | A full court column's disabled input only blocks an addition the queue manager would refuse anyway. |

## Left out

- The Android launcher `android/app/src/main/java/LucasFilms/Studio/volleyscore/MainActivity.java` only asks the platform for landscape orientation and immersive system-bar flags. It has no logic of the app's own, so it is not part of this model.
- Persistence is not modelled: the game's `localStorage` load and save, the profiles' secure-storage load and save, and the history store's `persist` wrapper. Nothing in them decides a rule.
- The game's one-second match timer (`setInterval`), `navigator.vibrate` and the roster editor's undo-toast timers are not modelled. They are clocks and device effects, so `matchDurationSeconds` and `isTimerRunning` are carried as data only.
- `Math.random`, `uuidv4` and `Date.now` are parameters: a fresh-id supply and a timestamp. The model therefore says nothing about ids colliding.
- `PLAYER_LIMIT_ON_COURT`, `PLAYERS_PER_TEAM`, `MIN_LEAD_TO_WIN`, `SETS_TO_WIN_MATCH` and `DEFAULT_CONFIG` are defined in a constants module that is not part of this model, so they are parameters. A few lemmas state the assumption they need, such as a positive team size or at most six per court.
- `calculateTeamStrength` (`utils/balanceUtils.ts:8-12`, `src/utils/balanceUtils.ts:8-12`) is not modelled. It only formats an average with `toFixed(1)`, which is floating point.
- BalancedRotation.BestIsFirstMinimum: averages and their distances are exact `real`s. JavaScript doubles can round two different candidates to the same distance, or two equal ones apart, so a tie may break differently in the app.
- LegacyRotation.LegacyBalancedGreedy: the same exact-average caveat applies to the older balanced fill.
- `exportJSON` (`stores/historyStore.ts:109-112`) is not modelled. It is `JSON.stringify` of the list, a library call. The import side takes the parsed value as a `Json` datatype; the text parser and its error message text are not modelled.
- The model does not capture the aliasing in `movePlayer` and `undoRemovePlayer`, which write into arrays and objects shared with the previous state. Only the returned state is modelled.
- Sorting with `localeCompare` is a parameter `collate`, assumed to be a total preorder. The collation order of any particular locale is not modelled.
- `Object.values` and `Map` iteration follow insertion order in `Dict`. JavaScript lists integer-like keys of a plain object first, in numeric order, and a key such as `__proto__` acts on the prototype; neither is modelled.
- JsString.Lower: `toLowerCase` and `toUpperCase` are modelled for ASCII and the Latin-1 letters that map one to one. Other scripts are left unchanged.
- ResultCard.FormatNameLength: requires a name without `ß`, because `toUpperCase` turns it into two characters and the eight-character bound then fails.
- TimeFormat.FormatTime: the clock and duration formatters take non-negative seconds, the only values the app passes. The text JavaScript prints for negative values is not modelled.
- MatchDetail's `hasDetailedStats` flag and the text labels of its cards are rendering only, and are not modelled.
- The settings dialog's other field setters are single-field updates and are not modelled: mode, rotation mode, sound, statistics, and the rule buttons for `maxSets`, `pointsPerSet`, `tieBreakPoints` and `deuceType` (`components/modals/SettingsModal.tsx:153-195`). Only their result, a whole configuration, enters `Settings.Save`. Its JSON-text comparison is modelled as structural equality.
- The queue hook's `onNamesChange` callback (`updateNamesFromQueue`, `hooks/useVolleyGame.ts:41-48`) is not modelled separately. The synchronisation effect (`GameHook.Game.SyncFromQueue`) sets the same two names from the courts.
- `updateRosters` (`hooks/usePlayerQueue.ts:374`) does nothing, so it is not modelled.
- The click handler of the timeout button in `components/Fullscreen/FloatingTopBar.tsx` does not check the count. Only the greyed-out look is modelled there, and the game's own guard refuses the request (`Hud.ExhaustedMatchesGuard`).
- The newer standard rotation first collects a donor's candidates and then moves them. `BalanceRotation.StealFromDonor` does both in one backward pass, which visits the same players in the same order.
- Some fallbacks are never taken, so they are not modelled. After the loser is pushed, the queue cannot be empty. This covers the empty-queue return of the newer standard rotation (`utils/balanceUtils.ts:247-250`) and the `!incomingTeam` returns of both older rotations (`src/utils/balanceUtils.ts:180-182`, `:246-248`).
- PlayerUtils.ValidatePlayerNames: name lengths are counted in characters, where JavaScript's `.length` counts UTF-16 code units. A character outside the Basic Multilingual Plane, such as an emoji, counts once here and twice in the app. A name of 26 emoji is 52 code units, so the app reports it too long at a limit of 50 and the model does not. The same holds for PlayerUtils.ValidationErrorsEmpty and PlayerUtils.CheckEachName. Names that passed `sanitizeInput` keep only characters of one code unit (`utils/security.ts:7`), and for them the two counts agree.
- Hud.TruncateName: the eight-character test and the seven-character cut count characters, not UTF-16 code units, so the model never splits a surrogate pair where `substring(0, 7)` can.
- ResultCard.FormatName: the length tests of `formatName` and `getNameSize` (ResultCard.GetNameSize) count characters, not UTF-16 code units, so the model never splits a surrogate pair where `substring(0, 3)` can.
- JSON numbers in an imported history file are integers (`JNum`). A fractional `timestamp` or `durationSeconds` cannot be represented, so the model says nothing about importing one.
- The gesture classifier takes pointer positions and times as integers. Browsers report `clientX` and `clientY` as fractional numbers, so the model does not capture a movement that lies between two whole pixels of a threshold.

## Findings

| source | as written | input that shows it | evidently intended | confidence | as-written member | corrected member |
|---|---|---|---|---|---|---|
| hooks/usePlayerQueue.ts:391-397, 433-435 | `removeFromQueue` drops a queue team that the removal empties. When the source and target are the same team, the target is then gone, and the `map` that should append the player finds nothing to replace. | Queue team `t` holds only player `p`; `movePlayer("p", "t", "t")`. | The move keeps the player, and the count of players never changes. | not executed; the drag handlers of the roster editor never ask for a move within one container | QueueRoster.MoveAsWritten | QueueRoster.MovePlayer |
