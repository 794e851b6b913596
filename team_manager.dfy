/**
 * The roster editor of `components/modals/TeamManagerModal.tsx`, apart from its rendering: where a
 * dragged card or a drop target lives, when a drag becomes a move, where a profile's player is,
 * whether a player agrees with its profile, the batch name input, the title editor's save rule and
 * the full-column rule. The courts and the queue are the queue manager's state.
 */
module TeamManager {
  import opened Types
  import opened JsString
  import opened PlayerQueue
  import Lists
  import Dict
  import PlayerUtils
  import Profiles
  import QueueRoster
  import BalanceRotation

  // ---------------------------------------------------------------------------------------------
  // findContainer

  /** A queue team is the container of `id` when `id` is the team's own id or one of its players'. */
  predicate Holds(t: Team, id: string)
  {
    t.id == id || HasPlayer(t.players, id)
  }

  /** Court A takes the id `"A"` and its players' ids. */
  predicate OnA(qs: QueueState, id: string)
  {
    id == "A" || HasPlayer(qs.courtA.players, id)
  }

  predicate OnB(qs: QueueState, id: string)
  {
    id == "B" || HasPlayer(qs.courtB.players, id)
  }

  /** The id of the first queue team that holds `id`. */
  function QueueContainer(queue: seq<Team>, id: string): (r: Option<string>)
    ensures r.None? <==> forall k :: 0 <= k < |queue| ==> !Holds(queue[k], id)
    ensures r.Some? ==> exists k :: (0 <= k < |queue| && Holds(queue[k], id) && r.value == queue[k].id &&
      forall j :: 0 <= j < k ==> !Holds(queue[j], id))
  {
    if queue == [] then None
    else if Holds(queue[0], id) then Some(queue[0].id)
    else
      var r := QueueContainer(queue[1..], id);
      assert forall k :: 1 <= k < |queue| ==> queue[1..][k - 1] == queue[k];
      if r.Some? then
        var k :| 0 <= k < |queue[1..]| && Holds(queue[1..][k], id) && r.value == queue[1..][k].id &&
          forall j :: 0 <= j < k ==> !Holds(queue[1..][j], id);
        assert Holds(queue[k + 1], id);
        r
      else r
  }

  /** `findContainer(id)`: court A first, then court B, then the queue teams in order; null when nothing holds `id`. */
  function Container(qs: QueueState, id: string): (r: Option<string>)
    ensures OnA(qs, id) ==> r == Some("A")
    ensures !OnA(qs, id) && OnB(qs, id) ==> r == Some("B")
    ensures !OnA(qs, id) && !OnB(qs, id) ==> r == QueueContainer(qs.queue, id)
  {
    if OnA(qs, id) then Some("A") else if OnB(qs, id) then Some("B") else QueueContainer(qs.queue, id)
  }

  /** `players.some(p => p.id === id)`. */
  method SomeHasId(ps: seq<Player>, id: string) returns (found: bool)
    ensures found <==> HasPlayer(ps, id)
  {
    found := false;
    for i := 0 to |ps|
      invariant !found
      invariant forall j :: 0 <= j < i ==> ps[j].id != id
    {
      if ps[i].id == id {
        return true;
      }
    }
  }

  /** `findContainer` as the code runs it, with its early returns. */
  method FindContainer(qs: QueueState, id: string) returns (r: Option<string>)
    ensures r == Container(qs, id)
  {
    var inA := SomeHasId(qs.courtA.players, id);
    if id == "A" || inA {
      return Some("A");
    }
    var inB := SomeHasId(qs.courtB.players, id);
    if id == "B" || inB {
      return Some("B");
    }
    for k := 0 to |qs.queue|
      invariant forall j :: 0 <= j < k ==> !Holds(qs.queue[j], id)
    {
      var team := qs.queue[k];
      var inTeam := SomeHasId(team.players, id);
      if team.id == id || inTeam {
        QueueContainerAt(qs.queue, id, k);
        return Some(team.id);
      }
    }
    return None;
  }

  /** The first team that holds `id` gives the container. */
  lemma {:induction false} QueueContainerAt(queue: seq<Team>, id: string, k: nat)
    requires k < |queue| && Holds(queue[k], id)
    requires forall j :: 0 <= j < k ==> !Holds(queue[j], id)
    ensures QueueContainer(queue, id) == Some(queue[k].id)
  {
    if k > 0 {
      assert queue[1..][k - 1] == queue[k];
      QueueContainerAt(queue[1..], id, k - 1);
    }
  }

  /** A player in a queue team, when the courts do not claim its id, is found in the first team that holds it. */
  lemma ContainerOfQueuePlayer(qs: QueueState, k: nat, i: nat)
    requires k < |qs.queue| && i < |qs.queue[k].players|
    requires !OnA(qs, qs.queue[k].players[i].id) && !OnB(qs, qs.queue[k].players[i].id)
    requires forall j :: 0 <= j < k ==> !Holds(qs.queue[j], qs.queue[k].players[i].id)
    ensures Container(qs, qs.queue[k].players[i].id) == Some(qs.queue[k].id)
  {
    QueueContainerAt(qs.queue, qs.queue[k].players[i].id, k);
  }

  // ---------------------------------------------------------------------------------------------
  // The drag handlers

  /** The `onMove(playerId, fromId, toId)` call a drag asks for. */
  datatype Move = Move(playerId: string, fromId: string, toId: string)

  /**
   * `handleDragOver` and `handleDragEnd`: a drop on another element than the dragged one whose
   * containers are both found, with non-empty ids, and differ moves the player; anything else
   * moves nothing.
   */
  function DragMove(qs: QueueState, activeId: string, overId: Option<string>): (r: Option<Move>)
    ensures r.Some? ==> overId.Some? && overId.value != activeId && r.value.playerId == activeId
    ensures r.Some? ==> (Container(qs, activeId) == Some(r.value.fromId) &&
      Container(qs, overId.value) == Some(r.value.toId) && r.value.fromId != r.value.toId)
    ensures r.Some? ==> r.value.fromId != "" && r.value.toId != ""
  {
    if overId.None? || activeId == overId.value then None
    else
      var from, to := Container(qs, activeId), Container(qs, overId.value);
      // `from && to`: an empty container id is falsy in JavaScript
      if from.Some? && to.Some? && from.value != "" && to.value != "" && from != to then
        Some(Move(activeId, from.value, to.value))
      else None
  }

  /** A drop on an element with a non-empty container id, other than the dragged one's, always asks for a move. */
  lemma DragMoveWhenFound(qs: QueueState, activeId: string, overId: string)
    requires overId != activeId
    requires Container(qs, activeId).Some? && Container(qs, overId).Some?
    requires Container(qs, activeId) != Container(qs, overId)
    requires Container(qs, activeId).value != "" && Container(qs, overId).value != ""
    ensures DragMove(qs, activeId, Some(overId)) ==
      Some(Move(activeId, Container(qs, activeId).value, Container(qs, overId).value))
  {
  }

  /** The last player with the id `id`: the one the map built with `set` in list order keeps. */
  function LastWithId(ps: seq<Player>, id: string): (r: Option<Player>)
    ensures r.None? <==> !HasPlayer(ps, id)
    ensures r.Some? ==> r.value in ps && r.value.id == id
  {
    if ps == [] then None
    else if ps[|ps| - 1].id == id then Some(ps[|ps| - 1])
    else
      var r := LastWithId(ps[..|ps| - 1], id);
      assert forall j :: 0 <= j < |ps| - 1 ==> ps[..|ps| - 1][j] == ps[j];
      r
  }

  /** `playersById`: every player of the courts and the queue under its id, a later one replacing an earlier. */
  method PlayersById(qs: QueueState) returns (byId: Dict.Entries<Player>)
    ensures Dict.DistinctKeys(byId)
    ensures forall id :: Dict.Get(byId, id) == LastWithId(Everyone(qs), id)
  {
    var all := qs.courtA.players + qs.courtB.players + AllPlayers(qs.queue);
    byId := [];
    for i := 0 to |all|
      invariant IndexedById(byId, all[..i])
    {
      ById(byId, all, i);
      byId := Dict.Set(byId, all[i].id, all[i]);
    }
    assert all[..|all|] == all;
  }

  /** `byId` maps every id of `ps` to its last player there, and no other id. */
  ghost predicate IndexedById(byId: Dict.Entries<Player>, ps: seq<Player>)
  {
    Dict.DistinctKeys(byId) && forall id :: Dict.Get(byId, id) == LastWithId(ps, id)
  }

  /** Setting the next player under its id indexes one player more. */
  lemma ById(byId: Dict.Entries<Player>, all: seq<Player>, i: nat)
    requires i < |all| && IndexedById(byId, all[..i])
    ensures IndexedById(Dict.Set(byId, all[i].id, all[i]), all[..i + 1])
  {
    var p := all[i];
    assert all[..i + 1][..i] == all[..i];
    forall id
      ensures Dict.Get(Dict.Set(byId, p.id, p), id) == LastWithId(all[..i + 1], id)
    {
      Dict.SetGet(byId, p.id, p, id);
    }
  }

  // ---------------------------------------------------------------------------------------------
  // getProfileStatus

  /** Where a profile's player plays: `'A'`, `'B'` or `'Queue'`. */
  datatype Location = OnCourtA | OnCourtB | InQueue

  predicate LinkedIn(ps: seq<Player>, profileId: string)
  {
    exists i :: 0 <= i < |ps| && ps[i].profileId == Some(profileId)
  }

  /** `players.some(p => p.profileId === profileId)`. */
  method SomeLinked(ps: seq<Player>, profileId: string) returns (found: bool)
    ensures found <==> LinkedIn(ps, profileId)
  {
    found := false;
    for i := 0 to |ps|
      invariant !found
      invariant forall j :: 0 <= j < i ==> ps[j].profileId != Some(profileId)
    {
      if ps[i].profileId == Some(profileId) {
        return true;
      }
    }
  }

  /**
   * `getProfileStatus(profileId)`: court A when a player there is linked to the profile, else
   * court B, else the queue when any queue team has one, else null.
   */
  method GetProfileStatus(qs: QueueState, profileId: string) returns (r: Option<Location>)
    ensures r == Some(OnCourtA) <==> LinkedIn(qs.courtA.players, profileId)
    ensures r == Some(OnCourtB) <==> !LinkedIn(qs.courtA.players, profileId) && LinkedIn(qs.courtB.players, profileId)
    ensures r == Some(InQueue) <==> (!LinkedIn(qs.courtA.players, profileId) &&
      !LinkedIn(qs.courtB.players, profileId) && LinkedIn(AllPlayers(qs.queue), profileId))
    ensures r.None? <==> !LinkedIn(Everyone(qs), profileId)
  {
    LinkedInEveryone(qs, profileId);
    var inA := SomeLinked(qs.courtA.players, profileId);
    if inA {
      return Some(OnCourtA);
    }
    var inB := SomeLinked(qs.courtB.players, profileId);
    if inB {
      return Some(OnCourtB);
    }
    for k := 0 to |qs.queue|
      invariant forall j :: 0 <= j < k ==> !LinkedIn(qs.queue[j].players, profileId)
    {
      var inTeam := SomeLinked(qs.queue[k].players, profileId);
      if inTeam {
        LinkedInTeams(qs.queue, profileId, k);
        return Some(InQueue);
      }
    }
    NotLinkedInTeams(qs.queue, profileId);
    return None;
  }

  /** A team of the queue with a linked player puts one in the queue's players. */
  lemma {:induction false} LinkedInTeams(ts: seq<Team>, profileId: string, k: nat)
    requires k < |ts| && LinkedIn(ts[k].players, profileId)
    ensures LinkedIn(AllPlayers(ts), profileId)
  {
    BalanceRotation.AllPlayersCons(ts);
    var ps := ts[0].players;
    if k == 0 {
      var i :| 0 <= i < |ps| && ps[i].profileId == Some(profileId);
      assert AllPlayers(ts)[i] == ps[i];
    } else {
      assert ts[1..][k - 1] == ts[k];
      LinkedInTeams(ts[1..], profileId, k - 1);
      var rest := AllPlayers(ts[1..]);
      var i :| 0 <= i < |rest| && rest[i].profileId == Some(profileId);
      assert AllPlayers(ts)[|ps| + i] == rest[i];
    }
  }

  /** No team of the queue with a linked player means none in the queue's players. */
  lemma {:induction false} NotLinkedInTeams(ts: seq<Team>, profileId: string)
    requires forall j :: 0 <= j < |ts| ==> !LinkedIn(ts[j].players, profileId)
    ensures !LinkedIn(AllPlayers(ts), profileId)
  {
    if ts != [] {
      BalanceRotation.AllPlayersCons(ts);
      assert forall j :: 1 <= j < |ts| ==> ts[1..][j - 1] == ts[j];
      NotLinkedInTeams(ts[1..], profileId);
      var ps, rest := ts[0].players, AllPlayers(ts[1..]);
      forall i | 0 <= i < |AllPlayers(ts)|
        ensures AllPlayers(ts)[i].profileId != Some(profileId)
      {
        if i < |ps| {
          assert AllPlayers(ts)[i] == ps[i];
        } else {
          assert AllPlayers(ts)[i] == rest[i - |ps|];
        }
      }
    }
  }

  lemma LinkedInEveryone(qs: QueueState, profileId: string)
    ensures LinkedIn(Everyone(qs), profileId) <==> (LinkedIn(qs.courtA.players, profileId) ||
      LinkedIn(qs.courtB.players, profileId) || LinkedIn(AllPlayers(qs.queue), profileId))
  {
    var a, b, q := qs.courtA.players, qs.courtB.players, AllPlayers(qs.queue);
    assert Everyone(qs) == (a + b) + q;
    LinkedInConcat(a + b, q, profileId);
    LinkedInConcat(a, b, profileId);
  }

  /** A profile is linked in two lists put together exactly when it is linked in one of them. */
  lemma LinkedInConcat(x: seq<Player>, y: seq<Player>, profileId: string)
    ensures LinkedIn(x + y, profileId) <==> LinkedIn(x, profileId) || LinkedIn(y, profileId)
  {
    var xy := x + y;
    if LinkedIn(xy, profileId) {
      var i :| 0 <= i < |xy| && xy[i].profileId == Some(profileId);
      if i < |x| {
        assert xy[i] == x[i];
      } else {
        assert xy[i] == y[i - |x|];
      }
    }
    if LinkedIn(x, profileId) {
      var i :| 0 <= i < |x| && x[i].profileId == Some(profileId);
      assert xy[i] == x[i];
    }
    if LinkedIn(y, profileId) {
      var i :| 0 <= i < |y| && y[i].profileId == Some(profileId);
      assert xy[|x| + i] == y[i];
    }
  }

  // ---------------------------------------------------------------------------------------------
  // The sync indicator

  datatype SyncStatus = Synced | Desynced | Unlinked

  /** The profile a player card looks up: none when the player has no (or an empty) profile id. */
  function ProfileOf(p: Player, profiles: Profiles.Entries): Option<Profiles.PlayerProfile>
  {
    if p.profileId.Some? && p.profileId.value != "" then Dict.Get(profiles, p.profileId.value) else None
  }

  /** The status the card shows: unlinked without a profile, synced when name and skill agree, desynced otherwise. */
  function Sync(p: Player, profiles: Profiles.Entries): (r: SyncStatus)
    ensures r == Unlinked <==> ProfileOf(p, profiles).None?
    ensures r == Synced <==> (ProfileOf(p, profiles).Some? &&
      ProfileOf(p, profiles).value.name == p.name && ProfileOf(p, profiles).value.skillLevel == p.skillLevel)
  {
    var profile := ProfileOf(p, profiles);
    var hasProfile := profile.Some?;
    var profileMatch := hasProfile && profile.value.name == p.name && profile.value.skillLevel == p.skillLevel;
    if hasProfile then (if profileMatch then Synced else Desynced) else Unlinked
  }

  /**
   * Saving a linked player's name and skill to its stored profile brings the card to synced, when
   * the name is already trimmed and the skill within 1 to 5 (what the profile store keeps).
   */
  lemma SaveProfileSyncs(p: Player, profiles: Profiles.Entries, now: int, freshId: string)
    requires Dict.DistinctKeys(profiles) && Profiles.KeyedById(profiles)
    requires p.profileId.Some? && p.profileId.value != "" && Dict.Get(profiles, p.profileId.value).Some?
    requires IsTrimmed(p.name) && 1 <= p.skillLevel <= 5
    ensures var saved := Profiles.NewProfile(profiles, p.name, p.skillLevel, p.profileId, now, freshId);
      Sync(p, Dict.Set(profiles, saved.id, saved)) == Synced
  {
    var id := p.profileId.value;
    var saved := Profiles.NewProfile(profiles, p.name, p.skillLevel, p.profileId, now, freshId);
    Profiles.UpsertIds(profiles, p.name, p.skillLevel, id, now, freshId);
    TrimOfTrimmed(p.name);
    Dict.SetGet(profiles, saved.id, saved, id);
  }

  // ---------------------------------------------------------------------------------------------
  // The batch input

  predicate IsNewline(c: char)
  {
    c == '\n'
  }

  /** `rawNames.split('\n').map(n => n.trim()).filter(n => n)`. */
  function BatchNames(rawNames: string): (r: seq<string>)
    ensures forall i :: 0 <= i < |r| ==> r[i] != "" && r[i] in PlayerUtils.TrimAll(SplitOn(rawNames, IsNewline))
  {
    Lists.Filter(PlayerUtils.TrimAll(SplitOn(rawNames, IsNewline)), PlayerUtils.NonEmpty)
  }

  /** The names one per line give those names back, when each is trimmed, non-empty and on one line. */
  lemma BatchRoundTrip(names: seq<string>)
    requires names != []
    requires forall i :: 0 <= i < |names| ==> names[i] != "" && IsTrimmed(names[i]) && NoDelim(names[i], IsNewline)
    ensures BatchNames(Join(names, "\n")) == names
  {
    SplitJoin(names, '\n', IsNewline);
    assert SplitOn(Join(names, "\n"), IsNewline) == names;
    TrimAllOfTrimmed(names);
    Lists.FilterAll(names, PlayerUtils.NonEmpty);
  }

  /** Trimming names that are already trimmed changes none of them. */
  lemma TrimAllOfTrimmed(names: seq<string>)
    requires forall i :: 0 <= i < |names| ==> IsTrimmed(names[i])
    ensures PlayerUtils.TrimAll(names) == names
  {
    forall i | 0 <= i < |names| ensures Trim(names[i]) == names[i] {
      TrimOfTrimmed(names[i]);
    }
  }

  /**
   * `handleGenerate`: the names to generate from, and the text left in the box; with no name the
   * box keeps its text and nothing is generated.
   */
  function Generate(rawNames: string): (r: (Option<seq<string>>, string))
    ensures r.0.Some? ==> r.0.value != [] && r.0.value == BatchNames(rawNames) && r.1 == ""
    ensures r.0.None? <==> BatchNames(rawNames) == []
    ensures r.0.None? ==> r.1 == rawNames
  {
    var names := BatchNames(rawNames);
    if |names| > 0 then (Some(names), "") else (None, rawNames)
  }

  /** A blank box, or one with only blank lines, generates nothing. */
  lemma {:induction false} BlankLinesGenerateNothing(rawNames: string)
    requires forall i :: 0 <= i < |rawNames| ==> IsWhite(rawNames[i])
    ensures Generate(rawNames).0.None?
  {
    var pieces := SplitOn(rawNames, IsNewline);
    BlankPieces(rawNames);
    forall i | 0 <= i < |pieces| ensures Trim(pieces[i]) == "" {
      TrimEmptyIffBlank(pieces[i]);
    }
    NothingLeft(PlayerUtils.TrimAll(pieces));
  }

  /** Dropping the empty strings of a list of empty strings leaves nothing. */
  lemma {:induction false} NothingLeft(xs: seq<string>)
    requires forall i :: 0 <= i < |xs| ==> xs[i] == ""
    ensures Lists.Filter(xs, PlayerUtils.NonEmpty) == []
  {
    if xs != [] {
      NothingLeft(xs[1..]);
    }
  }

  /** The lines of a blank text are blank. */
  lemma {:induction false} BlankPieces(s: string)
    requires forall i :: 0 <= i < |s| ==> IsWhite(s[i])
    ensures forall i :: 0 <= i < |SplitOn(s, IsNewline)| ==>
      forall j :: 0 <= j < |SplitOn(s, IsNewline)[i]| ==> IsWhite(SplitOn(s, IsNewline)[i][j])
  {
    if s != [] {
      BlankPieces(s[1..]);
      var rest := SplitOn(s[1..], IsNewline);
      if !IsNewline(s[0]) {
        var first := [s[0]] + rest[0];
        assert forall j :: 1 <= j < |first| ==> first[j] == rest[0][j - 1];
      }
    }
  }

  // ---------------------------------------------------------------------------------------------
  // EditableTitle and the full column

  /**
   * `EditableTitle.save`: the trimmed text is saved when it is non-empty and the text differs
   * from the name; otherwise the field goes back to the name.
   */
  function TitleSave(val: string, name: string): (r: (Option<string>, string))
    ensures r.0.Some? ==> r.0.value != "" && IsTrimmed(r.0.value) && val != name
    ensures r.0.Some? <==> Trim(val) != "" && val != name
    ensures r.0.None? ==> r.1 == name
    ensures r.0.Some? ==> r.1 == val
  {
    TrimFacts(val);
    if Trim(val) != "" && val != name then (Some(Trim(val)), val) else (None, name)
  }

  /** A team column is full at six players, and its add input is then disabled. */
  predicate IsFull(team: Team)
  {
    |team.players| >= 6
  }

  /**
   * With at most six players allowed on a court, a full court column's disabled input only keeps
   * back an addition the queue manager would refuse anyway.
   */
  lemma FullColumnRefused(qs: QueueState, safeName: string, courtLimit: int)
    requires courtLimit <= 6
    ensures IsFull(qs.courtA) ==> QueueRoster.AddRefused(qs, safeName, ToCourtA, courtLimit)
    ensures IsFull(qs.courtB) ==> QueueRoster.AddRefused(qs, safeName, ToCourtB, courtLimit)
  {
  }
}
