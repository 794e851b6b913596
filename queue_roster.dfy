/**
 * Adding, removing, restoring and moving players (`addPlayer`, `removePlayer`,
 * `undoRemovePlayer`, `movePlayer` of `hooks/usePlayerQueue.ts`).
 *
 * The name of the k-th queue team a player opens is `teamName(k)`; the manager passes
 * `QueueTeamLabel`, the sanitised "Queue Team k".
 */
module QueueRoster {
  import opened Types
  import opened PlayerQueue
  import opened QueueRotation

  // ---------------------------------------------------------------------------------------------
  // Joining the back of the queue

  /** The id of the team a player joining the queue ends up in: the last one if it has room. */
  function JoinSide(q: seq<Team>, perTeam: int, teamId: string): string
  {
    if q != [] && |q[|q| - 1].players| < perTeam then q[|q| - 1].id else teamId
  }

  /**
   * A player joins the last queue team if it has fewer than `perTeam` players, and otherwise a
   * new team `teamId` named `teamName(|q| + 1)`.
   */
  function JoinQueue(q: seq<Team>, p: Player, perTeam: int, teamId: string, teamName: nat -> string): (r: seq<Team>)
    ensures AllPlayers(r) == AllPlayers(q) + [p]
    ensures |r| > 0 && (|r| == |q| || |r| == |q| + 1)
    ensures forall i :: 0 <= i < |r| ==> r[i].id == if i < |q| then q[i].id else teamId
    ensures p in r[|r| - 1].players && r[|r| - 1].id == JoinSide(q, perTeam, teamId)
    ensures (forall i :: 0 <= i < |q| ==> |q[i].players| <= perTeam) && perTeam >= 1 ==>
      forall i :: 0 <= i < |r| ==> |r[i].players| <= perTeam
  {
    if q != [] && |q[|q| - 1].players| < perTeam then
      var last := q[|q| - 1];
      var r := q[..|q| - 1] + [last.(players := last.players + [p])];
      assert AllPlayers(r) == AllPlayers(q) + [p] by {
        AllPlayersAppend(q[..|q| - 1], [last.(players := last.players + [p])]);
        AllPlayersAppend(q[..|q| - 1], [last]);
        assert q == q[..|q| - 1] + [last];
        assert AllPlayers([last]) == last.players + AllPlayers([]);
      }
      r
    else
      var t := Team(teamId, teamName(|q| + 1), "", [p]);
      AllPlayersAppend(q, [t]);
      assert AllPlayers([t]) == [p] + AllPlayers([]);
      q + [t]
  }

  // ---------------------------------------------------------------------------------------------
  // addPlayer

  /** `addPlayer` refuses a name that sanitises to nothing and a full target court. */
  predicate AddRefused(qs: QueueState, safeName: string, target: AddTarget, courtLimit: int)
  {
    safeName == "" ||
    (target == ToCourtA && |qs.courtA.players| >= courtLimit) ||
    (target == ToCourtB && |qs.courtB.players| >= courtLimit)
  }

  /**
   * `addPlayer` with the sanitised name `safeName`: the new player (id `newId(0)`, its name
   * sanitised once more by `createPlayer`) joins the end of the target court, or the queue; a new
   * queue team takes the id `newId(1)`.
   */
  function AddPlayerState(qs: QueueState, safeName: string, target: AddTarget, courtLimit: int, perTeam: int,
                          newId: nat -> string, teamName: nat -> string): QueueState
  {
    if AddRefused(qs, safeName, target, courtLimit) then qs
    else
      var p := CreatePlayer(newId(0), safeName);
      match target
      case ToCourtA => qs.(courtA := qs.courtA.(players := qs.courtA.players + [p]))
      case ToCourtB => qs.(courtB := qs.courtB.(players := qs.courtB.players + [p]))
      case ToQueue => qs.(queue := JoinQueue(qs.queue, p, perTeam, newId(1), teamName))
  }

  /**
   * A refused addition changes nothing; any other adds exactly one player, the new one, and on a
   * court it is the last player of the target court.
   */
  lemma AddPlayerEffect(qs: QueueState, safeName: string, target: AddTarget, courtLimit: int, perTeam: int,
                        newId: nat -> string, teamName: nat -> string)
    ensures var r := AddPlayerState(qs, safeName, target, courtLimit, perTeam, newId, teamName);
      var p := CreatePlayer(newId(0), safeName);
      (AddRefused(qs, safeName, target, courtLimit) ==> r == qs) &&
      (!AddRefused(qs, safeName, target, courtLimit) ==>
        multiset(Everyone(r)) == multiset(Everyone(qs)) + multiset{p} &&
        (target == ToCourtA ==> r.courtA.players == qs.courtA.players + [p]) &&
        (target == ToCourtB ==> r.courtB.players == qs.courtB.players + [p]))
  {
    if !AddRefused(qs, safeName, target, courtLimit) {
      var p := CreatePlayer(newId(0), safeName);
      AppendOne(qs.courtA.players, qs.courtB.players, AllPlayers(qs.queue), p);
    }
  }

  /** One more player in any of the three places adds that player to everyone. */
  lemma AppendOne(a: seq<Player>, b: seq<Player>, q: seq<Player>, p: Player)
    ensures multiset(a + [p] + b + q) == multiset(a + b + q) + multiset{p}
    ensures multiset(a + (b + [p]) + q) == multiset(a + b + q) + multiset{p}
    ensures multiset(a + b + (q + [p])) == multiset(a + b + q) + multiset{p}
  {
    assert multiset(a + b + q) == multiset(a) + multiset(b) + multiset(q);
    assert multiset(a + [p] + b + q) == multiset(a) + multiset{p} + multiset(b) + multiset(q);
    assert multiset(a + (b + [p]) + q) == multiset(a) + (multiset(b) + multiset{p}) + multiset(q);
    assert multiset(a + b + (q + [p])) == multiset(a) + multiset(b) + (multiset(q) + multiset{p});
  }

  /** An addition that is not refused always changes the state: the player count grows by one. */
  lemma AddPlayerRefusedIff(qs: QueueState, safeName: string, target: AddTarget, courtLimit: int, perTeam: int,
                            newId: nat -> string, teamName: nat -> string)
    ensures AddPlayerState(qs, safeName, target, courtLimit, perTeam, newId, teamName) == qs <==>
      AddRefused(qs, safeName, target, courtLimit)
  {
    AddPlayerEffect(qs, safeName, target, courtLimit, perTeam, newId, teamName);
    if !AddRefused(qs, safeName, target, courtLimit) {
      var r := AddPlayerState(qs, safeName, target, courtLimit, perTeam, newId, teamName);
      assert |multiset(Everyone(r))| == |multiset(Everyone(qs))| + 1;
    }
  }

  // ---------------------------------------------------------------------------------------------
  // removePlayer / undoRemovePlayer

  /** The first queue team holding the player, and that team's index. */
  function FindInQueue(ts: seq<Team>, playerId: string): (r: Option<(Player, nat)>)
    ensures r.None? <==> !HasPlayer(AllPlayers(ts), playerId)
    ensures r.Some? ==> r.value.0.id == playerId && r.value.0 in AllPlayers(ts) && r.value.1 < |ts|
  {
    if ts == [] then None
    else
      HasPlayerAppend(ts[0].players, AllPlayers(ts[1..]), playerId);
      match FindPlayer(ts[0].players, playerId)
      case Some(p) => Some((p, 0))
      case None =>
        match FindInQueue(ts[1..], playerId)
        case None => None
        case Some((p, i)) => Some((p, i + 1))
  }

  /**
   * The player `removePlayer` deletes and where it stood ("A", "B" or its queue team's id): the
   * first of court A, court B and the queue holding it, unless that is a court and the player is
   * fixed there. A fixed player in the queue can be removed.
   */
  function RemovalOrigin(qs: QueueState, playerId: string): (r: Option<(Player, string)>)
    ensures r.Some? ==> r.value.0.id == playerId && r.value.0 in Everyone(qs)
    ensures r.Some? && r.value.0.isFixed && NoCourtIds(qs.queue) ==> r.value.1 != "A" && r.value.1 != "B"
    ensures r.None? <==>
      !HasPlayer(Everyone(qs), playerId) ||
      (HasPlayer(qs.courtA.players, playerId) && FindPlayer(qs.courtA.players, playerId).value.isFixed) ||
      (!HasPlayer(qs.courtA.players, playerId) && HasPlayer(qs.courtB.players, playerId) &&
        FindPlayer(qs.courtB.players, playerId).value.isFixed)
  {
    HasPlayerAppend(qs.courtA.players, qs.courtB.players, playerId);
    HasPlayerAppend(qs.courtA.players + qs.courtB.players, AllPlayers(qs.queue), playerId);
    match FindPlayer(qs.courtA.players, playerId)
    case Some(p) => if p.isFixed then None else Some((p, "A"))
    case None =>
      match FindPlayer(qs.courtB.players, playerId)
      case Some(p) => if p.isFixed then None else Some((p, "B"))
      case None =>
        match FindInQueue(qs.queue, playerId)
        case None => None
        case Some((p, i)) => Some((p, qs.queue[i].id))
  }

  /** Every queue team without the player. */
  function DropInTeams(ts: seq<Team>, playerId: string): (r: seq<Team>)
    ensures AllPlayers(r) == DropIds(AllPlayers(ts), {playerId})
  {
    if ts == [] then []
    else
      DropIdsAppend(ts[0].players, AllPlayers(ts[1..]), {playerId});
      [ts[0].(players := DropIds(ts[0].players, {playerId}))] + DropInTeams(ts[1..], playerId)
  }

  /** `removePlayer`: the player leaves both courts and the queue, and emptied queue teams go. */
  function RemovePlayerState(qs: QueueState, playerId: string): QueueState
  {
    if RemovalOrigin(qs, playerId).None? then qs
    else
      qs.(courtA := qs.courtA.(players := DropIds(qs.courtA.players, {playerId})),
          courtB := qs.courtB.(players := DropIds(qs.courtB.players, {playerId})),
          queue := NonEmptyTeams(DropInTeams(qs.queue, playerId)))
  }

  /**
   * A refused removal changes nothing; otherwise, with distinct ids, exactly the removed player
   * is gone and no player carries its id any more.
   */
  lemma RemoveEffect(qs: QueueState, playerId: string)
    requires DistinctIds(Everyone(qs))
    ensures var r := RemovePlayerState(qs, playerId);
      match RemovalOrigin(qs, playerId)
      case None => r == qs
      case Some((p, _)) =>
        multiset(Everyone(r)) + multiset{p} == multiset(Everyone(qs)) && !HasPlayer(Everyone(r), playerId)
  {
    match RemovalOrigin(qs, playerId)
    case None =>
    case Some((p, _)) =>
      var r := RemovePlayerState(qs, playerId);
      var a, b, q := qs.courtA.players, qs.courtB.players, AllPlayers(qs.queue);
      DropIdsAppend(a, b, {playerId});
      DropIdsAppend(a + b, q, {playerId});
      assert Everyone(r) == DropIds(Everyone(qs), {playerId});
      DropOne(Everyone(qs), p);
  }

  /** No queue team is called "A" or "B", the names the deletion stack uses for the courts. */
  predicate NoCourtIds(ts: seq<Team>)
  {
    forall i :: 0 <= i < |ts| ==> ts[i].id != "A" && ts[i].id != "B"
  }

  /**
   * `undoRemovePlayer` for the popped record: back to the end of its court if that court has
   * room (else nothing happens), or to its queue team if that team is there and has room, or to
   * the back of the queue as `JoinQueue` places it.
   */
  function RestoreState(qs: QueueState, rec: DeletedRecord, courtLimit: int, perTeam: int,
                        teamId: string, teamName: nat -> string): QueueState
  {
    var p := rec.player;
    if rec.originId == "A" then
      if |qs.courtA.players| < courtLimit then qs.(courtA := qs.courtA.(players := qs.courtA.players + [p])) else qs
    else if rec.originId == "B" then
      if |qs.courtB.players| < courtLimit then qs.(courtB := qs.courtB.(players := qs.courtB.players + [p])) else qs
    else
      match FindTeam(qs.queue, rec.originId)
      case Some(k) =>
        if |qs.queue[k].players| < perTeam then qs.(queue := qs.queue[k := qs.queue[k].(players := qs.queue[k].players + [p])])
        else qs.(queue := JoinQueue(qs.queue, p, perTeam, teamId, teamName))
      case None => qs.(queue := JoinQueue(qs.queue, p, perTeam, teamId, teamName))
  }

  /** Replacing one team of a queue swaps that team's players for the new team's. */
  lemma AllPlayersUpdate(ts: seq<Team>, k: nat, t: Team)
    requires k < |ts|
    ensures multiset(AllPlayers(ts[k := t])) + multiset(ts[k].players) == multiset(AllPlayers(ts)) + multiset(t.players)
  {
    var before, after := ts[..k], ts[k + 1..];
    assert ts == before + [ts[k]] + after;
    assert ts[k := t] == before + [t] + after;
    AllPlayersAppend(before + [ts[k]], after);
    AllPlayersAppend(before, [ts[k]]);
    AllPlayersAppend(before + [t], after);
    AllPlayersAppend(before, [t]);
    assert AllPlayers([t]) == t.players + AllPlayers([]);
    assert AllPlayers([ts[k]]) == ts[k].players + AllPlayers([]);
  }

  /**
   * Restoring is refused exactly when the record's court is full; otherwise the record's player
   * is added and nobody else moves.
   */
  lemma RestoreEffect(qs: QueueState, rec: DeletedRecord, courtLimit: int, perTeam: int, teamId: string, teamName: nat -> string)
    ensures var r := RestoreState(qs, rec, courtLimit, perTeam, teamId, teamName);
      var full := (rec.originId == "A" && |qs.courtA.players| >= courtLimit) ||
                  (rec.originId == "B" && |qs.courtB.players| >= courtLimit);
      (full ==> r == qs) &&
      (!full ==> multiset(Everyone(r)) == multiset(Everyone(qs)) + multiset{rec.player})
  {
    var p := rec.player;
    var a, b, q := qs.courtA.players, qs.courtB.players, AllPlayers(qs.queue);
    AppendOne(a, b, q, p);
    if rec.originId != "A" && rec.originId != "B" {
      var k := FindTeam(qs.queue, rec.originId);
      if k.Some? && |qs.queue[k.value].players| < perTeam {
        RestoreIntoTeam(qs, k.value, p);
      }
    }
  }

  /** Adding a player to one queue team adds it to everyone. */
  lemma RestoreIntoTeam(qs: QueueState, k: nat, p: Player)
    requires k < |qs.queue|
    ensures var t := qs.queue[k];
      multiset(Everyone(qs.(queue := qs.queue[k := t.(players := t.players + [p])]))) == multiset(Everyone(qs)) + multiset{p}
  {
    var t := qs.queue[k];
    var t2 := t.(players := t.players + [p]);
    var a, b, q := qs.courtA.players, qs.courtB.players, AllPlayers(qs.queue);
    AllPlayersUpdate(qs.queue, k, t2);
    var q2 := AllPlayers(qs.queue[k := t2]);
    var m := multiset(t.players);
    assert multiset(t2.players) == m + multiset{p};
    Cancel(multiset(q2), multiset(q), m, multiset{p});
    AddLast(a, b, q, q2, p);
  }

  lemma Cancel(x: multiset<Player>, y: multiset<Player>, m: multiset<Player>, e: multiset<Player>)
    requires x + m == y + (m + e)
    ensures x == y + e
  {
    assert x == (x + m) - m;
  }

  lemma AddLast(a: seq<Player>, b: seq<Player>, q: seq<Player>, q2: seq<Player>, p: Player)
    requires multiset(q2) == multiset(q) + multiset{p}
    ensures multiset(a + b + q2) == multiset(a + b + q) + multiset{p}
  {
    assert multiset(a + b + q2) == multiset(a) + multiset(b) + multiset(q2);
    assert multiset(a + b + q) == multiset(a) + multiset(b) + multiset(q);
  }

  /** Without a queue team named like a court, a removal from "A" or "B" was from that court. */
  lemma OriginCourt(qs: QueueState, playerId: string)
    requires NoCourtIds(qs.queue) && RemovalOrigin(qs, playerId).Some?
    ensures RemovalOrigin(qs, playerId).value.1 == "A" ==> HasPlayer(qs.courtA.players, playerId)
    ensures RemovalOrigin(qs, playerId).value.1 == "B" ==> HasPlayer(qs.courtB.players, playerId)
  {
  }

  /** Dropping an id a list holds makes the list shorter. */
  lemma {:induction false} DropShrinks(ps: seq<Player>, playerId: string)
    requires HasPlayer(ps, playerId)
    ensures |DropIds(ps, {playerId})| < |ps|
  {
    if ps[0].id != playerId {
      var i :| 0 <= i < |ps| && ps[i].id == playerId;
      assert ps[1..][i - 1].id == playerId;
      DropShrinks(ps[1..], playerId);
    }
  }

  /**
   * Undo after remove: with distinct ids, courts within `courtLimit` and no queue team named like
   * a court, restoring the record of a removal brings back exactly the players there were.
   */
  lemma RemoveRestoreRoundTrip(qs: QueueState, playerId: string, now: int, courtLimit: int, perTeam: int,
                               teamId: string, teamName: nat -> string)
    requires DistinctIds(Everyone(qs)) && NoCourtIds(qs.queue)
    requires |qs.courtA.players| <= courtLimit && |qs.courtB.players| <= courtLimit
    requires RemovalOrigin(qs, playerId).Some?
    ensures var (p, origin) := RemovalOrigin(qs, playerId).value;
      var r := RestoreState(RemovePlayerState(qs, playerId), DeletedRecord(p, origin, now), courtLimit, perTeam, teamId, teamName);
      multiset(Everyone(r)) == multiset(Everyone(qs))
  {
    var (p, origin) := RemovalOrigin(qs, playerId).value;
    var mid := RemovePlayerState(qs, playerId);
    RemoveEffect(qs, playerId);
    OriginCourt(qs, playerId);
    assert origin == "A" ==> |mid.courtA.players| < courtLimit by {
      if origin == "A" { DropShrinks(qs.courtA.players, playerId); }
    }
    assert origin == "B" ==> |mid.courtB.players| < courtLimit by {
      if origin == "B" { DropShrinks(qs.courtB.players, playerId); }
    }
    RestoreEffect(mid, DeletedRecord(p, origin, now), courtLimit, perTeam, teamId, teamName);
  }

  // ---------------------------------------------------------------------------------------------
  // movePlayer

  /** Queue teams carry distinct ids. */
  predicate DistinctTeamIds(ts: seq<Team>)
  {
    forall i, j :: 0 <= i < j < |ts| ==> ts[i].id != ts[j].id
  }

  /** What is left of a queue team after a player leaves it: nothing if it is empty and may go. */
  function Kept(t: Team, playerId: string, keepEmpty: bool): seq<Team>
  {
    var rest := DropIds(t.players, {playerId});
    if rest == [] && !keepEmpty then [] else [t.(players := rest)]
  }

  /** A player taken out of a queue team: the player, the queue without it, the team's index. */
  datatype Taken = Taken(player: Player, queue: seq<Team>, index: nat)

  /**
   * `removeFromQueue`: the first team with id `teamId` that holds the player loses it and, when
   * emptied, leaves the queue unless `keepEmpty`.
   */
  function TakeFromQueue(ts: seq<Team>, playerId: string, teamId: string, keepEmpty: bool): (r: Option<Taken>)
    ensures r.Some? ==> r.value.index < |ts|
  {
    if ts == [] then None
    else if ts[0].id == teamId && HasPlayer(ts[0].players, playerId) then
      Some(Taken(FindPlayer(ts[0].players, playerId).value, Kept(ts[0], playerId, keepEmpty) + ts[1..], 0))
    else
      match TakeFromQueue(ts[1..], playerId, teamId, keepEmpty)
      case None => None
      case Some(t) => Some(Taken(t.player, [ts[0]] + t.queue, t.index + 1))
  }

  /**
   * The player is taken from the first team with id `teamId` that holds it, and only that team
   * changes; there is none exactly when no such team holds the player.
   */
  lemma TakeFromQueueShape(ts: seq<Team>, playerId: string, teamId: string, keepEmpty: bool)
    ensures var r := TakeFromQueue(ts, playerId, teamId, keepEmpty);
      (r.None? <==> forall i :: 0 <= i < |ts| && ts[i].id == teamId ==> !HasPlayer(ts[i].players, playerId)) &&
      (r.Some? ==> var i := r.value.index;
        i < |ts| && ts[i].id == teamId && HasPlayer(ts[i].players, playerId) &&
        r.value.player == FindPlayer(ts[i].players, playerId).value &&
        r.value.queue == ts[..i] + Kept(ts[i], playerId, keepEmpty) + ts[i + 1..])
  {
    TakeFromQueueNone(ts, playerId, teamId, keepEmpty);
    TakeFromQueueSome(ts, playerId, teamId, keepEmpty);
  }

  lemma {:induction false} TakeFromQueueNone(ts: seq<Team>, playerId: string, teamId: string, keepEmpty: bool)
    ensures TakeFromQueue(ts, playerId, teamId, keepEmpty).None? <==>
      forall i :: 0 <= i < |ts| && ts[i].id == teamId ==> !HasPlayer(ts[i].players, playerId)
  {
    if ts != [] && !(ts[0].id == teamId && HasPlayer(ts[0].players, playerId)) {
      TakeFromQueueNone(ts[1..], playerId, teamId, keepEmpty);
      if TakeFromQueue(ts[1..], playerId, teamId, keepEmpty).None? {
        forall i | 1 <= i < |ts| && ts[i].id == teamId ensures !HasPlayer(ts[i].players, playerId) {
          assert ts[i] == ts[1..][i - 1];
        }
      } else {
        var i :| 0 <= i < |ts[1..]| && ts[1..][i].id == teamId && HasPlayer(ts[1..][i].players, playerId);
        assert ts[i + 1] == ts[1..][i];
      }
    }
  }

  lemma {:induction false} TakeFromQueueSome(ts: seq<Team>, playerId: string, teamId: string, keepEmpty: bool)
    ensures var r := TakeFromQueue(ts, playerId, teamId, keepEmpty);
      r.Some? ==> var i := r.value.index;
        i < |ts| && ts[i].id == teamId && HasPlayer(ts[i].players, playerId) &&
        r.value.player == FindPlayer(ts[i].players, playerId).value &&
        r.value.queue == ts[..i] + Kept(ts[i], playerId, keepEmpty) + ts[i + 1..]
  {
    if ts != [] {
      if ts[0].id == teamId && HasPlayer(ts[0].players, playerId) {
        assert ts[..0] == [] && ts[1..] == ts[0 + 1..];
      } else {
        TakeFromQueueSome(ts[1..], playerId, teamId, keepEmpty);
        var rest := TakeFromQueue(ts[1..], playerId, teamId, keepEmpty);
        if rest.Some? {
          var t := rest.value;
          var k := t.index;
          var team := ts[k + 1];
          assert ts[1..][k] == team;
          ConsAround(ts, k, t.queue, Kept(team, playerId, keepEmpty));
        }
      }
    }
  }

  /** Putting back the head of a queue in front of a queue changed at one place. */
  lemma ConsAround(ts: seq<Team>, k: nat, tail: seq<Team>, kept: seq<Team>)
    requires k + 1 < |ts| && tail == ts[1..][..k] + kept + ts[1..][k + 1..]
    ensures [ts[0]] + tail == ts[..k + 1] + kept + ts[k + 2..]
  {
    assert ts[1..][..k] == ts[1..k + 1] && ts[1..][k + 1..] == ts[k + 2..];
    assert [ts[0]] + ts[1..k + 1] == ts[..k + 1];
  }

  /** The pin a moved player gets: its new side if it is fixed, none otherwise. */
  function Pin(p: Player, side: string): (r: Player)
    ensures r.(fixedSide := p.fixedSide) == p
  {
    p.(fixedSide := if p.isFixed then Some(side) else None)
  }

  /** `queue.map(t => t.id === teamId ? team : t)`. */
  function ReplaceTeams(ts: seq<Team>, teamId: string, team: Team): (r: seq<Team>)
    ensures |r| == |ts|
  {
    if ts == [] then [] else [if ts[0].id == teamId then team else ts[0]] + ReplaceTeams(ts[1..], teamId, team)
  }

  /** The queue team `movePlayer` targets: none for "A", "B" and "Queue". */
  function MoveTarget(qs: QueueState, toId: string): Option<nat>
  {
    if toId == "A" || toId == "B" || toId == "Queue" then None else FindTeam(qs.queue, toId)
  }

  /** The move is refused when its target court or queue team already has `courtLimit` players. */
  predicate TargetFull(qs: QueueState, toId: string, courtLimit: int)
  {
    (toId == "A" && |qs.courtA.players| >= courtLimit) ||
    (toId == "B" && |qs.courtB.players| >= courtLimit) ||
    (MoveTarget(qs, toId).Some? && |qs.queue[MoveTarget(qs, toId).value].players| >= courtLimit)
  }

  /** The player a move takes out, the state without it, and the queue index it left, if any. */
  datatype Removed = Removed(player: Player, rest: QueueState, fromIndex: Option<nat>)

  /** Taking the player out of `fromId`; a fixed player cannot leave a court. */
  function RemoveForMove(qs: QueueState, playerId: string, fromId: string, keepEmpty: bool): Option<Removed>
  {
    if fromId == "A" then
      match FindPlayer(qs.courtA.players, playerId)
      case None => None
      case Some(p) =>
        if p.isFixed then None
        else Some(Removed(p, qs.(courtA := qs.courtA.(players := DropIds(qs.courtA.players, {playerId}))), None))
    else if fromId == "B" then
      match FindPlayer(qs.courtB.players, playerId)
      case None => None
      case Some(p) =>
        if p.isFixed then None
        else Some(Removed(p, qs.(courtB := qs.courtB.(players := DropIds(qs.courtB.players, {playerId}))), None))
    else
      match TakeFromQueue(qs.queue, playerId, fromId, keepEmpty)
      case None => None
      case Some(t) => Some(Removed(t.player, qs.(queue := t.queue), Some(t.index)))
  }

  /**
   * Putting the taken player into `toId`: the end of a court, the end of the target queue team
   * (whose players are those of the team as found before the removal, less the player if it was
   * taken from that very team), or the back of the queue.
   */
  function PlaceForMove(qs: QueueState, rm: Removed, playerId: string, toId: string, perTeam: int,
                        teamId: string, teamName: nat -> string): QueueState
  {
    var s := rm.rest;
    var p := rm.player;
    if toId == "A" then s.(courtA := s.courtA.(players := s.courtA.players + [Pin(p, "A")]))
    else if toId == "B" then s.(courtB := s.courtB.(players := s.courtB.players + [Pin(p, "B")]))
    else
      match MoveTarget(qs, toId)
      case Some(j) =>
        var t := qs.queue[j];
        var current := if rm.fromIndex == Some(j) then DropIds(t.players, {playerId}) else t.players;
        s.(queue := ReplaceTeams(s.queue, toId, t.(players := current + [Pin(p, toId)])))
      case None =>
        s.(queue := JoinQueue(s.queue, Pin(p, JoinSide(s.queue, perTeam, teamId)), perTeam, teamId, teamName))
  }

  function MoveWith(qs: QueueState, playerId: string, fromId: string, toId: string, courtLimit: int, perTeam: int,
                    teamId: string, teamName: nat -> string, keepEmpty: bool): (r: QueueState)
    ensures r != qs ==> !TargetFull(qs, toId, courtLimit) && RemoveForMove(qs, playerId, fromId, keepEmpty).Some?
  {
    if TargetFull(qs, toId, courtLimit) then qs
    else
      match RemoveForMove(qs, playerId, fromId, keepEmpty)
      case None => qs
      case Some(rm) => PlaceForMove(qs, rm, playerId, toId, perTeam, teamId, teamName)
  }

  /**
   * `movePlayer` as written: a queue team emptied by the removal always leaves the queue, even
   * when it is also the target.
   */
  function MoveAsWritten(qs: QueueState, playerId: string, fromId: string, toId: string, courtLimit: int, perTeam: int,
                         teamId: string, teamName: nat -> string): (r: QueueState)
    ensures fromId != toId ==> r == MovePlayer(qs, playerId, fromId, toId, courtLimit, perTeam, teamId, teamName)
  {
    MoveWith(qs, playerId, fromId, toId, courtLimit, perTeam, teamId, teamName, false)
  }

  /** `movePlayer` as intended: the source team stays while it is also the target. */
  function MovePlayer(qs: QueueState, playerId: string, fromId: string, toId: string, courtLimit: int, perTeam: int,
                      teamId: string, teamName: nat -> string): (r: QueueState)
    ensures r != qs ==>
      !TargetFull(qs, toId, courtLimit) && RemoveForMove(qs, playerId, fromId, fromId == toId).Some?
  {
    MoveWith(qs, playerId, fromId, toId, courtLimit, perTeam, teamId, teamName, fromId == toId)
  }

  /**
   * The two refusals of `movePlayer`: a target court or queue team that already has `courtLimit`
   * players, and a fixed player dragged off court A or B. Either leaves the state as it was.
   */
  lemma MoveRefusals(qs: QueueState, playerId: string, fromId: string, toId: string, courtLimit: int, perTeam: int,
                     teamId: string, teamName: nat -> string)
    ensures TargetFull(qs, toId, courtLimit) ==>
      MovePlayer(qs, playerId, fromId, toId, courtLimit, perTeam, teamId, teamName) == qs
    ensures (fromId == "A" && FindPlayer(qs.courtA.players, playerId).Some? &&
             FindPlayer(qs.courtA.players, playerId).value.isFixed) ==>
      MovePlayer(qs, playerId, fromId, toId, courtLimit, perTeam, teamId, teamName) == qs
    ensures (fromId == "B" && FindPlayer(qs.courtB.players, playerId).Some? &&
             FindPlayer(qs.courtB.players, playerId).value.isFixed) ==>
      MovePlayer(qs, playerId, fromId, toId, courtLimit, perTeam, teamId, teamName) == qs
  {
  }

  /** The state of the finding below: queue team "t" holds its only player "p". */
  function SoloPlayer(): Player
  {
    Player("p", None, "Ann", None, 0, false, None, 0)
  }

  function SoloQueue(): QueueState
  {
    InitialQueueState.(queue := [Team("t", "Queue Team 1", "", [SoloPlayer()])])
  }

  /**
   * Moving the only player of queue team "t" onto "t" itself loses the player in the code as
   * written, while the corrected move keeps it.
   */
  lemma MoveOntoOwnTeamLosesPlayer(teamId: string, teamName: nat -> string)
    ensures Everyone(SoloQueue()) == [SoloPlayer()]
    ensures Everyone(MoveAsWritten(SoloQueue(), "p", "t", "t", 6, 6, teamId, teamName)) == []
    ensures Everyone(MovePlayer(SoloQueue(), "p", "t", "t", 6, 6, teamId, teamName)) == [SoloPlayer()]
  {
    SoloFacts();
    SoloAsWritten(teamId, teamName);
    SoloCorrected(teamId, teamName);
  }

  lemma SoloFacts()
    ensures Everyone(SoloQueue()) == [SoloPlayer()]
    ensures HasPlayer(SoloQueue().queue[0].players, "p")
    ensures DropIds(SoloQueue().queue[0].players, {"p"}) == []
  {
    var t := SoloQueue().queue[0];
    assert t.players[0].id == "p";
    assert AllPlayers([t]) == [SoloPlayer()] + AllPlayers([]);
  }

  lemma SoloAsWritten(teamId: string, teamName: nat -> string)
    ensures Everyone(MoveAsWritten(SoloQueue(), "p", "t", "t", 6, 6, teamId, teamName)) == []
  {
    SoloFacts();
    var qs := SoloQueue();
    assert MoveTarget(qs, "t") == Some(0);
    assert !TargetFull(qs, "t", 6);
    assert TakeFromQueue(qs.queue, "p", "t", false) == Some(Taken(SoloPlayer(), [], 0));
    var rm := Removed(SoloPlayer(), qs.(queue := []), Some(0));
    assert RemoveForMove(qs, "p", "t", false) == Some(rm);
    assert PlaceForMove(qs, rm, "p", "t", 6, teamId, teamName) == rm.rest.(queue := ReplaceTeams([], "t", qs.queue[0].(players := [] + [Pin(SoloPlayer(), "t")])));
  }

  lemma SoloCorrected(teamId: string, teamName: nat -> string)
    ensures Everyone(MovePlayer(SoloQueue(), "p", "t", "t", 6, 6, teamId, teamName)) == [SoloPlayer()]
  {
    var moved := SoloQueue().queue[0];
    SoloCorrectedState(teamId, teamName);
    assert AllPlayers([moved]) == [SoloPlayer()] + AllPlayers([]);
  }

  /** The corrected move takes the player out of team "t" and puts it back at its end. */
  lemma SoloCorrectedState(teamId: string, teamName: nat -> string)
    ensures MovePlayer(SoloQueue(), "p", "t", "t", 6, 6, teamId, teamName) == SoloQueue()
  {
    var qs := SoloQueue();
    var p := SoloPlayer();
    var kept := qs.queue[0].(players := []);
    assert MoveTarget(qs, "t") == Some(0);
    assert !TargetFull(qs, "t", 6);
    SoloRemoved();
    var rm := Removed(p, qs.(queue := [kept]), Some(0));
    SoloFacts();
    var moved := kept.(players := [] + [Pin(p, "t")]);
    assert ReplaceTeams([kept], "t", moved) == [moved];
    assert Pin(p, "t") == p;
    assert moved == qs.queue[0];
    assert PlaceForMove(qs, rm, "p", "t", 6, teamId, teamName) == qs;
  }

  /** The corrected removal leaves team "t" in the queue, empty. */
  lemma SoloRemoved()
    ensures RemoveForMove(SoloQueue(), "p", "t", true) ==
      Some(Removed(SoloPlayer(), SoloQueue().(queue := [SoloQueue().queue[0].(players := [])]), Some(0)))
  {
    SoloFacts();
    var qs := SoloQueue();
    var kept := qs.queue[0].(players := []);
    assert Kept(qs.queue[0], "p", true) == [kept];
    assert [kept] + qs.queue[1..] == [kept];
    assert TakeFromQueue(qs.queue, "p", "t", true) == Some(Taken(SoloPlayer(), [kept], 0));
  }

  /** A queue split around one team: the players before, the team's, and those after. */
  lemma AllPlayersAround(ts: seq<Team>, i: nat, mid: seq<Team>)
    requires i < |ts|
    ensures AllPlayers(ts[..i] + mid + ts[i + 1..]) == AllPlayers(ts[..i]) + AllPlayers(mid) + AllPlayers(ts[i + 1..])
    ensures AllPlayers(ts) == AllPlayers(ts[..i]) + ts[i].players + AllPlayers(ts[i + 1..])
  {
    var front, tail := ts[..i], ts[i..];
    AllPlayersSplice(front, mid, ts[i + 1..]);
    assert ts == front + tail;
    AllPlayersAppend(front, tail);
    assert tail[0] == ts[i] && tail[1..] == ts[i + 1..];
  }

  lemma AllPlayersSplice(a: seq<Team>, m: seq<Team>, b: seq<Team>)
    ensures AllPlayers(a + m + b) == AllPlayers(a) + AllPlayers(m) + AllPlayers(b)
  {
    AllPlayersAppend(a + m, b);
    AllPlayersAppend(a, m);
  }

  /** Whether an emptied team stays or goes, what is left of it holds the rest of its players. */
  lemma KeptPlayers(t: Team, playerId: string, keepEmpty: bool)
    ensures AllPlayers(Kept(t, playerId, keepEmpty)) == DropIds(t.players, {playerId})
  {
    var k := Kept(t, playerId, keepEmpty);
    if k != [] {
      assert AllPlayers(k) == k[0].players + AllPlayers([]);
    }
  }

  /** Losing one player in one of the three places removes it from everyone. */
  lemma LoseOne(a: seq<Player>, b: seq<Player>, q: seq<Player>, a2: seq<Player>, b2: seq<Player>, q2: seq<Player>, p: Player)
    requires multiset(a2) + multiset(b2) + multiset(q2) + multiset{p} == multiset(a) + multiset(b) + multiset(q)
    ensures multiset(a2 + b2 + q2) + multiset{p} == multiset(a + b + q)
  {
    assert multiset(a2 + b2 + q2) == multiset(a2) + multiset(b2) + multiset(q2);
    assert multiset(a + b + q) == multiset(a) + multiset(b) + multiset(q);
  }

  /** Removing one player from the middle part of three removes it from the whole. */
  lemma LoseMiddle(x: seq<Player>, m: seq<Player>, z: seq<Player>, m2: seq<Player>, p: Player)
    requires multiset(m2) + multiset{p} == multiset(m)
    ensures multiset(x + m2 + z) + multiset{p} == multiset(x + m + z)
  {
    assert multiset(x + m2 + z) == multiset(x) + multiset(m2) + multiset(z);
    assert multiset(x + m + z) == multiset(x) + multiset(m) + multiset(z);
  }

  lemma DistinctMiddle(x: seq<Player>, m: seq<Player>, z: seq<Player>)
    requires DistinctIds(x + m + z)
    ensures DistinctIds(m)
  {
    assert x + m + z == x + (m + z);
    DistinctParts(x, m + z);
    DistinctParts(m, z);
  }

  /** Taking a player out of its queue team takes exactly that player out of the queue. */
  lemma TakeOneFromQueue(ts: seq<Team>, playerId: string, teamId: string, keepEmpty: bool)
    requires DistinctIds(AllPlayers(ts))
    ensures var t := TakeFromQueue(ts, playerId, teamId, keepEmpty);
      t.Some? ==>
        (t.value.player in AllPlayers(ts) && t.value.player.id == playerId &&
         multiset(AllPlayers(t.value.queue)) + multiset{t.value.player} == multiset(AllPlayers(ts)))
  {
    TakeFromQueueSome(ts, playerId, teamId, keepEmpty);
    var t := TakeFromQueue(ts, playerId, teamId, keepEmpty);
    if t.Some? {
      TakeOneAt(ts, t.value.index, t.value.player, keepEmpty);
    }
  }

  /** Removing player `p` from queue team `i` takes exactly `p` out of the queue's players. */
  lemma {:induction false} TakeOneAt(ts: seq<Team>, i: nat, p: Player, keepEmpty: bool)
    requires DistinctIds(AllPlayers(ts)) && i < |ts| && p in ts[i].players
    ensures p in AllPlayers(ts)
    ensures multiset(AllPlayers(ts[..i] + Kept(ts[i], p.id, keepEmpty) + ts[i + 1..])) + multiset{p} ==
      multiset(AllPlayers(ts))
  {
    var x, m, z := AllPlayers(ts[..i]), ts[i].players, AllPlayers(ts[i + 1..]);
    AllPlayersAround(ts, i, Kept(ts[i], p.id, keepEmpty));
    KeptPlayers(ts[i], p.id, keepEmpty);
    DistinctMiddle(x, m, z);
    DropOne(m, p);
    LoseMiddle(x, m, z, DropIds(m, {p.id}), p);
  }

  lemma LoseFromA(qs: QueueState, p: Player)
    requires DistinctIds(Everyone(qs)) && p in qs.courtA.players
    ensures var rest := qs.(courtA := qs.courtA.(players := DropIds(qs.courtA.players, {p.id})));
      multiset(Everyone(rest)) + multiset{p} == multiset(Everyone(qs))
  {
    var a, b, q := qs.courtA.players, qs.courtB.players, AllPlayers(qs.queue);
    DistinctParts(a + b, q);
    DistinctParts(a, b);
    DropOne(a, p);
    LoseFirst(a, b, q, DropIds(a, {p.id}), p);
  }

  lemma LoseFirst(a: seq<Player>, b: seq<Player>, q: seq<Player>, a2: seq<Player>, p: Player)
    requires multiset(a2) + multiset{p} == multiset(a)
    ensures multiset(a2 + b + q) + multiset{p} == multiset(a + b + q)
  {
    assert multiset(a2 + b + q) == multiset(a2) + multiset(b) + multiset(q);
    assert multiset(a + b + q) == multiset(a) + multiset(b) + multiset(q);
  }

  lemma LoseFromB(qs: QueueState, p: Player)
    requires DistinctIds(Everyone(qs)) && p in qs.courtB.players
    ensures var rest := qs.(courtB := qs.courtB.(players := DropIds(qs.courtB.players, {p.id})));
      multiset(Everyone(rest)) + multiset{p} == multiset(Everyone(qs))
  {
    var a, b, q := qs.courtA.players, qs.courtB.players, AllPlayers(qs.queue);
    DistinctMiddle(a, b, q);
    DropOne(b, p);
    LoseMiddle(a, b, q, DropIds(b, {p.id}), p);
  }

  lemma LoseFromQueue(qs: QueueState, q2: seq<Team>, p: Player)
    requires DistinctIds(Everyone(qs))
    requires multiset(AllPlayers(q2)) + multiset{p} == multiset(AllPlayers(qs.queue))
    ensures multiset(Everyone(qs.(queue := q2))) + multiset{p} == multiset(Everyone(qs))
  {
    var a, b, q := qs.courtA.players, qs.courtB.players, AllPlayers(qs.queue);
    LoseMiddle(a + b, q, [], AllPlayers(q2), p);
    assert a + b + q + [] == a + b + q;
    assert a + b + AllPlayers(q2) + [] == a + b + AllPlayers(q2);
  }

  /** With distinct ids, taking a player out for a move removes exactly that player. */
  lemma RemoveForMoveEffect(qs: QueueState, playerId: string, fromId: string, keepEmpty: bool)
    requires DistinctIds(Everyone(qs))
    ensures var r := RemoveForMove(qs, playerId, fromId, keepEmpty);
      r.Some? ==>
        (r.value.player in Everyone(qs) && r.value.player.id == playerId &&
         multiset(Everyone(r.value.rest)) + multiset{r.value.player} == multiset(Everyone(qs)))
  {
    var a, b, q := qs.courtA.players, qs.courtB.players, AllPlayers(qs.queue);
    var r := RemoveForMove(qs, playerId, fromId, keepEmpty);
    if r.Some? {
      var p := r.value.player;
      if fromId == "A" {
        LoseFromA(qs, p);
      } else if fromId == "B" {
        LoseFromB(qs, p);
      } else {
        assert a + b + q + [] == a + b + q;
        DistinctMiddle(a + b, q, []);
        TakeOneFromQueue(qs.queue, playerId, fromId, keepEmpty);
        LoseFromQueue(qs, r.value.rest.queue, p);
      }
    }
  }

  lemma {:induction false} ReplaceTeamsNone(ts: seq<Team>, teamId: string, team: Team)
    requires forall k :: 0 <= k < |ts| ==> ts[k].id != teamId
    ensures ReplaceTeams(ts, teamId, team) == ts
  {
    if ts != [] {
      ReplaceTeamsNone(ts[1..], teamId, team);
    }
  }

  /**
   * Replacing the one team with id `teamId`, which holds `current`, by a team holding
   * `current + [x]` adds exactly `x` to the queue.
   */
  lemma {:induction false} ReplaceTeamsAdds(ts: seq<Team>, teamId: string, current: seq<Player>, x: Player, team: Team)
    requires DistinctTeamIds(ts) && team.players == current + [x]
    requires exists k :: 0 <= k < |ts| && ts[k].id == teamId && ts[k].players == current
    ensures multiset(AllPlayers(ReplaceTeams(ts, teamId, team))) == multiset(AllPlayers(ts)) + multiset{x}
  {
    var k :| 0 <= k < |ts| && ts[k].id == teamId && ts[k].players == current;
    var r := ReplaceTeams(ts, teamId, team);
    assert r[1..] == ReplaceTeams(ts[1..], teamId, team);
    if ts[0].id == teamId {
      assert k == 0;
      ReplaceTeamsNone(ts[1..], teamId, team);
    } else {
      assert ts[1..][k - 1] == ts[k];
      ReplaceTeamsAdds(ts[1..], teamId, current, x, team);
    }
  }

  /** Changing one team's players, or dropping the team, keeps team ids distinct. */
  lemma DistinctAround(ts: seq<Team>, i: nat, kept: seq<Team>)
    requires DistinctTeamIds(ts) && i < |ts|
    requires kept == [] || (|kept| == 1 && kept[0].id == ts[i].id)
    ensures DistinctTeamIds(ts[..i] + kept + ts[i + 1..])
  {
    var r := ts[..i] + kept + ts[i + 1..];
    if kept == [] {
      forall a, b | 0 <= a < b < |r| ensures r[a].id != r[b].id {
        var a', b' := if a < i then a else a + 1, if b < i then b else b + 1;
        assert r[a] == ts[a'] && r[b] == ts[b'];
      }
    } else {
      forall a, b | 0 <= a < b < |r| ensures r[a].id != r[b].id {
        assert r[a].id == ts[a].id && r[b].id == ts[b].id;
      }
    }
  }

  /**
   * After the removal, the target queue team is still there, once, with the players the move
   * appends to: this is where keeping the emptied source team matters.
   */
  lemma TargetSurvives(qs: QueueState, playerId: string, fromId: string, toId: string)
    requires DistinctTeamIds(qs.queue)
    requires RemoveForMove(qs, playerId, fromId, fromId == toId).Some? && MoveTarget(qs, toId).Some?
    ensures var rm := RemoveForMove(qs, playerId, fromId, fromId == toId).value;
      var j := MoveTarget(qs, toId).value;
      var current := if rm.fromIndex == Some(j) then DropIds(qs.queue[j].players, {playerId}) else qs.queue[j].players;
      DistinctTeamIds(rm.rest.queue) &&
      exists k :: 0 <= k < |rm.rest.queue| && rm.rest.queue[k].id == toId && rm.rest.queue[k].players == current
  {
    if fromId != "A" && fromId != "B" {
      TargetSurvivesQueue(qs, playerId, fromId, toId);
    } else {
      var rm := RemoveForMove(qs, playerId, fromId, fromId == toId).value;
      var j := MoveTarget(qs, toId).value;
      assert rm.rest.queue[j] == qs.queue[j];
    }
  }

  lemma TargetSurvivesQueue(qs: QueueState, playerId: string, fromId: string, toId: string)
    requires DistinctTeamIds(qs.queue) && fromId != "A" && fromId != "B"
    requires RemoveForMove(qs, playerId, fromId, fromId == toId).Some? && MoveTarget(qs, toId).Some?
    ensures var rm := RemoveForMove(qs, playerId, fromId, fromId == toId).value;
      var j := MoveTarget(qs, toId).value;
      var current := if rm.fromIndex == Some(j) then DropIds(qs.queue[j].players, {playerId}) else qs.queue[j].players;
      DistinctTeamIds(rm.rest.queue) &&
      exists k :: 0 <= k < |rm.rest.queue| && rm.rest.queue[k].id == toId && rm.rest.queue[k].players == current
  {
    var j := MoveTarget(qs, toId).value;
    var ts := qs.queue;
    var keepEmpty := fromId == toId;
    var tk := TakeFromQueue(ts, playerId, fromId, keepEmpty).value;
    assert RemoveForMove(qs, playerId, fromId, keepEmpty).value == Removed(tk.player, qs.(queue := tk.queue), Some(tk.index));
    TakeFromQueueSome(ts, playerId, fromId, keepEmpty);
    var i := tk.index;
    assert ts[i].id == fromId && ts[j].id == toId;
    var kept := Kept(ts[i], playerId, keepEmpty);
    var rm := RemoveForMove(qs, playerId, fromId, keepEmpty).value;
    assert rm.rest.queue == ts[..i] + kept + ts[i + 1..];
    assert rm.fromIndex == Some(j) <==> i == j;
    SurvivesAround(ts, i, j, kept, playerId, toId, keepEmpty);
  }

  /** The target team `j` is still in a queue changed at position `i` only. */
  lemma SurvivesAround(ts: seq<Team>, i: nat, j: nat, kept: seq<Team>, playerId: string, toId: string, keepEmpty: bool)
    requires DistinctTeamIds(ts) && i < |ts| && j < |ts| && ts[j].id == toId
    requires kept == Kept(ts[i], playerId, keepEmpty)
    requires i == j ==> keepEmpty
    ensures var r := ts[..i] + kept + ts[i + 1..];
      var current := if i == j then DropIds(ts[j].players, {playerId}) else ts[j].players;
      DistinctTeamIds(r) &&
      exists k :: 0 <= k < |r| && r[k].id == toId && r[k].players == current
  {
    DistinctAround(ts, i, kept);
    var r := ts[..i] + kept + ts[i + 1..];
    if i == j {
      assert r[i] == kept[0];
    } else if j < i {
      assert r[j] == ts[j];
    } else {
      assert r[j - 1 + |kept|] == ts[j];
    }
  }

  /** Appending the player to the surviving target team adds it to the queue once. */
  lemma PlaceInTeam(qs: QueueState, playerId: string, fromId: string, toId: string, j: nat, x: Player)
    requires DistinctTeamIds(qs.queue)
    requires RemoveForMove(qs, playerId, fromId, fromId == toId).Some? && MoveTarget(qs, toId) == Some(j)
    ensures var rm := RemoveForMove(qs, playerId, fromId, fromId == toId).value;
      var t := qs.queue[j];
      var current := if rm.fromIndex == Some(j) then DropIds(t.players, {playerId}) else t.players;
      var s := rm.rest;
      multiset(Everyone(s.(queue := ReplaceTeams(s.queue, toId, t.(players := current + [x]))))) ==
        multiset(Everyone(s)) + multiset{x}
  {
    var rm := RemoveForMove(qs, playerId, fromId, fromId == toId).value;
    var t := qs.queue[j];
    var current := if rm.fromIndex == Some(j) then DropIds(t.players, {playerId}) else t.players;
    var s := rm.rest;
    TargetSurvives(qs, playerId, fromId, toId);
    ReplaceTeamsAdds(s.queue, toId, current, x, t.(players := current + [x]));
    GainInQueue(s.courtA.players, s.courtB.players, AllPlayers(s.queue),
                AllPlayers(ReplaceTeams(s.queue, toId, t.(players := current + [x]))), x);
  }

  lemma GainInQueue(a: seq<Player>, b: seq<Player>, q: seq<Player>, q2: seq<Player>, x: Player)
    requires multiset(q2) == multiset(q) + multiset{x}
    ensures multiset(a + b + q2) == multiset(a + b + q) + multiset{x}
  {
    assert multiset(a + b + q2) == multiset(a) + multiset(b) + multiset(q2);
    assert multiset(a + b + q) == multiset(a) + multiset(b) + multiset(q);
  }

  /** Putting the taken player in its place adds it once, pinned to its new side. */
  lemma PlaceForMoveEffect(qs: QueueState, playerId: string, fromId: string, toId: string, perTeam: int,
                           teamId: string, teamName: nat -> string)
    requires DistinctTeamIds(qs.queue)
    requires RemoveForMove(qs, playerId, fromId, fromId == toId).Some?
    ensures var rm := RemoveForMove(qs, playerId, fromId, fromId == toId).value;
      exists side :: multiset(Everyone(PlaceForMove(qs, rm, playerId, toId, perTeam, teamId, teamName))) ==
        multiset(Everyone(rm.rest)) + multiset{Pin(rm.player, side)}
    ensures var rm := RemoveForMove(qs, playerId, fromId, fromId == toId).value;
      multiset(Everyone(PlaceForMove(qs, rm, playerId, toId, perTeam, teamId, teamName))) ==
        multiset(Everyone(rm.rest)) + multiset{Pin(rm.player, MoveSide(qs, rm.rest, toId, perTeam, teamId))}
  {
    var rm := RemoveForMove(qs, playerId, fromId, fromId == toId).value;
    PlaceForMoveSide(qs, rm, playerId, fromId, toId, perTeam, teamId, teamName);
  }

  /** `PlaceForMoveEffect` for a given removal, naming the side. */
  lemma PlaceForMoveSide(qs: QueueState, rm: Removed, playerId: string, fromId: string, toId: string, perTeam: int,
                         teamId: string, teamName: nat -> string)
    requires DistinctTeamIds(qs.queue)
    requires RemoveForMove(qs, playerId, fromId, fromId == toId) == Some(rm)
    ensures multiset(Everyone(PlaceForMove(qs, rm, playerId, toId, perTeam, teamId, teamName))) ==
      multiset(Everyone(rm.rest)) + multiset{Pin(rm.player, MoveSide(qs, rm.rest, toId, perTeam, teamId))}
  {
    var s := rm.rest;
    var a, b, q := s.courtA.players, s.courtB.players, AllPlayers(s.queue);
    if toId == "A" {
      AppendOne(a, b, q, Pin(rm.player, "A"));
    } else if toId == "B" {
      AppendOne(a, b, q, Pin(rm.player, "B"));
    } else {
      match MoveTarget(qs, toId)
      case Some(j) =>
        PlaceInTeam(qs, playerId, fromId, toId, j, Pin(rm.player, toId));
      case None =>
        var side := JoinSide(s.queue, perTeam, teamId);
        AppendOne(a, b, q, Pin(rm.player, side));
    }
  }

  /**
   * The side a moved player is pinned to: the court or queue team it was dropped on, or else the
   * queue team it joins at the back of the queue.
   */
  function MoveSide(qs: QueueState, rest: QueueState, toId: string, perTeam: int, teamId: string): string
  {
    if toId == "A" || toId == "B" || MoveTarget(qs, toId).Some? then toId else JoinSide(rest.queue, perTeam, teamId)
  }

  /**
   * With distinct player ids and distinct queue team ids, a move either changes nothing or moves
   * exactly one player, the one asked for, changing at most its pin: nobody is lost or copied.
   */
  lemma MoveConserves(qs: QueueState, playerId: string, fromId: string, toId: string, courtLimit: int, perTeam: int,
                      teamId: string, teamName: nat -> string)
    requires DistinctIds(Everyone(qs)) && DistinctTeamIds(qs.queue)
    ensures var r := MovePlayer(qs, playerId, fromId, toId, courtLimit, perTeam, teamId, teamName);
      r == qs ||
      exists p, side :: p in Everyone(qs) && p.id == playerId &&
        multiset(Everyone(r)) + multiset{p} == multiset(Everyone(qs)) + multiset{Pin(p, side)}
    ensures var r := MovePlayer(qs, playerId, fromId, toId, courtLimit, perTeam, teamId, teamName);
      var rm := RemoveForMove(qs, playerId, fromId, fromId == toId);
      !TargetFull(qs, toId, courtLimit) && rm.Some? ==>
        rm.value.player in Everyone(qs) && rm.value.player.id == playerId &&
        multiset(Everyone(r)) + multiset{rm.value.player} ==
          multiset(Everyone(qs)) + multiset{Pin(rm.value.player, MoveSide(qs, rm.value.rest, toId, perTeam, teamId))}
  {
    if !TargetFull(qs, toId, courtLimit) && RemoveForMove(qs, playerId, fromId, fromId == toId).Some? {
      var rm := RemoveForMove(qs, playerId, fromId, fromId == toId).value;
      MovedOnce(qs, rm, playerId, fromId, toId, courtLimit, perTeam, teamId, teamName);
      var side := MoveSide(qs, rm.rest, toId, perTeam, teamId);
      assert rm.player in Everyone(qs) && rm.player.id == playerId;
    }
  }

  /** The accepted case of `MoveConserves`, for a given removal. */
  lemma MovedOnce(qs: QueueState, rm: Removed, playerId: string, fromId: string, toId: string, courtLimit: int,
                  perTeam: int, teamId: string, teamName: nat -> string)
    requires DistinctIds(Everyone(qs)) && DistinctTeamIds(qs.queue)
    requires !TargetFull(qs, toId, courtLimit) && RemoveForMove(qs, playerId, fromId, fromId == toId) == Some(rm)
    ensures rm.player in Everyone(qs) && rm.player.id == playerId
    ensures multiset(Everyone(MovePlayer(qs, playerId, fromId, toId, courtLimit, perTeam, teamId, teamName))) +
      multiset{rm.player} == multiset(Everyone(qs)) + multiset{Pin(rm.player, MoveSide(qs, rm.rest, toId, perTeam, teamId))}
  {
    RemoveForMoveEffect(qs, playerId, fromId, fromId == toId);
    PlaceForMoveSide(qs, rm, playerId, fromId, toId, perTeam, teamId, teamName);
    assert MovePlayer(qs, playerId, fromId, toId, courtLimit, perTeam, teamId, teamName) ==
      PlaceForMove(qs, rm, playerId, toId, perTeam, teamId, teamName);
  }

  /** With distinct ids, a move never changes how many players there are. */
  lemma MoveKeepsCount(qs: QueueState, playerId: string, fromId: string, toId: string, courtLimit: int, perTeam: int,
                       teamId: string, teamName: nat -> string)
    requires DistinctIds(Everyone(qs)) && DistinctTeamIds(qs.queue)
    ensures |Everyone(MovePlayer(qs, playerId, fromId, toId, courtLimit, perTeam, teamId, teamName))| == |Everyone(qs)|
  {
    var r := MovePlayer(qs, playerId, fromId, toId, courtLimit, perTeam, teamId, teamName);
    MoveConserves(qs, playerId, fromId, toId, courtLimit, perTeam, teamId, teamName);
    if r != qs {
      var p, side :| multiset(Everyone(r)) + multiset{p} == multiset(Everyone(qs)) + multiset{Pin(p, side)};
      assert |multiset(Everyone(r)) + multiset{p}| == |multiset(Everyone(qs)) + multiset{Pin(p, side)}|;
    }
  }

  /** `queue.map(t => t.id === teamId ? team : t)` replaces exactly the teams with id `teamId`. */
  lemma {:induction false} ReplaceTeamsAt(ts: seq<Team>, teamId: string, team: Team)
    ensures forall k :: 0 <= k < |ts| ==>
      ReplaceTeams(ts, teamId, team)[k] == (if ts[k].id == teamId then team else ts[k])
  {
    if ts != [] {
      ReplaceTeamsAt(ts[1..], teamId, team);
      var r := ReplaceTeams(ts, teamId, team);
      forall k | 1 <= k < |ts| ensures r[k] == (if ts[k].id == teamId then team else ts[k]) {
        assert ts[k] == ts[1..][k - 1];
      }
    }
  }

  /**
   * Where an accepted move puts the player. With distinct queue team ids, when the target has
   * room and the player was taken out of `fromId`, it lands last on court A or B, last in the
   * target queue team, or at the back of the queue; every other container is as the removal left
   * it.
   */
  lemma MoveLands(qs: QueueState, playerId: string, fromId: string, toId: string, courtLimit: int, perTeam: int,
                  teamId: string, teamName: nat -> string)
    requires DistinctTeamIds(qs.queue)
    requires !TargetFull(qs, toId, courtLimit) && RemoveForMove(qs, playerId, fromId, fromId == toId).Some?
    ensures var rm := RemoveForMove(qs, playerId, fromId, fromId == toId).value;
      rm.player.id == playerId &&
      (fromId == "A" ==> FindPlayer(qs.courtA.players, playerId) == Some(rm.player) && !rm.player.isFixed) &&
      (fromId == "B" ==> FindPlayer(qs.courtB.players, playerId) == Some(rm.player) && !rm.player.isFixed)
    ensures var rm := RemoveForMove(qs, playerId, fromId, fromId == toId).value;
      var s := rm.rest;
      var r := MovePlayer(qs, playerId, fromId, toId, courtLimit, perTeam, teamId, teamName);
      toId == "A" ==>
        r.courtA == s.courtA.(players := s.courtA.players + [Pin(rm.player, "A")]) &&
        r.courtB == s.courtB && r.queue == s.queue
    ensures var rm := RemoveForMove(qs, playerId, fromId, fromId == toId).value;
      var s := rm.rest;
      var r := MovePlayer(qs, playerId, fromId, toId, courtLimit, perTeam, teamId, teamName);
      toId == "B" ==>
        r.courtB == s.courtB.(players := s.courtB.players + [Pin(rm.player, "B")]) &&
        r.courtA == s.courtA && r.queue == s.queue
    ensures var rm := RemoveForMove(qs, playerId, fromId, fromId == toId).value;
      var s := rm.rest;
      var r := MovePlayer(qs, playerId, fromId, toId, courtLimit, perTeam, teamId, teamName);
      MoveTarget(qs, toId).Some? ==>
        r.courtA == s.courtA && r.courtB == s.courtB && |r.queue| == |s.queue| &&
        (forall k :: 0 <= k < |s.queue| && s.queue[k].id != toId ==> r.queue[k] == s.queue[k]) &&
        exists k :: 0 <= k < |s.queue| && s.queue[k].id == toId && r.queue[k].id == toId &&
          r.queue[k].players == s.queue[k].players + [Pin(rm.player, toId)]
    ensures var rm := RemoveForMove(qs, playerId, fromId, fromId == toId).value;
      var s := rm.rest;
      var r := MovePlayer(qs, playerId, fromId, toId, courtLimit, perTeam, teamId, teamName);
      toId != "A" && toId != "B" && MoveTarget(qs, toId).None? ==>
        r.courtA == s.courtA && r.courtB == s.courtB &&
        r.queue == JoinQueue(s.queue, Pin(rm.player, JoinSide(s.queue, perTeam, teamId)), perTeam, teamId, teamName)
  {
    TakenPlayer(qs, playerId, fromId, fromId == toId);
    LandsOnCourt(qs, playerId, fromId, toId, courtLimit, perTeam, teamId, teamName);
    if MoveTarget(qs, toId).Some? {
      LandsInTeam(qs, playerId, fromId, toId, courtLimit, perTeam, teamId, teamName);
    }
    LandsAtBack(qs, playerId, fromId, toId, courtLimit, perTeam, teamId, teamName);
  }

  /** The player a move takes is the one asked for, and a court gives up only a player not fixed. */
  lemma TakenPlayer(qs: QueueState, playerId: string, fromId: string, keepEmpty: bool)
    requires RemoveForMove(qs, playerId, fromId, keepEmpty).Some?
    ensures var rm := RemoveForMove(qs, playerId, fromId, keepEmpty).value;
      rm.player.id == playerId &&
      (fromId == "A" ==> FindPlayer(qs.courtA.players, playerId) == Some(rm.player) && !rm.player.isFixed) &&
      (fromId == "B" ==> FindPlayer(qs.courtB.players, playerId) == Some(rm.player) && !rm.player.isFixed)
  {
    if fromId != "A" && fromId != "B" {
      TakeFromQueueSome(qs.queue, playerId, fromId, keepEmpty);
    }
  }

  /** The court cases of `MoveLands`: the player goes last on the court, nothing else changes. */
  lemma LandsOnCourt(qs: QueueState, playerId: string, fromId: string, toId: string, courtLimit: int, perTeam: int,
                     teamId: string, teamName: nat -> string)
    requires !TargetFull(qs, toId, courtLimit) && RemoveForMove(qs, playerId, fromId, fromId == toId).Some?
    ensures var rm := RemoveForMove(qs, playerId, fromId, fromId == toId).value;
      var s := rm.rest;
      var r := MovePlayer(qs, playerId, fromId, toId, courtLimit, perTeam, teamId, teamName);
      toId == "A" ==>
        r.courtA == s.courtA.(players := s.courtA.players + [Pin(rm.player, "A")]) &&
        r.courtB == s.courtB && r.queue == s.queue
    ensures var rm := RemoveForMove(qs, playerId, fromId, fromId == toId).value;
      var s := rm.rest;
      var r := MovePlayer(qs, playerId, fromId, toId, courtLimit, perTeam, teamId, teamName);
      toId == "B" ==>
        r.courtB == s.courtB.(players := s.courtB.players + [Pin(rm.player, "B")]) &&
        r.courtA == s.courtA && r.queue == s.queue
  {
  }

  /** The queue case of `MoveLands`: the player joins the back of the queue, the courts stay. */
  lemma LandsAtBack(qs: QueueState, playerId: string, fromId: string, toId: string, courtLimit: int, perTeam: int,
                    teamId: string, teamName: nat -> string)
    requires !TargetFull(qs, toId, courtLimit) && RemoveForMove(qs, playerId, fromId, fromId == toId).Some?
    ensures var rm := RemoveForMove(qs, playerId, fromId, fromId == toId).value;
      var s := rm.rest;
      var r := MovePlayer(qs, playerId, fromId, toId, courtLimit, perTeam, teamId, teamName);
      toId != "A" && toId != "B" && MoveTarget(qs, toId).None? ==>
        r.courtA == s.courtA && r.courtB == s.courtB &&
        r.queue == JoinQueue(s.queue, Pin(rm.player, JoinSide(s.queue, perTeam, teamId)), perTeam, teamId, teamName)
  {
  }

  /** The queue team case of `MoveLands`: the surviving target team gains the player last. */
  lemma LandsInTeam(qs: QueueState, playerId: string, fromId: string, toId: string, courtLimit: int, perTeam: int,
                    teamId: string, teamName: nat -> string)
    requires DistinctTeamIds(qs.queue) && MoveTarget(qs, toId).Some?
    requires !TargetFull(qs, toId, courtLimit) && RemoveForMove(qs, playerId, fromId, fromId == toId).Some?
    ensures var rm := RemoveForMove(qs, playerId, fromId, fromId == toId).value;
      var s := rm.rest;
      var r := MovePlayer(qs, playerId, fromId, toId, courtLimit, perTeam, teamId, teamName);
      r.courtA == s.courtA && r.courtB == s.courtB && |r.queue| == |s.queue| &&
      (forall k :: 0 <= k < |s.queue| && s.queue[k].id != toId ==> r.queue[k] == s.queue[k]) &&
      exists k :: 0 <= k < |s.queue| && s.queue[k].id == toId && r.queue[k].id == toId &&
        r.queue[k].players == s.queue[k].players + [Pin(rm.player, toId)]
  {
    var rm := RemoveForMove(qs, playerId, fromId, fromId == toId).value;
    var s := rm.rest;
    var j := MoveTarget(qs, toId).value;
    var t := qs.queue[j];
    var current := if rm.fromIndex == Some(j) then DropIds(t.players, {playerId}) else t.players;
    var team := t.(players := current + [Pin(rm.player, toId)]);
    var r := MovePlayer(qs, playerId, fromId, toId, courtLimit, perTeam, teamId, teamName);
    assert r == s.(queue := ReplaceTeams(s.queue, toId, team));
    TargetSurvives(qs, playerId, fromId, toId);
    ReplaceTeamsAt(s.queue, toId, team);
    var k :| 0 <= k < |s.queue| && s.queue[k].id == toId && s.queue[k].players == current;
    assert r.queue[k] == team;
  }

  /**
   * The converse of `MoveRefusals`: a move that leaves the state as it was was refused, found no
   * player to take, or is one of the moves that may put the player back where it stood: onto its
   * own container, or from a queue team to the back of the queue.
   */
  lemma MoveUnchangedOnlyIf(qs: QueueState, playerId: string, fromId: string, toId: string, courtLimit: int,
                            perTeam: int, teamId: string, teamName: nat -> string)
    requires DistinctTeamIds(qs.queue)
    ensures MovePlayer(qs, playerId, fromId, toId, courtLimit, perTeam, teamId, teamName) == qs ==>
      TargetFull(qs, toId, courtLimit) || RemoveForMove(qs, playerId, fromId, fromId == toId).None? ||
      fromId == toId ||
      (fromId != "A" && fromId != "B" && toId != "A" && toId != "B" && MoveTarget(qs, toId).None?)
  {
    if !TargetFull(qs, toId, courtLimit) && RemoveForMove(qs, playerId, fromId, fromId == toId).Some? && fromId != toId {
      if toId == "A" || toId == "B" {
        MovedOntoCourt(qs, playerId, fromId, toId, courtLimit, perTeam, teamId, teamName);
      } else if fromId == "A" || fromId == "B" {
        MovedOffCourt(qs, playerId, fromId, toId, courtLimit, perTeam, teamId, teamName);
      } else if MoveTarget(qs, toId).Some? {
        MovedBetweenTeams(qs, playerId, fromId, toId, courtLimit, perTeam, teamId, teamName);
      }
    }
  }

  /** A move onto a court from elsewhere makes the two courts one player longer together. */
  lemma MovedOntoCourt(qs: QueueState, playerId: string, fromId: string, toId: string, courtLimit: int,
                       perTeam: int, teamId: string, teamName: nat -> string)
    requires DistinctTeamIds(qs.queue) && (toId == "A" || toId == "B") && fromId != toId
    requires !TargetFull(qs, toId, courtLimit) && RemoveForMove(qs, playerId, fromId, fromId == toId).Some?
    ensures MovePlayer(qs, playerId, fromId, toId, courtLimit, perTeam, teamId, teamName) != qs
  {
    var r := MovePlayer(qs, playerId, fromId, toId, courtLimit, perTeam, teamId, teamName);
    MoveLands(qs, playerId, fromId, toId, courtLimit, perTeam, teamId, teamName);
    var s := RemoveForMove(qs, playerId, fromId, fromId == toId).value.rest;
    assert |r.courtA.players| + |r.courtB.players| == |s.courtA.players| + |s.courtB.players| + 1;
    assert |s.courtA.players| + |s.courtB.players| <= |qs.courtA.players| + |qs.courtB.players|;
  }

  /** A move off a court to a queue team or the queue makes that court one player shorter. */
  lemma MovedOffCourt(qs: QueueState, playerId: string, fromId: string, toId: string, courtLimit: int,
                      perTeam: int, teamId: string, teamName: nat -> string)
    requires DistinctTeamIds(qs.queue) && (fromId == "A" || fromId == "B") && toId != "A" && toId != "B"
    requires !TargetFull(qs, toId, courtLimit) && RemoveForMove(qs, playerId, fromId, fromId == toId).Some?
    ensures MovePlayer(qs, playerId, fromId, toId, courtLimit, perTeam, teamId, teamName) != qs
  {
    var r := MovePlayer(qs, playerId, fromId, toId, courtLimit, perTeam, teamId, teamName);
    MoveLands(qs, playerId, fromId, toId, courtLimit, perTeam, teamId, teamName);
    if fromId == "A" {
      DropShrinks(qs.courtA.players, playerId);
      assert |r.courtA.players| < |qs.courtA.players|;
    } else {
      DropShrinks(qs.courtB.players, playerId);
      assert |r.courtB.players| < |qs.courtB.players|;
    }
  }

  /** A move from one queue team onto another makes the target team one player longer. */
  lemma MovedBetweenTeams(qs: QueueState, playerId: string, fromId: string, toId: string, courtLimit: int,
                          perTeam: int, teamId: string, teamName: nat -> string)
    requires DistinctTeamIds(qs.queue) && MoveTarget(qs, toId).Some? && fromId != toId
    requires fromId != "A" && fromId != "B"
    requires !TargetFull(qs, toId, courtLimit) && RemoveForMove(qs, playerId, fromId, fromId == toId).Some?
    ensures MovePlayer(qs, playerId, fromId, toId, courtLimit, perTeam, teamId, teamName) != qs
  {
    var r := MovePlayer(qs, playerId, fromId, toId, courtLimit, perTeam, teamId, teamName);
    var j := MoveTarget(qs, toId).value;
    var tk := TakeFromQueue(qs.queue, playerId, fromId, false).value;
    TakeFromQueueSome(qs.queue, playerId, fromId, false);
    var rm := RemoveForMove(qs, playerId, fromId, false).value;
    assert rm == Removed(tk.player, qs.(queue := tk.queue), Some(tk.index));
    assert qs.queue[tk.index].id == fromId && qs.queue[j].id == toId;
    assert rm.fromIndex != Some(j);
    TargetSurvives(qs, playerId, fromId, toId);
    var k0 :| 0 <= k0 < |rm.rest.queue| && rm.rest.queue[k0].id == toId && rm.rest.queue[k0].players == qs.queue[j].players;
    LandsInTeam(qs, playerId, fromId, toId, courtLimit, perTeam, teamId, teamName);
    var k :| 0 <= k < |rm.rest.queue| && rm.rest.queue[k].id == toId && r.queue[k].id == toId &&
      r.queue[k].players == rm.rest.queue[k].players + [Pin(rm.player, toId)];
    assert k == k0;
    if |r.queue| == |qs.queue| {
      if k == j {
        assert |r.queue[k].players| != |qs.queue[k].players|;
      } else {
        assert r.queue[k].id != qs.queue[k].id;
      }
    }
  }

  /** A player found and free to move, whose move still leaves the state as it was. */
  function InPlaceQueue(): QueueState
  {
    InitialQueueState.(courtA := InitialQueueState.courtA.(players := [SoloPlayer()]))
  }

  /**
   * Dragging the last player of court A onto court A is accepted (the court has room and the
   * player is not fixed) and changes nothing: an accepted move need not change the state.
   */
  lemma MoveInPlace(teamId: string, teamName: nat -> string)
    ensures !TargetFull(InPlaceQueue(), "A", 6)
    ensures RemoveForMove(InPlaceQueue(), "p", "A", true).Some?
    ensures MovePlayer(InPlaceQueue(), "p", "A", "A", 6, 6, teamId, teamName) == InPlaceQueue()
  {
    var qs := InPlaceQueue();
    var p := SoloPlayer();
    assert qs.courtA.players[0].id == "p";
    assert DropIds(qs.courtA.players, {"p"}) == [];
    var rm := Removed(p, qs.(courtA := qs.courtA.(players := [])), None);
    assert RemoveForMove(qs, "p", "A", true) == Some(rm);
    assert Pin(p, "A") == p;
    assert [] + [p] == qs.courtA.players;
  }
}
