/**
 * Pinning players to their side (`togglePlayerFixed`) and the king-of-the-court rotation
 * (`getRotationPreview`, `rotateTeams`) of `hooks/usePlayerQueue.ts`.
 */
module QueueRotation {
  import opened Types
  import opened PlayerQueue

  // ---------------------------------------------------------------------------------------------
  // togglePlayerFixed

  /** A player's pin agrees with `side`: a fixed player names it, a free one names nothing. */
  predicate PinnedTo(p: Player, side: string)
  {
    p.fixedSide == if p.isFixed then Some(side) else None
  }

  predicate AllPinnedTo(ps: seq<Player>, side: string)
  {
    forall i :: 0 <= i < |ps| ==> PinnedTo(ps[i], side)
  }

  /** Every player's pin agrees with where it stands: "A", "B" or the id of its queue team. */
  predicate Pinned(qs: QueueState)
  {
    AllPinnedTo(qs.courtA.players, "A") && AllPinnedTo(qs.courtB.players, "B") && TeamsPinned(qs.queue)
  }

  predicate TeamsPinned(ts: seq<Team>)
  {
    forall i :: 0 <= i < |ts| ==> AllPinnedTo(ts[i].players, ts[i].id)
  }

  /** The `toggle` helper: flip `isFixed`, pin to `side` when now fixed, unpin otherwise. */
  function Toggle(p: Player, side: string): (r: Player)
    ensures r.isFixed == !p.isFixed && PinnedTo(r, side)
    ensures r.(isFixed := p.isFixed, fixedSide := p.fixedSide) == p
  {
    p.(isFixed := !p.isFixed, fixedSide := if !p.isFixed then Some(side) else None)
  }

  /** Toggling a player whose pin agrees with `side` twice gives the player back. */
  lemma ToggleTwice(p: Player, side: string)
    requires PinnedTo(p, side)
    ensures Toggle(Toggle(p, side), side) == p
  {
  }

  /** `players.map(p => p.id === playerId ? toggle(p, side) : p)`. */
  function ToggleIn(ps: seq<Player>, playerId: string, side: string): (r: seq<Player>)
    ensures |r| == |ps|
    ensures forall i :: 0 <= i < |ps| ==>
      r[i].id == ps[i].id && r[i].name == ps[i].name && (r[i].isFixed != ps[i].isFixed <==> ps[i].id == playerId)
  {
    if ps == [] then [] else [if ps[0].id == playerId then Toggle(ps[0], side) else ps[0]] + ToggleIn(ps[1..], playerId, side)
  }

  lemma {:induction false} ToggleInTwice(ps: seq<Player>, playerId: string, side: string)
    requires AllPinnedTo(ps, side)
    ensures AllPinnedTo(ToggleIn(ps, playerId, side), side)
    ensures ToggleIn(ToggleIn(ps, playerId, side), playerId, side) == ps
  {
    if ps != [] {
      assert AllPinnedTo(ps[1..], side) by {
        forall i | 0 <= i < |ps[1..]| ensures PinnedTo(ps[1..][i], side) {
          assert ps[1..][i] == ps[i + 1];
        }
      }
      ToggleInTwice(ps[1..], playerId, side);
      var r := ToggleIn(ps, playerId, side);
      assert r[1..] == ToggleIn(ps[1..], playerId, side);
      assert PinnedTo(ps[0], side);
      forall i | 1 <= i < |r| ensures PinnedTo(r[i], side) {
        assert r[i] == r[1..][i - 1];
      }
    }
  }

  /** The queue branch: every queue team toggles the player, pinning it to that team. */
  function ToggleInTeams(ts: seq<Team>, playerId: string): (r: seq<Team>)
    ensures |r| == |ts|
    ensures forall i :: 0 <= i < |ts| ==>
      r[i].id == ts[i].id && r[i].name == ts[i].name && |r[i].players| == |ts[i].players|
  {
    if ts == [] then []
    else [ts[0].(players := ToggleIn(ts[0].players, playerId, ts[0].id))] + ToggleInTeams(ts[1..], playerId)
  }

  lemma {:induction false} ToggleInTeamsTwice(ts: seq<Team>, playerId: string)
    requires TeamsPinned(ts)
    ensures TeamsPinned(ToggleInTeams(ts, playerId))
    ensures ToggleInTeams(ToggleInTeams(ts, playerId), playerId) == ts
  {
    if ts != [] {
      PinnedTail(ts);
      ToggleInTeamsTwice(ts[1..], playerId);
      ToggleInTwice(ts[0].players, playerId, ts[0].id);
      var t0 := ts[0].(players := ToggleIn(ts[0].players, playerId, ts[0].id));
      var rest := ToggleInTeams(ts[1..], playerId);
      assert ToggleInTeams(ts, playerId) == [t0] + rest;
      PinnedCons(t0, rest);
      assert ([t0] + rest)[1..] == rest;
      assert ToggleInTeams([t0] + rest, playerId) == [ts[0]] + ts[1..];
    }
  }

  lemma PinnedTail(ts: seq<Team>)
    requires ts != [] && TeamsPinned(ts)
    ensures TeamsPinned(ts[1..])
  {
    forall i | 0 <= i < |ts[1..]| ensures AllPinnedTo(ts[1..][i].players, ts[1..][i].id) {
      assert ts[1..][i] == ts[i + 1];
    }
  }

  lemma PinnedCons(t: Team, rest: seq<Team>)
    requires AllPinnedTo(t.players, t.id) && TeamsPinned(rest)
    ensures TeamsPinned([t] + rest)
  {
    forall i | 0 <= i < |[t] + rest| ensures AllPinnedTo(([t] + rest)[i].players, ([t] + rest)[i].id) {
      if i > 0 {
        assert ([t] + rest)[i] == rest[i - 1];
      }
    }
  }

  /**
   * `togglePlayerFixed`: the first of court A, court B and the queue that holds the player toggles
   * it (the queue toggles it in every team). The optional team argument of the source is unused.
   */
  function TogglePlayerFixed(qs: QueueState, playerId: string): QueueState
  {
    if HasPlayer(qs.courtA.players, playerId) then
      qs.(courtA := qs.courtA.(players := ToggleIn(qs.courtA.players, playerId, "A")))
    else if HasPlayer(qs.courtB.players, playerId) then
      qs.(courtB := qs.courtB.(players := ToggleIn(qs.courtB.players, playerId, "B")))
    else
      qs.(queue := ToggleInTeams(qs.queue, playerId))
  }

  /** Two lists with the same ids, position by position, hold the same ids. */
  lemma SameIdsHas(ps: seq<Player>, rs: seq<Player>, playerId: string)
    requires |ps| == |rs| && forall i :: 0 <= i < |ps| ==> ps[i].id == rs[i].id
    ensures HasPlayer(ps, playerId) <==> HasPlayer(rs, playerId)
  {
    if HasPlayer(ps, playerId) {
      var i :| 0 <= i < |ps| && ps[i].id == playerId;
      assert rs[i].id == playerId;
    }
    if HasPlayer(rs, playerId) {
      var i :| 0 <= i < |rs| && rs[i].id == playerId;
      assert ps[i].id == playerId;
    }
  }

  /**
   * When every pin agrees with where its player stands, toggling keeps it so, and toggling the
   * same player again restores the state.
   */
  lemma TogglePlayerFixedTwice(qs: QueueState, playerId: string)
    requires Pinned(qs)
    ensures Pinned(TogglePlayerFixed(qs, playerId))
    ensures TogglePlayerFixed(TogglePlayerFixed(qs, playerId), playerId) == qs
  {
    var a, b := qs.courtA.players, qs.courtB.players;
    ToggleInTwice(a, playerId, "A");
    ToggleInTwice(b, playerId, "B");
    ToggleInTeamsTwice(qs.queue, playerId);
    SameIdsHas(a, ToggleIn(a, playerId, "A"), playerId);
    SameIdsHas(b, ToggleIn(b, playerId, "B"), playerId);
  }

  // ---------------------------------------------------------------------------------------------
  // getRotationPreview / rotateTeams

  /** The court that did not win. */
  function Loser(qs: QueueState, winner: TeamId): Team
  {
    if winner == A then qs.courtB else qs.courtA
  }

  /** The players of the second queue team, the one players are taken from first. */
  function DonorPlayers(qs: QueueState): seq<Player>
  {
    if |qs.queue| > 1 then qs.queue[1].players else []
  }

  /** How many players the first queue team lacks to fill a court. */
  function Needed(qs: QueueState, courtLimit: int): int
    requires qs.queue != []
  {
    courtLimit - |qs.queue[0].players|
  }

  /** The unfixed players taken from the donor team: as many as are needed and available. */
  function FromDonor(qs: QueueState, courtLimit: int): (r: seq<Player>)
    requires qs.queue != []
  {
    var needed := Needed(qs, courtLimit);
    if needed > 0 && |qs.queue| > 1 then Take(Unfixed(qs.queue[1].players), needed) else []
  }

  /** The unfixed players taken from the losing court when the donor team did not suffice. */
  function FromLoser(qs: QueueState, winner: TeamId, courtLimit: int): (r: seq<Player>)
    requires qs.queue != []
  {
    var stillNeeded := Needed(qs, courtLimit) - |FromDonor(qs, courtLimit)|;
    if stillNeeded > 0 then Take(Unfixed(Loser(qs, winner).players), stillNeeded) else []
  }

  /** The queue once the first team has left and the donor team has given up its players. */
  function Waiting(qs: QueueState, courtLimit: int): seq<Team>
    requires qs.queue != []
  {
    var donated := FromDonor(qs, courtLimit);
    if donated != [] then
      [qs.queue[1].(players := DropIds(qs.queue[1].players, IdSet(donated)))] + qs.queue[2..]
    else qs.queue[1..]
  }

  /**
   * `getRotationPreview`: the first queue team comes in, filled up to `courtLimit` with unfixed
   * players of the second queue team and then of the losing court; the rest of the losing court
   * joins the back of the queue as a new team (id `newId(0)`, the loser's name, sanitised); empty
   * teams leave the queue. No preview without a waiting team.
   */
  function RotationPreview(qs: QueueState, winner: TeamId, courtLimit: int, newId: nat -> string): (r: Option<RotationReport>)
    ensures r.None? <==> qs.queue == []
    ensures r.Some? ==> r.value.outgoingTeam == Loser(qs, winner) && r.value.retainedPlayers == []
    ensures r.Some? ==> r.value.incomingTeam.id == qs.queue[0].id && r.value.incomingTeam.name == qs.queue[0].name
    ensures r.Some? ==> r.value.incomingTeam.players == qs.queue[0].players + r.value.stolenPlayers
    ensures r.Some? ==> forall i :: 0 <= i < |r.value.stolenPlayers| ==> !r.value.stolenPlayers[i].isFixed
    ensures r.Some? ==> forall i :: 0 <= i < |r.value.queueAfterRotation| ==> |r.value.queueAfterRotation[i].players| > 0
  {
    if qs.queue == [] then None
    else
      var loser := Loser(qs, winner);
      var next := qs.queue[0];
      var stolen := FromDonor(qs, courtLimit) + FromLoser(qs, winner, courtLimit);
      var going := DropIds(loser.players, IdSet(stolen));
      var queueAfter := NonEmptyTeams(
        if going != [] then Waiting(qs, courtLimit) + [CreateTeam(newId(0), loser.name, going)] else Waiting(qs, courtLimit));
      Some(RotationReport(loser, Team(next.id, next.name, "", next.players + stolen), [], stolen, queueAfter, None))
  }

  /**
   * The incoming team is filled as far as the unfixed players of the donor team and of the losing
   * court allow, and never beyond `courtLimit`; a team that is already full takes no one.
   */
  lemma PreviewFills(qs: QueueState, winner: TeamId, courtLimit: int, newId: nat -> string)
    requires qs.queue != []
    ensures var n := |qs.queue[0].players|;
      var available := |Unfixed(DonorPlayers(qs))| + |Unfixed(Loser(qs, winner).players)|;
      |RotationPreview(qs, winner, courtLimit, newId).value.stolenPlayers| ==
        if n < courtLimit then Min(courtLimit - n, available) else 0
  {
    var fd := FromDonor(qs, courtLimit);
    var fl := FromLoser(qs, winner, courtLimit);
    FromDonorSize(qs, courtLimit);
    FromLoserSize(qs, winner, courtLimit);
    var r := RotationPreview(qs, winner, courtLimit, newId);
    assert r.value.stolenPlayers == fd + fl;
    StealCount(|qs.queue[0].players|, courtLimit, |Unfixed(DonorPlayers(qs))|,
      |Unfixed(Loser(qs, winner).players)|, |fd|, |fl|);
  }

  lemma FromDonorSize(qs: QueueState, courtLimit: int)
    requires qs.queue != []
    ensures var needed := Needed(qs, courtLimit);
      |FromDonor(qs, courtLimit)| == if needed > 0 then Min(needed, |Unfixed(DonorPlayers(qs))|) else 0
  {
  }

  lemma FromLoserSize(qs: QueueState, winner: TeamId, courtLimit: int)
    requires qs.queue != []
    ensures var stillNeeded := Needed(qs, courtLimit) - |FromDonor(qs, courtLimit)|;
      |FromLoser(qs, winner, courtLimit)| ==
        if stillNeeded > 0 then Min(stillNeeded, |Unfixed(Loser(qs, winner).players)|) else 0
  {
  }

  /** Taking from the donor first and then from the loser takes as many as are needed and available. */
  lemma StealCount(n: int, courtLimit: int, d: int, l: int, fd: int, fl: int)
    requires d >= 0 && l >= 0
    requires fd == if courtLimit - n > 0 then Min(courtLimit - n, d) else 0
    requires fl == if courtLimit - n - fd > 0 then Min(courtLimit - n - fd, l) else 0
    ensures fd + fl == if n < courtLimit then Min(courtLimit - n, d + l) else 0
  {
  }

  /** With distinct ids, each part of a concatenation has distinct ids, and no id is in both. */
  lemma DistinctParts(s: seq<Player>, t: seq<Player>)
    requires DistinctIds(s + t)
    ensures DistinctIds(s) && DistinctIds(t) && IdSet(s) !! IdSet(t)
  {
    forall i, j | 0 <= i < j < |s| ensures s[i].id != s[j].id {
      assert (s + t)[i] == s[i] && (s + t)[j] == s[j];
    }
    forall i, j | 0 <= i < j < |t| ensures t[i].id != t[j].id {
      assert (s + t)[|s| + i] == t[i] && (s + t)[|s| + j] == t[j];
    }
    forall x | x in IdSet(s) ensures x !in IdSet(t) {
      IdSetMember(s, x);
      IdSetMember(t, x);
      var i :| 0 <= i < |s| && s[i].id == x;
      forall j | 0 <= j < |t| ensures t[j].id != x {
        assert (s + t)[i] == s[i] && (s + t)[|s| + j] == t[j];
      }
    }
  }

  lemma {:induction false} IdSetAppend(s: seq<Player>, t: seq<Player>)
    ensures IdSet(s + t) == IdSet(s) + IdSet(t)
  {
    if s == [] {
      assert s + t == t;
    } else {
      assert (s + t)[1..] == s[1..] + t;
      IdSetAppend(s[1..], t);
    }
  }

  /** The players taken from a list are players of that list. */
  lemma IdSetTaken(ps: seq<Player>, n: int)
    ensures IdSet(Take(Unfixed(ps), n)) <= IdSet(ps)
  {
    var taken := Take(Unfixed(ps), n);
    forall x | x in IdSet(taken) ensures x in IdSet(ps) {
      IdSetMember(taken, x);
      var i :| 0 <= i < |taken| && taken[i].id == x;
      assert taken[i] in Unfixed(ps);
      UnfixedMembers(ps);
      assert taken[i] in ps;
      var j :| 0 <= j < |ps| && ps[j] == taken[i];
      IdSetMember(ps, x);
    }
  }

  /** Ids that no player of the list carries change nothing in what is dropped. */
  lemma {:induction false} DropDisjoint(ps: seq<Player>, ids: set<string>, extra: set<string>)
    requires IdSet(ps) !! extra
    ensures DropIds(ps, ids + extra) == DropIds(ps, ids)
  {
    if ps != [] {
      DropDisjoint(ps[1..], ids, extra);
    }
  }

  /** Taking `n` unfixed players and dropping their ids splits the list. */
  lemma TakeSplit(ps: seq<Player>, n: int)
    requires DistinctIds(ps)
    ensures multiset(Take(Unfixed(ps), n)) + multiset(DropIds(ps, IdSet(Take(Unfixed(ps), n)))) == multiset(ps)
  {
    StealSplit(ps, Min(Max(0, n), |Unfixed(ps)|));
  }

  /** The players of the queue after the first team: all in `Waiting`, or taken from the donor. */
  lemma DonorPart(qs: QueueState, courtLimit: int)
    requires qs.queue != [] && DistinctIds(AllPlayers(qs.queue))
    ensures multiset(FromDonor(qs, courtLimit)) + multiset(AllPlayers(Waiting(qs, courtLimit))) ==
      multiset(AllPlayers(qs.queue[1..]))
  {
    var fd := FromDonor(qs, courtLimit);
    if fd != [] {
      var q := qs.queue;
      var d := q[1].players;
      assert AllPlayers(q[1..]) == d + AllPlayers(q[2..]) by {
        assert q[1..][1..] == q[2..];
      }
      DistinctParts(q[0].players, AllPlayers(q[1..]));
      DistinctParts(d, AllPlayers(q[2..]));
      TakeSplit(d, Needed(qs, courtLimit));
      var w := Waiting(qs, courtLimit);
      assert AllPlayers(w) == DropIds(d, IdSet(fd)) + AllPlayers(q[2..]) by {
        assert w[1..] == q[2..];
      }
    } else {
      assert multiset(fd) == multiset{};
    }
  }

  /** The ids of the donor's players are ids of the queue. */
  lemma DonorIds(qs: QueueState)
    requires qs.queue != []
    ensures IdSet(DonorPlayers(qs)) <= IdSet(AllPlayers(qs.queue))
  {
    var q := qs.queue;
    IdSetAppend(q[0].players, AllPlayers(q[1..]));
    if |q| > 1 {
      assert AllPlayers(q[1..]) == q[1].players + AllPlayers(q[2..]) by {
        assert q[1..][1..] == q[2..];
      }
      IdSetAppend(q[1].players, AllPlayers(q[2..]));
    }
  }

  /** The losing court's players are either taken into the incoming team or go to the queue. */
  lemma LoserPart(qs: QueueState, winner: TeamId, courtLimit: int)
    requires qs.queue != []
    requires DistinctIds(Loser(qs, winner).players) && IdSet(Loser(qs, winner).players) !! IdSet(AllPlayers(qs.queue))
    ensures var stolen := FromDonor(qs, courtLimit) + FromLoser(qs, winner, courtLimit);
      multiset(FromLoser(qs, winner, courtLimit)) + multiset(DropIds(Loser(qs, winner).players, IdSet(stolen))) ==
      multiset(Loser(qs, winner).players)
  {
    var l := Loser(qs, winner).players;
    var fd := FromDonor(qs, courtLimit);
    var fl := FromLoser(qs, winner, courtLimit);
    IdSetAppend(fd, fl);
    DonorIds(qs);
    if fd != [] {
      IdSetTaken(DonorPlayers(qs), Needed(qs, courtLimit));
    }
    assert IdSet(l) !! IdSet(fd);
    DropDisjoint(l, IdSet(fl), IdSet(fd));
    assert IdSet(fd + fl) == IdSet(fl) + IdSet(fd);
    var stillNeeded := Needed(qs, courtLimit) - |fd|;
    if stillNeeded > 0 {
      TakeSplit(l, stillNeeded);
    } else {
      DropNoIds(l, {});
      assert IdSet(fl) == {};
    }
  }

  /** The queue after the rotation holds the waiting players and the losing court's leftovers. */
  lemma QueueAfterPlayers(qs: QueueState, winner: TeamId, courtLimit: int, newId: nat -> string)
    requires qs.queue != []
    ensures var stolen := FromDonor(qs, courtLimit) + FromLoser(qs, winner, courtLimit);
      AllPlayers(RotationPreview(qs, winner, courtLimit, newId).value.queueAfterRotation) ==
      AllPlayers(Waiting(qs, courtLimit)) + DropIds(Loser(qs, winner).players, IdSet(stolen))
  {
    var loser := Loser(qs, winner);
    var stolen := FromDonor(qs, courtLimit) + FromLoser(qs, winner, courtLimit);
    var going := DropIds(loser.players, IdSet(stolen));
    var w := Waiting(qs, courtLimit);
    if going != [] {
      var t := CreateTeam(newId(0), loser.name, going);
      AllPlayersAppend(w, [t]);
      assert AllPlayers([t]) == going + AllPlayers([]);
    } else {
      assert AllPlayers(w) + going == AllPlayers(w);
    }
  }

  /**
   * Nobody is lost or duplicated: the incoming team and the queue after the rotation hold
   * exactly the players of the queue and of the losing court, provided their ids are distinct.
   */
  lemma PreviewConserves(qs: QueueState, winner: TeamId, courtLimit: int, newId: nat -> string)
    requires qs.queue != []
    requires DistinctIds(Loser(qs, winner).players) && DistinctIds(AllPlayers(qs.queue))
    requires IdSet(Loser(qs, winner).players) !! IdSet(AllPlayers(qs.queue))
    ensures var rep := RotationPreview(qs, winner, courtLimit, newId).value;
      multiset(rep.incomingTeam.players) + multiset(AllPlayers(rep.queueAfterRotation)) ==
      multiset(AllPlayers(qs.queue)) + multiset(Loser(qs, winner).players)
  {
    var fd := FromDonor(qs, courtLimit);
    var fl := FromLoser(qs, winner, courtLimit);
    var l := Loser(qs, winner).players;
    var g := DropIds(l, IdSet(fd + fl));
    var w := AllPlayers(Waiting(qs, courtLimit));
    var rep := RotationPreview(qs, winner, courtLimit, newId).value;
    DonorPart(qs, courtLimit);
    LoserPart(qs, winner, courtLimit);
    QueueAfterPlayers(qs, winner, courtLimit, newId);
    assert AllPlayers(qs.queue) == qs.queue[0].players + AllPlayers(qs.queue[1..]);
    assert rep.incomingTeam.players == qs.queue[0].players + (fd + fl);
    assert AllPlayers(rep.queueAfterRotation) == w + g;
    RegroupParts(qs.queue[0].players, fd, fl, w, g, AllPlayers(qs.queue[1..]), l);
  }

  /** Players split two ways and regrouped are the same players. */
  lemma RegroupParts(q0: seq<Player>, fd: seq<Player>, fl: seq<Player>, w: seq<Player>, g: seq<Player>,
                     q1: seq<Player>, l: seq<Player>)
    requires multiset(fd) + multiset(w) == multiset(q1)
    requires multiset(fl) + multiset(g) == multiset(l)
    ensures multiset(q0 + (fd + fl)) + multiset(w + g) == multiset(q0 + q1) + multiset(l)
  {
  }

  /**
   * `rotateTeams`: with a preview, the incoming team takes the losing court, the winner stays,
   * the queue becomes the preview's and the report is kept; without one nothing changes.
   */
  function RotateState(qs: QueueState, winner: TeamId, courtLimit: int, newId: nat -> string): QueueState
  {
    match RotationPreview(qs, winner, courtLimit, newId)
    case None => qs
    case Some(rep) =>
      if winner == A then QueueState(qs.courtA, rep.incomingTeam, rep.queueAfterRotation, Some(rep))
      else QueueState(rep.incomingTeam, qs.courtB, rep.queueAfterRotation, Some(rep))
  }

  /**
   * A rotation keeps the winning court as it is and, when ids are distinct, keeps every player:
   * the players on court and in the queue are the same before and after, as a multiset.
   */
  lemma RotateConserves(qs: QueueState, winner: TeamId, courtLimit: int, newId: nat -> string)
    requires DistinctIds(Everyone(qs))
    ensures var r := RotateState(qs, winner, courtLimit, newId);
      (winner == A ==> r.courtA == qs.courtA) && (winner == B ==> r.courtB == qs.courtB) &&
      (qs.queue == [] ==> r == qs) &&
      multiset(Everyone(r)) == multiset(Everyone(qs))
  {
    if qs.queue != [] {
      var a, b, q := qs.courtA.players, qs.courtB.players, AllPlayers(qs.queue);
      assert DistinctIds(Loser(qs, winner).players) && DistinctIds(q) &&
        IdSet(Loser(qs, winner).players) !! IdSet(q) by {
        DistinctParts(a + b, q);
        DistinctParts(a, b);
        IdSetAppend(a, b);
      }
      PreviewConserves(qs, winner, courtLimit, newId);
      var rep := RotationPreview(qs, winner, courtLimit, newId).value;
      ReplaceLoser(a, b, q, rep.incomingTeam.players, AllPlayers(rep.queueAfterRotation), winner);
    }
  }

  /** Replacing the losing court and the queue by parts holding the same players keeps everyone. */
  lemma ReplaceLoser(a: seq<Player>, b: seq<Player>, q: seq<Player>, incoming: seq<Player>, after: seq<Player>, winner: TeamId)
    requires multiset(incoming) + multiset(after) == multiset(q) + multiset(if winner == A then b else a)
    ensures winner == A ==> multiset(a + incoming + after) == multiset(a + b + q)
    ensures winner == B ==> multiset(incoming + b + after) == multiset(a + b + q)
  {
    assert multiset(a + b + q) == multiset(a) + multiset(b) + multiset(q);
    var mi, mf := multiset(incoming), multiset(after);
    if winner == A {
      assert multiset(a + incoming + after) == multiset(a) + (mi + mf);
    } else {
      assert multiset(incoming + b + after) == (mi + mf) + multiset(b);
    }
  }
}
