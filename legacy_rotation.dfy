/**
 * The rotation half of the older `src/utils/balanceUtils.ts`: the two-argument
 * `getStandardRotationResult` and the older `getBalancedRotationResult`. Both copy the queue,
 * append the whole loser (fixed players included) under a fresh id `newId(0)`, let the head of
 * that queue come in, and fill it up to the court limit `limit` with unfixed players of the
 * teams behind it, the loser included.
 *
 * The older standard fill takes, one player at a time, the last unfixed player of the first team
 * that has one. It is proved to give exactly the newer `getStandardRotationResult`
 * (`BalanceRotation.StandardRotation`), which works donor by donor. The older balanced fill is
 * the same loop as the newer one, `BalancedRotation.Fill`.
 */
module LegacyRotation {
  import opened Types
  import opened PlayerQueue
  import opened Balance
  import opened BalanceRotation
  import opened BalancedRotation

  // ---------------------------------------------------------------------------------------------
  // The standard fill, one player at a time

  /** Every player of `ps` is fixed. */
  predicate NoUnfixed(ps: seq<Player>)
  {
    forall i :: 0 <= i < |ps| ==> ps[i].isFixed
  }

  /** `i` is the position of the last unfixed player of `ps`. */
  predicate LastUnfixedAt(ps: seq<Player>, i: int)
  {
    0 <= i < |ps| && !ps[i].isFixed && forall j :: i < j < |ps| ==> ps[j].isFixed
  }

  /** A donor with no unfixed player gives nobody. */
  lemma {:induction false} StealEndNoUnfixed(ps: seq<Player>, need: int)
    requires NoUnfixed(ps)
    ensures StealEnd(ps, need) == ([], ps)
    decreases |ps|
  {
    if ps != [] && need > 0 {
      var init := ps[..|ps| - 1];
      StealEndNoUnfixed(init, need);
      assert init + [ps[|ps| - 1]] == ps;
    }
  }

  /** Fixed players at the end of a donor are passed over: they stay at its end. */
  lemma {:induction false} StealEndFixedTail(s: seq<Player>, back: seq<Player>, need: int)
    requires NoUnfixed(back)
    ensures StealEnd(s + back, need) == (StealEnd(s, need).0, StealEnd(s, need).1 + back)
    decreases |back|
  {
    if back == [] {
      assert s + back == s && StealEnd(s, need).1 + back == StealEnd(s, need).1;
    } else if need <= 0 {
      StealEndNone(s, need);
    } else {
      var init := back[..|back| - 1];
      var ps := s + back;
      assert ps[..|ps| - 1] == s + init;
      StealEndFixedTail(s, init, need);
      assert StealEnd(s, need).1 + init + [back[|back| - 1]] == StealEnd(s, need).1 + back;
    }
  }

  /**
   * Taking the last unfixed player of a donor, and then `need - 1` more, is what the donor gives
   * when asked for `need`.
   */
  lemma StealEndAt(ps: seq<Player>, i: nat, need: int)
    requires need > 0 && LastUnfixedAt(ps, i)
    ensures StealEnd(ps, need) ==
      ([ps[i]] + StealEnd(RemoveAt(ps, i), need - 1).0, StealEnd(RemoveAt(ps, i), need - 1).1)
  {
    var front, x, back := ps[..i], ps[i], ps[i + 1..];
    assert ps == (front + [x]) + back;
    StealEndFixedTail(front + [x], back, need);
    var fx := front + [x];
    assert fx[..|fx| - 1] == front;
    assert RemoveAt(ps, i) == front + back;
    StealEndFixedTail(front, back, need - 1);
  }

  /** Donors without unfixed players give nobody. */
  lemma {:induction false} StealAcrossNoUnfixed(ds: seq<Team>, need: int)
    requires forall d :: 0 <= d < |ds| ==> NoUnfixed(ds[d].players)
    ensures StealAcross(ds, need) == ([], ds)
    decreases |ds|
  {
    if ds != [] {
      var d0, tl := ds[0], ds[1..];
      assert forall d :: 0 <= d < |tl| ==> tl[d] == ds[d + 1];
      StealEndNoUnfixed(d0.players, need);
      StealAcrossNoUnfixed(tl, need);
      StealAcrossUnfold(ds, need, ([], d0.players), need, ([], tl));
      assert d0.(players := d0.players) == d0;
      assert [d0] + tl == ds;
      assert StealAcross(ds, need).1 == [d0] + tl;
      assert StealAcross(ds, need).0 == [];
    }
  }

  /** The queue with the player at position `i` of team `t` taken out. */
  function TakeOut(ds: seq<Team>, t: nat, i: nat): (r: seq<Team>)
    requires t < |ds| && i < |ds[t].players|
    ensures |r| == |ds|
  {
    ds[t := ds[t].(players := RemoveAt(ds[t].players, i))]
  }

  /**
   * One step of the older fill: when the teams before `t` have no unfixed player and `i` is the
   * last unfixed player of team `t`, moving it first and asking the rest for one player fewer is
   * what the donor-by-donor steal does.
   */
  lemma {:induction false} StealAcrossAt(ds: seq<Team>, t: nat, i: nat, need: int)
    requires need > 0 && t < |ds| && LastUnfixedAt(ds[t].players, i)
    requires forall d :: 0 <= d < t ==> NoUnfixed(ds[d].players)
    ensures StealAcross(ds, need) ==
      ([ds[t].players[i]] + StealAcross(TakeOut(ds, t, i), need - 1).0, StealAcross(TakeOut(ds, t, i), need - 1).1)
    decreases t
  {
    if t == 0 {
      StealAcrossAtHead(ds, i, need);
    } else {
      StealAcrossAt(ds[1..], t - 1, i, need);
      StealAcrossAtLater(ds, t, i, need);
    }
  }

  /** `StealAcrossAt` when the first donor gives. */
  lemma StealAcrossAtHead(ds: seq<Team>, i: nat, need: int)
    requires need > 0 && 0 < |ds| && LastUnfixedAt(ds[0].players, i)
    ensures StealAcross(ds, need) ==
      ([ds[0].players[i]] + StealAcross(TakeOut(ds, 0, i), need - 1).0, StealAcross(TakeOut(ds, 0, i), need - 1).1)
  {
    var ds2 := TakeOut(ds, 0, i);
    var x := ds[0].players[i];
    var first := StealEnd(ds[0].players, need);
    var a := StealEnd(RemoveAt(ds[0].players, i), need - 1);
    StealEndAt(ds[0].players, i, need);
    assert first == ([x] + a.0, a.1);
    var n := need - |first.0|;
    var rest := StealAcross(ds[1..], n);
    StealAcrossUnfold(ds, need, first, n, rest);
    assert ds2[1..] == ds[1..];
    assert n == need - 1 - |a.0|;
    StealAcrossUnfold(ds2, need - 1, a, n, rest);
    assert ds[0].(players := a.1) == ds2[0].(players := a.1);
    assert [x] + a.0 + rest.0 == [x] + (a.0 + rest.0);
  }

  /** `StealAcrossAt` when a later donor gives: the first, with no unfixed player, is passed over. */
  lemma StealAcrossAtLater(ds: seq<Team>, t: nat, i: nat, need: int)
    requires need > 0 && 0 < t < |ds| && LastUnfixedAt(ds[t].players, i)
    requires NoUnfixed(ds[0].players)
    requires StealAcross(ds[1..], need) ==
      ([ds[t].players[i]] + StealAcross(TakeOut(ds[1..], t - 1, i), need - 1).0, StealAcross(TakeOut(ds[1..], t - 1, i), need - 1).1)
    ensures StealAcross(ds, need) ==
      ([ds[t].players[i]] + StealAcross(TakeOut(ds, t, i), need - 1).0, StealAcross(TakeOut(ds, t, i), need - 1).1)
  {
    var x := ds[t].players[i];
    var ds2 := TakeOut(ds, t, i);
    var tail2 := TakeOut(ds[1..], t - 1, i);
    var first := StealEnd(ds[0].players, need);
    var first2 := StealEnd(ds[0].players, need - 1);
    StealEndNoUnfixed(ds[0].players, need);
    StealEndNoUnfixed(ds[0].players, need - 1);
    assert ds2[1..] == tail2 && ds2[0] == ds[0];
    assert ds[0].(players := ds[0].players) == ds[0];
    var r1 := StealAcross(ds[1..], need);
    var r2 := StealAcross(tail2, need - 1);
    StealAcrossUnfold(ds, need, first, need, r1);
    StealAcrossUnfold(ds2, need - 1, first2, need - 1, r2);
    assert [] + r1.0 == [x] + r2.0 && [] + r2.0 == r2.0;
  }

  /** The backward search of lines 195-202: the last unfixed player of a donor, or -1. */
  method LastUnfixedIndex(ps: seq<Player>) returns (stolenIndex: int)
    ensures stolenIndex == -1 ==> NoUnfixed(ps)
    ensures stolenIndex != -1 ==> LastUnfixedAt(ps, stolenIndex)
  {
    stolenIndex := -1;
    var i := |ps| - 1;
    while i >= 0
      invariant -1 <= i < |ps|
      invariant forall j :: i < j < |ps| ==> ps[j].isFixed
    {
      if !ps[i].isFixed {
        stolenIndex := i;
        return;
      }
      i := i - 1;
    }
  }

  /** The donor loop of lines 191-212: the first team with an unfixed player and that player's position. */
  method FindDonor(queue: seq<Team>) returns (t: int, idx: int)
    ensures t == -1 ==> forall d :: 0 <= d < |queue| ==> NoUnfixed(queue[d].players)
    ensures t != -1 ==> (0 <= t < |queue| && LastUnfixedAt(queue[t].players, idx) &&
      forall d :: 0 <= d < t ==> NoUnfixed(queue[d].players))
  {
    t, idx := -1, -1;
    for d := 0 to |queue|
      invariant forall e :: 0 <= e < d ==> NoUnfixed(queue[e].players)
    {
      if |queue[d].players| > 0 {
        var stolenIndex := LastUnfixedIndex(queue[d].players);
        if stolenIndex != -1 {
          t, idx := d, stolenIndex;
          return;
        }
      }
    }
  }

  /**
   * The older two-argument `getStandardRotationResult` as the code runs it: it gives exactly the
   * newer rotation, so everything proved of `StandardRotation` (filling, conservation, only unfixed
   * players moved, donors emptied in queue order) holds of it.
   */
  method LegacyStandardRotation(loser: Team, queue: seq<Team>, limit: int, newId: nat -> string)
    returns (r: RotationResult)
    ensures r == BalanceRotation.StandardRotation(loser, queue, limit, newId)
  {
    var q := queue + [loser.(id := newId(0))];
    var incomingTeam := q[0];
    q := q[1..];
    var stolenPlayers;
    incomingTeam, q, stolenPlayers := LegacyFill(incomingTeam, q, limit);
    r := RotationResult(incomingTeam, NonEmptyTeams(q), stolenPlayers);
  }

  /**
   * The outer `while (incomingTeam.players.length < limit)` loop of the older rotation: each pass
   * takes the last unfixed player of the first donor that has one, and the loop stops early when
   * no donor has one left.
   */
  method LegacyFill(base: Team, donors: seq<Team>, limit: int) returns (incomingTeam: Team, q: seq<Team>, stolenPlayers: seq<Player>)
    ensures incomingTeam == base.(players := base.players + stolenPlayers)
    ensures (stolenPlayers, q) ==
      if |base.players| < limit then StealAcross(donors, limit - |base.players|) else ([], donors)
  {
    incomingTeam, q, stolenPlayers := base, donors, [];
    ghost var final := StealAcross(donors, limit - |base.players|);
    while |incomingTeam.players| < limit
      invariant incomingTeam == base.(players := base.players + stolenPlayers)
      invariant Owes(q, stolenPlayers, limit - |incomingTeam.players|, final)
      decreases limit - |incomingTeam.players|
    {
      var need := limit - |incomingTeam.players|;
      var t, idx := FindDonor(q);
      if t == -1 {
        StealAcrossNoUnfixed(q, need);
        break;
      }
      var stolen := q[t].players[idx];
      TakeOutStep(q, t, idx, need, stolenPlayers, final);
      q := TakeOut(q, t, idx);
      incomingTeam := incomingTeam.(players := incomingTeam.players + [stolen]);
      stolenPlayers := stolenPlayers + [stolen];
    }
    if |incomingTeam.players| >= limit {
      StealAcrossNone(q, limit - |incomingTeam.players|);
    }
    OwesSettled(q, stolenPlayers, limit - |incomingTeam.players|, final);
    if |base.players| >= limit {
      StealAcrossNone(donors, limit - |base.players|);
    }
  }

  /**
   * What the older fill still owes: the players taken so far followed by what the queue `q` gives
   * for the remaining `need` are the steal the newer rotation makes, and so are the donors left.
   */
  ghost predicate Owes(q: seq<Team>, stolen: seq<Player>, need: int, final: (seq<Player>, seq<Team>))
  {
    stolen + StealAcross(q, need).0 == final.0 && StealAcross(q, need).1 == final.1
  }

  /** Once the queue gives nothing more, what was taken is the whole steal. */
  lemma OwesSettled(q: seq<Team>, stolen: seq<Player>, need: int, final: (seq<Player>, seq<Team>))
    requires Owes(q, stolen, need, final) && StealAcross(q, need) == ([], q)
    ensures stolen == final.0 && q == final.1
  {
    assert stolen + [] == stolen;
  }

  /** One pass of the older fill's outer loop keeps the steal it still owes in step with the newer one. */
  lemma TakeOutStep(q: seq<Team>, t: nat, idx: nat, need: int, stolen: seq<Player>, final: (seq<Player>, seq<Team>))
    requires need > 0 && t < |q| && LastUnfixedAt(q[t].players, idx)
    requires forall d :: 0 <= d < t ==> NoUnfixed(q[d].players)
    requires Owes(q, stolen, need, final)
    ensures Owes(TakeOut(q, t, idx), stolen + [q[t].players[idx]], need - 1, final)
  {
    StealAcrossAt(q, t, idx, need);
    var x, rest := q[t].players[idx], StealAcross(TakeOut(q, t, idx), need - 1).0;
    assert (stolen + [x]) + rest == stolen + ([x] + rest);
  }

  // ---------------------------------------------------------------------------------------------
  // The older balanced rotation

  /**
   * The older `getBalancedRotationResult`: the whole loser joins the back of the queue under a
   * fresh id, the head comes in, and the fill takes, one at a time, the unfixed queue player that
   * brings the incoming team's average closest to the winner's.
   */
  function LegacyBalanced(winner: Team, loser: Team, queue: seq<Team>, limit: nat, newId: nat -> string): (r: RotationResult)
    ensures forall i :: 0 <= i < |r.queue| ==> |r.queue[i].players| > 0
  {
    var q := queue + [loser.(id := newId(0))];
    var filled := BalancedRotation.Fill(q[0].players, q[1..], limit, NumericStrength(winner.players));
    RotationResult(q[0].(players := filled.players), NonEmptyTeams(filled.queue), filled.stolen)
  }

  /** The older `getBalancedRotationResult` as the code runs it. */
  method LegacyBalancedRotation(winner: Team, loser: Team, queue: seq<Team>, limit: nat, newId: nat -> string)
    returns (r: RotationResult)
    ensures r == LegacyBalanced(winner, loser, queue, limit, newId)
  {
    var q := queue + [loser.(id := newId(0))];
    var incomingTeam := q[0];
    q := q[1..];
    var targetAvg := NumericStrength(winner.players);
    var stolenPlayers;
    incomingTeam, q, stolenPlayers := FillGaps(incomingTeam, q, limit, targetAvg);
    r := RotationResult(incomingTeam, NonEmptyTeams(q), stolenPlayers);
  }

  /** Every player of the queue and of the loser is on the incoming team or in the new queue, once. */
  lemma LegacyBalancedConserves(winner: Team, loser: Team, queue: seq<Team>, limit: nat, newId: nat -> string)
    ensures var r := LegacyBalanced(winner, loser, queue, limit, newId);
      multiset(r.incomingTeam.players) + multiset(AllPlayers(r.queue)) ==
        multiset(AllPlayers(queue)) + multiset(loser.players)
  {
    var q := queue + [loser.(id := newId(0))];
    var target := NumericStrength(winner.players);
    var filled := BalancedRotation.Fill(q[0].players, q[1..], limit, target);
    BalancedRotation.FillShape(q[0].players, q[1..], limit, target);
    BalancedRotation.FillConserves(q[0].players, q[1..], limit, target);
    AllPlayersAppend(queue, [loser.(id := newId(0))]);
    assert AllPlayers([loser.(id := newId(0))]) == loser.players + AllPlayers([]);
    AllPlayersCons(q);
    RotationConservesStep(q, filled.stolen, filled.queue, AllPlayers(queue), loser.players);
  }

  /**
   * The incoming team is the head of the queue (the loser, under its fresh id, when the queue is
   * empty) with its own players followed by the players taken, none of them fixed; it reaches
   * `limit` unless the teams behind it, the loser included, run out of unfixed players, and a
   * team already at `limit` takes nobody.
   */
  lemma LegacyBalancedFills(winner: Team, loser: Team, queue: seq<Team>, limit: nat, newId: nat -> string)
    ensures var r := LegacyBalanced(winner, loser, queue, limit, newId);
      var q := queue + [loser.(id := newId(0))];
      var n := |q[0].players|;
      r.incomingTeam == q[0].(players := q[0].players + r.stolenPlayers) &&
      (forall i :: 0 <= i < |r.stolenPlayers| ==> !r.stolenPlayers[i].isFixed) &&
      |r.incomingTeam.players| == (if n >= limit then n else Min(limit, n + |Unfixed(AllPlayers(q[1..]))|))
  {
    var q := queue + [loser.(id := newId(0))];
    var target := NumericStrength(winner.players);
    BalancedRotation.FillShape(q[0].players, q[1..], limit, target);
    BalancedRotation.FillKeepsFixed(q[0].players, q[1..], limit, target);
    BalancedRotation.FillCount(q[0].players, q[1..], limit, target);
  }

  /**
   * The first player taken is a best candidate: no unfixed player of the teams behind the
   * incoming one would leave its average closer to the winner's.
   */
  lemma LegacyBalancedGreedy(winner: Team, loser: Team, queue: seq<Team>, limit: nat, newId: nat -> string)
    ensures var r := LegacyBalanced(winner, loser, queue, limit, newId);
      var q := queue + [loser.(id := newId(0))];
      var g := Goal(TotalSkill(q[0].players), |q[0].players|, NumericStrength(winner.players));
      r.stolenPlayers != [] ==> forall t, p :: IsCandidate(q[1..], t, p) ==>
        Delta(g, r.stolenPlayers[0].skillLevel) <= DeltaAt(q[1..], g, t, p)
  {
    var q := queue + [loser.(id := newId(0))];
    BalancedRotation.FillGreedy(q[0].players, q[1..], limit, NumericStrength(winner.players));
  }
}
