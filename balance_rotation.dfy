/**
 * The rotation half of `utils/balanceUtils.ts`: `getStandardRotationResult` and
 * `getBalancedRotationResult`. Both work on a copy of the queue: the team that comes in is taken
 * from its head and filled up to the court limit `limit` (`PLAYER_LIMIT_ON_COURT`) with players
 * of the queue that are not fixed. `uuidv4` is the fresh-id supply `newId`: id 0 for the team the
 * loser leaves behind in the queue, id 1 for an overflow team, id 2 for the incoming team.
 */
module BalanceRotation {
  import opened Types
  import opened PlayerQueue
  import opened Balance

  /** What a rotation returns: the team that comes in, the queue after it, the players it took. */
  datatype RotationResult = RotationResult(incomingTeam: Team, queue: seq<Team>, stolenPlayers: seq<Player>)

  // ---------------------------------------------------------------------------------------------
  // Fixed and unfixed players of a concatenation

  lemma {:induction false} UnfixedAppend(s: seq<Player>, t: seq<Player>)
    ensures Unfixed(s + t) == Unfixed(s) + Unfixed(t)
  {
    if s == [] {
      assert s + t == t;
    } else {
      assert (s + t)[1..] == s[1..] + t;
      UnfixedAppend(s[1..], t);
    }
  }

  lemma {:induction false} FixedAppend(s: seq<Player>, t: seq<Player>)
    ensures Fixed(s + t) == Fixed(s) + Fixed(t)
  {
    if s == [] {
      assert s + t == t;
    } else {
      assert (s + t)[1..] == s[1..] + t;
      FixedAppend(s[1..], t);
    }
  }

  /** The players of a queue are those of its head followed by those of the rest. */
  lemma AllPlayersCons(ts: seq<Team>)
    requires ts != []
    ensures AllPlayers(ts) == ts[0].players + AllPlayers(ts[1..])
  {
  }

  // ---------------------------------------------------------------------------------------------
  // getStandardRotationResult

  /**
   * One donor of the steal: its unfixed players are candidates from its end backwards, and as
   * many as `need` of them move. The result is the players taken, last first, and the rest.
   */
  function StealEnd(ps: seq<Player>, need: int): (r: (seq<Player>, seq<Player>))
    ensures forall i :: 0 <= i < |r.0| ==> !r.0[i].isFixed
    decreases |ps|
  {
    if ps == [] || need <= 0 then ([], ps)
    else
      var last := ps[|ps| - 1];
      if last.isFixed then
        var r := StealEnd(ps[..|ps| - 1], need);
        (r.0, r.1 + [last])
      else
        var r := StealEnd(ps[..|ps| - 1], need - 1);
        ([last] + r.0, r.1)
  }

  lemma UnfixedSnoc(init: seq<Player>, last: Player)
    ensures Unfixed(init + [last]) == Unfixed(init) + (if last.isFixed then [] else [last])
  {
    UnfixedAppend(init, [last]);
    assert Unfixed([last]) == (if last.isFixed then [] else [last]) + Unfixed([]);
  }

  lemma FixedSnoc(init: seq<Player>, last: Player)
    ensures Fixed(init + [last]) == Fixed(init) + (if last.isFixed then [last] else [])
  {
    FixedAppend(init, [last]);
    assert Fixed([last]) == (if last.isFixed then [last] else []) + Fixed([]);
  }

  /** A donor gives `min(need, #unfixed)` players. */
  lemma {:induction false} StealEndCount(ps: seq<Player>, need: int)
    ensures |StealEnd(ps, need).0| == Min(Max(0, need), |Unfixed(ps)|)
    decreases |ps|
  {
    if ps != [] && need > 0 {
      var init, last := ps[..|ps| - 1], ps[|ps| - 1];
      assert ps == init + [last];
      UnfixedSnoc(init, last);
      if last.isFixed {
        StealEndCount(init, need);
      } else {
        StealEndCount(init, need - 1);
      }
    }
  }

  /** The players given are the donor's last unfixed players, last first. */
  lemma {:induction false} StealEndOrder(ps: seq<Player>, need: int)
    ensures ReverseOf(StealEnd(ps, need).0, Unfixed(ps))
    decreases |ps|
  {
    if ps != [] && need > 0 {
      var init, last := ps[..|ps| - 1], ps[|ps| - 1];
      assert ps == init + [last];
      UnfixedSnoc(init, last);
      if last.isFixed {
        StealEndOrder(init, need);
        OrderFixed(StealEnd(ps, need).0, Unfixed(ps), Unfixed(init));
      } else {
        StealEndOrder(init, need - 1);
        OrderStep(Unfixed(init), last, StealEnd(init, need - 1).0);
      }
    }
  }

  lemma OrderFixed(t: seq<Player>, u: seq<Player>, ui: seq<Player>)
    requires ReverseOf(t, ui) && u == ui + []
    ensures ReverseOf(t, u)
  {
  }

  /** `t` is the last `|t|` elements of `u`, last first. */
  predicate ReverseOf(t: seq<Player>, u: seq<Player>)
  {
    |t| <= |u| && forall i :: 0 <= i < |t| ==> t[i] == u[|u| - 1 - i]
  }

  lemma OrderStep(ui: seq<Player>, last: Player, t: seq<Player>)
    requires ReverseOf(t, ui)
    ensures ReverseOf([last] + t, ui + [last])
  {
    var t2, u := [last] + t, ui + [last];
    forall i | 0 <= i < |t2| ensures t2[i] == u[|u| - 1 - i] {
      if i > 0 {
        assert t2[i] == t[i - 1];
      }
    }
  }

  /** The donor keeps its unfixed players that were not given, in order. */
  lemma {:induction false} StealEndKeeps(ps: seq<Player>, need: int)
    ensures KeepsFront(ps, need)
    decreases |ps|
  {
    StealEndCount(ps, need);
    if ps == [] || need <= 0 {
      var u := Unfixed(ps);
      assert u[..|u| - 0] == u;
    } else if ps[|ps| - 1].isFixed {
      StealEndKeeps(ps[..|ps| - 1], need);
      KeepsPastFixed(ps, need);
    } else {
      StealEndKeeps(ps[..|ps| - 1], need - 1);
      KeepsPastUnfixed(ps, need);
    }
  }

  /** The unfixed players the donor keeps are its unfixed players less the ones given from the end. */
  ghost predicate KeepsFront(ps: seq<Player>, need: int)
  {
    var k, u := StealEnd(ps, need).1, Unfixed(ps);
    var m := |StealEnd(ps, need).0|;
    m <= |u| && Unfixed(k) == u[..|u| - m]
  }

  lemma KeepsPastFixed(ps: seq<Player>, need: int)
    requires ps != [] && need > 0 && ps[|ps| - 1].isFixed
    requires KeepsFront(ps[..|ps| - 1], need)
    ensures KeepsFront(ps, need)
  {
    var init, last := ps[..|ps| - 1], ps[|ps| - 1];
    var t, k := StealEnd(init, need).0, StealEnd(init, need).1;
    assert StealEnd(ps, need) == (t, k + [last]);
    assert ps == init + [last];
    UnfixedSnoc(init, last);
    UnfixedSnoc(k, last);
    KeepsFixedStep(Unfixed(init), Unfixed(k), |t|);
  }

  lemma KeepsPastUnfixed(ps: seq<Player>, need: int)
    requires ps != [] && need > 0 && !ps[|ps| - 1].isFixed
    requires KeepsFront(ps[..|ps| - 1], need - 1)
    ensures KeepsFront(ps, need)
  {
    var init, last := ps[..|ps| - 1], ps[|ps| - 1];
    var t, k := StealEnd(init, need - 1).0, StealEnd(init, need - 1).1;
    assert StealEnd(ps, need) == ([last] + t, k);
    assert ps == init + [last];
    UnfixedSnoc(init, last);
    KeepsUnfixedStep(Unfixed(init), last, |t|);
  }

  /** The donor keeps all its fixed players, in order. */
  lemma {:induction false} StealEndKeepsFixed(ps: seq<Player>, need: int)
    ensures Fixed(StealEnd(ps, need).1) == Fixed(ps)
    decreases |ps|
  {
    if ps != [] && need > 0 {
      var init, last := ps[..|ps| - 1], ps[|ps| - 1];
      assert ps == init + [last];
      FixedSnoc(init, last);
      if last.isFixed {
        StealEndKeepsFixed(init, need);
        var t, k := StealEnd(init, need).0, StealEnd(init, need).1;
        assert StealEnd(ps, need) == (t, k + [last]);
        FixedSnoc(k, last);
      } else {
        StealEndKeepsFixed(init, need - 1);
        var t, k := StealEnd(init, need - 1).0, StealEnd(init, need - 1).1;
        assert StealEnd(ps, need) == ([last] + t, k);
        assert Fixed(init + [last]) == Fixed(init) + [];
      }
    }
  }

  lemma KeepsFixedStep(ui: seq<Player>, uk: seq<Player>, m: nat)
    requires m <= |ui| && uk == ui[..|ui| - m]
    ensures uk + [] == (ui + [])[..|ui + []| - m]
  {
    assert ui + [] == ui && uk + [] == uk;
  }

  lemma KeepsUnfixedStep(ui: seq<Player>, last: Player, m: nat)
    requires m <= |ui|
    ensures (ui + [last])[..|ui + [last]| - (m + 1)] == ui[..|ui| - m]
  {
  }

  /** Nobody is lost: the players given and kept are the donor's players. */
  lemma {:induction false} StealEndConserves(ps: seq<Player>, need: int)
    ensures multiset(StealEnd(ps, need).0) + multiset(StealEnd(ps, need).1) == multiset(ps)
    decreases |ps|
  {
    if ps != [] && need > 0 {
      var init, last := ps[..|ps| - 1], ps[|ps| - 1];
      assert ps == init + [last];
      if last.isFixed {
        StealEndConserves(init, need);
        var t, k := StealEnd(init, need).0, StealEnd(init, need).1;
        assert StealEnd(ps, need) == (t, k + [last]);
        MovedOne(t, k, init, last, false);
      } else {
        StealEndConserves(init, need - 1);
        var t, k := StealEnd(init, need - 1).0, StealEnd(init, need - 1).1;
        assert StealEnd(ps, need) == ([last] + t, k);
        MovedOne(t, k, init, last, true);
      }
    }
  }

  lemma MovedOne(t: seq<Player>, k: seq<Player>, init: seq<Player>, last: Player, given: bool)
    requires multiset(t) + multiset(k) == multiset(init)
    ensures given ==> multiset([last] + t) + multiset(k) == multiset(init + [last])
    ensures !given ==> multiset(t) + multiset(k + [last]) == multiset(init + [last])
  {
    assert multiset(init + [last]) == multiset(init) + multiset{last};
    assert multiset([last] + t) == multiset(t) + multiset{last};
    assert multiset(k + [last]) == multiset(k) + multiset{last};
  }

  /** What a donor gives and keeps, stated over its unfixed players `u` and the `m` it gives. */
  predicate StealsEnd(ps: seq<Player>, need: int, t: seq<Player>, k: seq<Player>)
  {
    var u := Unfixed(ps);
    var m := Min(Max(0, need), |u|);
    |t| == m &&
    (forall i :: 0 <= i < m ==> t[i] == u[|u| - 1 - i]) &&
    Unfixed(k) == u[..|u| - m] && Fixed(k) == Fixed(ps) &&
    multiset(t) + multiset(k) == multiset(ps)
  }

  /**
   * A donor gives the last `min(need, #unfixed)` of its unfixed players, last first, keeps all its
   * fixed players and the remaining unfixed ones in order, and loses nobody else.
   */
  lemma StealEndSplits(ps: seq<Player>, need: int)
    ensures StealsEnd(ps, need, StealEnd(ps, need).0, StealEnd(ps, need).1)
  {
    StealEndCount(ps, need);
    StealEndOrder(ps, need);
    StealEndKeeps(ps, need);
    StealEndKeepsFixed(ps, need);
    StealEndConserves(ps, need);
  }

  /** A donor that is asked for nobody gives nobody. */
  lemma StealEndNone(ps: seq<Player>, need: int)
    requires need <= 0
    ensures StealEnd(ps, need) == ([], ps)
  {
  }

  /**
   * The steal across the donors in queue order: each donor gives from its end what is still
   * needed; the result is the players taken and the donors afterwards.
   */
  function StealAcross(ds: seq<Team>, need: int): (r: (seq<Player>, seq<Team>))
    ensures |r.1| == |ds|
    ensures forall i :: 0 <= i < |r.0| ==> !r.0[i].isFixed
    decreases |ds|
  {
    if ds == [] then ([], [])
    else
      var first := StealEnd(ds[0].players, need);
      var rest := StealAcross(ds[1..], need - |first.0|);
      (first.0 + rest.0, [ds[0].(players := first.1)] + rest.1)
  }

  lemma {:induction false} StealAcrossNone(ds: seq<Team>, need: int)
    requires need <= 0
    ensures StealAcross(ds, need) == ([], ds)
    decreases |ds|
  {
    if ds != [] {
      StealEndNone(ds[0].players, need);
      StealAcrossNone(ds[1..], need);
      var t := StealEnd(ds[0].players, need).0;
      assert |t| == 0;
      assert StealAcross(ds[1..], need - |t|) == ([], ds[1..]);
      assert StealAcross(ds, need).0 == [];
      assert StealAcross(ds, need).1 == [ds[0].(players := ds[0].players)] + ds[1..];
      assert ds[0].(players := ds[0].players) == ds[0];
      assert [ds[0]] + ds[1..] == ds;
    }
  }

  /** A donor with nobody on it gives nobody and stays as it is. */
  lemma StealAcrossSkip(ds: seq<Team>, need: int)
    requires ds != [] && ds[0].players == []
    ensures StealAcross(ds, need).0 == StealAcross(ds[1..], need).0
    ensures StealAcross(ds, need).1 == [ds[0]] + StealAcross(ds[1..], need).1
  {
    assert ds[0].(players := []) == ds[0];
  }

  /** The donors keep their place, id, name, colour and fixed players. */
  lemma {:induction false} StealAcrossShape(ds: seq<Team>, need: int)
    ensures var d := StealAcross(ds, need).1;
      forall i :: 0 <= i < |d| ==> d[i] == ds[i].(players := d[i].players) && Fixed(d[i].players) == Fixed(ds[i].players)
    decreases |ds|
  {
    if ds != [] {
      var t, k := StealEnd(ds[0].players, need).0, StealEnd(ds[0].players, need).1;
      var n := need - |t|;
      StealEndKeepsFixed(ds[0].players, need);
      StealAcrossShape(ds[1..], n);
      var d2 := StealAcross(ds[1..], n).1;
      var d := [ds[0].(players := k)] + d2;
      assert StealAcross(ds, need).1 == d;
      forall i | 0 <= i < |d| ensures d[i] == ds[i].(players := d[i].players) && Fixed(d[i].players) == Fixed(ds[i].players) {
        if i > 0 {
          assert d[i] == d2[i - 1] && ds[i] == ds[1..][i - 1];
        }
      }
    }
  }

  /** Exactly `min(need, #unfixed)` players move. */
  lemma {:induction false} StealAcrossCount(ds: seq<Team>, need: int)
    ensures |StealAcross(ds, need).0| == Min(Max(0, need), |Unfixed(AllPlayers(ds))|)
    decreases |ds|
  {
    if ds != [] {
      var t, k := StealEnd(ds[0].players, need).0, StealEnd(ds[0].players, need).1;
      var n := need - |t|;
      StealEndCount(ds[0].players, need);
      StealAcrossCount(ds[1..], n);
      var t2 := StealAcross(ds[1..], n).0;
      assert StealAcross(ds, need).0 == t + t2;
      AllPlayersCons(ds);
      UnfixedAppend(ds[0].players, AllPlayers(ds[1..]));
      StealCountStep(need, |Unfixed(ds[0].players)|, |Unfixed(AllPlayers(ds[1..]))|, |t|, |t2|);
    }
  }

  lemma StealCountStep(need: int, a: nat, b: nat, t: nat, t2: nat)
    requires t == Min(Max(0, need), a)
    requires t2 == Min(Max(0, need - t), b)
    ensures t + t2 == Min(Max(0, need), a + b)
  {
  }

  /** `StealAcross` unfolded once, with the head donor's share and the rest named. */
  lemma StealAcrossUnfold(ds: seq<Team>, need: int, first: (seq<Player>, seq<Player>), n: int, rest: (seq<Player>, seq<Team>))
    requires ds != []
    requires first == StealEnd(ds[0].players, need)
    requires n == need - |first.0|
    requires rest == StealAcross(ds[1..], n)
    ensures StealAcross(ds, need) == (first.0 + rest.0, [ds[0].(players := first.1)] + rest.1)
  {
  }

  /** Nobody is lost: the players taken and those left in the donors are the donors' players. */
  lemma {:induction false} StealAcrossConserves(ds: seq<Team>, need: int)
    ensures multiset(StealAcross(ds, need).0) + multiset(AllPlayers(StealAcross(ds, need).1)) == multiset(AllPlayers(ds))
    decreases |ds|
  {
    if ds != [] {
      var first := StealEnd(ds[0].players, need);
      var n := need - |first.0|;
      var rest := StealAcross(ds[1..], n);
      StealEndConserves(ds[0].players, need);
      StealAcrossConserves(ds[1..], n);
      ConservesCons(ds, first.0, first.1, rest.0, rest.1);
      StealAcrossUnfold(ds, need, first, n, rest);
    }
  }

  lemma ConservesCons(ds: seq<Team>, t: seq<Player>, k: seq<Player>, t2: seq<Player>, d2: seq<Team>)
    requires ds != []
    requires multiset(t) + multiset(k) == multiset(ds[0].players)
    requires multiset(t2) + multiset(AllPlayers(d2)) == multiset(AllPlayers(ds[1..]))
    ensures multiset(t + t2) + multiset(AllPlayers([ds[0].(players := k)] + d2)) == multiset(AllPlayers(ds))
  {
    var d := [ds[0].(players := k)] + d2;
    AllPlayersCons(ds);
    AllPlayersCons(d);
    assert d[1..] == d2;
    ConservesStep(t, k, t2, AllPlayers(d2), ds[0].players, AllPlayers(ds[1..]));
  }

  lemma ConservesStep(t: seq<Player>, k: seq<Player>, t2: seq<Player>, d2: seq<Player>, p0: seq<Player>, rest: seq<Player>)
    requires multiset(t) + multiset(k) == multiset(p0)
    requires multiset(t2) + multiset(d2) == multiset(rest)
    ensures multiset(t + t2) + multiset(k + d2) == multiset(p0 + rest)
  {
  }

  /** A donor is touched only once every donor before it has no unfixed player left. */
  lemma {:induction false} StealAcrossInOrder(ds: seq<Team>, need: int)
    ensures var d := StealAcross(ds, need).1;
      forall j :: 0 <= j < |d| && d[j] != ds[j] ==> forall i :: 0 <= i < j ==> Unfixed(d[i].players) == []
    decreases |ds|
  {
    if ds != [] {
      var t, k := StealEnd(ds[0].players, need).0, StealEnd(ds[0].players, need).1;
      var n := need - |t|;
      StealAcrossInOrder(ds[1..], n);
      var d2 := StealAcross(ds[1..], n).1;
      var d := [ds[0].(players := k)] + d2;
      assert StealAcross(ds, need).1 == d;
      forall j, i | 0 <= j < |d| && d[j] != ds[j] && 0 <= i < j ensures Unfixed(d[i].players) == [] {
        assert d[j] == d2[j - 1] && ds[j] == ds[1..][j - 1];
        if i == 0 {
          if Unfixed(k) != [] {
            StealEndCount(ds[0].players, need);
            StealEndKeeps(ds[0].players, need);
            assert n <= 0;
            StealAcrossNone(ds[1..], n);
            assert false;
          }
        } else {
          assert d[i] == d2[i - 1] && d2[j - 1] != ds[1..][j - 1];
          assert Unfixed(d2[i - 1].players) == [];
        }
      }
    }
  }

  /**
   * `getStandardRotationResult`: the loser, all of its players with it, joins the back of the queue
   * under a fresh id; the head of the queue comes in and, when short of `limit`, takes unfixed
   * players from the end of each following team in turn; emptied teams leave the queue. The winner
   * plays no part.
   */
  function StandardRotation(loser: Team, queue: seq<Team>, limit: int, newId: nat -> string): (r: RotationResult)
    ensures forall i :: 0 <= i < |r.queue| ==> |r.queue[i].players| > 0
    ensures forall i :: 0 <= i < |r.stolenPlayers| ==> !r.stolenPlayers[i].isFixed
  {
    var q := queue + [loser.(id := newId(0))];
    var incoming := q[0];
    var steal := if |incoming.players| < limit then StealAcross(q[1..], limit - |incoming.players|) else ([], q[1..]);
    var stolen, donors := steal.0, steal.1;
    RotationResult(incoming.(players := incoming.players + stolen), NonEmptyTeams(donors), stolen)
  }

  /**
   * The incoming team is the head of the queue (the loser, under its fresh id, when the queue is
   * empty) with its own players followed by the stolen ones, and it is filled up to `limit` as
   * far as the unfixed players behind it allow; one already at `limit` takes no one.
   */
  lemma StandardRotationFills(loser: Team, queue: seq<Team>, limit: int, newId: nat -> string)
    ensures var r := StandardRotation(loser, queue, limit, newId);
      var q := queue + [loser.(id := newId(0))];
      var n := |q[0].players|;
      r.incomingTeam == q[0].(players := q[0].players + r.stolenPlayers) &&
      |r.stolenPlayers| == (if n < limit then Min(limit - n, |Unfixed(AllPlayers(q[1..]))|) else 0)
  {
    var q := queue + [loser.(id := newId(0))];
    var n := |q[0].players|;
    if n < limit {
      var need := limit - n;
      StealAcrossCount(q[1..], need);
    }
  }

  /** Every player of the queue and of the loser is on the incoming team or in the new queue, once. */
  lemma StandardRotationConserves(loser: Team, queue: seq<Team>, limit: int, newId: nat -> string)
    ensures var r := StandardRotation(loser, queue, limit, newId);
      multiset(r.incomingTeam.players) + multiset(AllPlayers(r.queue)) ==
        multiset(AllPlayers(queue)) + multiset(loser.players)
  {
    var back := loser.(id := newId(0));
    var q := queue + [back];
    var n := |q[0].players|;
    var steal := if n < limit then StealAcross(q[1..], limit - n) else ([], q[1..]);
    if n < limit {
      var need := limit - n;
      StealAcrossConserves(q[1..], need);
    }
    AllPlayersAppend(queue, [back]);
    assert AllPlayers([back]) == back.players + AllPlayers([]);
    RotationConservesStep(q, steal.0, steal.1, AllPlayers(queue), loser.players);
  }

  lemma RotationConservesStep(q: seq<Team>, stolen: seq<Player>, donors: seq<Team>, front: seq<Player>, back: seq<Player>)
    requires q != []
    requires multiset(stolen) + multiset(AllPlayers(donors)) == multiset(AllPlayers(q[1..]))
    requires AllPlayers(q) == front + back
    ensures multiset(q[0].players + stolen) + multiset(AllPlayers(NonEmptyTeams(donors))) ==
      multiset(front) + multiset(back)
  {
    AllPlayersCons(q);
    var kept := AllPlayers(NonEmptyTeams(donors));
    assert kept == AllPlayers(donors);
    assert multiset(q[0].players + stolen) == multiset(q[0].players) + multiset(stolen);
    assert multiset(AllPlayers(q)) == multiset(q[0].players) + multiset(AllPlayers(q[1..]));
  }

  /** `StealEnd` unfolded at the last player of a prefix: the step the backward loop takes. */
  lemma StealEndSnoc(ps: seq<Player>, i: nat, need: int)
    requires 0 < i <= |ps|
    ensures var x, here, init := ps[i - 1], StealEnd(ps[..i], need), StealEnd(ps[..i - 1], need);
      if need <= 0 then here == ([], ps[..i])
      else if x.isFixed then here == (init.0, init.1 + [x])
      else here == ([x] + StealEnd(ps[..i - 1], need - 1).0, StealEnd(ps[..i - 1], need - 1).1)
  {
    assert ps[..i][..i - 1] == ps[..i - 1];
  }

  /**
   * The inner loops for one donor: candidates are its unfixed players from the end backwards,
   * and each moves while the incoming team still needs players. The source collects the
   * candidates first and moves them afterwards; both visit them in the same backward order and
   * splice at descending positions, so one backward pass does the same.
   */
  method StealFromDonor(ps: seq<Player>, need: int) returns (taken: seq<Player>, kept: seq<Player>)
    ensures (taken, kept) == StealEnd(ps, need)
  {
    taken, kept := [], ps;
    var i := |ps|;
    assert ps[..i] == ps && kept[i..] == [];
    while i > 0
      invariant DonorScan(ps, need, i, taken, kept)
    {
      var x := kept[i - 1];
      if !x.isFixed && |taken| < need {
        DonorScanTake(ps, need, i, taken, kept);
        kept := kept[..i - 1] + kept[i..];
        taken := taken + [x];
      } else {
        DonorScanSkip(ps, need, i, taken, kept);
      }
      i := i - 1;
    }
    DonorScanDone(ps, need, taken, kept);
  }

  /**
   * The backward scan of `StealFromDonor` at position `i`: the first `i` players are untouched,
   * and finishing the steal on them completes both results.
   */
  ghost predicate DonorScan(ps: seq<Player>, need: int, i: int, taken: seq<Player>, kept: seq<Player>)
  {
    0 <= i <= |ps| && i <= |kept| && kept[..i] == ps[..i] &&
    taken + StealEnd(ps[..i], need - |taken|).0 == StealEnd(ps, need).0 &&
    StealEnd(ps[..i], need - |taken|).1 + kept[i..] == StealEnd(ps, need).1
  }

  lemma DonorScanTake(ps: seq<Player>, need: int, i: int, taken: seq<Player>, kept: seq<Player>)
    requires DonorScan(ps, need, i, taken, kept) && i > 0
    requires !kept[i - 1].isFixed && |taken| < need
    ensures DonorScan(ps, need, i - 1, taken + [kept[i - 1]], kept[..i - 1] + kept[i..])
  {
    var x, nd, after := kept[i - 1], need - |taken|, kept[i..];
    assert x == ps[i - 1];
    StealEndSnoc(ps, i, nd);
    var kept2, taken2 := kept[..i - 1] + kept[i..], taken + [x];
    assert kept2[i - 1..] == after && kept2[..i - 1] == ps[..i - 1];
    assert need - |taken2| == nd - 1;
  }

  lemma DonorScanSkip(ps: seq<Player>, need: int, i: int, taken: seq<Player>, kept: seq<Player>)
    requires DonorScan(ps, need, i, taken, kept) && i > 0
    requires kept[i - 1].isFixed || |taken| >= need
    ensures DonorScan(ps, need, i - 1, taken, kept)
  {
    var x, nd := kept[i - 1], need - |taken|;
    assert x == ps[i - 1];
    assert kept[i - 1..] == [x] + kept[i..];
    StealEndSnoc(ps, i, nd);
    if nd <= 0 {
      StealEndNone(ps[..i - 1], nd);
      assert ps[..i] == ps[..i - 1] + [x];
    }
    assert kept[..i - 1] == ps[..i - 1];
  }

  lemma DonorScanDone(ps: seq<Player>, need: int, taken: seq<Player>, kept: seq<Player>)
    requires DonorScan(ps, need, 0, taken, kept)
    ensures (taken, kept) == StealEnd(ps, need)
  {
    assert ps[..0] == [] && kept[0..] == kept;
    assert StealEnd(ps[..0], need - |taken|) == ([], []);
    assert taken + [] == taken && [] + kept == kept;
  }

  /** One donor of the loop in `StealAcrossQueue`: its share joins the players taken so far. */
  lemma QueueStep(ds: seq<Team>, d: nat, left: int, stolen: seq<Player>, donors: seq<Team>,
                  taken: seq<Player>, kept: seq<Player>, n: int, s0: seq<Player>, d0: seq<Team>)
    requires d < |ds| == |donors| && donors[d..] == ds[d..]
    requires n == left - |taken|
    requires stolen + StealAcross(ds[d..], left).0 == s0
    requires donors[..d] + StealAcross(ds[d..], left).1 == d0
    requires (taken, kept) == StealEnd(ds[d].players, left)
    ensures var donors' := donors[d := ds[d].(players := kept)];
      donors'[d + 1..] == ds[d + 1..] &&
      (stolen + taken) + StealAcross(ds[d + 1..], n).0 == s0 &&
      donors'[..d + 1] + StealAcross(ds[d + 1..], n).1 == d0
  {
    var here := ds[d..];
    var rest := StealAcross(ds[d + 1..], n);
    var x := ds[d].(players := kept);
    assert here[0] == ds[d] && here[1..] == ds[d + 1..];
    StealAcrossUnfold(here, left, (taken, kept), n, rest);
    Assoc(stolen, taken, rest.0);
    Assoc(donors[..d], [x], rest.1);
    var donors' := donors[d := x];
    assert donors'[..d + 1] == donors[..d] + [x];
  }

  /** The loop's step over an empty donor, which it leaves as it is. */
  lemma SkipStep(ds: seq<Team>, d: nat, left: int, stolen: seq<Player>, donors: seq<Team>, s0: seq<Player>, d0: seq<Team>)
    requires d < |ds| == |donors| && donors[d..] == ds[d..] && ds[d].players == []
    requires stolen + StealAcross(ds[d..], left).0 == s0
    requires donors[..d] + StealAcross(ds[d..], left).1 == d0
    ensures donors[d + 1..] == ds[d + 1..]
    ensures stolen + StealAcross(ds[d + 1..], left).0 == s0
    ensures donors[..d + 1] + StealAcross(ds[d + 1..], left).1 == d0
  {
    var here := ds[d..];
    assert here[0] == ds[d] && here[1..] == ds[d + 1..];
    StealAcrossSkip(here, left);
    Assoc(donors[..d], [ds[d]], StealAcross(ds[d + 1..], left).1);
    assert donors[..d + 1] == donors[..d] + [ds[d]];
  }

  /** The loop's exit once nobody more is needed: what it has is the whole result. */
  lemma StopStep(ds: seq<Team>, d: nat, left: int, stolen: seq<Player>, donors: seq<Team>, s0: seq<Player>, d0: seq<Team>)
    requires d <= |ds| == |donors| && donors[d..] == ds[d..] && left <= 0
    requires stolen + StealAcross(ds[d..], left).0 == s0
    requires donors[..d] + StealAcross(ds[d..], left).1 == d0
    ensures stolen == s0 && donors == d0
  {
    var tail := ds[d..];
    StealAcrossNone(tail, left);
    var r := StealAcross(tail, left);
    assert r.0 == [] && r.1 == tail;
    assert stolen + r.0 == stolen;
    assert donors[..d] + r.1 == donors[..d] + donors[d..] == donors;
  }

  lemma Assoc<T>(a: seq<T>, b: seq<T>, c: seq<T>)
    ensures a + (b + c) == (a + b) + c
  {
  }

  /** The loop over the donors in queue order, stopping once nobody more is needed. */
  method StealAcrossQueue(ds: seq<Team>, need: int) returns (stolen: seq<Player>, donors: seq<Team>)
    ensures (stolen, donors) == StealAcross(ds, need)
  {
    ghost var s0, d0 := StealAcross(ds, need).0, StealAcross(ds, need).1;
    stolen, donors := [], ds;
    var d := 0;
    ghost var left := need;
    while d < |donors|
      invariant |donors| == |ds| && 0 <= d <= |ds|
      invariant left == need - |stolen|
      invariant donors[d..] == ds[d..]
      invariant stolen + StealAcross(ds[d..], left).0 == s0
      invariant donors[..d] + StealAcross(ds[d..], left).1 == d0
    {
      if |stolen| >= need {
        StopStep(ds, d, left, stolen, donors, s0, d0);
        return;
      }
      var donor := donors[d];
      assert donor == ds[d];
      if |donor.players| == 0 {
        SkipStep(ds, d, left, stolen, donors, s0, d0);
      } else {
        var want := need - |stolen|;
        var taken, kept := StealFromDonor(donor.players, want);
        ghost var n := want - |taken|;
        QueueStep(ds, d, left, stolen, donors, taken, kept, n, s0, d0);
        donors := donors[d := donor.(players := kept)];
        stolen := stolen + taken;
        left := n;
      }
      d := d + 1;
    }
    assert ds[d..] == [] && donors[..d] == donors;
    assert StealAcross(ds[d..], left) == ([], []);
    assert stolen == s0 && donors == d0;
  }

  /** `getStandardRotationResult` as the sequence of steps the code takes on its copy of the queue. */
  method GetStandardRotationResult(winner: Team, loser: Team, queue: seq<Team>, limit: int, newId: nat -> string)
    returns (r: RotationResult)
    ensures r == StandardRotation(loser, queue, limit, newId)
  {
    var q := queue + [loser.(id := newId(0))];
    var incoming := q[0];
    q := q[1..];
    var stolen := [];
    if |incoming.players| < limit {
      stolen, q := StealAcrossQueue(q, limit - |incoming.players|);
      incoming := incoming.(players := incoming.players + stolen);
    }
    r := RotationResult(incoming, NonEmptyTeams(q), stolen);
  }
}
