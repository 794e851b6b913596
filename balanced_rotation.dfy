/**
 * `getBalancedRotationResult` of `utils/balanceUtils.ts`. The loser keeps its fixed players (the
 * anchors) on the court and sends the others to the back of the queue; the head of the queue
 * comes in with the anchors, gives up its surplus over the court limit `limit` to the queue, and
 * is then filled one player at a time with the unfixed queue player that brings its average skill
 * closest to the winner's. `uuidv4` is the fresh-id supply `newId`: id 0 for the loser's leavers,
 * id 1 for an overflow team, id 2 for the incoming team.
 */
module BalancedRotation {
  import opened Types
  import opened PlayerQueue
  import opened Balance
  import opened BalanceRotation

  // ---------------------------------------------------------------------------------------------
  // Fixed and unfixed players

  /** Splitting a team into its fixed and unfixed players loses nobody. */
  lemma {:induction false} FixedUnfixedSplit(s: seq<Player>)
    ensures multiset(Fixed(s)) + multiset(Unfixed(s)) == multiset(s)
  {
    if s != [] {
      var x, t := s[0], s[1..];
      assert s == [x] + t;
      FixedUnfixedSplit(t);
      if x.isFixed {
        assert Fixed(s) == [x] + Fixed(t) && Unfixed(s) == Unfixed(t);
      } else {
        assert Fixed(s) == Fixed(t) && Unfixed(s) == [x] + Unfixed(t);
      }
    }
  }

  /** Every player is either fixed or not. */
  lemma {:induction false} FixedUnfixedCount(s: seq<Player>)
    ensures |Fixed(s)| + |Unfixed(s)| == |s|
  {
    if s != [] {
      FixedUnfixedCount(s[1..]);
    }
  }

  /** A team with no unfixed player is its own list of fixed players. */
  lemma {:induction false} AllFixed(s: seq<Player>)
    requires Unfixed(s) == []
    ensures Fixed(s) == s
  {
    if s != [] {
      assert s == [s[0]] + s[1..];
      AllFixed(s[1..]);
    }
  }

  /** A fixed player stays with the fixed ones, whatever else happens. */
  lemma FixedSub(s: seq<Player>)
    ensures multiset(Fixed(s)) <= multiset(s)
  {
    FixedUnfixedSplit(s);
  }

  /** The list with its `i`-th element taken out (`splice(i, 1)`). */
  function RemoveAt(s: seq<Player>, i: nat): (r: seq<Player>)
    requires i < |s|
    ensures |r| == |s| - 1
  {
    s[..i] + s[i + 1..]
  }

  /** Removing position `i` takes exactly that one player out. */
  lemma RemoveAtMultiset(s: seq<Player>, i: nat)
    requires i < |s|
    ensures multiset(RemoveAt(s, i)) + multiset{s[i]} == multiset(s)
  {
    assert s == s[..i] + [s[i]] + s[i + 1..];
  }

  // ---------------------------------------------------------------------------------------------
  // Overflow

  /** `findIndex(p => !p.isFixed)`: the first unfixed player, -1 when there is none. */
  function FirstUnfixed(ps: seq<Player>): (r: int)
    ensures -1 <= r < |ps|
    ensures r >= 0 ==> !ps[r].isFixed && forall j :: 0 <= j < r ==> ps[j].isFixed
    ensures r == -1 ==> forall j :: 0 <= j < |ps| ==> ps[j].isFixed
  {
    if ps == [] then -1
    else if !ps[0].isFixed then 0
    else
      var k := FirstUnfixed(ps[1..]);
      if k < 0 then -1 else k + 1
  }

  /** The position one ejection takes a player from: the first unfixed one, else the first one. */
  function EjectIndex(ps: seq<Player>): (i: nat)
    requires ps != []
    ensures i < |ps|
  {
    var k := FirstUnfixed(ps);
    if k >= 0 then k else 0
  }

  /** The overflow and the players left after `k` ejections. */
  function Ejected(ps: seq<Player>, k: nat): (r: (seq<Player>, seq<Player>))
    requires k <= |ps|
    ensures |r.0| == k && |r.1| == |ps| - k
  {
    if k == 0 then ([], ps)
    else
      var prev := Ejected(ps, k - 1);
      var i := EjectIndex(prev.1);
      (prev.0 + [prev.1[i]], RemoveAt(prev.1, i))
  }

  /** The overflow loop: players are ejected until at most `limit` are left. */
  function Eject(ps: seq<Player>, limit: nat): (r: (seq<Player>, seq<Player>))
    ensures |r.1| == Min(|ps|, limit)
  {
    if |ps| > limit then Ejected(ps, |ps| - limit) else ([], ps)
  }

  /** Ejecting loses nobody. */
  lemma {:induction false} EjectedConserves(ps: seq<Player>, k: nat)
    requires k <= |ps|
    ensures multiset(Ejected(ps, k).0) + multiset(Ejected(ps, k).1) == multiset(ps)
  {
    if k > 0 {
      EjectedConserves(ps, k - 1);
      var prev := Ejected(ps, k - 1);
      var i := EjectIndex(prev.1);
      RemoveAtMultiset(prev.1, i);
      MoveOne(prev.0, prev.1, prev.1[i], RemoveAt(prev.1, i));
    }
  }

  lemma MoveOne(a: seq<Player>, b: seq<Player>, x: Player, c: seq<Player>)
    requires multiset(c) + multiset{x} == multiset(b)
    ensures multiset(a + [x]) + multiset(c) == multiset(a) + multiset(b)
  {
  }

  /** Taking out the first unfixed player keeps the fixed ones and the other unfixed ones. */
  lemma RemoveFirstUnfixed(s: seq<Player>)
    requires FirstUnfixed(s) >= 0
    ensures var i := FirstUnfixed(s);
      Unfixed(s) != [] && s[i] == Unfixed(s)[0] &&
      Fixed(RemoveAt(s, i)) == Fixed(s) && Unfixed(RemoveAt(s, i)) == Unfixed(s)[1..]
  {
    var i := FirstUnfixed(s);
    var front, x, back := s[..i], s[i], s[i + 1..];
    assert s == front + ([x] + back);
    assert RemoveAt(s, i) == front + back;
    FrontFixed(front);
    SpliceParts(front, x, back);
  }

  lemma SpliceParts(front: seq<Player>, x: Player, back: seq<Player>)
    requires Unfixed(front) == [] && Fixed(front) == front && !x.isFixed
    ensures Unfixed(front + ([x] + back)) == [x] + Unfixed(back)
    ensures Unfixed(front + back) == Unfixed(back)
    ensures Fixed(front + ([x] + back)) == front + Fixed(back)
    ensures Fixed(front + back) == front + Fixed(back)
  {
    var y := [x] + back;
    ConsUnfixed(x, back);
    UnfixedAppend(front, y);
    UnfixedAppend(front, back);
    FixedAppend(front, y);
    FixedAppend(front, back);
  }

  lemma ConsUnfixed(x: Player, back: seq<Player>)
    requires !x.isFixed
    ensures Unfixed([x] + back) == [x] + Unfixed(back) && Fixed([x] + back) == Fixed(back)
  {
    var y := [x] + back;
    assert y[0] == x && y[1..] == back;
  }

  lemma {:induction false} FrontFixed(s: seq<Player>)
    requires forall j :: 0 <= j < |s| ==> s[j].isFixed
    ensures Unfixed(s) == [] && Fixed(s) == s
  {
    if s != [] {
      FrontFixed(s[1..]);
      assert s == [s[0]] + s[1..];
    }
  }

  /**
   * The ejection order: unfixed players go first, in their order on the team, and only once none
   * is left do fixed players go, from the front. While unfixed players last, every fixed player
   * stays.
   */
  lemma {:induction false} EjectedOrder(ps: seq<Player>, k: nat)
    requires k <= |ps|
    ensures EjectedInOrder(ps, k, Ejected(ps, k))
  {
    if k > 0 {
      var j := k - 1;
      EjectedOrder(ps, j);
      FixedUnfixedCount(ps);
      EjectStep(Unfixed(ps), Fixed(ps), j, Ejected(ps, j), k);
    }
  }

  /** What `k` ejections leave, in terms of the unfixed players `u` and fixed players `f`. */
  predicate EjectedAs(u: seq<Player>, f: seq<Player>, k: nat, r: (seq<Player>, seq<Player>))
  {
    (k <= |u| ==> r.0 == u[..k] && Fixed(r.1) == f && Unfixed(r.1) == u[k..]) &&
    (k > |u| ==> k - |u| <= |f| && r.0 == u + f[..k - |u|] && r.1 == f[k - |u|..])
  }

  predicate EjectedInOrder(ps: seq<Player>, k: nat, r: (seq<Player>, seq<Player>))
  {
    EjectedAs(Unfixed(ps), Fixed(ps), k, r)
  }

  /** One more ejection keeps the order: the next unfixed player, or else the next fixed one. */
  lemma EjectStep(u: seq<Player>, f: seq<Player>, j: nat, prev: (seq<Player>, seq<Player>), k: nat)
    requires k == j + 1 <= |u| + |f|
    requires forall x :: 0 <= x < |f| ==> f[x].isFixed
    requires EjectedAs(u, f, j, prev)
    ensures prev.1 != []
    ensures var i := EjectIndex(prev.1);
      EjectedAs(u, f, k, (prev.0 + [prev.1[i]], RemoveAt(prev.1, i)))
  {
    if k <= |u| {
      UnfixedPhaseStep(u, f, j, prev.0, prev.1, k);
    } else {
      FixedPhaseStep(u, f, j, prev.0, prev.1, k);
    }
  }

  /** One ejection while unfixed players are left takes the next of them. */
  lemma UnfixedPhaseStep(u: seq<Player>, f: seq<Player>, j: nat, o: seq<Player>, s: seq<Player>, k: nat)
    requires k == j + 1 <= |u| && o == u[..j] && Fixed(s) == f && Unfixed(s) == u[j..]
    ensures s != []
    ensures var i := EjectIndex(s);
      o + [s[i]] == u[..k] && Fixed(RemoveAt(s, i)) == f && Unfixed(RemoveAt(s, i)) == u[k..]
  {
    EjectsUnfixed(s);
    RemoveFirstUnfixed(s);
    var x := u[j];
    assert u[j..] == [x] + u[k..];
    assert u[..k] == u[..j] + [x];
  }

  /** One ejection once only fixed players are left takes the first of them. */
  lemma FixedPhaseStep(u: seq<Player>, f: seq<Player>, j: nat, o: seq<Player>, s: seq<Player>, k: nat)
    requires k == j + 1 && |u| < k <= |u| + |f|
    requires forall x :: 0 <= x < |f| ==> f[x].isFixed
    requires j == |u| ==> o == u[..j] && Fixed(s) == f && Unfixed(s) == u[j..]
    requires j > |u| ==> o == u + f[..j - |u|] && s == f[j - |u|..]
    ensures s != []
    ensures var i := EjectIndex(s);
      o + [s[i]] == u + f[..k - |u|] && RemoveAt(s, i) == f[k - |u|..]
  {
    var m := j - |u|;
    var rest := f[m..];
    if j == |u| {
      assert u[j..] == [];
      AllFixed(s);
      assert u[..j] == u && f[m..] == f && f[..m] == [];
    }
    assert s == rest && o == u + f[..m];
    EjectsFixed(rest);
    assert f[..m + 1] == f[..m] + [f[m]];
    assert RemoveAt(rest, 0) == f[m + 1..];
    assert k - |u| == m + 1;
  }

  /** While a team still has an unfixed player, `findIndex` finds one. */
  lemma EjectsUnfixed(s: seq<Player>)
    requires Unfixed(s) != []
    ensures FirstUnfixed(s) >= 0
  {
    if FirstUnfixed(s) < 0 {
      FrontFixed(s);
      assert false;
    }
  }

  /** On a team of fixed players only, ejection takes the first one. */
  lemma EjectsFixed(s: seq<Player>)
    requires s != []
    requires forall j :: 0 <= j < |s| ==> s[j].isFixed
    ensures EjectIndex(s) == 0
  {
  }

  /** Ejecting loses nobody: the overflow and the players kept are the players the team had. */
  lemma EjectConserves(ps: seq<Player>, limit: nat)
    ensures multiset(Eject(ps, limit).0) + multiset(Eject(ps, limit).1) == multiset(ps)
  {
    if |ps| > limit {
      var k := |ps| - limit;
      var r := Ejected(ps, k);
      assert Eject(ps, limit) == r;
      EjectedConserves(ps, k);
    }
  }

  /**
   * When the team has at least as many unfixed players as it is over `limit`, only unfixed
   * players are ejected, the first ones on the team, and every fixed player stays.
   */
  lemma EjectKeepsFixed(ps: seq<Player>, limit: nat)
    requires |ps| <= limit + |Unfixed(ps)|
    ensures Fixed(Eject(ps, limit).1) == Fixed(ps)
    ensures |ps| > limit ==> Eject(ps, limit).0 == Unfixed(ps)[..|ps| - limit]
  {
    if |ps| > limit {
      var k := |ps| - limit;
      EjectedOrder(ps, k);
    }
  }

  /** The overflow loop of the source: while the incoming team is over `limit`, eject one player. */
  method EjectOverflow(ps: seq<Player>, limit: nat) returns (kept: seq<Player>, overflow: seq<Player>)
    ensures (overflow, kept) == Eject(ps, limit)
  {
    kept, overflow := ps, [];
    ghost var k: nat := 0;
    while |kept| > limit
      invariant k <= |ps| && |kept| == |ps| - k
      invariant (overflow, kept) == Ejected(ps, k)
      invariant |ps| > limit ==> |kept| >= limit
      invariant |ps| <= limit ==> k == 0
      decreases |kept|
    {
      ghost var prev := (overflow, kept);
      ghost var i := EjectIndex(kept);
      var ejectIdx := FirstUnfixed(kept);
      var ejected;
      if ejectIdx != -1 {
        ejected := kept[ejectIdx];
        kept := RemoveAt(kept, ejectIdx);
      } else {
        ejected := kept[0];
        kept := RemoveAt(kept, 0);
      }
      overflow := overflow + [ejected];
      EjectedNext(ps, k, prev, k + 1);
      k := k + 1;
    }
    if |ps| > limit {
      assert k == |ps| - limit;
    }
  }

  /** `Ejected` one step further, with the previous state named. */
  lemma EjectedNext(ps: seq<Player>, j: nat, prev: (seq<Player>, seq<Player>), k: nat)
    requires k == j + 1 <= |ps| && prev == Ejected(ps, j)
    ensures Ejected(ps, k) == (prev.0 + [prev.1[EjectIndex(prev.1)]], RemoveAt(prev.1, EjectIndex(prev.1)))
  {
  }

  /**
   * Where the overflow goes: onto the last team of the queue, or, with the queue empty, into a new
   * team named "Overflow" (`createTeamContainer` gives it no colour, written "" here).
   */
  function PlaceOverflow(q: seq<Team>, overflow: seq<Player>, newId: nat -> string): (r: seq<Team>)
    ensures AllPlayers(r) == AllPlayers(q) + overflow
    ensures |r| == if overflow != [] && q == [] then 1 else |q|
    ensures forall i :: 0 <= i < |q| - 1 ==> r[i] == q[i]
  {
    if overflow == [] then q
    else if q != [] then
      var last := q[|q| - 1];
      var r := q[..|q| - 1] + [last.(players := last.players + overflow)];
      AllPlayersAppend(q[..|q| - 1], [last]);
      AllPlayersAppend(q[..|q| - 1], [last.(players := last.players + overflow)]);
      assert q == q[..|q| - 1] + [last];
      assert AllPlayers([last]) == last.players + AllPlayers([]);
      assert AllPlayers([last.(players := last.players + overflow)]) == last.players + overflow + AllPlayers([]);
      r
    else
      var t := Team(newId(1), "Overflow", "", overflow);
      assert AllPlayers([t]) == overflow + AllPlayers([]);
      [t]
  }

  // ---------------------------------------------------------------------------------------------
  // Choosing a player to steal

  /** The state of the incoming team a candidate is measured against, and the winner's average. */
  datatype Goal = Goal(sum: int, count: nat, target: real)

  /** `bestCandidate`: where the player is in the queue and how far it leaves the average off. */
  datatype Cand = Cand(team: nat, index: nat, delta: real)

  /** `Math.abs((currentSum + skill) / nextCount - targetAvg)`. */
  function Delta(g: Goal, skill: int): (d: real)
    ensures d >= 0.0
  {
    var avg := (g.sum + skill) as real / (g.count + 1) as real;
    if avg >= g.target then avg - g.target else g.target - avg
  }

  predicate Position(ts: seq<Team>, t: nat, p: nat)
  {
    t < |ts| && p < |ts[t].players|
  }

  /** An unfixed player of the queue: one the scan may choose. */
  predicate IsCandidate(ts: seq<Team>, t: nat, p: nat)
  {
    Position(ts, t, p) && !ts[t].players[p].isFixed
  }

  /** Scan order: team by team, and within a team from the front. */
  predicate Before(t1: nat, p1: nat, t2: nat, p2: nat)
  {
    t1 < t2 || (t1 == t2 && p1 < p2)
  }

  function DeltaAt(ts: seq<Team>, g: Goal, t: nat, p: nat): real
    requires Position(ts, t, p)
  {
    Delta(g, ts[t].players[p].skillLevel)
  }

  /** One position of the scan: an unfixed player with a strictly smaller delta becomes the best. */
  function Visit(ts: seq<Team>, g: Goal, t: nat, p: nat, best: Option<Cand>): Option<Cand>
    requires Position(ts, t, p)
  {
    var player := ts[t].players[p];
    if player.isFixed then best
    else
      var d := Delta(g, player.skillLevel);
      if best.None? || d < best.value.delta then Some(Cand(t, p, d)) else best
  }

  /** The nested scan over the queue from position (`t`, `p`) on, with the best found so far. */
  function ScanFrom(ts: seq<Team>, g: Goal, t: nat, p: nat, best: Option<Cand>): (r: Option<Cand>)
    requires t <= |ts| && (t < |ts| ==> p <= |ts[t].players|)
    requires best.Some? ==> IsCandidate(ts, best.value.team, best.value.index)
    ensures r.Some? ==> IsCandidate(ts, r.value.team, r.value.index)
    decreases |ts| - t, if t < |ts| then |ts[t].players| - p else 0
  {
    if t == |ts| then best
    else if p == |ts[t].players| then ScanFrom(ts, g, t + 1, 0, best)
    else ScanFrom(ts, g, t, p + 1, Visit(ts, g, t, p, best))
  }

  /** The candidate the scan settles on, if the queue has an unfixed player at all. */
  function Best(ts: seq<Team>, g: Goal): (r: Option<Cand>)
    ensures r.Some? ==> IsCandidate(ts, r.value.team, r.value.index)
  {
    ScanFrom(ts, g, 0, 0, None)
  }

  /**
   * What the scan knows on reaching (`t`, `p`): nothing was found exactly when no candidate came
   * before, and otherwise the best is a candidate met before with the smallest delta so far, and
   * every candidate met before it had a strictly larger one.
   */
  ghost predicate BestBefore(ts: seq<Team>, g: Goal, t: nat, p: nat, best: Option<Cand>)
  {
    (best.None? ==> forall t', p' :: IsCandidate(ts, t', p') ==> !Before(t', p', t, p)) &&
    (best.Some? ==>
      var c := best.value;
      IsCandidate(ts, c.team, c.index) && Before(c.team, c.index, t, p) &&
      c.delta == DeltaAt(ts, g, c.team, c.index) &&
      (forall t', p' :: IsCandidate(ts, t', p') && Before(t', p', t, p) ==> c.delta <= DeltaAt(ts, g, t', p')) &&
      (forall t', p' :: IsCandidate(ts, t', p') && Before(t', p', c.team, c.index) ==> c.delta < DeltaAt(ts, g, t', p')))
  }

  /** Visiting one position extends what the scan knows by that position. */
  lemma VisitStep(ts: seq<Team>, g: Goal, t: nat, p: nat, best: Option<Cand>)
    requires Position(ts, t, p) && BestBefore(ts, g, t, p, best)
    ensures BestBefore(ts, g, t, p + 1, Visit(ts, g, t, p, best))
  {
    forall t', p' | IsCandidate(ts, t', p')
      ensures Before(t', p', t, p + 1) <==> Before(t', p', t, p) || (t' == t && p' == p)
    {
    }
    var player := ts[t].players[p];
    if !player.isFixed {
      var d := Delta(g, player.skillLevel);
      assert d == DeltaAt(ts, g, t, p);
    }
  }

  /** Past the end of a team, the scan knows the same as at the start of the next one. */
  lemma NextTeam(ts: seq<Team>, g: Goal, t: nat, best: Option<Cand>)
    requires t < |ts| && BestBefore(ts, g, t, |ts[t].players|, best)
    ensures BestBefore(ts, g, t + 1, 0, best)
  {
    forall t', p' | IsCandidate(ts, t', p')
      ensures Before(t', p', t + 1, 0) <==> Before(t', p', t, |ts[t].players|)
    {
    }
  }

  /** Past the last team every candidate has been met. */
  lemma AtEnd(ts: seq<Team>, g: Goal, p: nat, best: Option<Cand>)
    requires BestBefore(ts, g, |ts|, p, best)
    ensures BestBefore(ts, g, |ts|, 0, best)
  {
    forall t', p' | IsCandidate(ts, t', p')
      ensures Before(t', p', |ts|, 0) && Before(t', p', |ts|, p)
    {
    }
  }

  /** The scan from (`t`, `p`) on ends knowing about the whole queue. */
  lemma {:induction false} ScanFromBest(ts: seq<Team>, g: Goal, t: nat, p: nat, best: Option<Cand>)
    requires t <= |ts| && (t < |ts| ==> p <= |ts[t].players|)
    requires best.Some? ==> IsCandidate(ts, best.value.team, best.value.index)
    requires BestBefore(ts, g, t, p, best)
    ensures BestBefore(ts, g, |ts|, 0, ScanFrom(ts, g, t, p, best))
    decreases |ts| - t, if t < |ts| then |ts[t].players| - p else 0
  {
    if t == |ts| {
      AtEnd(ts, g, p, best);
    } else if p == |ts[t].players| {
      NextTeam(ts, g, t, best);
      ScanFromBest(ts, g, t + 1, 0, best);
    } else {
      VisitStep(ts, g, t, p, best);
      ScanFromBest(ts, g, t, p + 1, Visit(ts, g, t, p, best));
    }
  }

  /**
   * The scan finds nothing exactly when the queue has no unfixed player; otherwise it finds the
   * unfixed player whose arrival leaves the incoming team's average closest to the target, the
   * first one in queue order among equally close ones.
   */
  lemma BestIsFirstMinimum(ts: seq<Team>, g: Goal)
    ensures var r := Best(ts, g);
      (r.None? <==> forall t, p :: !IsCandidate(ts, t, p)) &&
      (r.Some? ==>
        var c := r.value;
        IsCandidate(ts, c.team, c.index) && c.delta == DeltaAt(ts, g, c.team, c.index) &&
        (forall t, p :: IsCandidate(ts, t, p) ==> c.delta <= DeltaAt(ts, g, t, p)) &&
        (forall t, p :: IsCandidate(ts, t, p) && Before(t, p, c.team, c.index) ==> c.delta < DeltaAt(ts, g, t, p)))
  {
    ScanFromBest(ts, g, 0, 0, None);
    forall t, p | IsCandidate(ts, t, p)
      ensures Before(t, p, |ts|, 0)
    {
    }
  }

  /** The nested `tIdx`/`pIdx` loops of the fill step, which skip fixed players. */
  method FindBestCandidate(queue: seq<Team>, g: Goal) returns (best: Option<Cand>)
    ensures best == Best(queue, g)
  {
    best := None;
    var tIdx := 0;
    while tIdx < |queue|
      invariant tIdx <= |queue|
      invariant best.Some? ==> IsCandidate(queue, best.value.team, best.value.index)
      invariant ScanFrom(queue, g, tIdx, 0, best) == Best(queue, g)
    {
      var team := queue[tIdx];
      var pIdx := 0;
      while pIdx < |team.players|
        invariant pIdx <= |team.players|
        invariant best.Some? ==> IsCandidate(queue, best.value.team, best.value.index)
        invariant ScanFrom(queue, g, tIdx, pIdx, best) == Best(queue, g)
      {
        var player := team.players[pIdx];
        if !player.isFixed {
          var delta := Delta(g, player.skillLevel);
          if best.None? || delta < best.value.delta {
            best := Some(Cand(tIdx, pIdx, delta));
          }
        }
        pIdx := pIdx + 1;
      }
      tIdx := tIdx + 1;
    }
  }

  // ---------------------------------------------------------------------------------------------
  // Filling the incoming team

  /** The queue with the player at (`t`, `p`) spliced out of its team. */
  function TakeAt(q: seq<Team>, t: nat, p: nat): (r: seq<Team>)
    requires Position(q, t, p)
    ensures |r| == |q|
  {
    q[t := q[t].(players := RemoveAt(q[t].players, p))]
  }

  /** What the fill loop ends with: the incoming team's players, the queue, the players taken. */
  datatype Filled = Filled(players: seq<Player>, queue: seq<Team>, stolen: seq<Player>)

  /**
   * The fill loop: while the incoming team `inc` is short of `limit`, the best candidate of the
   * queue (measured against the winner's average `target`) moves onto it; it stops early when the
   * queue has no unfixed player left.
   */
  function Fill(inc: seq<Player>, q: seq<Team>, limit: nat, target: real): (r: Filled)
    decreases limit - |inc|
  {
    if |inc| >= limit then Filled(inc, q, [])
    else
      var best := Best(q, Goal(TotalSkill(inc), |inc|, target));
      if best.None? then Filled(inc, q, [])
      else
        var c := best.value;
        var moved := q[c.team].players[c.index];
        var rest := Fill(inc + [moved], TakeAt(q, c.team, c.index), limit, target);
        Filled(rest.players, rest.queue, [moved] + rest.stolen)
  }

  /** `Fill` one step further, with the chosen candidate named. */
  lemma FillNext(inc: seq<Player>, q: seq<Team>, limit: nat, target: real, c: Cand)
    requires |inc| < limit && Best(q, Goal(TotalSkill(inc), |inc|, target)) == Some(c)
    ensures IsCandidate(q, c.team, c.index)
    ensures var moved := q[c.team].players[c.index];
      var rest := Fill(inc + [moved], TakeAt(q, c.team, c.index), limit, target);
      Fill(inc, q, limit, target) == Filled(rest.players, rest.queue, [moved] + rest.stolen)
  {
  }

  /** The fill loop of the source, on the incoming team and its own copy of the queue. */
  method FillGaps(incoming: Team, q: seq<Team>, limit: nat, target: real) returns (team: Team, queue: seq<Team>, stolen: seq<Player>)
    ensures team == incoming.(players := team.players)
    ensures Filled(team.players, queue, stolen) == Fill(incoming.players, q, limit, target)
  {
    ghost var final := Fill(incoming.players, q, limit, target);
    team, queue, stolen := incoming, q, [];
    while |team.players| < limit
      invariant team == incoming.(players := team.players)
      invariant Fill(team.players, queue, limit, target).players == final.players
      invariant Fill(team.players, queue, limit, target).queue == final.queue
      invariant stolen + Fill(team.players, queue, limit, target).stolen == final.stolen
      decreases limit - |team.players|
    {
      var currentSum := TotalSkill(team.players);
      var nextCount := |team.players| + 1;
      var best := FindBestCandidate(queue, Goal(currentSum, nextCount - 1, target));
      if best.None? {
        break;
      }
      var c := best.value;
      FillNext(team.players, queue, limit, target, c);
      var movedPlayer := queue[c.team].players[c.index];
      queue := TakeAt(queue, c.team, c.index);
      team := team.(players := team.players + [movedPlayer]);
      stolen := stolen + [movedPlayer];
    }
  }

  /** The players of a queue around its `t`-th team. */
  lemma AllPlayersAround(q: seq<Team>, t: nat)
    requires t < |q|
    ensures AllPlayers(q) == AllPlayers(q[..t]) + q[t].players + AllPlayers(q[t + 1..])
  {
    var front, tail := q[..t], q[t..];
    assert q == front + tail;
    AllPlayersAppend(front, tail);
    AllPlayersCons(tail);
    assert tail[0] == q[t] && tail[1..] == q[t + 1..];
  }

  /** Taking a player out of a team takes it out of the queue's players, and nobody else. */
  lemma TakeAtPlayers(q: seq<Team>, t: nat, p: nat)
    requires Position(q, t, p)
    ensures multiset(AllPlayers(TakeAt(q, t, p))) + multiset{q[t].players[p]} == multiset(AllPlayers(q))
  {
    var r := TakeAt(q, t, p);
    AllPlayersAround(q, t);
    AllPlayersAround(r, t);
    assert r[..t] == q[..t] && r[t + 1..] == q[t + 1..];
    var ps := q[t].players;
    RemoveAtMultiset(ps, p);
    SpliceOut(AllPlayers(q[..t]), ps, RemoveAt(ps, p), ps[p], AllPlayers(q[t + 1..]));
  }

  lemma SpliceOut(front: seq<Player>, ps: seq<Player>, kept: seq<Player>, x: Player, back: seq<Player>)
    requires multiset(kept) + multiset{x} == multiset(ps)
    ensures multiset(front + kept + back) + multiset{x} == multiset(front + ps + back)
  {
  }

  /** Taking out an unfixed player leaves one unfixed player fewer and the fixed ones as they were. */
  lemma RemoveUnfixed(s: seq<Player>, p: nat)
    requires p < |s| && !s[p].isFixed
    ensures |Unfixed(RemoveAt(s, p))| + 1 == |Unfixed(s)|
    ensures Fixed(RemoveAt(s, p)) == Fixed(s)
  {
    var front, x, back := s[..p], s[p], s[p + 1..];
    assert s == front + ([x] + back);
    assert RemoveAt(s, p) == front + back;
    ConsUnfixed(x, back);
    UnfixedAppend(front, [x] + back);
    UnfixedAppend(front, back);
    FixedAppend(front, [x] + back);
    FixedAppend(front, back);
  }

  /** Taking a candidate out of the queue leaves one unfixed player fewer in it. */
  lemma TakeAtUnfixed(q: seq<Team>, t: nat, p: nat)
    requires IsCandidate(q, t, p)
    ensures |Unfixed(AllPlayers(TakeAt(q, t, p)))| + 1 == |Unfixed(AllPlayers(q))|
    ensures Fixed(TakeAt(q, t, p)[t].players) == Fixed(q[t].players)
  {
    var r := TakeAt(q, t, p);
    var ps := q[t].players;
    AllPlayersAround(q, t);
    AllPlayersAround(r, t);
    assert r[..t] == q[..t] && r[t + 1..] == q[t + 1..];
    RemoveUnfixed(ps, p);
    var a, b := AllPlayers(q[..t]), AllPlayers(q[t + 1..]);
    UnfixedAppend(a + ps, b);
    UnfixedAppend(a, ps);
    UnfixedAppend(a + RemoveAt(ps, p), b);
    UnfixedAppend(a, RemoveAt(ps, p));
  }

  /** A queue without candidates has no unfixed player. */
  lemma {:induction false} NoCandidates(q: seq<Team>)
    requires forall t, p :: !IsCandidate(q, t, p)
    ensures Unfixed(AllPlayers(q)) == []
  {
    if q != [] {
      forall t: nat, p: nat | IsCandidate(q[1..], t, p) ensures false {
        assert IsCandidate(q, t + 1, p);
      }
      NoCandidates(q[1..]);
      forall j | 0 <= j < |q[0].players| ensures q[0].players[j].isFixed {
        assert !IsCandidate(q, 0, j);
      }
      FrontFixed(q[0].players);
      AllPlayersCons(q);
      UnfixedAppend(q[0].players, AllPlayers(q[1..]));
    }
  }

  /** The incoming team keeps its players and gets the stolen ones after them; teams keep their place. */
  lemma {:induction false} FillShape(inc: seq<Player>, q: seq<Team>, limit: nat, target: real)
    ensures var r := Fill(inc, q, limit, target);
      r.players == inc + r.stolen && |r.queue| == |q| &&
      forall i :: 0 <= i < |q| ==> r.queue[i] == q[i].(players := r.queue[i].players)
    decreases limit - |inc|
  {
    if |inc| < limit {
      var best := Best(q, Goal(TotalSkill(inc), |inc|, target));
      if best.Some? {
        var c := best.value;
        FillNext(inc, q, limit, target, c);
        var moved := q[c.team].players[c.index];
        FillShape(inc + [moved], TakeAt(q, c.team, c.index), limit, target);
        var rest := Fill(inc + [moved], TakeAt(q, c.team, c.index), limit, target);
        assert inc + [moved] + rest.stolen == inc + ([moved] + rest.stolen);
      }
    }
  }

  /** Only unfixed players are stolen, and the fixed players of every queue team stay on it. */
  lemma {:induction false} FillKeepsFixed(inc: seq<Player>, q: seq<Team>, limit: nat, target: real)
    ensures var r := Fill(inc, q, limit, target);
      (forall i :: 0 <= i < |r.stolen| ==> !r.stolen[i].isFixed) &&
      |r.queue| == |q| && forall i :: 0 <= i < |q| ==> Fixed(r.queue[i].players) == Fixed(q[i].players)
    decreases limit - |inc|
  {
    if |inc| < limit {
      var best := Best(q, Goal(TotalSkill(inc), |inc|, target));
      if best.Some? {
        var c := best.value;
        FillNext(inc, q, limit, target, c);
        var moved := q[c.team].players[c.index];
        var q2 := TakeAt(q, c.team, c.index);
        FillKeepsFixed(inc + [moved], q2, limit, target);
        TakeAtUnfixed(q, c.team, c.index);
        var rest := Fill(inc + [moved], q2, limit, target);
        forall i | 0 <= i < |q| ensures Fixed(rest.queue[i].players) == Fixed(q[i].players) {
          if i != c.team {
            assert q2[i] == q[i];
          }
        }
        forall i | 0 <= i < |[moved] + rest.stolen| ensures !([moved] + rest.stolen)[i].isFixed {
          if i > 0 {
            assert ([moved] + rest.stolen)[i] == rest.stolen[i - 1];
          }
        }
      }
    }
  }

  /** Nobody is lost: the players taken and those left in the queue are the queue's players. */
  lemma {:induction false} FillConserves(inc: seq<Player>, q: seq<Team>, limit: nat, target: real)
    ensures var r := Fill(inc, q, limit, target);
      multiset(r.stolen) + multiset(AllPlayers(r.queue)) == multiset(AllPlayers(q))
    decreases limit - |inc|
  {
    if |inc| < limit {
      var best := Best(q, Goal(TotalSkill(inc), |inc|, target));
      if best.Some? {
        var c := best.value;
        FillNext(inc, q, limit, target, c);
        var moved := q[c.team].players[c.index];
        var q2 := TakeAt(q, c.team, c.index);
        FillConserves(inc + [moved], q2, limit, target);
        TakeAtPlayers(q, c.team, c.index);
        var rest := Fill(inc + [moved], q2, limit, target);
        ConsConserves(moved, rest.stolen, AllPlayers(rest.queue), AllPlayers(q2), AllPlayers(q));
      }
    }
  }

  lemma ConsConserves(x: Player, s: seq<Player>, left: seq<Player>, q2: seq<Player>, q: seq<Player>)
    requires multiset(s) + multiset(left) == multiset(q2)
    requires multiset(q2) + multiset{x} == multiset(q)
    ensures multiset([x] + s) + multiset(left) == multiset(q)
  {
  }

  /**
   * The incoming team ends with `limit` players, or with fewer only when the queue ran out of
   * unfixed players; one that came in at or over `limit` takes nobody.
   */
  lemma {:induction false} FillCount(inc: seq<Player>, q: seq<Team>, limit: nat, target: real)
    ensures |Fill(inc, q, limit, target).players| ==
      if |inc| >= limit then |inc| else Min(limit, |inc| + |Unfixed(AllPlayers(q))|)
    decreases limit - |inc|, 1
  {
    if |inc| < limit {
      var g := Goal(TotalSkill(inc), |inc|, target);
      var best := Best(q, g);
      if best.None? {
        NoneMeansNoUnfixed(q, g);
      } else {
        FillCountStep(inc, q, limit, target, best.value);
      }
    }
  }

  /** `FillCount` when the scan finds candidate `c`: one player moves, and the rest follows by induction. */
  lemma {:induction false} FillCountStep(inc: seq<Player>, q: seq<Team>, limit: nat, target: real, c: Cand)
    requires |inc| < limit && Best(q, Goal(TotalSkill(inc), |inc|, target)) == Some(c)
    ensures |Fill(inc, q, limit, target).players| == Min(limit, |inc| + |Unfixed(AllPlayers(q))|)
    decreases limit - |inc|, 0
  {
    FillNext(inc, q, limit, target, c);
    var moved := q[c.team].players[c.index];
    var q2 := TakeAt(q, c.team, c.index);
    FillCount(inc + [moved], q2, limit, target);
    CountAfterTake(inc, q, limit, c.team, c.index, |Fill(inc + [moved], q2, limit, target).players|);
  }

  lemma CountAfterTake(inc: seq<Player>, q: seq<Team>, limit: nat, t: nat, p: nat, m: nat)
    requires |inc| < limit && IsCandidate(q, t, p)
    requires var inc2, q2 := inc + [q[t].players[p]], TakeAt(q, t, p);
      m == if |inc2| >= limit then |inc2| else Min(limit, |inc2| + |Unfixed(AllPlayers(q2))|)
    ensures m == Min(limit, |inc| + |Unfixed(AllPlayers(q))|)
  {
    TakeAtUnfixed(q, t, p);
  }

  lemma CountStep(n: nat, n2: nat, limit: nat, u2: nat, u: nat, m: nat)
    requires n < limit && n2 == n + 1 && u == u2 + 1
    requires m == if n2 >= limit then n2 else Min(limit, n2 + u2)
    ensures m == Min(limit, n + u)
  {
  }

  /** The scan finds nothing only in a queue without unfixed players. */
  lemma NoneMeansNoUnfixed(q: seq<Team>, g: Goal)
    requires Best(q, g).None?
    ensures Unfixed(AllPlayers(q)) == []
  {
    BestIsFirstMinimum(q, g);
    NoCandidates(q);
  }

  /** An incoming team left short of `limit` has taken every unfixed player of the queue. */
  lemma {:induction false} FillExhausts(inc: seq<Player>, q: seq<Team>, limit: nat, target: real)
    ensures var r := Fill(inc, q, limit, target);
      |r.players| < limit ==> Unfixed(AllPlayers(r.queue)) == []
    decreases limit - |inc|
  {
    if |inc| < limit {
      var g := Goal(TotalSkill(inc), |inc|, target);
      var best := Best(q, g);
      if best.None? {
        NoneMeansNoUnfixed(q, g);
      } else {
        var c := best.value;
        FillNext(inc, q, limit, target, c);
        var moved := q[c.team].players[c.index];
        FillExhausts(inc + [moved], TakeAt(q, c.team, c.index), limit, target);
      }
    }
  }

  /**
   * Each player stolen is the unfixed queue player that brings the incoming team's average
   * closest to the target at that moment: the first one is at least as close as any other.
   */
  lemma FillGreedy(inc: seq<Player>, q: seq<Team>, limit: nat, target: real)
    ensures var r, g := Fill(inc, q, limit, target), Goal(TotalSkill(inc), |inc|, target);
      r.stolen != [] ==> forall t, p :: IsCandidate(q, t, p) ==> Delta(g, r.stolen[0].skillLevel) <= DeltaAt(q, g, t, p)
  {
    var g := Goal(TotalSkill(inc), |inc|, target);
    BestIsFirstMinimum(q, g);
    if |inc| < limit {
      var best := Best(q, g);
      if best.Some? {
        FillNext(inc, q, limit, target, best.value);
      }
    }
  }

  // ---------------------------------------------------------------------------------------------
  // getBalancedRotationResult

  /** The queue once the loser's unfixed players (if any) have joined its back under a fresh id. */
  function LeaverQueue(loser: Team, queue: seq<Team>, newId: nat -> string): (r: seq<Team>)
    ensures AllPlayers(r) == AllPlayers(queue) + Unfixed(loser.players)
  {
    var leavers := Unfixed(loser.players);
    AllPlayersAppend(queue, [loser.(players := leavers, id := newId(0))]);
    assert AllPlayers([loser.(players := leavers, id := newId(0))]) == leavers + AllPlayers([]);
    if |leavers| > 0 then queue + [loser.(players := leavers, id := newId(0))] else queue
  }

  /** The players the incoming team starts with: those of the queue's head, then the loser's anchors. */
  function IncomingPlayers(loser: Team, queue: seq<Team>, newId: nat -> string): seq<Player>
  {
    var q0 := LeaverQueue(loser, queue, newId);
    (if q0 != [] then q0[0].players else []) + Fixed(loser.players)
  }

  /**
   * `getBalancedRotationResult`: the loser's anchors stay on the court and join the head of the
   * queue, which comes in; its surplus over `limit` goes to the queue; it is then filled towards
   * `limit` with the unfixed queue players closest to the winner's average; emptied teams leave
   * the queue.
   */
  function BalancedResult(winner: Team, loser: Team, queue: seq<Team>, limit: nat, newId: nat -> string): (r: RotationResult)
    ensures forall i :: 0 <= i < |r.queue| ==> |r.queue[i].players| > 0
  {
    var q0 := LeaverQueue(loser, queue, newId);
    var q1 := if q0 != [] then q0[1..] else [];
    var ejected := Eject(IncomingPlayers(loser, queue, newId), limit);
    var q2 := PlaceOverflow(q1, ejected.0, newId);
    var shell := (if q0 != [] then q0[0] else loser).(id := newId(2));
    var filled := Fill(ejected.1, q2, limit, NumericStrength(winner.players));
    RotationResult(shell.(players := filled.players), NonEmptyTeams(filled.queue), filled.stolen)
  }

  /** `getBalancedRotationResult` as the sequence of steps the code takes on its copy of the queue. */
  method GetBalancedRotationResult(winner: Team, loser: Team, queue: seq<Team>, limit: nat, newId: nat -> string)
    returns (r: RotationResult)
    ensures r == BalancedResult(winner, loser, queue, limit, newId)
  {
    var anchors := Fixed(loser.players);
    var leavers := Unfixed(loser.players);
    var q := queue;
    if |leavers| > 0 {
      q := q + [loser.(players := leavers, id := newId(0))];
    }
    ghost var q0 := q;
    assert q0 == LeaverQueue(loser, queue, newId);
    var incomingBase: Option<Team> := None;
    var incomingPlayers := [];
    if |q| > 0 {
      incomingBase := Some(q[0]);
      incomingPlayers := q[0].players;
      q := q[1..];
    }
    incomingPlayers := incomingPlayers + anchors;
    assert incomingPlayers == IncomingPlayers(loser, queue, newId);
    ghost var q1 := q;
    var kept, overflow := EjectOverflow(incomingPlayers, limit);
    if |overflow| > 0 {
      if |q| > 0 {
        var last := q[|q| - 1];
        q := q[|q| - 1 := last.(players := last.players + overflow)];
        assert q == q1[..|q1| - 1] + [last.(players := last.players + overflow)];
      } else {
        q := [Team(newId(1), "Overflow", "", overflow)];
      }
    }
    assert q == PlaceOverflow(q1, overflow, newId);
    var shell := if incomingBase.Some? then incomingBase.value else loser;
    var incomingTeam := shell.(id := newId(2), players := kept);
    var targetAvg := NumericStrength(winner.players);
    var stolenPlayers;
    incomingTeam, q, stolenPlayers := FillGaps(incomingTeam, q, limit, targetAvg);
    r := RotationResult(incomingTeam, NonEmptyTeams(q), stolenPlayers);
  }

  /** `BalancedResult` with its stages named. */
  lemma BalancedUnfold(winner: Team, loser: Team, queue: seq<Team>, limit: nat, newId: nat -> string,
                       q1: seq<Team>, ejected: (seq<Player>, seq<Player>), q2: seq<Team>, filled: Filled)
    requires var q0 := LeaverQueue(loser, queue, newId); q1 == if q0 != [] then q0[1..] else []
    requires ejected == Eject(IncomingPlayers(loser, queue, newId), limit)
    requires q2 == PlaceOverflow(q1, ejected.0, newId)
    requires filled == Fill(ejected.1, q2, limit, NumericStrength(winner.players))
    ensures var q0 := LeaverQueue(loser, queue, newId);
      BalancedResult(winner, loser, queue, limit, newId) ==
        RotationResult((if q0 != [] then q0[0] else loser).(id := newId(2), players := filled.players),
          NonEmptyTeams(filled.queue), filled.stolen)
  {
  }

  /** Every player of the queue and of the loser is on the incoming team or in the new queue, once. */
  lemma BalancedConserves(winner: Team, loser: Team, queue: seq<Team>, limit: nat, newId: nat -> string)
    ensures var r := BalancedResult(winner, loser, queue, limit, newId);
      multiset(r.incomingTeam.players) + multiset(AllPlayers(r.queue)) ==
        multiset(AllPlayers(queue)) + multiset(loser.players)
  {
    var q0 := LeaverQueue(loser, queue, newId);
    var q1 := if q0 != [] then q0[1..] else [];
    var base := if q0 != [] then q0[0].players else [];
    var inc := IncomingPlayers(loser, queue, newId);
    var ejected := Eject(inc, limit);
    var q2 := PlaceOverflow(q1, ejected.0, newId);
    var target := NumericStrength(winner.players);
    var filled := Fill(ejected.1, q2, limit, target);
    BalancedUnfold(winner, loser, queue, limit, newId, q1, ejected, q2, filled);
    if q0 != [] {
      AllPlayersCons(q0);
    }
    assert inc == base + Fixed(loser.players);
    EjectConserves(inc, limit);
    FillShape(ejected.1, q2, limit, target);
    FillConserves(ejected.1, q2, limit, target);
    FixedUnfixedSplit(loser.players);
    ConservesChain(AllPlayers(queue), Fixed(loser.players), Unfixed(loser.players), loser.players, base,
      AllPlayers(q1), ejected.0, ejected.1, filled.stolen, AllPlayers(filled.queue));
  }

  lemma ConservesChain(queue: seq<Player>, anchors: seq<Player>, leavers: seq<Player>, loser: seq<Player>,
                       base: seq<Player>, q1: seq<Player>, overflow: seq<Player>, kept: seq<Player>,
                       stolen: seq<Player>, left: seq<Player>)
    requires multiset(anchors) + multiset(leavers) == multiset(loser)
    requires base + q1 == queue + leavers
    requires multiset(overflow) + multiset(kept) == multiset(base + anchors)
    requires multiset(stolen) + multiset(left) == multiset(q1 + overflow)
    ensures multiset(kept + stolen) + multiset(left) == multiset(queue) + multiset(loser)
  {
    assert multiset(base + q1) == multiset(queue + leavers);
    assert multiset(base) + multiset(q1) == multiset(queue) + multiset(leavers);
    assert multiset(overflow) + multiset(kept) == multiset(base) + multiset(anchors);
    assert multiset(stolen) + multiset(left) == multiset(q1) + multiset(overflow);
    calc {
      multiset(kept + stolen) + multiset(left);
      multiset(kept) + (multiset(stolen) + multiset(left));
      (multiset(overflow) + multiset(kept)) + multiset(q1);
      multiset(base + anchors) + multiset(q1);
      multiset(base) + multiset(q1) + multiset(anchors);
      multiset(queue) + (multiset(leavers) + multiset(anchors));
    }
  }

  /**
   * The incoming team never ends over `limit`, and ends under it only once no unfixed player is
   * left in the queue.
   */
  lemma BalancedFills(winner: Team, loser: Team, queue: seq<Team>, limit: nat, newId: nat -> string)
    ensures var r := BalancedResult(winner, loser, queue, limit, newId);
      |r.incomingTeam.players| <= limit &&
      (|r.incomingTeam.players| < limit ==> Unfixed(AllPlayers(r.queue)) == [])
  {
    var q0 := LeaverQueue(loser, queue, newId);
    var q1 := if q0 != [] then q0[1..] else [];
    var ejected := Eject(IncomingPlayers(loser, queue, newId), limit);
    var q2 := PlaceOverflow(q1, ejected.0, newId);
    var target := NumericStrength(winner.players);
    var filled := Fill(ejected.1, q2, limit, target);
    BalancedUnfold(winner, loser, queue, limit, newId, q1, ejected, q2, filled);
    FillWithin(ejected.1, q2, limit, target, filled);
  }

  /** Filling from at most `limit` players stays within `limit`, and stops short only once the queue has no free player. */
  lemma FillWithin(inc: seq<Player>, q: seq<Team>, limit: nat, target: real, filled: Filled)
    requires |inc| <= limit && filled == Fill(inc, q, limit, target)
    ensures |filled.players| <= limit
    ensures |filled.players| < limit ==> Unfixed(AllPlayers(filled.queue)) == []
  {
    FillCount(inc, q, limit, target);
    FillExhausts(inc, q, limit, target);
  }

  /**
   * The incoming team is the queue's head (the loser when the queue is empty) under a fresh id,
   * with the players it kept through the overflow followed by the stolen ones, none of them fixed.
   */
  lemma BalancedShape(winner: Team, loser: Team, queue: seq<Team>, limit: nat, newId: nat -> string)
    ensures var r := BalancedResult(winner, loser, queue, limit, newId);
      var q0 := LeaverQueue(loser, queue, newId);
      r.incomingTeam == (if q0 != [] then q0[0] else loser).(id := newId(2), players := r.incomingTeam.players) &&
      r.incomingTeam.players == Eject(IncomingPlayers(loser, queue, newId), limit).1 + r.stolenPlayers &&
      forall i :: 0 <= i < |r.stolenPlayers| ==> !r.stolenPlayers[i].isFixed
  {
    var q0 := LeaverQueue(loser, queue, newId);
    var q1 := if q0 != [] then q0[1..] else [];
    var ejected := Eject(IncomingPlayers(loser, queue, newId), limit);
    var q2 := PlaceOverflow(q1, ejected.0, newId);
    var target := NumericStrength(winner.players);
    var filled := Fill(ejected.1, q2, limit, target);
    BalancedUnfold(winner, loser, queue, limit, newId, q1, ejected, q2, filled);
    FillShape(ejected.1, q2, limit, target);
    FillKeepsFixed(ejected.1, q2, limit, target);
  }

  /**
   * Anchors stay on the court: when the incoming team has at least as many unfixed players as it
   * is over `limit`, its fixed players at the end are exactly those of the queue's head followed
   * by the loser's anchors.
   */
  lemma BalancedAnchorsStay(winner: Team, loser: Team, queue: seq<Team>, limit: nat, newId: nat -> string)
    requires var inc := IncomingPlayers(loser, queue, newId); |inc| <= limit + |Unfixed(inc)|
    ensures var r := BalancedResult(winner, loser, queue, limit, newId);
      var q0 := LeaverQueue(loser, queue, newId);
      Fixed(r.incomingTeam.players) == Fixed(if q0 != [] then q0[0].players else []) + Fixed(loser.players)
  {
    var r := BalancedResult(winner, loser, queue, limit, newId);
    var q0 := LeaverQueue(loser, queue, newId);
    var base := if q0 != [] then q0[0].players else [];
    var anchors := Fixed(loser.players);
    var inc := IncomingPlayers(loser, queue, newId);
    var kept := Eject(inc, limit).1;
    BalancedShape(winner, loser, queue, limit, newId);
    EjectKeepsFixed(inc, limit);
    FixedAppend(base, anchors);
    FrontFixed(anchors);
    NoneFixed(r.stolenPlayers);
    FixedAppend(kept, r.stolenPlayers);
  }

  lemma {:induction false} NoneFixed(s: seq<Player>)
    requires forall i :: 0 <= i < |s| ==> !s[i].isFixed
    ensures Fixed(s) == []
  {
    if s != [] {
      NoneFixed(s[1..]);
    }
  }
}
