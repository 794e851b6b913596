/**
 * The team-building half of `utils/balanceUtils.ts`: the skill reductions, the balanced draft
 * `balanceTeamsSnake` and the index-order `distributeStandard`.
 *
 * Both algorithms place players in buckets (bucket 0 is court A, bucket 1 court B, bucket i >= 2
 * the queue team at position i - 2) and then rebuild the teams from the buckets. Fixed players
 * of the current courts and queue are anchors: their bucket starts with them. The court limit
 * `PLAYER_LIMIT_ON_COURT` is the parameter `limit`; `uuidv4` is the fresh-id supply `newId`,
 * indexed by the bucket the id is drawn for.
 */
module Balance {
  import opened Types
  import opened Lists
  import opened JsString
  import opened PlayerQueue

  /** The courts and queue a redistribution produces. */
  datatype Lineup = Lineup(courtA: Team, courtB: Team, queue: seq<Team>)

  // ---------------------------------------------------------------------------------------------
  // Skill reductions

  /** `getTotalSkill`: the sum of the players' skill levels. */
  function TotalSkill(ps: seq<Player>): int
  {
    if ps == [] then 0 else ps[0].skillLevel + TotalSkill(ps[1..])
  }

  lemma {:induction false} TotalSkillAppend(s: seq<Player>, t: seq<Player>)
    ensures TotalSkill(s + t) == TotalSkill(s) + TotalSkill(t)
  {
    if s == [] {
      assert s + t == t;
    } else {
      assert (s + t)[1..] == s[1..] + t;
      TotalSkillAppend(s[1..], t);
    }
  }

  /** When every skill lies in [lo, hi], so does their sum divided by the number of players. */
  lemma {:induction false} TotalSkillBounds(ps: seq<Player>, lo: int, hi: int)
    requires forall i :: 0 <= i < |ps| ==> lo <= ps[i].skillLevel <= hi
    ensures lo * |ps| <= TotalSkill(ps) <= hi * |ps|
  {
    if ps != [] {
      TotalSkillBounds(ps[1..], lo, hi);
      assert lo * |ps| == lo + lo * |ps[1..]|;
      assert hi * |ps| == hi + hi * |ps[1..]|;
    }
  }

  /** `getNumericStrength`: the average skill level, 0 for an empty team. */
  function NumericStrength(ps: seq<Player>): (r: real)
    ensures ps == [] ==> r == 0.0
    ensures ps != [] ==> r * (|ps| as real) == TotalSkill(ps) as real
  {
    if ps == [] then 0.0 else TotalSkill(ps) as real / (|ps| as real)
  }

  /** The average of skill levels that all lie in [lo, hi] lies in [lo, hi]. */
  lemma NumericStrengthBounds(ps: seq<Player>, lo: int, hi: int)
    requires ps != []
    requires forall i :: 0 <= i < |ps| ==> lo <= ps[i].skillLevel <= hi
    ensures lo as real <= NumericStrength(ps) <= hi as real
  {
    TotalSkillBounds(ps, lo, hi);
    AvgAtLeast(TotalSkill(ps), |ps|, lo);
    AvgAtMost(TotalSkill(ps), |ps|, hi);
  }

  lemma AvgAtLeast(t: int, n: int, lo: int)
    requires n > 0 && lo * n <= t
    ensures lo as real <= t as real / n as real
  {
    var a := t as real / n as real;
    assert a * (n as real) == t as real;
    assert (lo as real) * (n as real) == (lo * n) as real;
    if a < lo as real {
      assert a * (n as real) < (lo as real) * (n as real);
    }
  }

  lemma AvgAtMost(t: int, n: int, hi: int)
    requires n > 0 && t <= hi * n
    ensures t as real / n as real <= hi as real
  {
    var a := t as real / n as real;
    assert a * (n as real) == t as real;
    assert (hi as real) * (n as real) == (hi * n) as real;
    if a > hi as real {
      assert a * (n as real) > (hi as real) * (n as real);
    }
  }

  // ---------------------------------------------------------------------------------------------
  // Buckets

  /** The buckets' players, bucket after bucket. */
  function Flatten(bs: seq<seq<Player>>): seq<Player>
  {
    if bs == [] then [] else bs[0] + Flatten(bs[1..])
  }

  lemma {:induction false} FlattenAppend(s: seq<seq<Player>>, t: seq<seq<Player>>)
    ensures Flatten(s + t) == Flatten(s) + Flatten(t)
  {
    if s == [] {
      assert s + t == t;
    } else {
      assert (s + t)[1..] == s[1..] + t;
      FlattenAppend(s[1..], t);
    }
  }

  /** Pushing one player on one bucket adds exactly that player to the buckets' players. */
  lemma FlattenPush(b: seq<seq<Player>>, k: nat, p: Player)
    requires k < |b|
    ensures multiset(Flatten(b[k := b[k] + [p]])) == multiset(Flatten(b)) + multiset{p}
  {
    var b2 := b[k := b[k] + [p]];
    assert b == b[..k] + [b[k]] + b[k + 1..];
    assert b2 == b[..k] + [b[k] + [p]] + b[k + 1..];
    FlattenAppend(b[..k] + [b[k]], b[k + 1..]);
    FlattenAppend(b[..k], [b[k]]);
    FlattenAppend(b[..k] + [b[k] + [p]], b[k + 1..]);
    FlattenAppend(b[..k], [b[k] + [p]]);
    assert Flatten([b[k]]) == b[k];
    assert Flatten([b[k] + [p]]) == b[k] + [p];
  }

  /** `players.filter(p => p.isFixed)`. */
  function Fixed(ps: seq<Player>): (r: seq<Player>)
    ensures |r| <= |ps|
    ensures forall i :: 0 <= i < |r| ==> r[i].isFixed
  {
    if ps == [] then []
    else
      assert ps == [ps[0]] + ps[1..];
      (if ps[0].isFixed then [ps[0]] else []) + Fixed(ps[1..])
  }

  /** `currentStructure.map(team => team.players.filter(p => p.isFixed))`. */
  function Anchors(structure: seq<Team>): (r: seq<seq<Player>>)
    ensures |r| == |structure|
    ensures forall i :: 0 <= i < |r| ==> r[i] == Fixed(structure[i].players)
  {
    seq(|structure|, i requires 0 <= i < |structure| => Fixed(structure[i].players))
  }

  /** The ids of all anchors: `new Set(anchors.flat().map(p => p.id))`. */
  function AnchorIds(structure: seq<Team>): set<string>
  {
    IdSet(Flatten(Anchors(structure)))
  }

  /** `Array.from({ length: count }, (_, i) => [...(anchors[i] || [])])`. */
  function InitialBuckets(anchors: seq<seq<Player>>, count: nat): (r: seq<seq<Player>>)
    ensures |r| == count
    ensures forall i :: 0 <= i < count ==> r[i] == (if i < |anchors| then anchors[i] else [])
  {
    seq(count, i requires 0 <= i < count => if i < |anchors| then anchors[i] else [])
  }

  /** `s` is an initial segment of `t`. */
  predicate Prefix(s: seq<Player>, t: seq<Player>)
  {
    |s| <= |t| && t[..|s|] == s
  }

  // ---------------------------------------------------------------------------------------------
  // Rebuilding the teams

  /**
   * The queue team rebuilt from the non-empty bucket `i >= 2`. The queue team that stood at
   * position `i - 2` lends its id and name; `orFallback` is the `existing?.id || uuidv4()` form,
   * under which an empty id or name also falls through to the fresh id or to "Team i+1".
   */
  function QueueTeam(i: nat, players: seq<Player>, current: seq<Team>, newId: nat -> string, orFallback: bool): Team
    requires i >= 2
  {
    var has := i - 2 < |current|;
    var id := if has && !(orFallback && current[i - 2].id == "") then current[i - 2].id else newId(i);
    var name := if has && !(orFallback && current[i - 2].name == "") then current[i - 2].name else "Team " + NatToString(i + 1);
    Team(id, name, "", players)
  }

  /** The queue the reconstruction loop builds from buckets 2 up to `n - 1`, skipping empty ones. */
  function RebuiltQueue(b: seq<seq<Player>>, n: nat, current: seq<Team>, newId: nat -> string, orFallback: bool): seq<Team>
    requires n <= |b|
  {
    if n <= 2 then []
    else
      var last := if |b[n - 1]| > 0 then [QueueTeam(n - 1, b[n - 1], current, newId, orFallback)] else [];
      RebuiltQueue(b, n - 1, current, newId, orFallback) + last
  }

  /** The rebuilt queue holds the players of buckets 2 and up, in order, and no empty team. */
  lemma RebuiltQueueShape(b: seq<seq<Player>>, n: nat, current: seq<Team>, newId: nat -> string, orFallback: bool)
    requires 2 <= n <= |b|
    ensures AllPlayers(RebuiltQueue(b, n, current, newId, orFallback)) == Flatten(b[2..n])
    ensures forall t :: t in RebuiltQueue(b, n, current, newId, orFallback) ==> |t.players| > 0
  {
    RebuiltQueuePlayers(b, n, current, newId, orFallback);
    RebuiltQueueNonEmpty(b, n, current, newId, orFallback);
  }

  lemma {:induction false} RebuiltQueuePlayers(b: seq<seq<Player>>, n: nat, current: seq<Team>, newId: nat -> string, orFallback: bool)
    requires 2 <= n <= |b|
    ensures AllPlayers(RebuiltQueue(b, n, current, newId, orFallback)) == Flatten(b[2..n])
  {
    if n > 2 {
      RebuiltQueuePlayers(b, n - 1, current, newId, orFallback);
      var q := RebuiltQueue(b, n - 1, current, newId, orFallback);
      var last := if |b[n - 1]| > 0 then [QueueTeam(n - 1, b[n - 1], current, newId, orFallback)] else [];
      assert RebuiltQueue(b, n, current, newId, orFallback) == q + last;
      AllPlayersAppend(q, last);
      assert b[2..n] == b[2..n - 1] + [b[n - 1]];
      FlattenAppend(b[2..n - 1], [b[n - 1]]);
      assert Flatten([b[n - 1]]) == b[n - 1];
      if |b[n - 1]| > 0 {
        assert AllPlayers(last) == b[n - 1] + AllPlayers([]);
      }
    } else {
      assert b[2..n] == [];
    }
  }

  lemma {:induction false} RebuiltQueueNonEmpty(b: seq<seq<Player>>, n: nat, current: seq<Team>, newId: nat -> string, orFallback: bool)
    requires 2 <= n <= |b|
    ensures forall t :: t in RebuiltQueue(b, n, current, newId, orFallback) ==> |t.players| > 0
  {
    if n > 2 {
      RebuiltQueueNonEmpty(b, n - 1, current, newId, orFallback);
      var q := RebuiltQueue(b, n - 1, current, newId, orFallback);
      var last := if |b[n - 1]| > 0 then [QueueTeam(n - 1, b[n - 1], current, newId, orFallback)] else [];
      assert RebuiltQueue(b, n, current, newId, orFallback) == q + last;
    }
  }

  /** The reconstruction loop (`for (let i = 2; i < buckets.length; i++)`). */
  method RebuildQueue(b: seq<seq<Player>>, current: seq<Team>, newId: nat -> string, orFallback: bool) returns (q: seq<Team>)
    ensures q == RebuiltQueue(b, |b|, current, newId, orFallback)
  {
    q := [];
    var i := 2;
    while i < |b|
      invariant 2 <= i && (|b| >= 2 ==> i <= |b|)
      invariant q == RebuiltQueue(b, if i <= |b| then i else |b|, current, newId, orFallback)
    {
      if |b[i]| > 0 {
        q := q + [QueueTeam(i, b[i], current, newId, orFallback)];
      }
      i := i + 1;
    }
  }

  /** Courts take buckets 0 and 1, keeping their id, name and colour; the queue is rebuilt. */
  function Rebuild(b: seq<seq<Player>>, courtA: Team, courtB: Team, current: seq<Team>, newId: nat -> string, orFallback: bool): Lineup
    requires |b| >= 2
  {
    Lineup(courtA.(players := b[0]), courtB.(players := b[1]), RebuiltQueue(b, |b|, current, newId, orFallback))
  }

  /** Every player of the buckets appears in the rebuilt lineup, in bucket order, and no queue team is empty. */
  lemma RebuildKeepsPlayers(b: seq<seq<Player>>, courtA: Team, courtB: Team, current: seq<Team>, newId: nat -> string, orFallback: bool)
    requires |b| >= 2
    ensures var r := Rebuild(b, courtA, courtB, current, newId, orFallback);
      r.courtA.players + r.courtB.players + AllPlayers(r.queue) == Flatten(b) &&
      (forall t :: t in r.queue ==> |t.players| > 0) &&
      r.courtA.id == courtA.id && r.courtA.name == courtA.name &&
      r.courtB.id == courtB.id && r.courtB.name == courtB.name
  {
    RebuiltQueueShape(b, |b|, current, newId, orFallback);
    FlattenFirstTwo(b);
  }

  lemma FlattenFirstTwo(b: seq<seq<Player>>)
    requires |b| >= 2
    ensures Flatten(b) == b[0] + b[1] + Flatten(b[2..|b|])
  {
    assert b[1..][1..] == b[2..|b|];
  }

  // ---------------------------------------------------------------------------------------------
  // balanceTeamsSnake: the weighted draft

  /** The comparator `b.skillLevel - a.skillLevel`: `a` may precede `b` when it is at least as strong. */
  function SkillDesc(a: Player, b: Player): bool
  {
    a.skillLevel >= b.skillLevel
  }

  lemma SkillDescPreorder()
    ensures TotalPreorder(SkillDesc)
  {
  }

  /** The free pool: players whose id is not an anchor's, strongest first (a stable sort). */
  function SnakePool(all: seq<Player>, structure: seq<Team>): seq<Player>
  {
    SortBy(DropIds(all, AnchorIds(structure)), SkillDesc)
  }

  /** `Math.ceil(n / d)`. */
  function CeilDiv(n: nat, d: nat): nat
    requires d > 0
  {
    (n + d - 1) / d
  }

  /** `numFullTeams`: `Math.floor(n / limit)`. */
  function FullTeams(n: nat, d: nat): nat
    requires d > 0
  {
    n / d
  }

  /** `Math.max(2, Math.ceil(n / limit), currentStructure.length)`. */
  function BucketCount(n: nat, limit: nat, structureLength: nat): nat
    requires limit > 0
  {
    Max(2, Max(CeilDiv(n, limit), structureLength))
  }

  lemma FloorBelowCeil(n: nat, d: nat)
    requires d > 0
    ensures FullTeams(n, d) <= CeilDiv(n, d)
  {
    var q, c := n / d, CeilDiv(n, d);
    assert q * d <= n;
    assert n + d - 1 < (c + 1) * d;
  }

  /** Some priority bucket (index below `numFull`) has room for one more player. */
  predicate PriorityRoom(b: seq<seq<Player>>, numFull: nat, limit: nat)
    requires numFull <= |b|
  {
    exists i :: 0 <= i < numFull && |b[i]| < limit
  }

  /** The indices below `n` whose bucket has room, ascending. */
  function RoomBelow(b: seq<seq<Player>>, n: nat, limit: nat): (r: seq<nat>)
    requires n <= |b|
    ensures forall k :: 0 <= k < |r| ==> r[k] < n
  {
    if n == 0 then [] else RoomBelow(b, n - 1, limit) + (if |b[n - 1]| < limit then [n - 1] else [])
  }

  /** The indices `lo, ..., hi - 1`. */
  function Range(lo: nat, hi: nat): (r: seq<nat>)
    ensures |r| == if lo <= hi then hi - lo else 0
    ensures forall k :: 0 <= k < |r| ==> r[k] == lo + k
  {
    if hi <= lo then [] else Range(lo, hi - 1) + [hi - 1]
  }

  /**
   * `targetIndices` of one draft step: the priority buckets with room while there are any;
   * otherwise every bucket from `numFull` on, followed, when `numFull` is 0, by every bucket again.
   */
  function Targets(b: seq<seq<Player>>, numFull: nat, limit: nat): (r: seq<nat>)
    requires numFull <= |b|
    ensures forall k :: 0 <= k < |r| ==> r[k] < |b|
  {
    if PriorityRoom(b, numFull, limit) then RoomBelow(b, numFull, limit)
    else Range(numFull, |b|) + (if numFull == 0 then Range(0, |b|) else [])
  }

  /**
   * The scan for the weakest target from position `j` on, `best` being the bucket found so far
   * (-1 before the first, whose total beats `Infinity`); a later bucket wins only when strictly weaker.
   */
  function Scan(b: seq<seq<Player>>, ts: seq<nat>, j: nat, best: int): (r: int)
    requires forall k :: 0 <= k < |ts| ==> ts[k] < |b|
    requires j <= |ts| && -1 <= best < |b|
    ensures -1 <= r < |b|
    decreases |ts| - j
  {
    if j == |ts| then best
    else if best == -1 || TotalSkill(b[ts[j]]) < TotalSkill(b[best]) then Scan(b, ts, j + 1, ts[j])
    else Scan(b, ts, j + 1, best)
  }

  /** The bucket a drafted player joins: the scan's winner, or the last bucket when there is no target. */
  function Chosen(b: seq<seq<Player>>, numFull: nat, limit: nat): (k: nat)
    requires 0 < |b| && numFull <= |b|
    ensures k < |b|
  {
    var best := Scan(b, Targets(b, numFull, limit), 0, -1);
    if best == -1 then |b| - 1 else best
  }

  /** Whether bucket `i` is one of the draft step's targets. */
  predicate IsTarget(b: seq<seq<Player>>, numFull: nat, limit: nat, i: nat)
    requires numFull <= |b|
  {
    if PriorityRoom(b, numFull, limit) then i < numFull && |b[i]| < limit else numFull <= i < |b|
  }

  predicate Ascending(ts: seq<nat>)
  {
    forall i, k :: 0 <= i < k < |ts| ==> ts[i] < ts[k]
  }

  /** After `j` positions the scan holds the first of the least totals seen so far. */
  predicate ScanSoFar(b: seq<seq<Player>>, ts: seq<nat>, j: nat, best: int)
    requires forall k :: 0 <= k < |ts| ==> ts[k] < |b|
    requires j <= |ts| && -1 <= best < |b|
  {
    (best == -1 <==> j == 0) &&
    (j > 0 ==> (
      (exists k :: 0 <= k < j && ts[k] == best) &&
      forall k :: 0 <= k < j ==> (TotalSkill(b[best]) <= TotalSkill(b[ts[k]]) &&
        (ts[k] < best ==> TotalSkill(b[ts[k]]) > TotalSkill(b[best])))))
  }

  /** Over ascending indices the scan ends with the first of the least totals. */
  lemma {:induction false} ScanAscending(b: seq<seq<Player>>, ts: seq<nat>, j: nat, best: int)
    requires forall k :: 0 <= k < |ts| ==> ts[k] < |b|
    requires j <= |ts| && -1 <= best < |b|
    requires Ascending(ts) && ScanSoFar(b, ts, j, best)
    ensures ScanSoFar(b, ts, |ts|, Scan(b, ts, j, best))
    decreases |ts| - j
  {
    if j < |ts| {
      var x := ts[j];
      if best == -1 || TotalSkill(b[x]) < TotalSkill(b[best]) {
        ScanAscending(b, ts, j + 1, x);
      } else {
        ScanAscending(b, ts, j + 1, best);
      }
    }
  }

  /** A scan that meets no strictly weaker bucket keeps the one it has. */
  lemma {:induction false} ScanNoBetter(b: seq<seq<Player>>, ts: seq<nat>, j: nat, best: int)
    requires forall k :: 0 <= k < |ts| ==> ts[k] < |b|
    requires j <= |ts| && 0 <= best < |b|
    requires forall k :: j <= k < |ts| ==> TotalSkill(b[ts[k]]) >= TotalSkill(b[best])
    ensures Scan(b, ts, j, best) == best
    decreases |ts| - j
  {
    if j < |ts| {
      ScanNoBetter(b, ts, j + 1, best);
    }
  }

  /** Scanning two lists one after the other. */
  lemma {:induction false} ScanAppend(b: seq<seq<Player>>, u: seq<nat>, v: seq<nat>, j: nat, best: int)
    requires forall k :: 0 <= k < |u| ==> u[k] < |b|
    requires forall k :: 0 <= k < |v| ==> v[k] < |b|
    requires j <= |u| && -1 <= best < |b|
    ensures Scan(b, u + v, j, best) == Scan(b, v, 0, Scan(b, u, j, best))
    decreases |u| - j
  {
    if j < |u| {
      assert (u + v)[j] == u[j];
      var x := u[j];
      var next := if best == -1 || TotalSkill(b[x]) < TotalSkill(b[best]) then x else best;
      ScanAppend(b, u, v, j + 1, next);
    } else {
      ScanShift(b, u, v, 0, best);
    }
  }

  lemma {:induction false} ScanShift(b: seq<seq<Player>>, u: seq<nat>, v: seq<nat>, j: nat, best: int)
    requires forall k :: 0 <= k < |u| ==> u[k] < |b|
    requires forall k :: 0 <= k < |v| ==> v[k] < |b|
    requires j <= |v| && -1 <= best < |b|
    ensures Scan(b, u + v, |u| + j, best) == Scan(b, v, j, best)
    decreases |v| - j
  {
    if j < |v| {
      assert (u + v)[|u| + j] == v[j];
      var x := v[j];
      var next := if best == -1 || TotalSkill(b[x]) < TotalSkill(b[best]) then x else best;
      ScanShift(b, u, v, j + 1, next);
    }
  }

  lemma {:induction false} RoomBelowMembers(b: seq<seq<Player>>, n: nat, limit: nat)
    requires n <= |b|
    ensures forall i: nat :: i in RoomBelow(b, n, limit) <==> i < n && |b[i]| < limit
    ensures Ascending(RoomBelow(b, n, limit))
  {
    if n > 0 {
      RoomBelowMembers(b, n - 1, limit);
    }
  }

  lemma RangeMembers(lo: nat, hi: nat)
    ensures forall i: nat :: i in Range(lo, hi) <==> lo <= i < hi
    ensures Ascending(Range(lo, hi))
  {
    var u := Range(lo, hi);
    forall i: nat | lo <= i < hi ensures i in u {
      assert u[i - lo] == i;
    }
  }

  /** A second pass over the same ascending indices finds nothing strictly weaker. */
  lemma DoubledScan(b: seq<seq<Player>>, u: seq<nat>)
    requires forall k :: 0 <= k < |u| ==> u[k] < |b|
    requires Ascending(u)
    ensures Scan(b, u + u, 0, -1) == Scan(b, u, 0, -1)
  {
    ScanAppend(b, u, u, 0, -1);
    if u != [] {
      ScanAscending(b, u, 0, -1);
      ScanNoBetter(b, u, 0, Scan(b, u, 0, -1));
    }
  }

  /** The scan over one draft step's targets, written as a scan over ascending indices. */
  lemma TargetsScan(b: seq<seq<Player>>, numFull: nat, limit: nat) returns (u: seq<nat>)
    requires 0 < |b| && numFull <= |b|
    ensures Ascending(u) && forall k :: 0 <= k < |u| ==> u[k] < |b|
    ensures forall i: nat :: i in u <==> i < |b| && IsTarget(b, numFull, limit, i)
    ensures Scan(b, Targets(b, numFull, limit), 0, -1) == Scan(b, u, 0, -1)
  {
    if PriorityRoom(b, numFull, limit) {
      RoomBelowMembers(b, numFull, limit);
      u := RoomBelow(b, numFull, limit);
    } else {
      u := Range(numFull, |b|);
      RangeMembers(numFull, |b|);
      if numFull == 0 {
        assert Targets(b, numFull, limit) == u + u;
        DoubledScan(b, u);
      } else {
        assert Targets(b, numFull, limit) == u;
      }
    }
  }

  /**
   * The draft step picks the first of the weakest targets: a target whose total skill is the
   * least among the targets, every target before it strictly stronger. While a priority bucket
   * has room, that is a priority bucket with room; with no target at all it is the last bucket.
   */
  lemma ChosenFirstMin(b: seq<seq<Player>>, numFull: nat, limit: nat)
    requires 0 < |b| && numFull <= |b|
    ensures var k := Chosen(b, numFull, limit);
      ((exists i :: 0 <= i < |b| && IsTarget(b, numFull, limit, i)) ==>
        IsTarget(b, numFull, limit, k) &&
        forall i :: 0 <= i < |b| && IsTarget(b, numFull, limit, i) ==>
          TotalSkill(b[k]) <= TotalSkill(b[i]) && (i < k ==> TotalSkill(b[i]) > TotalSkill(b[k])))
      && ((forall i :: 0 <= i < |b| ==> !IsTarget(b, numFull, limit, i)) ==> k == |b| - 1)
  {
    var u := TargetsScan(b, numFull, limit);
    ScanAscending(b, u, 0, -1);
    var best := Scan(b, u, 0, -1);
    ScanEndsAtMin(b, u, best);
    assert u != [] ==> u[0] in u;
    if exists i :: 0 <= i < |b| && IsTarget(b, numFull, limit, i) {
      var i :| 0 <= i < |b| && IsTarget(b, numFull, limit, i);
      assert i in u;
      forall i | 0 <= i < |b| && IsTarget(b, numFull, limit, i)
        ensures TotalSkill(b[best]) <= TotalSkill(b[i]) && (i < best ==> TotalSkill(b[i]) > TotalSkill(b[best]))
      {
        assert i in u;
      }
    }
  }

  /** A finished scan holds a target of least total, the first of them; with no target it holds -1. */
  lemma ScanEndsAtMin(b: seq<seq<Player>>, u: seq<nat>, best: int)
    requires forall k :: 0 <= k < |u| ==> u[k] < |b|
    requires -1 <= best < |b| && ScanSoFar(b, u, |u|, best)
    ensures u == [] ==> best == -1
    ensures u != [] ==> best in u && forall x :: x in u ==>
      TotalSkill(b[best]) <= TotalSkill(b[x]) && (x < best ==> TotalSkill(b[x]) > TotalSkill(b[best]))
  {
    if u != [] {
      var k0 :| 0 <= k0 < |u| && u[k0] == best;
      forall x | x in u
        ensures TotalSkill(b[best]) <= TotalSkill(b[x]) && (x < best ==> TotalSkill(b[x]) > TotalSkill(b[best]))
      {
        var k :| 0 <= k < |u| && u[k] == x;
      }
    }
  }

  /** While a priority bucket has room, the drafted player joins a priority bucket that has room. */
  lemma ChosenPriority(b: seq<seq<Player>>, numFull: nat, limit: nat)
    requires 0 < |b| && numFull <= |b| && PriorityRoom(b, numFull, limit)
    ensures Chosen(b, numFull, limit) < numFull && |b[Chosen(b, numFull, limit)]| < limit
  {
    ChosenFirstMin(b, numFull, limit);
    var i :| 0 <= i < numFull && |b[i]| < limit;
    assert IsTarget(b, numFull, limit, i);
  }

  /** The loop of lines 82-87: does some priority bucket have room? */
  method HasPriorityRoom(b: seq<seq<Player>>, numFull: nat, limit: nat) returns (priorityHasSpace: bool)
    requires numFull <= |b|
    ensures priorityHasSpace == PriorityRoom(b, numFull, limit)
  {
    priorityHasSpace := false;
    var i := 0;
    while i < numFull && !priorityHasSpace
      invariant 0 <= i <= numFull
      invariant priorityHasSpace ==> PriorityRoom(b, numFull, limit)
      invariant !priorityHasSpace ==> forall j :: 0 <= j < i ==> |b[j]| >= limit
    {
      if |b[i]| < limit {
        priorityHasSpace := true;
      }
      i := i + 1;
    }
  }

  /** The loops of lines 89-110 that collect `targetIndices`. */
  method CollectTargets(b: seq<seq<Player>>, numFull: nat, limit: nat) returns (targets: seq<nat>)
    requires numFull <= |b|
    ensures targets == Targets(b, numFull, limit)
  {
    var priorityHasSpace := HasPriorityRoom(b, numFull, limit);
    targets := [];
    if priorityHasSpace {
      for i := 0 to numFull
        invariant targets == RoomBelow(b, i, limit)
      {
        if |b[i]| < limit {
          targets := targets + [i];
        }
      }
    } else {
      for i := numFull to |b|
        invariant targets == Range(numFull, i)
      {
        targets := targets + [i];
      }
      if numFull == 0 {
        ghost var first := targets;
        for i := 0 to |b|
          invariant targets == first + Range(0, i)
        {
          targets := targets + [i];
        }
      }
    }
  }

  /** One draft step (lines 71-130): the bucket the next player joins. */
  method ChooseBucket(b: seq<seq<Player>>, numFull: nat, limit: nat) returns (k: nat)
    requires 0 < |b| && numFull <= |b|
    ensures k == Chosen(b, numFull, limit)
  {
    var targets := CollectTargets(b, numFull, limit);
    var best := -1;
    for j := 0 to |targets|
      invariant -1 <= best < |b|
      invariant Scan(b, targets, j, best) == Scan(b, targets, 0, -1)
    {
      var t := targets[j];
      if best == -1 || TotalSkill(b[t]) < TotalSkill(b[best]) {
        best := t;
      }
    }
    k := if best == -1 then |b| - 1 else best;
  }

  /** The player joins the chosen bucket, at its end. */
  function Place(b: seq<seq<Player>>, p: Player, numFull: nat, limit: nat): (r: seq<seq<Player>>)
    requires 0 < |b| && numFull <= |b|
    ensures |r| == |b|
  {
    var k := Chosen(b, numFull, limit);
    b[k := b[k] + [p]]
  }

  /** The draft of the whole pool, one player after the other. */
  function Draft(b: seq<seq<Player>>, pool: seq<Player>, numFull: nat, limit: nat): (r: seq<seq<Player>>)
    requires 0 < |b| && numFull <= |b|
    ensures |r| == |b|
    decreases |pool|
  {
    if pool == [] then b else Draft(Place(b, pool[0], numFull, limit), pool[1..], numFull, limit)
  }

  /** Drafting only appends: every bucket's previous players stay at its front. */
  lemma {:induction false} DraftKeepsFronts(b: seq<seq<Player>>, pool: seq<Player>, numFull: nat, limit: nat)
    requires 0 < |b| && numFull <= |b|
    ensures forall i :: 0 <= i < |b| ==> Prefix(b[i], Draft(b, pool, numFull, limit)[i])
    decreases |pool|
  {
    if pool != [] {
      var b2 := Place(b, pool[0], numFull, limit);
      DraftKeepsFronts(b2, pool[1..], numFull, limit);
      forall i | 0 <= i < |b| ensures Prefix(b[i], Draft(b, pool, numFull, limit)[i]) {
        var d := Draft(b, pool, numFull, limit)[i];
        assert Prefix(b2[i], d);
        assert b2[i][..|b[i]|] == b[i];
      }
    }
  }

  /** Drafting adds exactly the pool's players to the buckets. */
  lemma {:induction false} DraftConserves(b: seq<seq<Player>>, pool: seq<Player>, numFull: nat, limit: nat)
    requires 0 < |b| && numFull <= |b|
    ensures multiset(Flatten(Draft(b, pool, numFull, limit))) == multiset(Flatten(b)) + multiset(pool)
    decreases |pool|
  {
    if pool != [] {
      var b2 := Place(b, pool[0], numFull, limit);
      DraftConserves(b2, pool[1..], numFull, limit);
      FlattenPush(b, Chosen(b, numFull, limit), pool[0]);
      assert pool == [pool[0]] + pool[1..];
    }
  }

  /** The buckets of `balanceTeamsSnake` after the draft. */
  function SnakeBuckets(all: seq<Player>, courtA: Team, courtB: Team, queue: seq<Team>, limit: nat): (r: seq<seq<Player>>)
    requires limit > 0
    ensures |r| == BucketCount(|all|, limit, |queue| + 2)
  {
    var structure := [courtA, courtB] + queue;
    FloorBelowCeil(|all|, limit);
    Draft(InitialBuckets(Anchors(structure), BucketCount(|all|, limit, |structure|)),
      SnakePool(all, structure), FullTeams(|all|, limit), limit)
  }

  /** `balanceTeamsSnake`, drafted buckets turned back into courts and queue. */
  function SnakeLineup(all: seq<Player>, courtA: Team, courtB: Team, queue: seq<Team>, limit: nat, newId: nat -> string): Lineup
    requires limit > 0
  {
    Rebuild(SnakeBuckets(all, courtA, courtB, queue, limit), courtA, courtB, queue, newId, true)
  }

  /** `balanceTeamsSnake(allPlayers, currentCourtA, currentCourtB, currentQueue)`. */
  method BalanceTeamsSnake(all: seq<Player>, courtA: Team, courtB: Team, queue: seq<Team>, limit: nat, newId: nat -> string)
    returns (r: Lineup)
    requires limit > 0
    ensures r == SnakeLineup(all, courtA, courtB, queue, limit, newId)
  {
    var structure := [courtA, courtB] + queue;
    var anchors := Anchors(structure);
    var pool := SortBy(DropIds(all, IdSet(Flatten(anchors))), SkillDesc);
    var numFull := FullTeams(|all|, limit);
    var count := Max(2, Max(CeilDiv(|all|, limit), |structure|));
    var buckets := InitialBuckets(anchors, count);
    FloorBelowCeil(|all|, limit);
    ghost var drafted := Draft(buckets, pool, numFull, limit);
    assert drafted == SnakeBuckets(all, courtA, courtB, queue, limit);
    for i := 0 to |pool|
      invariant |buckets| == count
      invariant Draft(buckets, pool[i..], numFull, limit) == drafted
    {
      var k := ChooseBucket(buckets, numFull, limit);
      assert pool[i..][1..] == pool[i + 1..];
      buckets := buckets[k := buckets[k] + [pool[i]]];
    }
    assert pool[|pool|..] == [];
    assert buckets == drafted;
    var q := RebuildQueue(buckets, queue, newId, true);
    r := Lineup(courtA.(players := buckets[0]), courtB.(players := buckets[1]), q);
  }

  /** The draft keeps every anchor at the front of the bucket it occupies: courts A and B, queue team i. */
  lemma SnakeAnchorsStay(all: seq<Player>, courtA: Team, courtB: Team, queue: seq<Team>, limit: nat)
    requires limit > 0
    ensures var b := SnakeBuckets(all, courtA, courtB, queue, limit);
      var structure := [courtA, courtB] + queue;
      forall i :: 0 <= i < |structure| ==> Prefix(Fixed(structure[i].players), b[i])
  {
    var structure := [courtA, courtB] + queue;
    var anchors := Anchors(structure);
    var init := InitialBuckets(anchors, BucketCount(|all|, limit, |structure|));
    FloorBelowCeil(|all|, limit);
    DraftKeepsFronts(init, SnakePool(all, structure), FullTeams(|all|, limit), limit);
    forall i | 0 <= i < |structure| ensures init[i] == Fixed(structure[i].players) {
      assert anchors[i] == Fixed(structure[i].players);
    }
  }

  /** After the draft the buckets hold exactly the anchors and the free players. */
  lemma SnakeBucketsHold(all: seq<Player>, courtA: Team, courtB: Team, queue: seq<Team>, limit: nat)
    requires limit > 0
    ensures var structure := [courtA, courtB] + queue;
      multiset(Flatten(SnakeBuckets(all, courtA, courtB, queue, limit))) ==
        multiset(Flatten(Anchors(structure))) + multiset(DropIds(all, AnchorIds(structure)))
  {
    var structure := [courtA, courtB] + queue;
    var anchors := Anchors(structure);
    var init := InitialBuckets(anchors, BucketCount(|all|, limit, |structure|));
    FloorBelowCeil(|all|, limit);
    DraftConserves(init, SnakePool(all, structure), FullTeams(|all|, limit), limit);
    InitialFlatten(anchors, BucketCount(|all|, limit, |structure|));
  }

  /** Buckets started from the anchors hold just the anchors, when none lies beyond the last bucket. */
  lemma InitialFlatten(anchors: seq<seq<Player>>, count: nat)
    requires forall i :: count <= i < |anchors| ==> anchors[i] == []
    ensures Flatten(InitialBuckets(anchors, count)) == Flatten(anchors)
  {
    if count >= |anchors| {
      PaddedFlatten(anchors, count);
    } else {
      CutFlatten(anchors, count);
    }
  }

  lemma PaddedFlatten(anchors: seq<seq<Player>>, count: nat)
    requires count >= |anchors|
    ensures Flatten(InitialBuckets(anchors, count)) == Flatten(anchors)
  {
    var pad := NoBuckets(count - |anchors|);
    assert InitialBuckets(anchors, count) == anchors + pad;
    FlattenAppend(anchors, pad);
    EmptyFlatten(count - |anchors|);
  }

  lemma CutFlatten(anchors: seq<seq<Player>>, count: nat)
    requires count < |anchors|
    requires forall i :: count <= i < |anchors| ==> anchors[i] == []
    ensures Flatten(InitialBuckets(anchors, count)) == Flatten(anchors)
  {
    var head, tail := anchors[..count], anchors[count..];
    assert InitialBuckets(anchors, count) == head;
    assert anchors == head + tail;
    FlattenAppend(head, tail);
    EmptyTail(tail);
  }

  /**
   * The lineup holds exactly the anchors and every player of `allPlayers` whose id is not an
   * anchor's, each once; every queue team is non-empty and the courts keep their id and name.
   */
  lemma SnakeConserves(all: seq<Player>, courtA: Team, courtB: Team, queue: seq<Team>, limit: nat, newId: nat -> string)
    requires limit > 0
    ensures var r := SnakeLineup(all, courtA, courtB, queue, limit, newId);
      var structure := [courtA, courtB] + queue;
      multiset(r.courtA.players + r.courtB.players + AllPlayers(r.queue)) ==
        multiset(Flatten(Anchors(structure))) + multiset(DropIds(all, AnchorIds(structure))) &&
      (forall t :: t in r.queue ==> |t.players| > 0) &&
      r.courtA.id == courtA.id && r.courtA.name == courtA.name &&
      r.courtB.id == courtB.id && r.courtB.name == courtB.name
  {
    SnakeBucketsHold(all, courtA, courtB, queue, limit);
    RebuildKeepsPlayers(SnakeBuckets(all, courtA, courtB, queue, limit), courtA, courtB, queue, newId, true);
  }

  /** `n` empty buckets. */
  function NoBuckets(n: nat): (r: seq<seq<Player>>)
    ensures |r| == n && forall i :: 0 <= i < n ==> r[i] == []
  {
    seq(n, i => [])
  }

  lemma EmptyFlatten(n: nat)
    ensures Flatten(NoBuckets(n)) == []
  {
    EmptyTail(NoBuckets(n));
  }

  /** The pool is drafted strongest first: the sort puts it in descending skill order. */
  lemma SnakePoolOrdered(all: seq<Player>, structure: seq<Team>)
    ensures var pool := SnakePool(all, structure);
      multiset(pool) == multiset(DropIds(all, AnchorIds(structure))) &&
      forall i, j :: 0 <= i < j < |pool| ==> pool[i].skillLevel >= pool[j].skillLevel
  {
    SkillDescPreorder();
    SortBySorted(DropIds(all, AnchorIds(structure)), SkillDesc);
  }

  // ---------------------------------------------------------------------------------------------
  // distributeStandard: index-order refill

  /** The comparator `a.originalIndex - b.originalIndex`. */
  function IndexAsc(a: Player, b: Player): bool
  {
    a.originalIndex <= b.originalIndex
  }

  lemma IndexAscPreorder()
    ensures TotalPreorder(IndexAsc)
  {
  }

  /** The free pool of `distributeStandard`: players whose id is not an anchor's, by original index. */
  function IndexPool(all: seq<Player>, structure: seq<Team>): seq<Player>
  {
    SortBy(DropIds(all, AnchorIds(structure)), IndexAsc)
  }

  /** `maxAnchorIndex`: the last position with at least one anchor, -1 when there is none. */
  function LastAnchored(anchors: seq<seq<Player>>): (r: int)
    ensures -1 <= r < |anchors|
    ensures r >= 0 ==> anchors[r] != []
    ensures forall i :: r < i < |anchors| ==> anchors[i] == []
  {
    if anchors == [] then -1
    else if anchors[|anchors| - 1] != [] then |anchors| - 1
    else LastAnchored(anchors[..|anchors| - 1])
  }

  /** The `forEach` that computes `maxAnchorIndex`. */
  method MaxAnchorIndex(anchors: seq<seq<Player>>) returns (m: int)
    ensures m == LastAnchored(anchors)
  {
    m := -1;
    for idx := 0 to |anchors|
      invariant m == LastAnchored(anchors[..idx])
    {
      assert anchors[..idx + 1][..idx] == anchors[..idx];
      if anchors[idx] != [] {
        m := idx;
      }
    }
    assert anchors[..|anchors|] == anchors;
  }

  /** Bucket `i`, or an empty bucket beyond the end. */
  function Base(b: seq<seq<Player>>, i: nat): seq<Player>
  {
    if i < |b| then b[i] else []
  }

  /** `buckets[cur].push(p)`, creating bucket `cur` first when it is just past the end. */
  function Push(b: seq<seq<Player>>, cur: nat, p: Player): (r: seq<seq<Player>>)
    requires cur <= |b|
    ensures |r| == if cur == |b| then |b| + 1 else |b|
    ensures r[cur] == Base(b, cur) + [p]
    ensures forall i :: 0 <= i < |r| && i != cur ==> r[i] == b[i]
  {
    if cur == |b| then b + [[p]] else b[cur := b[cur] + [p]]
  }

  /** The fill loop from bucket `cur` on: a full bucket is passed over, otherwise it takes the next player. */
  function Fill(b: seq<seq<Player>>, cur: nat, pool: seq<Player>, limit: nat): (r: seq<seq<Player>>)
    requires cur <= |b| && limit > 0
    ensures |r| >= |b|
    decreases |pool|, |b| - cur
  {
    if pool == [] then b
    else if cur < |b| && |b[cur]| >= limit then Fill(b, cur + 1, pool, limit)
    else Fill(Push(b, cur, pool[0]), cur, pool[1..], limit)
  }

  /** What the fill added to the buckets from `i` on, bucket after bucket. */
  function Added(b: seq<seq<Player>>, r: seq<seq<Player>>, i: nat): seq<Player>
    decreases |r| - i
  {
    if i >= |r| then []
    else (if |Base(b, i)| <= |r[i]| then r[i][|Base(b, i)|..] else []) + Added(b, r, i + 1)
  }

  lemma {:induction false} AddedSame(b: seq<seq<Player>>, b2: seq<seq<Player>>, r: seq<seq<Player>>, i: nat)
    requires forall k :: i <= k < |r| ==> Base(b, k) == Base(b2, k)
    ensures Added(b, r, i) == Added(b2, r, i)
    decreases |r| - i
  {
    if i < |r| {
      AddedSame(b, b2, r, i + 1);
    }
  }

  /** The fill only appends: every bucket keeps its players at its front, and those before `cur` are untouched. */
  lemma {:induction false} FillKeepsFronts(b: seq<seq<Player>>, cur: nat, pool: seq<Player>, limit: nat)
    requires cur <= |b| && limit > 0
    ensures var r := Fill(b, cur, pool, limit);
      (forall i :: 0 <= i < |r| ==> Prefix(Base(b, i), r[i])) && (forall i :: 0 <= i < cur ==> r[i] == b[i])
    decreases |pool|, |b| - cur
  {
    if pool == [] {
    } else if cur < |b| && |b[cur]| >= limit {
      FillKeepsFronts(b, cur + 1, pool, limit);
    } else {
      var b2 := Push(b, cur, pool[0]);
      FillKeepsFronts(b2, cur, pool[1..], limit);
      var r := Fill(b, cur, pool, limit);
      forall i | 0 <= i < |r| ensures Prefix(Base(b, i), r[i]) {
        assert Prefix(Base(b2, i), r[i]);
        if i == cur {
          assert Base(b2, i)[..|Base(b, i)|] == Base(b, i);
        }
      }
    }
  }

  /** The fill adds the pool in order: the players added to the buckets, bucket after bucket, are the pool. */
  lemma {:induction false} FillKeepsOrder(b: seq<seq<Player>>, cur: nat, pool: seq<Player>, limit: nat)
    requires cur <= |b| && limit > 0
    ensures Added(b, Fill(b, cur, pool, limit), cur) == pool
    decreases |pool|, |b| - cur
  {
    var r := Fill(b, cur, pool, limit);
    if pool == [] {
      NothingAdded(b, cur);
    } else if cur < |b| && |b[cur]| >= limit {
      FillKeepsOrder(b, cur + 1, pool, limit);
      FillKeepsFronts(b, cur + 1, pool, limit);
      AddedSkip(b, r, cur);
    } else {
      var b2 := Push(b, cur, pool[0]);
      FillKeepsOrder(b2, cur, pool[1..], limit);
      FillKeepsFronts(b2, cur, pool[1..], limit);
      AddedPush(b, r, cur, pool[0]);
      assert pool == [pool[0]] + pool[1..];
    }
  }

  /** A bucket the fill passed over adds nothing. */
  lemma AddedSkip(b: seq<seq<Player>>, r: seq<seq<Player>>, cur: nat)
    requires cur < |b| && cur < |r| && r[cur] == b[cur]
    ensures Added(b, r, cur) == Added(b, r, cur + 1)
  {
    assert r[cur][|Base(b, cur)|..] == [];
  }

  /** A player pushed on bucket `cur` comes first among what the fill added from `cur` on. */
  lemma AddedPush(b: seq<seq<Player>>, r: seq<seq<Player>>, cur: nat, x: Player)
    requires cur <= |b| && cur < |r|
    requires Prefix(Base(Push(b, cur, x), cur), r[cur])
    ensures Added(b, r, cur) == [x] + Added(Push(b, cur, x), r, cur)
  {
    var b2 := Push(b, cur, x);
    var n := |Base(b, cur)|;
    assert Base(b2, cur) == Base(b, cur) + [x];
    var row := r[cur];
    assert n < |row| && row[n] == x by {
      assert row[..n + 1] == Base(b, cur) + [x];
      assert row[..n + 1][n] == x;
    }
    AddedTail(b, b2, r, cur);
    SplitAt(row, n, Added(b, r, cur + 1));
  }

  /** Past bucket `cur` the push changes nothing the fill added. */
  lemma AddedTail(b: seq<seq<Player>>, b2: seq<seq<Player>>, r: seq<seq<Player>>, cur: nat)
    requires cur < |r| && |b2| <= Max(|b|, cur + 1)
    requires forall k :: 0 <= k < |b2| && k != cur ==> k < |b| && b2[k] == b[k]
    requires |b| <= |b2|
    requires |Base(b, cur)| + 1 == |Base(b2, cur)| <= |r[cur]|
    ensures Added(b, r, cur) == r[cur][|Base(b, cur)|..] + Added(b, r, cur + 1)
    ensures Added(b2, r, cur) == r[cur][|Base(b, cur)| + 1..] + Added(b, r, cur + 1)
  {
    forall k | cur + 1 <= k < |r| ensures Base(b, k) == Base(b2, k) {
    }
    AddedSame(b, b2, r, cur + 1);
  }

  lemma SplitAt(row: seq<Player>, n: nat, rest: seq<Player>)
    requires n < |row|
    ensures row[n..] + rest == [row[n]] + (row[n + 1..] + rest)
  {
    assert row[n..] == [row[n]] + row[n + 1..];
  }

  lemma {:induction false} NothingAdded(b: seq<seq<Player>>, i: nat)
    ensures Added(b, b, i) == []
    decreases |b| - i
  {
    if i < |b| {
      NothingAdded(b, i + 1);
    }
  }

  /**
   * The fill goes left to right: a bucket takes players only while it holds fewer than `limit`,
   * and once a later bucket has taken players, every bucket from `cur` up to it is full.
   */
  lemma FillLeftToRight(b: seq<seq<Player>>, cur: nat, pool: seq<Player>, limit: nat)
    requires cur <= |b| && limit > 0
    ensures var r := Fill(b, cur, pool, limit);
      (forall i :: 0 <= i < |r| ==> |r[i]| <= Max(|Base(b, i)|, limit)) &&
      (forall i, j :: cur <= i < j < |r| && |r[j]| > |Base(b, j)| ==> |r[i]| >= limit)
  {
    FillBounded(b, cur, pool, limit);
    FillInOrder(b, cur, pool, limit);
  }

  /** No bucket is filled past `limit`, and one that already was takes nobody. */
  lemma {:induction false} FillBounded(b: seq<seq<Player>>, cur: nat, pool: seq<Player>, limit: nat)
    requires cur <= |b| && limit > 0
    ensures var r := Fill(b, cur, pool, limit);
      forall i :: 0 <= i < |r| ==> |r[i]| <= Max(|Base(b, i)|, limit)
    decreases |pool|, |b| - cur
  {
    var r := Fill(b, cur, pool, limit);
    if pool == [] {
    } else if cur < |b| && |b[cur]| >= limit {
      FillBounded(b, cur + 1, pool, limit);
    } else {
      var b2 := Push(b, cur, pool[0]);
      FillBounded(b2, cur, pool[1..], limit);
      forall i | 0 <= i < |r| ensures |r[i]| <= Max(|Base(b, i)|, limit) {
        if i == cur {
          assert |r[i]| <= Max(|Base(b2, i)|, limit);
        } else {
          assert Base(b2, i) == Base(b, i);
        }
      }
    }
  }

  /** A later bucket takes players only once every bucket from `cur` before it is full. */
  lemma {:induction false} FillInOrder(b: seq<seq<Player>>, cur: nat, pool: seq<Player>, limit: nat)
    requires cur <= |b| && limit > 0
    ensures var r := Fill(b, cur, pool, limit);
      forall i, j :: cur <= i < j < |r| && |r[j]| > |Base(b, j)| ==> |r[i]| >= limit
    decreases |pool|, |b| - cur
  {
    var r := Fill(b, cur, pool, limit);
    FillKeepsFronts(b, cur, pool, limit);
    if pool == [] {
    } else if cur < |b| && |b[cur]| >= limit {
      FillInOrder(b, cur + 1, pool, limit);
      assert r == Fill(b, cur + 1, pool, limit);
      forall i, j | cur <= i < j < |r| && |r[j]| > |Base(b, j)| ensures |r[i]| >= limit {
        if i == cur {
          assert Prefix(Base(b, i), r[i]);
        }
      }
    } else {
      var b2 := Push(b, cur, pool[0]);
      FillInOrder(b2, cur, pool[1..], limit);
      FillKeepsFronts(b2, cur, pool[1..], limit);
      forall i, j | cur <= i < j < |r| && |r[j]| > |Base(b, j)| ensures |r[i]| >= limit {
        assert Base(b2, j) == Base(b, j);
      }
    }
  }

  /** Fill conserves players: the buckets end up with their own players and the pool's. */
  lemma {:induction false} FillConserves(b: seq<seq<Player>>, cur: nat, pool: seq<Player>, limit: nat)
    requires cur <= |b| && limit > 0
    ensures multiset(Flatten(Fill(b, cur, pool, limit))) == multiset(Flatten(b)) + multiset(pool)
    decreases |pool|, |b| - cur
  {
    if pool == [] {
    } else if cur < |b| && |b[cur]| >= limit {
      FillConserves(b, cur + 1, pool, limit);
      assert Fill(b, cur, pool, limit) == Fill(b, cur + 1, pool, limit);
    } else {
      var b2, rest := Push(b, cur, pool[0]), pool[1..];
      assert Fill(b, cur, pool, limit) == Fill(b2, cur, rest, limit);
      FillConserves(b2, cur, rest, limit);
      PushConserves(b, cur, pool[0]);
      assert pool == [pool[0]] + rest;
      assert multiset(pool) == multiset{pool[0]} + multiset(rest);
    }
  }

  lemma PushConserves(b: seq<seq<Player>>, cur: nat, p: Player)
    requires cur <= |b|
    ensures multiset(Flatten(Push(b, cur, p))) == multiset(Flatten(b)) + multiset{p}
  {
    if cur == |b| {
      FlattenAppend(b, [[p]]);
      assert Flatten([[p]]) == [p];
    } else {
      FlattenPush(b, cur, p);
    }
  }

  /** The buckets of `distributeStandard` before the fill: anchors, up to the last anchored position. */
  function StandardStart(structure: seq<Team>): seq<seq<Player>>
  {
    InitialBuckets(Anchors(structure), Max(2, LastAnchored(Anchors(structure)) + 1))
  }

  /** The buckets of `distributeStandard` after the fill. */
  function StandardBuckets(all: seq<Player>, structure: seq<Team>, limit: nat): (r: seq<seq<Player>>)
    requires limit > 0
    ensures |r| >= 2
  {
    Fill(StandardStart(structure), 0, IndexPool(all, structure), limit)
  }

  function StandardLineup(all: seq<Player>, courtA: Team, courtB: Team, queue: seq<Team>, limit: nat, newId: nat -> string): Lineup
    requires limit > 0
  {
    Rebuild(StandardBuckets(all, [courtA, courtB] + queue, limit), courtA, courtB, queue, newId, false)
  }

  /** `distributeStandard(allPlayers, currentCourtA, currentCourtB, currentQueue)`. */
  method DistributeStandard(all: seq<Player>, courtA: Team, courtB: Team, queue: seq<Team>, limit: nat, newId: nat -> string)
    returns (r: Lineup)
    requires limit > 0
    ensures r == StandardLineup(all, courtA, courtB, queue, limit, newId)
  {
    var structure := [courtA, courtB] + queue;
    var anchors := Anchors(structure);
    var pool := SortBy(DropIds(all, IdSet(Flatten(anchors))), IndexAsc);
    var maxAnchorIndex := MaxAnchorIndex(anchors);
    var buckets := InitialBuckets(anchors, Max(2, maxAnchorIndex + 1));
    buckets := FillBuckets(buckets, pool, limit);
    var q := RebuildQueue(buckets, queue, newId, false);
    r := Lineup(courtA.(players := buckets[0]), courtB.(players := buckets[1]), q);
  }

  /** The `while (pool.length > 0)` loop of `distributeStandard`, which opens a bucket when it runs out. */
  method FillBuckets(start: seq<seq<Player>>, players: seq<Player>, limit: nat) returns (buckets: seq<seq<Player>>)
    requires limit > 0
    ensures buckets == Fill(start, 0, players, limit)
  {
    buckets := start;
    var pool := players;
    var cur := 0;
    while pool != []
      invariant cur <= |buckets|
      invariant Fill(buckets, cur, pool, limit) == Fill(start, 0, players, limit)
      decreases |pool|, |buckets| - cur
    {
      if cur == |buckets| {
        assert Push(buckets + [[]], cur, pool[0]) == Push(buckets, cur, pool[0]);
        buckets := buckets + [[]];
      }
      if |buckets[cur]| >= limit {
        FillSkip(buckets, cur, pool, limit);
        cur := cur + 1;
        continue;
      }
      FillTake(buckets, cur, pool, limit);
      buckets := buckets[cur := buckets[cur] + [pool[0]]];
      pool := pool[1..];
    }
  }

  lemma FillSkip(b: seq<seq<Player>>, cur: nat, pool: seq<Player>, limit: nat)
    requires cur < |b| && limit > 0 && pool != [] && |b[cur]| >= limit
    ensures Fill(b, cur, pool, limit) == Fill(b, cur + 1, pool, limit)
  {
  }

  lemma FillTake(b: seq<seq<Player>>, cur: nat, pool: seq<Player>, limit: nat)
    requires cur < |b| && limit > 0 && pool != [] && |b[cur]| < limit
    ensures Fill(b, cur, pool, limit) == Fill(b[cur := b[cur] + [pool[0]]], cur, pool[1..], limit)
  {
    assert Push(b, cur, pool[0]) == b[cur := b[cur] + [pool[0]]];
  }

  /**
   * `distributeStandard` keeps every anchor at the front of its bucket, adds the pool in
   * original-index order, bucket after bucket, never beyond `limit` in a bucket it fills, and
   * moves on to a bucket only once the ones before it are full.
   */
  lemma StandardShape(all: seq<Player>, structure: seq<Team>, limit: nat)
    requires limit > 0
    ensures var b := StandardBuckets(all, structure, limit);
      var start := StandardStart(structure);
      var pool := IndexPool(all, structure);
      (forall i :: 0 <= i < |structure| && Fixed(structure[i].players) != [] ==>
        i < |b| && Prefix(Fixed(structure[i].players), b[i])) &&
      Added(start, b, 0) == pool &&
      (forall i, j :: 0 <= i < j < |b| && |b[j]| > |Base(start, j)| ==> |b[i]| >= limit) &&
      (forall i :: 0 <= i < |b| ==> |b[i]| <= Max(|Base(start, i)|, limit))
  {
    StandardAnchors(all, structure, limit);
    StandardFill(all, structure, limit);
  }

  /** The anchor part of `StandardShape`. */
  lemma StandardAnchors(all: seq<Player>, structure: seq<Team>, limit: nat)
    requires limit > 0
    ensures var b := StandardBuckets(all, structure, limit);
      forall i :: 0 <= i < |structure| && Fixed(structure[i].players) != [] ==>
        i < |b| && Prefix(Fixed(structure[i].players), b[i])
  {
    var start := StandardStart(structure);
    var pool := IndexPool(all, structure);
    var b := Fill(start, 0, pool, limit);
    assert b == StandardBuckets(all, structure, limit);
    FillKeepsFronts(start, 0, pool, limit);
    StartFronts(structure);
    forall i | 0 <= i < |structure| && Fixed(structure[i].players) != []
      ensures i < |b| && Prefix(Fixed(structure[i].players), b[i])
    {
      assert i < |start| && Base(start, i) == Fixed(structure[i].players);
    }
  }

  /** The pool part of `StandardShape`. */
  lemma StandardFill(all: seq<Player>, structure: seq<Team>, limit: nat)
    requires limit > 0
    ensures var b := StandardBuckets(all, structure, limit);
      var start := StandardStart(structure);
      Added(start, b, 0) == IndexPool(all, structure) &&
      (forall i, j :: 0 <= i < j < |b| && |b[j]| > |Base(start, j)| ==> |b[i]| >= limit) &&
      (forall i :: 0 <= i < |b| ==> |b[i]| <= Max(|Base(start, i)|, limit))
  {
    var start := StandardStart(structure);
    var pool := IndexPool(all, structure);
    FillKeepsOrder(start, 0, pool, limit);
    FillLeftToRight(start, 0, pool, limit);
  }

  /** Every team with an anchor has its bucket in the start, holding exactly that anchor. */
  lemma StartFronts(structure: seq<Team>)
    ensures var start := StandardStart(structure);
      forall i :: 0 <= i < |structure| && Fixed(structure[i].players) != [] ==>
        i < |start| && Base(start, i) == Fixed(structure[i].players)
  {
    var anchors := Anchors(structure);
    forall i | 0 <= i < |structure| && Fixed(structure[i].players) != []
      ensures i <= LastAnchored(anchors)
    {
      assert anchors[i] != [];
    }
  }

  /** The pool of `distributeStandard` holds the free players sorted by original index. */
  lemma IndexPoolOrdered(all: seq<Player>, structure: seq<Team>)
    ensures var pool := IndexPool(all, structure);
      multiset(pool) == multiset(DropIds(all, AnchorIds(structure))) &&
      forall i, j :: 0 <= i < j < |pool| ==> pool[i].originalIndex <= pool[j].originalIndex
  {
    IndexAscPreorder();
    SortBySorted(DropIds(all, AnchorIds(structure)), IndexAsc);
  }

  /** After the fill the buckets of `distributeStandard` hold exactly the anchors and the free players. */
  lemma StandardBucketsHold(all: seq<Player>, structure: seq<Team>, limit: nat)
    requires limit > 0
    ensures multiset(Flatten(StandardBuckets(all, structure, limit))) ==
      multiset(Flatten(Anchors(structure))) + multiset(DropIds(all, AnchorIds(structure)))
  {
    var start := StandardStart(structure);
    var pool := IndexPool(all, structure);
    assert StandardBuckets(all, structure, limit) == Fill(start, 0, pool, limit);
    FillConserves(start, 0, pool, limit);
    StartHoldsAnchors(structure);
    IndexPoolOrdered(all, structure);
  }

  /** The lineup of `distributeStandard` holds exactly the anchors and the free players. */
  lemma StandardConserves(all: seq<Player>, courtA: Team, courtB: Team, queue: seq<Team>, limit: nat, newId: nat -> string)
    requires limit > 0
    ensures var r := StandardLineup(all, courtA, courtB, queue, limit, newId);
      var structure := [courtA, courtB] + queue;
      multiset(r.courtA.players + r.courtB.players + AllPlayers(r.queue)) ==
        multiset(Flatten(Anchors(structure))) + multiset(DropIds(all, AnchorIds(structure))) &&
      (forall t :: t in r.queue ==> |t.players| > 0)
  {
    StandardBucketsHold(all, [courtA, courtB] + queue, limit);
    RebuildKeepsPlayers(StandardBuckets(all, [courtA, courtB] + queue, limit), courtA, courtB, queue, newId, false);
  }

  /** The starting buckets hold every anchor: past the last anchored position there are none. */
  lemma StartHoldsAnchors(structure: seq<Team>)
    ensures Flatten(StandardStart(structure)) == Flatten(Anchors(structure))
  {
    var anchors := Anchors(structure);
    InitialFlatten(anchors, Max(2, LastAnchored(anchors) + 1));
  }

  lemma {:induction false} EmptyTail(bs: seq<seq<Player>>)
    requires forall i :: 0 <= i < |bs| ==> bs[i] == []
    ensures Flatten(bs) == []
  {
    if bs != [] {
      EmptyTail(bs[1..]);
    }
  }
}
