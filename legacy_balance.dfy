/**
 * The team-building half of the older `src/utils/balanceUtils.ts`: the three-argument
 * `balanceTeamsSnake` and `distributeStandard`. Only courts A and B are balanced; players beyond
 * them go to the queue in order. Buckets are numbered as in the newer module: bucket 0 is court
 * A, bucket 1 court B, bucket i >= 2 a queue team. The court limit `PLAYER_LIMIT_ON_COURT` is the
 * parameter `limit`, `PLAYERS_PER_TEAM` is `perTeam`, and `uuidv4` is the fresh-id supply `newId`.
 */
module LegacyBalance {
  import opened Types
  import opened Lists
  import opened JsString
  import opened PlayerQueue
  import opened Balance

  // ---------------------------------------------------------------------------------------------
  // balanceTeamsSnake (three arguments)

  /** The pool comparator: stronger first, and between equals the lower `originalIndex` first. */
  function SkillThenIndex(a: Player, b: Player): bool
  {
    a.skillLevel > b.skillLevel || (a.skillLevel == b.skillLevel && a.originalIndex <= b.originalIndex)
  }

  lemma SkillThenIndexPreorder()
    ensures TotalPreorder(SkillThenIndex)
  {
  }

  /** The free pool: every unfixed player of `allPlayers`, sorted. */
  function DraftPool(all: seq<Player>): seq<Player>
  {
    SortBy(Unfixed(all), SkillThenIndex)
  }

  /**
   * The pool holds exactly the unfixed players and is drafted in descending skill order, equal
   * skills by ascending `originalIndex`.
   */
  lemma DraftPoolOrdered(all: seq<Player>)
    ensures var pool := DraftPool(all);
      multiset(pool) == multiset(Unfixed(all)) &&
      (forall x :: x in pool ==> !x.isFixed) &&
      forall i, j :: 0 <= i < j < |pool| ==>
        pool[i].skillLevel > pool[j].skillLevel ||
        (pool[i].skillLevel == pool[j].skillLevel && pool[i].originalIndex <= pool[j].originalIndex)
  {
    SkillThenIndexPreorder();
    SortBySorted(Unfixed(all), SkillThenIndex);
    var pool := DraftPool(all);
    forall x | x in pool ensures !x.isFixed {
      assert x in multiset(Unfixed(all));
    }
  }

  /** `Math.ceil(n / limit)` is more than one exactly when `n` exceeds `limit`. */
  lemma MoreThanOneTeam(n: nat, limit: nat)
    requires limit > 0
    ensures CeilDiv(n, limit) > 1 <==> n > limit
  {
    var x := n + limit - 1;
    var c, m := x / limit, x % limit;
    assert x == c * limit + m && 0 <= m < limit;
    if c >= 2 {
      MulAtLeastTwo(c, limit);
    }
  }

  lemma MulAtLeastTwo(c: int, limit: nat)
    requires c >= 2
    ensures c * limit >= 2 * limit
  {
    assert c * limit == 2 * limit + (c - 2) * limit;
  }

  /** `teamBuckets` before the draft: court A's anchors, court B's anchors when more than one team is needed, then empty buckets. */
  function StartBuckets(fixedA: seq<Player>, fixedB: seq<Player>, needed: nat): (r: seq<seq<Player>>)
    ensures |r| == Max(1, needed) && r[0] == fixedA
    ensures needed > 1 ==> r[1] == fixedB
    ensures forall i :: 2 <= i < |r| ==> r[i] == []
  {
    if needed > 1 then [fixedA, fixedB] + NoBuckets(needed - 2) else [fixedA]
  }

  lemma StartFlatten(fixedA: seq<Player>, fixedB: seq<Player>, needed: nat)
    ensures Flatten(StartBuckets(fixedA, fixedB, needed)) == fixedA + (if needed > 1 then fixedB else [])
  {
    var b := StartBuckets(fixedA, fixedB, needed);
    if needed > 1 {
      FlattenFirstTwo(b);
      EmptyTail(b[2..|b|]);
    } else {
      assert b[1..] == [];
    }
  }

  /**
   * The inner queue loop: the first bucket from `from` up to `needed - 1` with room, or -1 when
   * every one of them is full.
   */
  function QueueRoom(b: seq<seq<Player>>, from: nat, needed: nat, limit: nat): (r: int)
    requires needed <= |b|
    ensures r == -1 ==> forall i :: from <= i < needed ==> |b[i]| >= limit
    ensures r != -1 ==> from <= r < needed && |b[r]| < limit && forall i :: from <= i < r ==> |b[i]| >= limit
    decreases needed - from
  {
    if from >= needed then -1
    else if |b[from]| < limit then from
    else QueueRoom(b, from + 1, needed, limit)
  }

  /**
   * The bucket the next player joins: the weaker court with room (court A on equal totals), the
   * only court with room, the first queue bucket with room, or else a new bucket at the end.
   * Only buckets below `needed` count as courts or queue buckets.
   */
  function Target(b: seq<seq<Player>>, needed: nat, limit: nat): (k: nat)
    requires 1 <= |b| && needed <= |b|
    ensures k <= |b|
  {
    var open0 := needed > 0 && |b[0]| < limit;
    var open1 := needed > 1 && |b[1]| < limit;
    if open0 && open1 then (if TotalSkill(b[1]) < TotalSkill(b[0]) then 1 else 0)
    else if open0 then 0
    else if open1 then 1
    else
      var q := QueueRoom(b, 2, needed, limit);
      if q >= 0 then q else |b|
  }

  /** A court (a bucket below `min(2, needed)`) has room. */
  predicate CourtRoom(b: seq<seq<Player>>, needed: nat, limit: nat)
    requires needed <= |b|
  {
    exists j :: 0 <= j < Min(2, needed) && |b[j]| < limit
  }

  /**
   * The draft step: while a court has room, the player joins a court with room whose total skill
   * is least, court A winning ties; once both are full, the first queue bucket with room; when
   * every bucket is full, a new bucket past the end.
   */
  lemma TargetRule(b: seq<seq<Player>>, needed: nat, limit: nat)
    requires 1 <= |b| && needed <= |b|
    ensures var k := Target(b, needed, limit);
      (CourtRoom(b, needed, limit) ==>
        k < Min(2, needed) && |b[k]| < limit &&
        forall j :: 0 <= j < Min(2, needed) && |b[j]| < limit ==>
          TotalSkill(b[k]) <= TotalSkill(b[j]) && (j < k ==> TotalSkill(b[j]) > TotalSkill(b[k]))) &&
      (!CourtRoom(b, needed, limit) && k < |b| ==>
        2 <= k < needed && |b[k]| < limit && forall j :: 2 <= j < k ==> |b[j]| >= limit) &&
      (!CourtRoom(b, needed, limit) && k == |b| ==> forall j :: 0 <= j < needed ==> |b[j]| >= limit)
  {
  }

  /** The draft of the whole pool, one player after the other. */
  function SnakeDraft(b: seq<seq<Player>>, pool: seq<Player>, needed: nat, limit: nat): (r: seq<seq<Player>>)
    requires 1 <= |b| && needed <= |b|
    ensures |r| >= |b|
    decreases |pool|
  {
    if pool == [] then b
    else SnakeDraft(Push(b, Target(b, needed, limit), pool[0]), pool[1..], needed, limit)
  }

  /** Drafting adds exactly the pool's players to the buckets. */
  lemma {:induction false} SnakeDraftConserves(b: seq<seq<Player>>, pool: seq<Player>, needed: nat, limit: nat)
    requires 1 <= |b| && needed <= |b|
    ensures multiset(Flatten(SnakeDraft(b, pool, needed, limit))) == multiset(Flatten(b)) + multiset(pool)
    decreases |pool|
  {
    if pool != [] {
      var k := Target(b, needed, limit);
      var b2 := Push(b, k, pool[0]);
      SnakeDraftConserves(b2, pool[1..], needed, limit);
      PushConserves(b, k, pool[0]);
      assert pool == [pool[0]] + pool[1..];
    }
  }

  /** Drafting only appends: every bucket keeps its previous players at its front. */
  lemma {:induction false} SnakeDraftKeepsFronts(b: seq<seq<Player>>, pool: seq<Player>, needed: nat, limit: nat)
    requires 1 <= |b| && needed <= |b|
    ensures forall i :: 0 <= i < |b| ==> Prefix(b[i], SnakeDraft(b, pool, needed, limit)[i])
    decreases |pool|
  {
    if pool != [] {
      var k := Target(b, needed, limit);
      var b2 := Push(b, k, pool[0]);
      SnakeDraftKeepsFronts(b2, pool[1..], needed, limit);
      forall i | 0 <= i < |b| ensures Prefix(b[i], SnakeDraft(b, pool, needed, limit)[i]) {
        var d := SnakeDraft(b, pool, needed, limit)[i];
        assert Prefix(b2[i], d);
        assert b2[i][..|b[i]|] == b[i];
      }
    }
  }

  /** The number of teams the three-argument draft works with: `Math.ceil(totalPlayers / courtLimit)`. */
  function Needed(all: seq<Player>, courtA: Team, courtB: Team, limit: nat): nat
    requires limit > 0
  {
    CeilDiv(|Fixed(courtA.players)| + |Fixed(courtB.players)| + |Unfixed(all)|, limit)
  }

  /** The buckets of the three-argument `balanceTeamsSnake` after the draft. */
  function LegacySnakeBuckets(all: seq<Player>, courtA: Team, courtB: Team, limit: nat): (r: seq<seq<Player>>)
    requires limit > 0
    ensures |r| >= 1
  {
    var needed := Needed(all, courtA, courtB, limit);
    SnakeDraft(StartBuckets(Fixed(courtA.players), Fixed(courtB.players), needed), DraftPool(all), needed, limit)
  }

  /** The buckets with an empty court B bucket added when only court A's exists (`teamBuckets[1] || []`). */
  function Padded(b: seq<seq<Player>>): (r: seq<seq<Player>>)
    ensures |r| == Max(2, |b|)
    ensures Flatten(r) == Flatten(b)
    ensures forall i :: 0 <= i < |b| ==> r[i] == b[i]
    ensures |b| < 2 ==> r[1] == []
  {
    if |b| < 2 then
      FlattenAppend(b, NoBuckets(2 - |b|));
      EmptyFlatten(2 - |b|);
      b + NoBuckets(2 - |b|)
    else b
  }

  /**
   * The three-argument `balanceTeamsSnake`: courts keep their id, name and colour; every
   * non-empty bucket from 2 on becomes a queue team with a fresh id and the name "Team i+1".
   */
  function LegacySnakeLineup(all: seq<Player>, courtA: Team, courtB: Team, limit: nat, newId: nat -> string): Lineup
    requires limit > 0
  {
    Rebuild(Padded(LegacySnakeBuckets(all, courtA, courtB, limit)), courtA, courtB, [], newId, false)
  }

  /**
   * The lineup holds court A's fixed players, court B's fixed players only when the players do
   * not fit on one court, and every unfixed player of `allPlayers`, each once; queue teams are
   * non-empty and the courts keep their id and name. Fixed players of the queue are dropped.
   */
  lemma LegacySnakeConserves(all: seq<Player>, courtA: Team, courtB: Team, limit: nat, newId: nat -> string)
    requires limit > 0
    ensures var r := LegacySnakeLineup(all, courtA, courtB, limit, newId);
      var fa, fb := Fixed(courtA.players), Fixed(courtB.players);
      multiset(r.courtA.players + r.courtB.players + AllPlayers(r.queue)) ==
        multiset(fa) + multiset(if |fa| + |fb| + |Unfixed(all)| > limit then fb else []) + multiset(Unfixed(all)) &&
      (forall t :: t in r.queue ==> |t.players| > 0) &&
      r.courtA.id == courtA.id && r.courtA.name == courtA.name &&
      r.courtB.id == courtB.id && r.courtB.name == courtB.name
  {
    var b := Padded(LegacySnakeBuckets(all, courtA, courtB, limit));
    RebuildKeepsPlayers(b, courtA, courtB, [], newId, false);
    LegacySnakeBucketsHold(all, courtA, courtB, limit);
  }

  /** The drafted buckets hold court A's anchors, court B's when needed, and the pool. */
  lemma LegacySnakeBucketsHold(all: seq<Player>, courtA: Team, courtB: Team, limit: nat)
    requires limit > 0
    ensures var fa, fb := Fixed(courtA.players), Fixed(courtB.players);
      multiset(Flatten(LegacySnakeBuckets(all, courtA, courtB, limit))) ==
        multiset(fa) + multiset(if |fa| + |fb| + |Unfixed(all)| > limit then fb else []) + multiset(Unfixed(all))
  {
    var fa, fb := Fixed(courtA.players), Fixed(courtB.players);
    var total := |fa| + |fb| + |Unfixed(all)|;
    var needed := Needed(all, courtA, courtB, limit);
    assert needed == CeilDiv(total, limit);
    MoreThanOneTeam(total, limit);
    assert needed > 1 <==> total > limit;
    var start := StartBuckets(fa, fb, needed);
    var pool := DraftPool(all);
    StartFlatten(fa, fb, needed);
    SnakeDraftConserves(start, pool, needed, limit);
    assert multiset(pool) == multiset(Unfixed(all));
    var extra := if needed > 1 then fb else [];
    assert multiset(Flatten(start)) == multiset(fa) + multiset(extra);
    assert extra == if total > limit then fb else [];
    assert LegacySnakeBuckets(all, courtA, courtB, limit) == SnakeDraft(start, pool, needed, limit);
  }

  /** Bucket `i` after the draft still starts with what it held before. */
  lemma SnakeDraftKeepsFront(b: seq<seq<Player>>, pool: seq<Player>, needed: nat, limit: nat, i: nat)
    requires 1 <= |b| && needed <= |b| && i < |b|
    ensures Prefix(b[i], SnakeDraft(b, pool, needed, limit)[i])
  {
    SnakeDraftKeepsFronts(b, pool, needed, limit);
  }

  /**
   * Court A's fixed players open court A; court B's open court B when the players do not fit on
   * one court.
   */
  lemma LegacySnakeAnchorsStay(all: seq<Player>, courtA: Team, courtB: Team, limit: nat, newId: nat -> string)
    requires limit > 0
    ensures var r := LegacySnakeLineup(all, courtA, courtB, limit, newId);
      var fa, fb := Fixed(courtA.players), Fixed(courtB.players);
      Prefix(fa, r.courtA.players) &&
      (|fa| + |fb| + |Unfixed(all)| > limit ==> Prefix(fb, r.courtB.players))
  {
    var b := LegacySnakeBuckets(all, courtA, courtB, limit);
    LegacySnakeFronts(all, courtA, courtB, limit);
    var r := LegacySnakeLineup(all, courtA, courtB, limit, newId);
    assert r.courtA.players == Padded(b)[0] == b[0];
    if |b| > 1 {
      assert r.courtB.players == Padded(b)[1] == b[1];
    }
  }

  /** The drafted buckets 0 and 1 open with court A's and, when needed, court B's fixed players. */
  lemma LegacySnakeFronts(all: seq<Player>, courtA: Team, courtB: Team, limit: nat)
    requires limit > 0
    ensures var b := LegacySnakeBuckets(all, courtA, courtB, limit);
      var fa, fb := Fixed(courtA.players), Fixed(courtB.players);
      Prefix(fa, b[0]) &&
      (|fa| + |fb| + |Unfixed(all)| > limit ==> |b| > 1 && Prefix(fb, b[1]))
  {
    var fa, fb := Fixed(courtA.players), Fixed(courtB.players);
    var n := |fa| + |fb| + |Unfixed(all)|;
    var needed := Needed(all, courtA, courtB, limit);
    assert needed == CeilDiv(n, limit);
    MoreThanOneTeam(n, limit);
    assert n > limit ==> needed > 1;
    var b := SnakeDraft(StartBuckets(fa, fb, needed), DraftPool(all), needed, limit);
    assert LegacySnakeBuckets(all, courtA, courtB, limit) == b;
    DraftFronts(fa, fb, DraftPool(all), needed, limit);
  }

  /** Drafting from the start buckets keeps court A's anchors, and court B's when there are two courts, in front. */
  lemma DraftFronts(fa: seq<Player>, fb: seq<Player>, pool: seq<Player>, needed: nat, limit: nat)
    ensures var b := SnakeDraft(StartBuckets(fa, fb, needed), pool, needed, limit);
      Prefix(fa, b[0]) && (needed > 1 ==> |b| > 1 && Prefix(fb, b[1]))
  {
    var start := StartBuckets(fa, fb, needed);
    SnakeDraftKeepsFront(start, pool, needed, limit, 0);
    if needed > 1 {
      SnakeDraftKeepsFront(start, pool, needed, limit, 1);
    }
  }

  /** Every queue team is a non-empty bucket `i >= 2` under the fresh id `newId(i)` and the name "Team i+1". */
  lemma {:induction false} RebuiltQueueNames(b: seq<seq<Player>>, n: nat, newId: nat -> string)
    requires n <= |b|
    ensures forall t :: t in RebuiltQueue(b, n, [], newId, false) ==>
      exists i :: 2 <= i < n && t == Team(newId(i), "Team " + NatToString(i + 1), "", b[i]) && b[i] != []
  {
    if n > 2 {
      RebuiltQueueNames(b, n - 1, newId);
    }
  }

  /** The queue of the three-argument draft: bucket `i >= 2` becomes the team "Team i+1" with a fresh id. */
  lemma LegacySnakeQueueNames(all: seq<Player>, courtA: Team, courtB: Team, limit: nat, newId: nat -> string)
    requires limit > 0
    ensures var r := LegacySnakeLineup(all, courtA, courtB, limit, newId);
      forall t :: t in r.queue ==> exists i :: 2 <= i && t.id == newId(i) && t.name == "Team " + NatToString(i + 1) && t.players != []
  {
    var b := Padded(LegacySnakeBuckets(all, courtA, courtB, limit));
    RebuiltQueueNames(b, |b|, newId);
  }

  /** The queue loop of lines 89-95: the first queue bucket below `needed` with room, or -1. */
  method FindQueueRoom(b: seq<seq<Player>>, needed: nat, limit: nat) returns (r: int)
    requires needed <= |b|
    ensures r == QueueRoom(b, 2, needed, limit)
  {
    r := -1;
    var i := 2;
    while i < needed
      invariant 2 <= i && (needed >= 2 ==> i <= needed)
      invariant QueueRoom(b, i, needed, limit) == QueueRoom(b, 2, needed, limit)
    {
      if |b[i]| < limit {
        r := i;
        return;
      }
      i := i + 1;
    }
  }

  /** One iteration of the draft loop (lines 75-101): the bucket the player joins. */
  method ChooseTarget(b: seq<seq<Player>>, needed: nat, limit: nat) returns (k: nat)
    requires 1 <= |b| && needed <= |b|
    ensures k == Target(b, needed, limit)
  {
    var valid: seq<nat> := [];
    if needed > 0 && |b[0]| < limit {
      valid := valid + [0];
    }
    if needed > 1 && |b[1]| < limit {
      valid := valid + [1];
    }
    if |valid| == 2 {
      k := if TotalSkill(b[1]) < TotalSkill(b[0]) then 1 else 0;
    } else if |valid| == 1 {
      k := valid[0];
    } else {
      var q := FindQueueRoom(b, needed, limit);
      k := if q >= 0 then q else |b|;
    }
  }

  /** The three-argument `balanceTeamsSnake` as the code runs it. */
  method LegacyBalanceTeamsSnake(all: seq<Player>, courtA: Team, courtB: Team, limit: nat, newId: nat -> string)
    returns (r: Lineup)
    requires limit > 0
    ensures r == LegacySnakeLineup(all, courtA, courtB, limit, newId)
  {
    var fixedInA := Fixed(courtA.players);
    var fixedInB := Fixed(courtB.players);
    var pool := SortBy(Unfixed(all), SkillThenIndex);
    var totalTeamsNeeded := CeilDiv(|fixedInA| + |fixedInB| + |pool|, limit);
    assert pool == DraftPool(all);
    assert totalTeamsNeeded == Needed(all, courtA, courtB, limit);
    var buckets := StartBuckets(fixedInA, fixedInB, totalTeamsNeeded);
    buckets := DraftAll(buckets, pool, totalTeamsNeeded, limit);
    assert buckets == LegacySnakeBuckets(all, courtA, courtB, limit);
    buckets := Padded(buckets);
    var queue := RebuildQueue(buckets, [], newId, false);
    r := Lineup(courtA.(players := buckets[0]), courtB.(players := buckets[1]), queue);
  }

  /** The draft loop of lines 75-101: each pool player in turn joins the bucket `Target` picks. */
  method DraftAll(start: seq<seq<Player>>, pool: seq<Player>, needed: nat, limit: nat) returns (buckets: seq<seq<Player>>)
    requires 1 <= |start| && needed <= |start|
    ensures buckets == SnakeDraft(start, pool, needed, limit)
  {
    buckets := start;
    for idx := 0 to |pool|
      invariant 1 <= |buckets| && needed <= |buckets|
      invariant SnakeDraft(buckets, pool[idx..], needed, limit) == SnakeDraft(start, pool, needed, limit)
    {
      assert pool[idx..][1..] == pool[idx + 1..];
      var k := ChooseTarget(buckets, needed, limit);
      buckets := Push(buckets, k, pool[idx]);
    }
  }

  // ---------------------------------------------------------------------------------------------
  // distributeStandard (three arguments)

  /** The name of the `k`-th queue chunk, counting from 1: "Team 3", "Team 4", … */
  function ChunkName(k: nat): string
  {
    "Team " + NatToString(k + 2)
  }

  /**
   * The older `distributeStandard`: every player, fixed or not, sorted by `originalIndex`; court A
   * takes the first `limit`, court B the next `limit`, and the rest is cut into queue teams of
   * `perTeam`.
   */
  function LegacyDistribute(all: seq<Player>, courtA: Team, courtB: Team, limit: nat, perTeam: nat, newId: nat -> string): Lineup
    requires perTeam > 0
  {
    var sorted := SortBy(all, IndexAsc);
    var a := Min(limit, |sorted|);
    var b := Min(2 * limit, |sorted|);
    Lineup(courtA.(players := sorted[..a]), courtB.(players := sorted[a..b]), Chunks(sorted[b..], perTeam, 0, newId, ChunkName, 0))
  }

  lemma {:induction false} ChunksNames(rest: seq<Player>, perTeam: nat, k: nat, newId: nat -> string, teamName: nat -> string, base: nat)
    requires perTeam > 0
    ensures forall j :: 0 <= j < |Chunks(rest, perTeam, k, newId, teamName, base)| ==>
      Chunks(rest, perTeam, k, newId, teamName, base)[j].name == teamName(k + j + 1) &&
      Chunks(rest, perTeam, k, newId, teamName, base)[j].id == newId(base + k + j)
    decreases |rest|
  {
    if rest != [] {
      var n := Min(perTeam, |rest|);
      ChunksNames(rest[n..], perTeam, k + 1, newId, teamName, base);
      var c := Chunks(rest, perTeam, k, newId, teamName, base);
      var tail := Chunks(rest[n..], perTeam, k + 1, newId, teamName, base);
      assert c == [c[0]] + tail;
      forall j | 1 <= j < |c| ensures c[j].name == teamName(k + j + 1) && c[j].id == newId(base + k + j) {
        assert c[j] == tail[j - 1];
      }
    }
  }

  /** The players of the lineup, court A, court B and the queue teams one after the other, are the sorted players. */
  lemma LegacyDistributeConcat(all: seq<Player>, courtA: Team, courtB: Team, limit: nat, perTeam: nat, newId: nat -> string)
    requires perTeam > 0
    ensures var r := LegacyDistribute(all, courtA, courtB, limit, perTeam, newId);
      r.courtA.players + r.courtB.players + AllPlayers(r.queue) == SortBy(all, IndexAsc)
  {
    var sorted := SortBy(all, IndexAsc);
    var a := Min(limit, |sorted|);
    var b := Min(2 * limit, |sorted|);
    var r := LegacyDistribute(all, courtA, courtB, limit, perTeam, newId);
    var q := Chunks(sorted[b..], perTeam, 0, newId, ChunkName, 0);
    assert r.courtA.players == sorted[..a] && r.courtB.players == sorted[a..b] && r.queue == q;
    ChunksPlayers(sorted[b..], perTeam, 0, newId, ChunkName, 0);
    ThreeParts(sorted, a, b);
  }

  /**
   * Courts A and B and the queue teams, one after the other, list every player exactly once in
   * ascending `originalIndex`, fixed players included.
   */
  lemma LegacyDistributeOrder(all: seq<Player>, courtA: Team, courtB: Team, limit: nat, perTeam: nat, newId: nat -> string)
    requires perTeam > 0
    ensures var r := LegacyDistribute(all, courtA, courtB, limit, perTeam, newId);
      var s := r.courtA.players + r.courtB.players + AllPlayers(r.queue);
      multiset(s) == multiset(all) &&
      forall i, j :: 0 <= i < j < |s| ==> s[i].originalIndex <= s[j].originalIndex
  {
    LegacyDistributeConcat(all, courtA, courtB, limit, perTeam, newId);
    IndexAscPreorder();
    SortBySorted(all, IndexAsc);
  }

  /**
   * Court A takes `min(limit, n)` players and court B at most `limit`; the queue teams are
   * non-empty, hold at most `perTeam` each, and are named "Team 3", "Team 4", … in order; the
   * courts keep their id and name.
   */
  lemma LegacyDistributeSizes(all: seq<Player>, courtA: Team, courtB: Team, limit: nat, perTeam: nat, newId: nat -> string)
    requires perTeam > 0
    ensures var r := LegacyDistribute(all, courtA, courtB, limit, perTeam, newId);
      |r.courtA.players| == Min(limit, |all|) && |r.courtB.players| <= limit &&
      (forall k :: 0 <= k < |r.queue| ==> 0 < |r.queue[k].players| <= perTeam && r.queue[k].name == "Team " + NatToString(k + 3)) &&
      r.courtA.id == courtA.id && r.courtA.name == courtA.name &&
      r.courtB.id == courtB.id && r.courtB.name == courtB.name
  {
    var sorted := SortBy(all, IndexAsc);
    var b := Min(2 * limit, |sorted|);
    ChunksShape(sorted[b..], perTeam, 0, newId, ChunkName, 0);
    ChunksNames(sorted[b..], perTeam, 0, newId, ChunkName, 0);
  }

  /** The chunking loop of lines 137-143: queue teams of `perTeam`, named from "Team 3" on. */
  method CutQueue(remaining: seq<Player>, perTeam: nat, newId: nat -> string) returns (queueTeams: seq<Team>)
    requires perTeam > 0
    ensures queueTeams == Chunks(remaining, perTeam, 0, newId, ChunkName, 0)
  {
    queueTeams := [];
    var qIdx := 1;
    var i := 0;
    assert remaining[Min(0, |remaining|)..] == remaining;
    while i < |remaining|
      invariant CutSoFar(remaining, perTeam, newId, queueTeams, qIdx, i)
      decreases |remaining| - i
    {
      var chunk := remaining[i..Min(i + perTeam, |remaining|)];
      CutNext(remaining, perTeam, newId, queueTeams, qIdx, i);
      queueTeams := queueTeams + [Team(newId(qIdx - 1), "Team " + NatToString(qIdx + 2), "", chunk)];
      qIdx := qIdx + 1;
      i := i + perTeam;
    }
    CutDone(remaining, perTeam, newId, queueTeams, qIdx, i);
  }

  /** The invariant of the chunking loop: the teams cut so far and the chunks of the rest are the chunks of all. */
  ghost predicate CutSoFar(remaining: seq<Player>, perTeam: nat, newId: nat -> string, queueTeams: seq<Team>, qIdx: int, i: int)
    requires perTeam > 0
  {
    0 <= i && qIdx >= 1 &&
    queueTeams + Chunks(remaining[Min(i, |remaining|)..], perTeam, qIdx - 1, newId, ChunkName, 0) ==
      Chunks(remaining, perTeam, 0, newId, ChunkName, 0)
  }

  /** Cutting the next chunk keeps the invariant. */
  lemma CutNext(remaining: seq<Player>, perTeam: nat, newId: nat -> string, queueTeams: seq<Team>, qIdx: int, i: int)
    requires perTeam > 0 && CutSoFar(remaining, perTeam, newId, queueTeams, qIdx, i) && i < |remaining|
    ensures CutSoFar(remaining, perTeam, newId,
      queueTeams + [Team(newId(qIdx - 1), "Team " + NatToString(qIdx + 2), "", remaining[i..Min(i + perTeam, |remaining|)])],
      qIdx + 1, i + perTeam)
  {
    var end := Min(i + perTeam, |remaining|);
    var t := Team(newId(qIdx - 1), "Team " + NatToString(qIdx + 2), "", remaining[i..end]);
    assert Min(i, |remaining|) == i;
    assert Min(i + perTeam, |remaining|) == end;
    ChunkStep(remaining, i, perTeam, qIdx - 1, newId);
    assert (queueTeams + [t]) + Chunks(remaining[end..], perTeam, qIdx, newId, ChunkName, 0) ==
      queueTeams + ([t] + Chunks(remaining[end..], perTeam, qIdx, newId, ChunkName, 0));
  }

  /** When the loop stops, the teams cut are all the chunks. */
  lemma CutDone(remaining: seq<Player>, perTeam: nat, newId: nat -> string, queueTeams: seq<Team>, qIdx: int, i: int)
    requires perTeam > 0 && CutSoFar(remaining, perTeam, newId, queueTeams, qIdx, i) && i >= |remaining|
    ensures queueTeams == Chunks(remaining, perTeam, 0, newId, ChunkName, 0)
  {
    assert remaining[Min(i, |remaining|)..] == [];
    assert queueTeams + [] == queueTeams;
  }

  /** One chunk cut at position `i`. */
  lemma ChunkStep(remaining: seq<Player>, i: nat, perTeam: nat, k: nat, newId: nat -> string)
    requires perTeam > 0 && i < |remaining|
    ensures var end := Min(i + perTeam, |remaining|);
      Chunks(remaining[i..], perTeam, k, newId, ChunkName, 0) ==
        [Team(newId(k), "Team " + NatToString(k + 3), "", remaining[i..end])] +
        Chunks(remaining[end..], perTeam, k + 1, newId, ChunkName, 0)
  {
    var end := Min(i + perTeam, |remaining|);
    assert remaining[i..][..Min(perTeam, |remaining[i..]|)] == remaining[i..end];
    assert remaining[i..][Min(perTeam, |remaining[i..]|)..] == remaining[end..];
    assert ChunkName(k + 1) == "Team " + NatToString(k + 3);
  }

  /** The older `distributeStandard` as the code runs it. */
  method LegacyDistributeStandard(all: seq<Player>, courtA: Team, courtB: Team, limit: nat, perTeam: nat, newId: nat -> string)
    returns (r: Lineup)
    requires perTeam > 0
    ensures r == LegacyDistribute(all, courtA, courtB, limit, perTeam, newId)
  {
    var sorted := SortBy(all, IndexAsc);
    var teamAPlayers := sorted[..Min(limit, |sorted|)];
    var teamBPlayers := sorted[Min(limit, |sorted|)..Min(2 * limit, |sorted|)];
    var remaining := sorted[Min(2 * limit, |sorted|)..];
    var queueTeams := CutQueue(remaining, perTeam, newId);
    r := Lineup(courtA.(players := teamAPlayers), courtB.(players := teamBPlayers), queueTeams);
  }
}
