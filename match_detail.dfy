/**
 * The statistics of a stored match (`components/History/MatchDetail.tsx`): point totals per side,
 * per-player and per-team skill counts replayed from the action log, the player ranking and its top
 * scorer, and the set-by-set replay.
 */
module MatchDetail {
  import opened Types
  import opened Lists
  import Dict
  import opened HistoryStore

  /** The side a stats entry is shown on: `'A'`, `'B'` or `'Unknown'`. */
  datatype Side = SideA | SideB | SideUnknown

  function SideOf(t: TeamId): Side
  {
    if t == A then SideA else SideB
  }

  datatype Stat = Stat(id: string, name: string, team: Side, skillLevel: int, total: int, attack: int, block: int, ace: int)

  datatype TeamStat = TeamStat(attack: int, block: int, ace: int, errorGain: int)

  /** `{ playerStats, teamStats }` before the ranking: the `pStats` record and the two team counters. */
  datatype Stats = Stats(players: Dict.Entries<Stat>, teamA: TeamStat, teamB: TeamStat)

  // ---------------------------------------------------------------------------------------------
  // Point totals

  /** `sets.reduce((acc, s) => acc + s.scoreA, 0)`. */
  function TotalA(sets: seq<SetHistory>): int
  {
    if sets == [] then 0 else TotalA(sets[..|sets| - 1]) + sets[|sets| - 1].scoreA
  }

  function TotalB(sets: seq<SetHistory>): int
  {
    if sets == [] then 0 else TotalB(sets[..|sets| - 1]) + sets[|sets| - 1].scoreB
  }

  /** The totals add up set by set: the total of two runs of sets is the sum of their totals. */
  lemma {:induction false} TotalsAppend(s: seq<SetHistory>, t: seq<SetHistory>)
    ensures TotalA(s + t) == TotalA(s) + TotalA(t)
    ensures TotalB(s + t) == TotalB(s) + TotalB(t)
  {
    if t != [] {
      var u := t[..|t| - 1];
      TotalsAppend(s, u);
      assert (s + t)[..|s + t| - 1] == s + u;
    } else {
      assert s + t == s;
    }
  }

  // ---------------------------------------------------------------------------------------------
  // The counts the log determines

  /** A log entry credits `id`: a point that names it (an empty id is falsy and names no one). */
  predicate Credits(e: ActionLog, id: string)
  {
    e.Point? && e.playerId == Some(id) && id != ""
  }

  function PointsBy(log: seq<ActionLog>, id: string): nat
  {
    if log == [] then 0 else PointsBy(log[..|log| - 1], id) + if Credits(log[|log| - 1], id) then 1 else 0
  }

  function SkillBy(log: seq<ActionLog>, id: string, sk: SkillType): nat
  {
    if log == [] then 0
    else
      var e := log[|log| - 1];
      SkillBy(log[..|log| - 1], id, sk) + if Credits(e, id) && e.skill == Some(sk) then 1 else 0
  }

  /** Points of one side with one skill, whoever scored them. */
  function TeamSkill(log: seq<ActionLog>, t: TeamId, sk: SkillType): nat
  {
    if log == [] then 0
    else
      var e := log[|log| - 1];
      TeamSkill(log[..|log| - 1], t, sk) + if e.Point? && e.team == t && e.skill == Some(sk) then 1 else 0
  }

  /** The side of the first point that credits `id`. */
  function FirstCreditSide(log: seq<ActionLog>, id: string): Option<TeamId>
  {
    if log == [] then None
    else
      var first := FirstCreditSide(log[..|log| - 1], id);
      if first.Some? then first else if Credits(log[|log| - 1], id) then Some(log[|log| - 1].team) else None
  }

  /** A player's attacks, blocks and aces are among its points. */
  lemma {:induction false} SkillsWithinPoints(log: seq<ActionLog>, id: string)
    ensures SkillBy(log, id, Attack) + SkillBy(log, id, Block) + SkillBy(log, id, Ace) <= PointsBy(log, id)
  {
    if log != [] {
      SkillsWithinPoints(log[..|log| - 1], id);
    }
  }

  /** A player has a first crediting point exactly when it has points. */
  lemma {:induction false} FirstCreditExists(log: seq<ActionLog>, id: string)
    ensures FirstCreditSide(log, id).Some? <==> PointsBy(log, id) > 0
  {
    if log != [] {
      FirstCreditExists(log[..|log| - 1], id);
    }
  }

  // ---------------------------------------------------------------------------------------------
  // The replay of the log

  /** The entry for a logged id the rosters do not know. */
  function Stranger(id: string, t: TeamId): Stat
  {
    if id == "unknown" then Stat(id, "Unknown Player", SideUnknown, 0, 0, 0, 0, 0)
    else Stat(id, "Ghost Player", SideOf(t), 0, 0, 0, 0, 0)
  }

  function Inc(b: bool): int { if b then 1 else 0 }

  /** A player's entry after a point with this skill: one more point, and one more of that skill. */
  function Scored(s: Stat, skill: Option<SkillType>): Stat
  {
    s.(
      total := s.total + 1,
      attack := s.attack + Inc(skill == Some(Attack)),
      block := s.block + Inc(skill == Some(Block)),
      ace := s.ace + Inc(skill == Some(Ace)))
  }

  /** The team counter after a point with this skill. */
  function CountSkill(ts: TeamStat, skill: Option<SkillType>): TeamStat
  {
    if skill == Some(Attack) then ts.(attack := ts.attack + 1)
    else if skill == Some(Block) then ts.(block := ts.block + 1)
    else if skill == Some(Ace) then ts.(ace := ts.ace + 1)
    else if skill == Some(OpponentError) then ts.(errorGain := ts.errorGain + 1)
    else ts
  }

  /** One iteration of `logs.forEach`. */
  function Step(st: Stats, e: ActionLog): Stats
  {
    if !e.Point? then st
    else
      var teams := if e.team == A then st.(teamA := CountSkill(st.teamA, e.skill)) else st.(teamB := CountSkill(st.teamB, e.skill));
      if e.playerId.None? || e.playerId.value == "" then teams
      else
        var id := e.playerId.value;
        var found := Dict.Get(st.players, id);
        var current := if found.Some? then found.value else Stranger(id, e.team);
        var updated := Scored(current, e.skill);
        teams.(players := Dict.Set(st.players, id, updated))
  }

  function Replay(st: Stats, log: seq<ActionLog>): Stats
  {
    if log == [] then st else Step(Replay(st, log[..|log| - 1]), log[|log| - 1])
  }

  /** A roster entry before any point: zero counts. */
  predicate Zeroed(es: Dict.Entries<Stat>)
  {
    forall i :: 0 <= i < |es| ==> es[i].1.total == 0 && es[i].1.attack == 0 && es[i].1.block == 0 && es[i].1.ace == 0
  }

  function Counts(s: Stat): (int, int, int, int)
  {
    (s.total, s.attack, s.block, s.ace)
  }

  /** A stat with its counts cleared: what is left is who the entry is about. */
  function Who(s: Stat): Stat
  {
    s.(total := 0, attack := 0, block := 0, ace := 0)
  }

  lemma ReplayDistinct(st: Stats, log: seq<ActionLog>)
    requires Dict.DistinctKeys(st.players)
    ensures Dict.DistinctKeys(Replay(st, log).players)
  {
    if log != [] {
      var prev := Replay(st, log[..|log| - 1]);
      ReplayDistinct(st, log[..|log| - 1]);
      var e := log[|log| - 1];
      if e.Point? && e.playerId.Some? && e.playerId.value != "" {
        var id := e.playerId.value;
        var found := Dict.Get(prev.players, id);
        var current := if found.Some? then found.value else Stranger(id, e.team);
        var updated := Scored(current, e.skill);
        Dict.SetGet(prev.players, id, updated, id);
      }
    }
  }

  /**
   * What the replay of `log` leaves under `id` in `es`, started from the roster entries `roster`:
   * an entry exactly when the rosters listed the id or a point credits it; counts equal to the
   * points crediting it and to those with each skill; for a rostered id, the roster's entry
   * otherwise; for any other, "Unknown Player" on no side for the id `unknown`, and otherwise
   * "Ghost Player" on the side of its first point.
   */
  predicate EntryOk(roster: Dict.Entries<Stat>, log: seq<ActionLog>, es: Dict.Entries<Stat>, id: string)
  {
    var g := Dict.Get(es, id);
    (g.Some? <==> Dict.HasKey(roster, id) || PointsBy(log, id) > 0) &&
    (g.Some? ==> Counts(g.value) == (PointsBy(log, id), SkillBy(log, id, Attack), SkillBy(log, id, Block), SkillBy(log, id, Ace))) &&
    (g.Some? && Dict.HasKey(roster, id) ==> Who(g.value) == Dict.Get(roster, id).value) &&
    (g.Some? && !Dict.HasKey(roster, id) ==>
      FirstCreditSide(log, id).Some? && Who(g.value) == Stranger(id, FirstCreditSide(log, id).value))
  }

  /** Every id's entry after the replay is as `EntryOk` describes. */
  lemma {:induction false} ReplayAt(st: Stats, log: seq<ActionLog>, id: string)
    requires Dict.DistinctKeys(st.players) && Zeroed(st.players)
    ensures EntryOk(st.players, log, Replay(st, log).players, id)
  {
    if log == [] {
      var g := Dict.Get(st.players, id);
      if g.Some? {
        var k := Dict.KeyIndex(st.players, id);
        assert g.value == st.players[k].1;
      }
    } else {
      var init := log[..|log| - 1];
      var e := log[|log| - 1];
      var prev := Replay(st, init);
      ReplayAt(st, init, id);
      ReplayDistinct(st, init);
      if Credits(e, id) {
        StepSelf(st.players, log, init, e, prev, id);
      } else {
        StepOther(st.players, log, init, e, prev, id);
      }
    }
  }

  /** A step that credits `id` adds one point to its entry, opening a stranger's entry when there is none. */
  lemma StepSelf(roster: Dict.Entries<Stat>, log: seq<ActionLog>, init: seq<ActionLog>, e: ActionLog, prev: Stats, id: string)
    requires log != [] && init == log[..|log| - 1] && e == log[|log| - 1]
    requires Credits(e, id) && Dict.DistinctKeys(prev.players) && EntryOk(roster, init, prev.players, id)
    ensures EntryOk(roster, log, Step(prev, e).players, id)
  {
    if Dict.Get(prev.players, id).Some? {
      StepSelfKnown(roster, log, init, e, prev, id);
    } else {
      StepSelfNew(roster, log, init, e, prev, id);
    }
  }

  lemma StepSelfKnown(roster: Dict.Entries<Stat>, log: seq<ActionLog>, init: seq<ActionLog>, e: ActionLog, prev: Stats, id: string)
    requires log != [] && init == log[..|log| - 1] && e == log[|log| - 1]
    requires Credits(e, id) && Dict.DistinctKeys(prev.players) && EntryOk(roster, init, prev.players, id)
    requires Dict.Get(prev.players, id).Some?
    ensures EntryOk(roster, log, Step(prev, e).players, id)
  {
    var updated := Scored(Dict.Get(prev.players, id).value, e.skill);
    StepPlayers(prev, e, id, updated);
    Dict.SetGet(prev.players, id, updated, id);
    FirstCreditExists(init, id);
  }

  lemma StepSelfNew(roster: Dict.Entries<Stat>, log: seq<ActionLog>, init: seq<ActionLog>, e: ActionLog, prev: Stats, id: string)
    requires log != [] && init == log[..|log| - 1] && e == log[|log| - 1]
    requires Credits(e, id) && Dict.DistinctKeys(prev.players) && EntryOk(roster, init, prev.players, id)
    requires Dict.Get(prev.players, id).None?
    ensures EntryOk(roster, log, Step(prev, e).players, id)
  {
    var updated := Scored(Stranger(id, e.team), e.skill);
    StepPlayers(prev, e, id, updated);
    Dict.SetGet(prev.players, id, updated, id);
    FirstCreditExists(init, id);
    SkillsWithinPoints(init, id);
  }

  /** A step that does not credit `id` leaves its entry alone. */
  lemma StepOther(roster: Dict.Entries<Stat>, log: seq<ActionLog>, init: seq<ActionLog>, e: ActionLog, prev: Stats, id: string)
    requires log != [] && init == log[..|log| - 1] && e == log[|log| - 1]
    requires !Credits(e, id) && Dict.DistinctKeys(prev.players) && EntryOk(roster, init, prev.players, id)
    ensures EntryOk(roster, log, Step(prev, e).players, id)
  {
    if e.Point? && e.playerId.Some? && e.playerId.value != "" {
      var pid := e.playerId.value;
      var found := Dict.Get(prev.players, pid);
      var current := if found.Some? then found.value else Stranger(pid, e.team);
      var updated := Scored(current, e.skill);
      StepPlayers(prev, e, pid, updated);
      Dict.SetGet(prev.players, pid, updated, id);
    } else {
      assert Step(prev, e).players == prev.players;
    }
  }

  /** The players of a step that credits `pid`, named so the proofs need not unfold the step. */
  lemma StepPlayers(prev: Stats, e: ActionLog, pid: string, updated: Stat)
    requires e.Point? && e.playerId == Some(pid) && pid != ""
    requires var found := Dict.Get(prev.players, pid);
      var current := if found.Some? then found.value else Stranger(pid, e.team);
      updated == Scored(current, e.skill)
    ensures Step(prev, e).players == Dict.Set(prev.players, pid, updated)
  {
  }

  /** Each team counter counts the points of its side with its skill, whoever scored them. */
  lemma {:induction false} ReplayTeams(st: Stats, log: seq<ActionLog>)
    ensures Replay(st, log).teamA == TeamStat(
      st.teamA.attack + TeamSkill(log, A, Attack), st.teamA.block + TeamSkill(log, A, Block),
      st.teamA.ace + TeamSkill(log, A, Ace), st.teamA.errorGain + TeamSkill(log, A, OpponentError))
    ensures Replay(st, log).teamB == TeamStat(
      st.teamB.attack + TeamSkill(log, B, Attack), st.teamB.block + TeamSkill(log, B, Block),
      st.teamB.ace + TeamSkill(log, B, Ace), st.teamB.errorGain + TeamSkill(log, B, OpponentError))
  {
    if log != [] {
      ReplayTeams(st, log[..|log| - 1]);
    }
  }

  // ---------------------------------------------------------------------------------------------
  // The roster entries

  function RosterEntry(p: Player, side: Side): Stat
  {
    Stat(p.id, p.name, side, p.skillLevel, 0, 0, 0, 0)
  }

  /** `players.forEach(p => { pStats[p.id] = { ... } })`. */
  function Seed(es: Dict.Entries<Stat>, ps: seq<Player>, side: Side): Dict.Entries<Stat>
  {
    if ps == [] then es
    else
      var p := ps[|ps| - 1];
      Dict.Set(Seed(es, ps[..|ps| - 1], side), p.id, RosterEntry(p, side))
  }

  function RosterPlayers(t: Option<Team>): seq<Player>
  {
    if t.None? then [] else t.value.players
  }

  /** The record after both rosters are entered: A's players, then B's. */
  function Roster(m: Match): Dict.Entries<Stat>
  {
    Seed(Seed([], RosterPlayers(m.teamARoster), SideA), RosterPlayers(m.teamBRoster), SideB)
  }

  /** Seeding keeps keys distinct and counts zero. */
  lemma {:induction false} SeedZeroed(es: Dict.Entries<Stat>, ps: seq<Player>, side: Side)
    requires Dict.DistinctKeys(es) && Zeroed(es)
    ensures Dict.DistinctKeys(Seed(es, ps, side)) && Zeroed(Seed(es, ps, side))
  {
    if ps != [] {
      var p := ps[|ps| - 1];
      var prev := Seed(es, ps[..|ps| - 1], side);
      SeedZeroed(es, ps[..|ps| - 1], side);
      Dict.SetGet(prev, p.id, RosterEntry(p, side), p.id);
      var r := Seed(es, ps, side);
      forall i | 0 <= i < |r|
        ensures r[i].1.total == 0 && r[i].1.attack == 0 && r[i].1.block == 0 && r[i].1.ace == 0
      {
        if i < |prev| && prev[i].0 != p.id {
          assert r[i] == prev[i];
        } else if i < |prev| {
          var k := Dict.KeyIndex(prev, p.id);
          assert r == prev[k := (p.id, RosterEntry(p, side))];
        }
      }
    }
  }

  /** What seeding `ps` into `es` leaves under `id` in `r`: a new entry exactly for the roster's ids, from one of its players. */
  predicate SeedOk(es: Dict.Entries<Stat>, ps: seq<Player>, side: Side, r: Dict.Entries<Stat>, id: string)
  {
    (Dict.HasKey(r, id) <==> Dict.HasKey(es, id) || HasPlayer(ps, id)) &&
    (HasPlayer(ps, id) ==> exists i :: 0 <= i < |ps| && Dict.Get(r, id) == Some(RosterEntry(ps[i], side))) &&
    (!HasPlayer(ps, id) ==> Dict.Get(r, id) == Dict.Get(es, id))
  }

  /** Seeding adds exactly the roster's ids, each with the entry of one of its players on this side. */
  lemma {:induction false} SeedAt(es: Dict.Entries<Stat>, ps: seq<Player>, side: Side, id: string)
    requires Dict.DistinctKeys(es) && Zeroed(es)
    ensures SeedOk(es, ps, side, Seed(es, ps, side), id)
  {
    if ps != [] {
      var init := ps[..|ps| - 1];
      SeedAt(es, init, side, id);
      SeedZeroed(es, init, side);
      SeedStep(es, ps, side, id, Seed(es, init, side));
    }
  }

  lemma SeedStep(es: Dict.Entries<Stat>, ps: seq<Player>, side: Side, id: string, prev: Dict.Entries<Stat>)
    requires ps != [] && Dict.DistinctKeys(prev) && SeedOk(es, ps[..|ps| - 1], side, prev, id)
    ensures SeedOk(es, ps, side, Dict.Set(prev, ps[|ps| - 1].id, RosterEntry(ps[|ps| - 1], side)), id)
  {
    var init := ps[..|ps| - 1];
    var p := ps[|ps| - 1];
    var r := Dict.Set(prev, p.id, RosterEntry(p, side));
    Dict.SetGet(prev, p.id, RosterEntry(p, side), id);
    if HasPlayer(init, id) && p.id != id {
      var i :| 0 <= i < |init| && Dict.Get(prev, id) == Some(RosterEntry(init[i], side));
      assert init[i] == ps[i];
    }
    if HasPlayer(ps, id) && p.id != id {
      var i :| 0 <= i < |ps| && ps[i].id == id;
      assert i < |init| && init[i] == ps[i];
    }
    if HasPlayer(init, id) {
      var i :| 0 <= i < |init| && init[i].id == id;
      assert init[i] == ps[i];
    }
    if p.id == id {
      assert Dict.Get(r, id) == Some(RosterEntry(ps[|ps| - 1], side));
    }
  }

  /** Every rostered player has an entry, on B when B lists it and otherwise on A, with zero counts. */
  lemma RosterAt(m: Match, id: string)
    ensures var r := Roster(m);
      Dict.DistinctKeys(r) && Zeroed(r) &&
      (Dict.HasKey(r, id) <==> HasPlayer(RosterPlayers(m.teamARoster), id) || HasPlayer(RosterPlayers(m.teamBRoster), id)) &&
      (HasPlayer(RosterPlayers(m.teamBRoster), id) ==> Dict.Get(r, id).value.team == SideB) &&
      (HasPlayer(RosterPlayers(m.teamARoster), id) && !HasPlayer(RosterPlayers(m.teamBRoster), id) ==>
        Dict.Get(r, id).value.team == SideA)
  {
    var a := Seed([], RosterPlayers(m.teamARoster), SideA);
    SeedZeroed([], RosterPlayers(m.teamARoster), SideA);
    SeedZeroed(a, RosterPlayers(m.teamBRoster), SideB);
    SeedAt([], RosterPlayers(m.teamARoster), SideA, id);
    SeedAt(a, RosterPlayers(m.teamBRoster), SideB, id);
  }

  // ---------------------------------------------------------------------------------------------
  // The memo

  const NoCounts := TeamStat(0, 0, 0, 0)

  function LogOf(m: Match): seq<ActionLog>
  {
    if m.actionLog.None? then [] else m.actionLog.value
  }

  /** The aggregate the memo builds: the roster entries, then the replay of the match's log. */
  function Aggregate(m: Match): Stats
  {
    Replay(Stats(Roster(m), NoCounts, NoCounts), LogOf(m))
  }

  /**
   * Every rostered player has an entry, with zero counts when no point credits it; any other id has
   * one exactly when a point credits it. Each entry counts the points crediting it and those with
   * each skill, so its attacks, blocks and aces never exceed its points.
   */
  lemma PlayerEntry(m: Match, id: string)
    ensures var g := Dict.Get(Aggregate(m).players, id);
      var rostered := HasPlayer(RosterPlayers(m.teamARoster), id) || HasPlayer(RosterPlayers(m.teamBRoster), id);
      (g.Some? <==> rostered || PointsBy(LogOf(m), id) > 0) &&
      (g.Some? ==> Counts(g.value) == (PointsBy(LogOf(m), id), SkillBy(LogOf(m), id, Attack), SkillBy(LogOf(m), id, Block), SkillBy(LogOf(m), id, Ace))) &&
      (g.Some? ==> g.value.attack + g.value.block + g.value.ace <= g.value.total) &&
      (g.Some? && rostered ==> Dict.Get(Roster(m), id) == Some(Who(g.value))) &&
      (g.Some? && !rostered ==> (FirstCreditSide(LogOf(m), id).Some? &&
        Who(g.value) == Stranger(id, FirstCreditSide(LogOf(m), id).value)))
  {
    RosterAt(m, id);
    ReplayAt(Stats(Roster(m), NoCounts, NoCounts), LogOf(m), id);
    SkillsWithinPoints(LogOf(m), id);
  }

  /** The team counters count every point of their side by skill, with or without a player. */
  lemma TeamCounters(m: Match)
    ensures var log := LogOf(m);
      Aggregate(m).teamA == TeamStat(TeamSkill(log, A, Attack), TeamSkill(log, A, Block), TeamSkill(log, A, Ace), TeamSkill(log, A, OpponentError)) &&
      Aggregate(m).teamB == TeamStat(TeamSkill(log, B, Attack), TeamSkill(log, B, Block), TeamSkill(log, B, Ace), TeamSkill(log, B, OpponentError))
  {
    ReplayTeams(Stats(Roster(m), NoCounts, NoCounts), LogOf(m));
  }

  /**
   * The ranking comparator: more points first, then `collate(a.name, b.name) <= 0`, where
   * `collate` stands for `localeCompare`.
   */
  function ByPoints(collate: (string, string) -> int): (Stat, Stat) -> bool
  {
    (a: Stat, b: Stat) => a.total > b.total || (a.total == b.total && collate(a.name, b.name) <= 0)
  }

  /** A collation orders all names consistently. */
  ghost predicate Collation(collate: (string, string) -> int)
  {
    (forall x, y :: collate(x, y) <= 0 || collate(y, x) <= 0) &&
    (forall x, y, z :: collate(x, y) <= 0 && collate(y, z) <= 0 ==> collate(x, z) <= 0)
  }

  lemma ByPointsPreorder(collate: (string, string) -> int)
    requires Collation(collate)
    ensures TotalPreorder(ByPoints(collate))
  {
    var le := ByPoints(collate);
    forall x, y
      ensures le(x, y) || le(y, x)
    {
      assert collate(x.name, y.name) <= 0 || collate(y.name, x.name) <= 0;
    }
    forall x, y, z | le(x, y) && le(y, z)
      ensures le(x, z)
    {
      assert collate(x.name, y.name) <= 0 && collate(y.name, z.name) <= 0 ==> collate(x.name, z.name) <= 0;
    }
  }

  /** `playerStats`: the entries' values sorted by the comparator. */
  function PlayerStats(m: Match, collate: (string, string) -> int): seq<Stat>
  {
    SortBy(Dict.Values(Aggregate(m).players), ByPoints(collate))
  }

  /** `topScorer`: the first ranked player when it has points. */
  function TopScorer(ranked: seq<Stat>): Option<Stat>
  {
    if |ranked| > 0 && ranked[0].total > 0 then Some(ranked[0]) else None
  }

  /**
   * The ranking lists every entry once, by points descending and names in collation order on
   * ties; the top scorer has no fewer points than anyone, and there is none exactly when no
   * entry has points.
   */
  lemma RankingOrder(m: Match, collate: (string, string) -> int)
    requires Collation(collate)
    ensures var ranked := PlayerStats(m, collate);
      multiset(ranked) == multiset(Dict.Values(Aggregate(m).players)) &&
      (forall i, j :: 0 <= i < j < |ranked| ==> ranked[i].total >= ranked[j].total) &&
      (forall i, j :: 0 <= i < j < |ranked| && ranked[i].total == ranked[j].total ==> collate(ranked[i].name, ranked[j].name) <= 0) &&
      (TopScorer(ranked).Some? ==> forall i :: 0 <= i < |ranked| ==> ranked[i].total <= TopScorer(ranked).value.total) &&
      (TopScorer(ranked).None? <==> forall i :: 0 <= i < |ranked| ==> ranked[i].total <= 0)
  {
    var ranked := PlayerStats(m, collate);
    ByPointsPreorder(collate);
    SortBySorted(Dict.Values(Aggregate(m).players), ByPoints(collate));
    assert forall j :: 0 < j < |ranked| ==> ByPoints(collate)(ranked[0], ranked[j]);
  }

  /** One roster's `forEach`, entering each player with zero counts. */
  method SeedRoster(es: Dict.Entries<Stat>, ps: seq<Player>, side: Side) returns (r: Dict.Entries<Stat>)
    ensures r == Seed(es, ps, side)
  {
    r := es;
    var i := 0;
    while i < |ps|
      invariant 0 <= i <= |ps|
      invariant r == Seed(es, ps[..i], side)
    {
      assert ps[..i + 1][..i] == ps[..i];
      r := Dict.Set(r, ps[i].id, RosterEntry(ps[i], side));
      i := i + 1;
    }
    assert ps[..i] == ps;
  }

  /** The log's `forEach`. */
  method ReplayLog(st: Stats, log: seq<ActionLog>) returns (r: Stats)
    ensures r == Replay(st, log)
  {
    r := st;
    var i := 0;
    while i < |log|
      invariant 0 <= i <= |log|
      invariant r == Replay(st, log[..i])
    {
      assert log[..i + 1][..i] == log[..i];
      r := Step(r, log[i]);
      i := i + 1;
    }
    assert log[..i] == log;
  }

  /** The `useMemo` body: the two roster loops, the log loop and the sort. */
  method ComputeStats(m: Match, collate: (string, string) -> int) returns (playerStats: seq<Stat>, teamA: TeamStat, teamB: TeamStat)
    ensures playerStats == PlayerStats(m, collate)
    ensures teamA == Aggregate(m).teamA && teamB == Aggregate(m).teamB
  {
    var pStats := SeedRoster([], RosterPlayers(m.teamARoster), SideA);
    pStats := SeedRoster(pStats, RosterPlayers(m.teamBRoster), SideB);
    var st := ReplayLog(Stats(pStats, NoCounts, NoCounts), LogOf(m));
    playerStats := SortBy(Dict.Values(st.players), ByPoints(collate));
    teamA, teamB := st.teamA, st.teamB;
  }

  // ---------------------------------------------------------------------------------------------
  // The set replay

  function WinsA(sets: seq<SetHistory>): (n: nat)
    ensures n <= |sets|
  {
    if sets == [] then 0 else WinsA(sets[..|sets| - 1]) + if sets[|sets| - 1].winner == A then 1 else 0
  }

  function WinsB(sets: seq<SetHistory>): (n: nat)
    ensures n <= |sets|
  {
    if sets == [] then 0 else WinsB(sets[..|sets| - 1]) + if sets[|sets| - 1].winner == B then 1 else 0
  }

  lemma {:induction false} WinsSplit(sets: seq<SetHistory>)
    ensures WinsA(sets) + WinsB(sets) == |sets|
  {
    if sets != [] {
      WinsSplit(sets[..|sets| - 1]);
    }
  }

  /**
   * `replayStats`: the sets each side had won once set `replayIndex` was over; the count covers
   * `replayIndex + 1` sets, and nothing at the start position -1.
   */
  method ReplayStats(sets: seq<SetHistory>, replayIndex: int) returns (setsA: int, setsB: int)
    requires -1 <= replayIndex < |sets|
    ensures replayIndex == -1 ==> setsA == 0 && setsB == 0
    ensures setsA == WinsA(sets[..replayIndex + 1]) && setsB == WinsB(sets[..replayIndex + 1])
    ensures setsA + setsB == replayIndex + 1
  {
    setsA, setsB := 0, 0;
    if replayIndex == -1 {
      return;
    }
    var i := 0;
    while i <= replayIndex
      invariant 0 <= i <= replayIndex + 1
      invariant setsA == WinsA(sets[..i]) && setsB == WinsB(sets[..i])
    {
      assert sets[..i + 1][..i] == sets[..i];
      if sets[i].winner == A {
        setsA := setsA + 1;
      } else {
        setsB := setsB + 1;
      }
      i := i + 1;
    }
    WinsSplit(sets[..replayIndex + 1]);
  }

  /** The previous-set button: `Math.max(-1, prev - 1)`. */
  function PrevSet(i: int): int
  {
    Max(-1, i - 1)
  }

  /** The next-set button: `Math.min(sets.length - 1, prev + 1)`. */
  function NextSet(i: int, n: nat): int
  {
    Min(n - 1, i + 1)
  }

  /**
   * The buttons keep the replay position in [-1, sets.length - 1]; away from the ends, one step
   * forward and one back (or back and forward) return to where the replay was.
   */
  lemma ReplayButtons(i: int, n: nat)
    requires -1 <= i <= n - 1
    ensures -1 <= PrevSet(i) <= n - 1 && -1 <= NextSet(i, n) <= n - 1
    ensures i < n - 1 ==> PrevSet(NextSet(i, n)) == i
    ensures i > -1 ==> NextSet(PrevSet(i), n) == i
  {
  }
}
