/**
 * The most valuable player of a match (`hooks/useMvp.ts`, computed the same way by the match-over
 * dialog): the rostered player credited with the most points, the first to score on ties.
 */
module Mvp {
  import opened Types
  import opened Lists
  import Dict

  datatype MvpData = MvpData(name: string, totalPoints: int, team: TeamId)

  /** A player's name and side, as the roster lookup holds them. */
  datatype Info = Info(name: string, team: TeamId)

  /** A running tally: `{ totalPoints, name, team }`. */
  datatype Tally = Tally(total: int, name: string, team: TeamId)

  // ---------------------------------------------------------------------------------------------
  // The roster lookup

  /** `players.forEach(p => playerMap.set(p.id, { name: p.name, team }))` applied to `m`. */
  function Enter(m: map<string, Info>, ps: seq<Player>, team: TeamId): map<string, Info>
  {
    if ps == [] then m
    else
      var last := ps[|ps| - 1];
      Enter(m, ps[..|ps| - 1], team)[last.id := Info(last.name, team)]
  }

  /** Team A's players entered first, then team B's, so an id on both rosters is B's. */
  function PlayerMap(a: Team, b: Team): map<string, Info>
  {
    Enter(Enter(map[], a.players, A), b.players, B)
  }

  /** Entering a roster adds exactly its ids, each with the name of its last occurrence and this side. */
  lemma {:induction false} EnterFacts(m: map<string, Info>, ps: seq<Player>, team: TeamId, id: string)
    ensures var r := Enter(m, ps, team);
      (id in r <==> id in m || HasPlayer(ps, id)) &&
      (HasPlayer(ps, id) ==> exists i :: 0 <= i < |ps| && ps[i].id == id && r[id] == Info(ps[i].name, team)) &&
      (!HasPlayer(ps, id) && id in m ==> r[id] == m[id])
  {
    if ps != [] {
      var init := ps[..|ps| - 1];
      EnterFacts(m, init, team, id);
      assert forall i :: 0 <= i < |init| ==> init[i] == ps[i];
      if HasPlayer(init, id) && ps[|ps| - 1].id != id {
        var i :| 0 <= i < |init| && init[i].id == id && Enter(m, init, team)[id] == Info(init[i].name, team);
        assert ps[i].id == id;
      }
      if HasPlayer(ps, id) && ps[|ps| - 1].id != id {
        var i :| 0 <= i < |ps| && ps[i].id == id;
        assert init[i].id == id;
      }
    }
  }

  /** The lookup knows exactly the rostered ids; a player on B is B's, one only on A is A's, named as a roster names it. */
  lemma PlayerMapTeams(a: Team, b: Team, id: string)
    ensures var m := PlayerMap(a, b);
      (id in m <==> HasPlayer(a.players, id) || HasPlayer(b.players, id)) &&
      (HasPlayer(b.players, id) ==>
        m[id].team == B && exists i :: 0 <= i < |b.players| && b.players[i].id == id && m[id].name == b.players[i].name) &&
      (HasPlayer(a.players, id) && !HasPlayer(b.players, id) ==>
        m[id].team == A && exists i :: 0 <= i < |a.players| && a.players[i].id == id && m[id].name == a.players[i].name)
  {
    EnterFacts(map[], a.players, A, id);
    EnterFacts(Enter(map[], a.players, A), b.players, B, id);
  }

  /** The two `forEach` loops that fill the roster lookup. */
  method BuildPlayerMap(a: Team, b: Team) returns (m: map<string, Info>)
    ensures m == PlayerMap(a, b)
  {
    m := map[];
    var i := 0;
    while i < |a.players|
      invariant 0 <= i <= |a.players|
      invariant m == Enter(map[], a.players[..i], A)
    {
      assert a.players[..i + 1][..i] == a.players[..i];
      m := m[a.players[i].id := Info(a.players[i].name, A)];
      i := i + 1;
    }
    assert a.players[..i] == a.players;
    ghost var afterA := m;
    i := 0;
    while i < |b.players|
      invariant 0 <= i <= |b.players|
      invariant m == Enter(afterA, b.players[..i], B)
    {
      assert b.players[..i + 1][..i] == b.players[..i];
      m := m[b.players[i].id := Info(b.players[i].name, B)];
      i := i + 1;
    }
    assert b.players[..i] == b.players;
  }

  // ---------------------------------------------------------------------------------------------
  // The tally

  /** A log entry credits `id`: a point naming that (non-empty, rostered) player. */
  predicate Credits(e: ActionLog, pm: map<string, Info>, id: string)
  {
    e.Point? && e.playerId == Some(id) && id != "" && id in pm
  }

  predicate Counted(e: ActionLog, pm: map<string, Info>)
  {
    e.Point? && e.playerId.Some? && e.playerId.value != "" && e.playerId.value in pm
  }

  /** How many entries of the log credit `id`. */
  function Count(log: seq<ActionLog>, pm: map<string, Info>, id: string): nat
  {
    if log == [] then 0
    else Count(log[..|log| - 1], pm, id) + if Credits(log[|log| - 1], pm, id) then 1 else 0
  }

  /** The points map: a tally per credited player, in insertion order. */
  type Entries = Dict.Entries<Tally>

  /**
   * `pointsMap.get(id) || { totalPoints: 0, ... }`, incremented and set back: a known id keeps its
   * place, a new one goes last.
   */
  function Bump(es: Entries, id: string, info: Info): (r: Entries)
  {
    var found := Dict.Get(es, id);
    var current := if found.Some? then found.value else Tally(0, info.name, info.team);
    Dict.Set(es, id, current.(total := current.total + 1))
  }

  /** Bumping keeps every key in place and adds `id` at the end only when it is new. */
  lemma BumpKeys(es: Entries, id: string, info: Info)
    ensures var r := Bump(es, id, info);
      (forall i :: 0 <= i < |es| ==> r[i].0 == es[i].0) &&
      (|r| == |es| || (|r| == |es| + 1 && r[|es|].0 == id && forall i :: 0 <= i < |es| ==> es[i].0 != id))
  {
  }

  /** The points map after the log's `forEach`, in insertion order. */
  function Tallies(log: seq<ActionLog>, pm: map<string, Info>): Entries
  {
    if log == [] then []
    else
      var es, e := Tallies(log[..|log| - 1], pm), log[|log| - 1];
      if Counted(e, pm) then Bump(es, e.playerId.value, pm[e.playerId.value]) else es
  }

  /** The points map holds one entry per credited player: its count, and its name and side from the lookup. */
  lemma {:induction false} TalliesCount(log: seq<ActionLog>, pm: map<string, Info>)
    ensures var es := Tallies(log, pm);
      Dict.DistinctKeys(es) &&
      (forall i :: 0 <= i < |es| ==>
        es[i].0 in pm && Count(log, pm, es[i].0) >= 1 &&
        es[i].1 == Tally(Count(log, pm, es[i].0), pm[es[i].0].name, pm[es[i].0].team)) &&
      (forall id :: Count(log, pm, id) > 0 ==> exists i :: 0 <= i < |es| && es[i].0 == id)
  {
    TalliesEntries(log, pm);
    TalliesCover(log, pm);
  }

  lemma {:induction false} TalliesEntries(log: seq<ActionLog>, pm: map<string, Info>)
    ensures var es := Tallies(log, pm);
      Dict.DistinctKeys(es) &&
      (forall i :: 0 <= i < |es| ==>
        es[i].0 in pm && Count(log, pm, es[i].0) >= 1 &&
        es[i].1 == Tally(Count(log, pm, es[i].0), pm[es[i].0].name, pm[es[i].0].team))
  {
    if log != [] {
      var init := log[..|log| - 1];
      var e := log[|log| - 1];
      TalliesEntries(init, pm);
      var es := Tallies(init, pm);
      if Counted(e, pm) {
        var id := e.playerId.value;
        var r := Bump(es, id, pm[id]);
        BumpKeys(es, id, pm[id]);
        var i := Dict.KeyIndex(es, id);
        forall k | 0 <= k < |r|
          ensures r[k].0 in pm && Count(log, pm, r[k].0) >= 1 &&
            r[k].1 == Tally(Count(log, pm, r[k].0), pm[r[k].0].name, pm[r[k].0].team)
        {
          if k < |es| && k != i {
            assert r[k] == es[k];
          } else if k == |es| && Count(init, pm, id) > 0 {
            var j := TalliesCoverOne(init, pm, id);
            assert false;
          }
        }
      }
    }
  }

  lemma {:induction false} TalliesCover(log: seq<ActionLog>, pm: map<string, Info>)
    ensures forall id :: Count(log, pm, id) > 0 ==> exists i :: 0 <= i < |Tallies(log, pm)| && Tallies(log, pm)[i].0 == id
  {
    forall id | Count(log, pm, id) > 0
      ensures exists i :: 0 <= i < |Tallies(log, pm)| && Tallies(log, pm)[i].0 == id
    {
      var i := TalliesCoverOne(log, pm, id);
      assert Tallies(log, pm)[i].0 == id;
    }
    assert forall id :: Count(log, pm, id) > 0 ==> exists i :: 0 <= i < |Tallies(log, pm)| && Tallies(log, pm)[i].0 == id;
  }

  /** Where a player with a positive count stands in the points map. */
  lemma {:induction false} TalliesCoverOne(log: seq<ActionLog>, pm: map<string, Info>, id: string) returns (i: nat)
    requires Count(log, pm, id) > 0
    ensures i < |Tallies(log, pm)| && Tallies(log, pm)[i].0 == id
  {
    var init := log[..|log| - 1];
    var e := log[|log| - 1];
    var es := Tallies(init, pm);
    var r := Tallies(log, pm);
    if Credits(e, pm, id) {
      var k := Dict.KeyIndex(es, id);
      BumpKeys(es, id, pm[id]);
      i := if k >= 0 then k else |es|;
    } else {
      i := TalliesCoverOne(init, pm, id);
      if Counted(e, pm) {
        BumpKeys(es, e.playerId.value, pm[e.playerId.value]);
      }
    }
  }

  /** Players enter the points map in the order of their first credited point. */
  lemma {:induction false} TalliesOrder(log: seq<ActionLog>, pm: map<string, Info>, i: nat, j: nat)
    requires i < j < |Tallies(log, pm)|
    ensures var es := Tallies(log, pm);
      exists k :: 0 <= k < |log| && Credits(log[k], pm, es[i].0) && Count(log[..k + 1], pm, es[j].0) == 0
  {
    var init := log[..|log| - 1];
    var e := log[|log| - 1];
    var es := Tallies(init, pm);
    var r := Tallies(log, pm);
    if Counted(e, pm) {
      BumpKeys(es, e.playerId.value, pm[e.playerId.value]);
    }
    assert r[i].0 == es[i].0;
    if j < |es| {
      assert r[j].0 == es[j].0;
      TalliesOrder(init, pm, i, j);
      var k :| 0 <= k < |init| && Credits(init[k], pm, es[i].0) && Count(init[..k + 1], pm, es[j].0) == 0;
      assert init[..k + 1] == log[..k + 1];
      assert init[k] == log[k];
    } else {
      // r[j] is the entry the last log entry opened: nobody with its id was credited before.
      TalliesCount(init, pm);
      var id := r[j].0;
      var k := FirstCredit(init, pm, es[i].0);
      assert Count(init, pm, id) == 0;
      CountPrefix(init, pm, id, k + 1);
      assert init[..k + 1] == log[..k + 1];
      assert init[k] == log[k];
    }
  }

  /** An index at which a player with a positive count is credited. */
  lemma {:induction false} FirstCredit(log: seq<ActionLog>, pm: map<string, Info>, id: string) returns (k: nat)
    requires Count(log, pm, id) > 0
    ensures k < |log| && Credits(log[k], pm, id)
  {
    var init := log[..|log| - 1];
    if Credits(log[|log| - 1], pm, id) {
      k := |log| - 1;
    } else {
      k := FirstCredit(init, pm, id);
      assert init[k] == log[k];
    }
  }

  /** A prefix counts no more than the whole log. */
  lemma {:induction false} CountPrefix(log: seq<ActionLog>, pm: map<string, Info>, id: string, n: nat)
    requires n <= |log|
    ensures Count(log[..n], pm, id) <= Count(log, pm, id)
  {
    if n < |log| {
      var init := log[..|log| - 1];
      CountPrefix(init, pm, id, n);
      assert init[..n] == log[..n];
    } else {
      assert log[..n] == log;
    }
  }

  /** The loop over the match log that fills the points map. */
  method TallyPoints(log: seq<ActionLog>, pm: map<string, Info>) returns (es: Entries)
    ensures es == Tallies(log, pm)
  {
    es := [];
    var i := 0;
    while i < |log|
      invariant 0 <= i <= |log|
      invariant es == Tallies(log[..i], pm)
    {
      assert log[..i + 1][..i] == log[..i];
      var e := log[i];
      if e.Point? && e.playerId.Some? && e.playerId.value != "" && e.playerId.value in pm {
        es := Bump(es, e.playerId.value, pm[e.playerId.value]);
      }
      i := i + 1;
    }
    assert log[..i] == log;
  }

  // ---------------------------------------------------------------------------------------------
  // Picking the top scorer

  /** The comparator `(a, b) => b.totalPoints - a.totalPoints` keeps `a` first exactly when this holds. */
  function MorePoints(a: Tally, b: Tally): bool
  {
    a.total >= b.total
  }

  /** Where the first of the highest tallies stands. */
  function FirstMaxIndex(s: seq<Tally>): (k: nat)
    requires s != []
    ensures k < |s|
    ensures forall j :: 0 <= j < |s| ==> s[j].total <= s[k].total
    ensures forall j :: 0 <= j < k ==> s[j].total < s[k].total
  {
    if |s| == 1 then 0
    else
      var k := 1 + FirstMaxIndex(s[1..]);
      assert forall j :: 1 <= j < |s| ==> s[j] == s[1..][j - 1];
      if s[0].total >= s[k].total then 0 else k
  }

  /** The stable sort puts the first of the highest tallies in front. */
  lemma {:induction false} SortHead(s: seq<Tally>)
    requires s != []
    ensures SortBy(s, MorePoints)[0] == s[FirstMaxIndex(s)]
  {
    if |s| > 1 {
      SortHead(s[1..]);
      var t := SortBy(s[1..], MorePoints);
      assert s == [s[0]] + s[1..];
      assert SortBy(s, MorePoints) == Insert(s[0], t, MorePoints);
      assert s[1..][FirstMaxIndex(s[1..])] == s[1 + FirstMaxIndex(s[1..])];
    }
  }

  /** The MVP: `null` without a log entry, and `null` when no point credits a rostered player. */
  function MvpOf(matchLog: Option<seq<ActionLog>>, a: Team, b: Team): (r: Option<MvpData>)
  {
    if matchLog.None? || |matchLog.value| == 0 then None
    else
      var es := Tallies(matchLog.value, PlayerMap(a, b));
      if es == [] then None
      else
        var top := SortBy(Dict.Values(es), MorePoints)[0];
        if top.total > 0 then Some(MvpData(top.name, top.total, top.team)) else None
  }

  /** `useMvp` (and the match-over dialog's `mvpData`): the lookup, the tally, the sort and the pick. */
  method UseMvp(matchLog: Option<seq<ActionLog>>, a: Team, b: Team) returns (r: Option<MvpData>)
    ensures r == MvpOf(matchLog, a, b)
  {
    if matchLog.None? || |matchLog.value| == 0 {
      return None;
    }
    var pm := BuildPlayerMap(a, b);
    var es := TallyPoints(matchLog.value, pm);
    if |es| == 0 {
      return None;
    }
    var sorted := SortBy(Dict.Values(es), MorePoints);
    var top := sorted[0];
    r := if top.total > 0 then Some(MvpData(top.name, top.total, top.team)) else None;
  }

  /**
   * There is an MVP exactly when some point credits a rostered player; it is such a player, with
   * its name and side from the rosters, credited with at least one point and no fewer than anyone,
   * and credited before any other player with as many points scored at all.
   */
  lemma MvpIsTopScorer(log: seq<ActionLog>, a: Team, b: Team)
    requires log != []
    ensures var r, pm := MvpOf(Some(log), a, b), PlayerMap(a, b);
      (r.None? <==> forall k :: 0 <= k < |log| ==> !Counted(log[k], pm)) &&
      (r.Some? ==> exists id :: (id in pm &&
        r.value == MvpData(pm[id].name, Count(log, pm, id), pm[id].team) && r.value.totalPoints >= 1 &&
        (forall other :: Count(log, pm, other) <= r.value.totalPoints) &&
        (forall other :: other != id && Count(log, pm, other) == r.value.totalPoints ==>
          exists k :: 0 <= k < |log| && Credits(log[k], pm, id) && Count(log[..k + 1], pm, other) == 0)))
  {
    var pm := PlayerMap(a, b);
    var es := Tallies(log, pm);
    TalliesCount(log, pm);
    NoneCounted(log, pm);
    if es != [] {
      var vs := Dict.Values(es);
      var k := FirstMaxIndex(vs);
      SortHead(vs);
      TopScorer(log, pm, k);
    }
  }

  /** The first of the highest tallies belongs to a player no one outscores, credited before any equal. */
  lemma TopScorer(log: seq<ActionLog>, pm: map<string, Info>, k: nat)
    requires Tallies(log, pm) != [] && k == FirstMaxIndex(Dict.Values(Tallies(log, pm)))
    ensures var id := Tallies(log, pm)[k].0;
      id in pm && Tallies(log, pm)[k].1 == Tally(Count(log, pm, id), pm[id].name, pm[id].team) &&
      Count(log, pm, id) >= 1 &&
      (forall other :: Count(log, pm, other) <= Count(log, pm, id)) &&
      (forall other :: other != id && Count(log, pm, other) == Count(log, pm, id) ==>
        exists m :: 0 <= m < |log| && Credits(log[m], pm, id) && Count(log[..m + 1], pm, other) == 0)
  {
    var id := Tallies(log, pm)[k].0;
    TalliesEntries(log, pm);
    forall other
      ensures Count(log, pm, other) <= Count(log, pm, id)
    {
      TopIsMax(log, pm, k, other);
    }
    forall other | other != id && Count(log, pm, other) == Count(log, pm, id)
      ensures exists m :: 0 <= m < |log| && Credits(log[m], pm, id) && Count(log[..m + 1], pm, other) == 0
    {
      TopFirst(log, pm, k, other);
    }
  }

  lemma TopIsMax(log: seq<ActionLog>, pm: map<string, Info>, k: nat, other: string)
    requires Tallies(log, pm) != [] && k == FirstMaxIndex(Dict.Values(Tallies(log, pm)))
    ensures Count(log, pm, other) <= Count(log, pm, Tallies(log, pm)[k].0)
  {
    var es := Tallies(log, pm);
    var vs := Dict.Values(es);
    if Count(log, pm, other) > 0 {
      TalliesEntries(log, pm);
      var j := TalliesCoverOne(log, pm, other);
      assert vs[j].total <= vs[k].total;
    }
  }

  lemma TopFirst(log: seq<ActionLog>, pm: map<string, Info>, k: nat, other: string)
    requires Tallies(log, pm) != [] && k == FirstMaxIndex(Dict.Values(Tallies(log, pm)))
    requires other != Tallies(log, pm)[k].0
    requires Count(log, pm, other) == Count(log, pm, Tallies(log, pm)[k].0)
    ensures exists m :: (0 <= m < |log| && Credits(log[m], pm, Tallies(log, pm)[k].0) &&
      Count(log[..m + 1], pm, other) == 0)
  {
    var es := Tallies(log, pm);
    var j := TiedLater(log, pm, k, other);
    TalliesOrder(log, pm, k, j);
    var m :| 0 <= m < |log| && Credits(log[m], pm, es[k].0) && Count(log[..m + 1], pm, es[j].0) == 0;
  }

  /** A player tied with the first top scorer stands after it in the points map. */
  lemma TiedLater(log: seq<ActionLog>, pm: map<string, Info>, k: nat, other: string) returns (j: nat)
    requires Tallies(log, pm) != [] && k == FirstMaxIndex(Dict.Values(Tallies(log, pm)))
    requires other != Tallies(log, pm)[k].0
    requires Count(log, pm, other) == Count(log, pm, Tallies(log, pm)[k].0)
    ensures k < j < |Tallies(log, pm)| && Tallies(log, pm)[j].0 == other
  {
    var es := Tallies(log, pm);
    var vs := Dict.Values(es);
    TalliesEntryAt(log, pm, k);
    j := TalliesCoverOne(log, pm, other);
    TalliesEntryAt(log, pm, j);
    assert vs[j].total == vs[k].total;
  }

  /** The tally at position `i` of the points map counts its player's credited entries, at least one. */
  lemma TalliesEntryAt(log: seq<ActionLog>, pm: map<string, Info>, i: nat)
    requires i < |Tallies(log, pm)|
    ensures var e := Tallies(log, pm)[i];
      Count(log, pm, e.0) >= 1 && e.1.total == Count(log, pm, e.0)
  {
    TalliesEntries(log, pm);
  }

  /** The points map is empty exactly when no log entry is counted. */
  lemma {:induction false} NoneCounted(log: seq<ActionLog>, pm: map<string, Info>)
    ensures Tallies(log, pm) == [] <==> forall k :: 0 <= k < |log| ==> !Counted(log[k], pm)
  {
    if log != [] {
      var init := log[..|log| - 1];
      NoneCounted(init, pm);
      assert forall k :: 0 <= k < |init| ==> init[k] == log[k];
      var es := Tallies(init, pm);
      var e := log[|log| - 1];
      if Counted(e, pm) {
        var r := Bump(es, e.playerId.value, pm[e.playerId.value]);
        assert |r| >= 1;
      }
    }
  }
}
