/**
 * The roster and queue manager of `hooks/usePlayerQueue.ts`: two courts, a queue of waiting
 * teams, a stack of removed players that can be restored, and the king-of-the-court rotation.
 *
 * Fresh ids (`Math.random` in the source) come from a supply `newId: nat -> string`: an
 * operation that creates ids takes the k-th one it needs from `newId(k)`.
 */
module PlayerQueue {
  import opened Types
  import opened JsString
  import Security

  datatype QueueState = QueueState(courtA: Team, courtB: Team, queue: seq<Team>, lastReport: Option<RotationReport>)

  /** An entry of the deletion stack; `originId` is "A", "B" or the id of a queue team. */
  datatype DeletedRecord = DeletedRecord(player: Player, originId: string, timestamp: int)

  /** The `target` argument of `addPlayer`. */
  datatype AddTarget = ToCourtA | ToCourtB | ToQueue

  const InitialQueueState := QueueState(Team("A", "Home", "", []), Team("B", "Guest", "", []), [], None)

  /** Every player on court A, on court B and in the queue, in that order. */
  function Everyone(qs: QueueState): seq<Player>
  {
    qs.courtA.players + qs.courtB.players + AllPlayers(qs.queue)
  }

  /** `sanitizeInput(name)` with its default length limit. */
  function SafeName(name: string): string
  {
    Security.SanitizeInput(JStr(name), Security.MaxInputLength)
  }

  /** `createPlayer`: a fresh, unfixed player; the fields the source leaves undefined are `None` or 0. */
  function CreatePlayer(id: string, name: string): Player
  {
    Player(id, None, SafeName(name), None, 0, false, None, 0)
  }

  /** `createTeam`: a team under a fresh id, with a sanitised name and no colour. */
  function CreateTeam(id: string, name: string, players: seq<Player>): Team
  {
    Team(id, SafeName(name), "", players)
  }

  function QueueTeamName(k: nat): string
  {
    "Queue Team " + NatToString(k)
  }

  /** The name `createTeam` gives the k-th queue team it opens: "Queue Team k", sanitised. */
  function QueueTeamLabel(k: nat): string
  {
    SafeName(QueueTeamName(k))
  }

  // ---------------------------------------------------------------------------------------------
  // Player-list helpers

  predicate DistinctIds(ps: seq<Player>)
  {
    forall i, j :: 0 <= i < j < |ps| ==> ps[i].id != ps[j].id
  }

  function IdSet(ps: seq<Player>): set<string>
  {
    if ps == [] then {} else {ps[0].id} + IdSet(ps[1..])
  }

  /** An id is in `IdSet(ps)` exactly when some player of `ps` carries it. */
  lemma {:induction false} IdSetMember(ps: seq<Player>, id: string)
    ensures id in IdSet(ps) <==> exists i :: 0 <= i < |ps| && ps[i].id == id
  {
    if ps != [] {
      IdSetMember(ps[1..], id);
      if exists i :: 0 <= i < |ps[1..]| && ps[1..][i].id == id {
        var i :| 0 <= i < |ps[1..]| && ps[1..][i].id == id;
        assert ps[i + 1].id == id;
      }
      if exists i :: 0 <= i < |ps| && ps[i].id == id {
        var i :| 0 <= i < |ps| && ps[i].id == id;
        if i > 0 { assert ps[1..][i - 1].id == id; }
      }
    }
  }

  /** `players.filter(p => !p.isFixed)`. */
  function Unfixed(ps: seq<Player>): (r: seq<Player>)
    ensures |r| <= |ps|
    ensures forall i :: 0 <= i < |r| ==> !r[i].isFixed
  {
    if ps == [] then []
    else
      assert ps == [ps[0]] + ps[1..];
      (if ps[0].isFixed then [] else [ps[0]]) + Unfixed(ps[1..])
  }

  /** Every unfixed player is a player of the list. */
  lemma {:induction false} UnfixedMembers(ps: seq<Player>)
    ensures forall x :: x in Unfixed(ps) ==> x in ps
  {
    if ps != [] {
      UnfixedMembers(ps[1..]);
      assert ps == [ps[0]] + ps[1..];
    }
  }

  /** `players.filter(p => !ids.has(p.id))`. */
  function DropIds(ps: seq<Player>, ids: set<string>): (r: seq<Player>)
    ensures |r| <= |ps|
    ensures forall i :: 0 <= i < |r| ==> r[i].id !in ids && r[i] in ps
  {
    if ps == [] then []
    else
      assert ps == [ps[0]] + ps[1..];
      (if ps[0].id in ids then [] else [ps[0]]) + DropIds(ps[1..], ids)
  }

  /** `s.slice(0, n)` for a positive `n`. */
  function Take(s: seq<Player>, n: int): (r: seq<Player>)
    ensures |r| <= |s| && |r| <= Max(0, n)
  {
    s[..Min(Max(0, n), |s|)]
  }

  /** `players.find(p => p.id === id)`. */
  function FindPlayer(ps: seq<Player>, id: string): (r: Option<Player>)
    ensures r.None? <==> !HasPlayer(ps, id)
    ensures r.Some? ==> r.value in ps && r.value.id == id
  {
    if ps == [] then None else if ps[0].id == id then Some(ps[0]) else FindPlayer(ps[1..], id)
  }

  /** `queue.findIndex(t => t.id === id)`. */
  function FindTeam(ts: seq<Team>, id: string): (r: Option<nat>)
    ensures r.Some? ==> r.value < |ts| && ts[r.value].id == id
    ensures r.Some? ==> forall k :: 0 <= k < r.value ==> ts[k].id != id
    ensures r.None? ==> forall k :: 0 <= k < |ts| ==> ts[k].id != id
  {
    if ts == [] then None
    else if ts[0].id == id then Some(0)
    else match FindTeam(ts[1..], id)
      case None => None
      case Some(k) => Some(k + 1)
  }

  /** `teams.filter(t => t.players.length > 0)`. */
  function NonEmptyTeams(ts: seq<Team>): (r: seq<Team>)
    ensures forall i :: 0 <= i < |r| ==> |r[i].players| > 0
    ensures AllPlayers(r) == AllPlayers(ts)
  {
    if ts == [] then []
    else
      assert ts == [ts[0]] + ts[1..];
      var rest := NonEmptyTeams(ts[1..]);
      if |ts[0].players| > 0 then [ts[0]] + rest else rest
  }

  lemma {:induction false} DropIdsAppend(s: seq<Player>, t: seq<Player>, ids: set<string>)
    ensures DropIds(s + t, ids) == DropIds(s, ids) + DropIds(t, ids)
  {
    if s == [] {
      assert s + t == t;
    } else {
      assert (s + t)[1..] == s[1..] + t;
      DropIdsAppend(s[1..], t, ids);
    }
  }

  lemma {:induction false} DropNoIds(ps: seq<Player>, ids: set<string>)
    requires forall i :: 0 <= i < |ps| ==> ps[i].id !in ids
    ensures DropIds(ps, ids) == ps
  {
    if ps != [] {
      DropNoIds(ps[1..], ids);
    }
  }

  /** Dropping ids that no player carries is the same as not dropping them. */
  lemma {:induction false} DropIrrelevant(ps: seq<Player>, ids: set<string>, extra: set<string>)
    requires forall i :: 0 <= i < |ps| ==> ps[i].id !in extra
    ensures DropIds(ps, ids + extra) == DropIds(ps, ids)
  {
    if ps != [] {
      DropIrrelevant(ps[1..], ids, extra);
    }
  }

  /** Removing one id from a list with distinct ids removes exactly the player carrying it. */
  lemma {:induction false} DropOne(ps: seq<Player>, p: Player)
    requires DistinctIds(ps) && p in ps
    ensures multiset(DropIds(ps, {p.id})) + multiset{p} == multiset(ps)
  {
    DistinctTail(ps);
    if ps[0] == p {
      DropNoIds(ps[1..], {p.id});
      DropHead(ps, p);
    } else {
      assert ps == [ps[0]] + ps[1..];
      assert p in ps[1..];
      DropOne(ps[1..], p);
      DropLater(ps, p);
    }
  }

  /** Dropping the head's id from a list where no other player carries it leaves the tail. */
  lemma DropHead(ps: seq<Player>, p: Player)
    requires ps != [] && ps[0] == p && DropIds(ps[1..], {p.id}) == ps[1..]
    ensures multiset(DropIds(ps, {p.id})) + multiset{p} == multiset(ps)
  {
    assert ps == [ps[0]] + ps[1..];
    assert DropIds(ps, {p.id}) == ps[1..];
  }

  /** Dropping an id the head does not carry keeps the head and drops from the tail. */
  lemma DropLater(ps: seq<Player>, p: Player)
    requires ps != [] && ps[0].id != p.id
    requires multiset(DropIds(ps[1..], {p.id})) + multiset{p} == multiset(ps[1..])
    ensures multiset(DropIds(ps, {p.id})) + multiset{p} == multiset(ps)
  {
    var d := DropIds(ps[1..], {p.id});
    assert ps == [ps[0]] + ps[1..];
    assert DropIds(ps, {p.id}) == [ps[0]] + d;
    ConsBalance(ps[0], d, ps[1..], p);
  }

  /** Putting the same player in front of both sides keeps a multiset balance. */
  lemma ConsBalance(x: Player, d: seq<Player>, t: seq<Player>, p: Player)
    requires multiset(d) + multiset{p} == multiset(t)
    ensures multiset([x] + d) + multiset{p} == multiset([x] + t)
  {
    assert multiset([x] + d) == multiset{x} + multiset(d);
    assert multiset([x] + t) == multiset{x} + multiset(t);
  }

  /** Below the head of a list of distinct ids, the ids are distinct and differ from the head's. */
  lemma DistinctTail(ps: seq<Player>)
    requires ps != [] && DistinctIds(ps)
    ensures DistinctIds(ps[1..]) && forall i :: 0 <= i < |ps| - 1 ==> ps[1..][i].id != ps[0].id
  {
    var tail := ps[1..];
    forall i, j | 0 <= i < j < |tail|
      ensures tail[i].id != tail[j].id
    {
      assert tail[i] == ps[i + 1] && tail[j] == ps[j + 1];
    }
    forall i | 0 <= i < |tail|
      ensures tail[i].id != ps[0].id
    {
      assert tail[i] == ps[i + 1];
    }
  }

  /**
   * Taking the first `k` unfixed players and dropping their ids from the list splits the list:
   * the two parts together hold exactly the original players.
   */
  lemma {:induction false} StealSplit(ps: seq<Player>, k: nat)
    requires DistinctIds(ps) && k <= |Unfixed(ps)|
    ensures multiset(Unfixed(ps)[..k]) + multiset(DropIds(ps, IdSet(Unfixed(ps)[..k]))) == multiset(ps)
    decreases |ps|
  {
    if ps == [] {
    } else if ps[0].isFixed {
      HeadDistinct(ps);
      StealSplit(ps[1..], k);
      StealSplitFixed(ps, k);
    } else if k == 0 {
      assert IdSet(Unfixed(ps)[..k]) == {};
      DropNoIds(ps, {});
    } else {
      HeadDistinct(ps);
      StealSplit(ps[1..], k - 1);
      StealSplitTaken(ps, k);
    }
  }

  /** The head of a list with distinct ids has an id no later player carries. */
  lemma HeadDistinct(ps: seq<Player>)
    requires DistinctIds(ps) && ps != []
    ensures DistinctIds(ps[1..])
    ensures forall i :: 0 <= i < |ps[1..]| ==> ps[1..][i].id != ps[0].id
    ensures ps[0].id !in IdSet(ps[1..])
  {
    forall i | 0 <= i < |ps[1..]| ensures ps[1..][i].id != ps[0].id {
      assert ps[1..][i] == ps[i + 1];
    }
    IdSetMember(ps[1..], ps[0].id);
  }

  lemma StealSplitFixed(ps: seq<Player>, k: nat)
    requires ps != [] && ps[0].isFixed && k <= |Unfixed(ps)|
    requires forall i :: 0 <= i < |ps[1..]| ==> ps[1..][i].id != ps[0].id
    requires multiset(Unfixed(ps[1..])[..k]) + multiset(DropIds(ps[1..], IdSet(Unfixed(ps[1..])[..k]))) == multiset(ps[1..])
    ensures multiset(Unfixed(ps)[..k]) + multiset(DropIds(ps, IdSet(Unfixed(ps)[..k]))) == multiset(ps)
  {
    var tail := ps[1..];
    assert ps == [ps[0]] + tail;
    var u := Unfixed(tail);
    assert Unfixed(ps) == u;
    var s := IdSet(u[..k]);
    assert ps[0].id !in s by {
      IdSetMember(u[..k], ps[0].id);
      UnfixedMembers(tail);
      forall i | 0 <= i < k ensures u[..k][i].id != ps[0].id {
        assert u[..k][i] == u[i];
        assert u[i] in tail;
      }
    }
    assert DropIds(ps, s) == [ps[0]] + DropIds(tail, s);
  }

  lemma StealSplitTaken(ps: seq<Player>, k: nat)
    requires ps != [] && !ps[0].isFixed && 0 < k <= |Unfixed(ps)|
    requires ps[0].id !in IdSet(ps[1..])
    requires multiset(Unfixed(ps[1..])[..k - 1]) + multiset(DropIds(ps[1..], IdSet(Unfixed(ps[1..])[..k - 1]))) == multiset(ps[1..])
    ensures multiset(Unfixed(ps)[..k]) + multiset(DropIds(ps, IdSet(Unfixed(ps)[..k]))) == multiset(ps)
  {
    var p, tail := ps[0], ps[1..];
    var v := Unfixed(tail)[..k - 1];
    var u := Unfixed(ps)[..k];
    UnfixedTakeCons(ps, k);
    assert u == [p] + v;
    IdSetCons(p, v);
    var d := DropIds(tail, IdSet(v));
    DropHeadTaken(ps, IdSet(v));
    assert DropIds(ps, IdSet(u)) == d;
    ConsSplit(p, v, d, tail);
    assert [p] + tail == ps;
  }

  lemma UnfixedTakeCons(ps: seq<Player>, k: nat)
    requires ps != [] && !ps[0].isFixed && 0 < k <= |Unfixed(ps)|
    ensures Unfixed(ps)[..k] == [ps[0]] + Unfixed(ps[1..])[..k - 1]
  {
    var t := Unfixed(ps[1..]);
    assert Unfixed(ps) == [ps[0]] + t;
    TakeCons(ps[0], t, k);
  }

  lemma TakeCons(x: Player, t: seq<Player>, k: nat)
    requires 0 < k <= |t| + 1
    ensures ([x] + t)[..k] == [x] + t[..k - 1]
  {
  }

  /** Putting one more player in front of both a list and one of two parts that make it up. */
  lemma ConsSplit(p: Player, v: seq<Player>, d: seq<Player>, tail: seq<Player>)
    requires multiset(v) + multiset(d) == multiset(tail)
    ensures multiset([p] + v) + multiset(d) == multiset([p] + tail)
  {
  }

  lemma IdSetCons(p: Player, v: seq<Player>)
    ensures IdSet([p] + v) == IdSet(v) + {p.id}
  {
    assert ([p] + v)[1..] == v;
  }

  /** Dropping a set that holds the head's id, from a list whose head id is unique, drops the head. */
  lemma DropHeadTaken(ps: seq<Player>, s: set<string>)
    requires ps != [] && ps[0].id !in IdSet(ps[1..])
    ensures DropIds(ps, s + {ps[0].id}) == DropIds(ps[1..], s)
  {
    forall i | 0 <= i < |ps[1..]| ensures ps[1..][i].id !in {ps[0].id} {
      IdSetMember(ps[1..], ps[0].id);
    }
    DropIrrelevant(ps[1..], s, {ps[0].id});
  }

  // ---------------------------------------------------------------------------------------------
  // generateTeams

  /** `namesList.filter(n => n.trim().length > 0)`. */
  function NonBlank(names: seq<string>): (r: seq<string>)
    ensures |r| <= |names|
    ensures forall i :: 0 <= i < |r| ==> Trim(r[i]) != "" && r[i] in names
  {
    if names == [] then []
    else
      assert names == [names[0]] + names[1..];
      (if Trim(names[0]) != "" then [names[0]] else []) + NonBlank(names[1..])
  }

  /** The players `generateTeams` creates, the i-th one under the id `newId(base + i)`. */
  function CreatePlayers(names: seq<string>, newId: nat -> string, base: nat): (r: seq<Player>)
    ensures |r| == |names|
    decreases |names|
  {
    if names == [] then [] else [CreatePlayer(newId(base), names[0])] + CreatePlayers(names[1..], newId, base + 1)
  }

  /**
   * The queue teams of `generateTeams`: chunks of `perTeam` players, the k-th under the id
   * `newId(base + k)` and named `teamName(k + 1)` (in the model, `QueueTeamLabel`).
   */
  function Chunks(rest: seq<Player>, perTeam: nat, k: nat, newId: nat -> string, teamName: nat -> string, base: nat): seq<Team>
    requires perTeam > 0
    decreases |rest|
  {
    if rest == [] then []
    else
      var n := Min(perTeam, |rest|);
      [Team(newId(base + k), teamName(k + 1), "", rest[..n])] + Chunks(rest[n..], perTeam, k + 1, newId, teamName, base)
  }

  /** The chunks hold the players in order, each team non-empty and of at most `perTeam` players. */
  lemma ChunksShape(rest: seq<Player>, perTeam: nat, k: nat, newId: nat -> string, teamName: nat -> string, base: nat)
    requires perTeam > 0
    ensures AllPlayers(Chunks(rest, perTeam, k, newId, teamName, base)) == rest
    ensures forall i :: 0 <= i < |Chunks(rest, perTeam, k, newId, teamName, base)| ==>
      0 < |Chunks(rest, perTeam, k, newId, teamName, base)[i].players| <= perTeam
  {
    ChunksPlayers(rest, perTeam, k, newId, teamName, base);
    ChunksSizes(rest, perTeam, k, newId, teamName, base);
  }

  /** The chunks hold the players in order. */
  lemma {:induction false} ChunksPlayers(rest: seq<Player>, perTeam: nat, k: nat, newId: nat -> string, teamName: nat -> string, base: nat)
    requires perTeam > 0
    ensures AllPlayers(Chunks(rest, perTeam, k, newId, teamName, base)) == rest
    decreases |rest|
  {
    if rest != [] {
      var n := Min(perTeam, |rest|);
      ChunksPlayers(rest[n..], perTeam, k + 1, newId, teamName, base);
      var head := Team(newId(base + k), teamName(k + 1), "", rest[..n]);
      var tail := Chunks(rest[n..], perTeam, k + 1, newId, teamName, base);
      var c := [head] + tail;
      assert c[0] == head && c[1..] == tail;
      assert rest == rest[..n] + rest[n..];
    }
  }

  /** Each chunk is non-empty and holds at most `perTeam` players. */
  lemma {:induction false} ChunksSizes(rest: seq<Player>, perTeam: nat, k: nat, newId: nat -> string, teamName: nat -> string, base: nat)
    requires perTeam > 0
    ensures forall i :: 0 <= i < |Chunks(rest, perTeam, k, newId, teamName, base)| ==>
      0 < |Chunks(rest, perTeam, k, newId, teamName, base)[i].players| <= perTeam
    decreases |rest|
  {
    if rest != [] {
      var n := Min(perTeam, |rest|);
      ChunksSizes(rest[n..], perTeam, k + 1, newId, teamName, base);
      var c := Chunks(rest, perTeam, k, newId, teamName, base);
      var tail := Chunks(rest[n..], perTeam, k + 1, newId, teamName, base);
      assert c == [Team(newId(base + k), teamName(k + 1), "", rest[..n])] + tail;
      forall i | 0 <= i < |c|
        ensures 0 < |c[i].players| <= perTeam
      {
        if i > 0 {
          assert c[i] == tail[i - 1];
        }
      }
    }
  }

  lemma {:induction false} MulAtLeast(e: nat, p: nat)
    requires e >= 1
    ensures e * p >= p
  {
    if e > 1 {
      MulAtLeast(e - 1, p);
      MulSucc(e - 1, p);
    }
  }

  lemma DivStep(x: nat, p: nat)
    requires p > 0
    ensures (x + p) / p == x / p + 1
  {
    var q, r := x / p, x % p;
    var q2, r2 := (x + p) / p, (x + p) % p;
    assert (q2 - q - 1) * p == r - r2 by {
      assert x == q * p + r;
      assert x + p == q2 * p + r2;
      assert (q2 - q - 1) * p == q2 * p - q * p - p;
    }
    if q2 - q - 1 >= 1 {
      MulAtLeast(q2 - q - 1, p);
    } else if q2 - q - 1 <= -1 {
      MulAtLeast(q + 1 - q2, p);
    }
  }

  lemma MulSucc(k: nat, p: nat)
    ensures (k + 1) * p == k * p + p
  {
  }

  /** The loop index of the k-th chunk, divided by the chunk size, gives back k. */
  lemma {:induction false} MulDiv(k: nat, p: nat)
    requires p > 0
    ensures (k * p) / p == k
  {
    if k > 0 {
      MulDiv(k - 1, p);
      MulSucc(k - 1, p);
      DivStep((k - 1) * p, p);
    }
  }

  /** One chunk more: the team the loop pushes is the head of the remaining chunks. */
  lemma ChunksStep(rest: seq<Player>, i: nat, perTeam: nat, k: nat, newId: nat -> string, teamName: nat -> string, base: nat)
    requires perTeam > 0 && i < |rest|
    ensures Chunks(rest[i..], perTeam, k, newId, teamName, base) ==
      [Team(newId(base + k), teamName(k + 1), "", rest[i..Min(i + perTeam, |rest|)])] +
      Chunks(rest[Min(i + perTeam, |rest|)..], perTeam, k + 1, newId, teamName, base)
  {
    var tail := rest[i..];
    var end := Min(i + perTeam, |rest|);
    assert Min(perTeam, |tail|) == end - i;
    assert tail[..end - i] == rest[i..end];
    assert tail[end - i..] == rest[end..];
  }

  /** The `for` loop of `generateTeams` that chunks the remaining players into queue teams. */
  method ChunkQueue(rest: seq<Player>, perTeam: nat, newId: nat -> string, teamName: nat -> string, base: nat) returns (q: seq<Team>)
    requires perTeam > 0
    ensures q == Chunks(rest, perTeam, 0, newId, teamName, base)
  {
    q := [];
    var i := 0;
    ChunkedStart(rest, perTeam, newId, teamName, base);
    while i < |rest|
      invariant ChunkedSoFar(rest, perTeam, newId, teamName, base, q, i)
      decreases |rest| - i
    {
      var chunk := rest[i..Min(i + perTeam, |rest|)];
      var teamNumber := i / perTeam + 1;
      ChunkedNext(rest, perTeam, newId, teamName, base, q, i, teamNumber);
      q := q + [Team(newId(base + |q|), teamName(teamNumber), "", chunk)];
      i := i + perTeam;
    }
    ChunkedDone(rest, perTeam, newId, teamName, base, q, i);
  }

  /** The invariant of the chunking loop: `q` and the chunks of what is left are the chunks of all. */
  ghost predicate ChunkedSoFar(rest: seq<Player>, perTeam: nat, newId: nat -> string, teamName: nat -> string, base: nat, q: seq<Team>, i: int)
    requires perTeam > 0
  {
    0 <= i && i == |q| * perTeam &&
    q + Chunks(rest[Min(i, |rest|)..], perTeam, |q|, newId, teamName, base) == Chunks(rest, perTeam, 0, newId, teamName, base)
  }

  /** Before the loop nothing is cut. */
  lemma ChunkedStart(rest: seq<Player>, perTeam: nat, newId: nat -> string, teamName: nat -> string, base: nat)
    requires perTeam > 0
    ensures ChunkedSoFar(rest, perTeam, newId, teamName, base, [], 0)
  {
    var all := Chunks(rest, perTeam, 0, newId, teamName, base);
    assert 0 * perTeam == 0;
    assert rest[Min(0, |rest|)..] == rest;
    assert [] + all == all;
  }

  /** Pushing the next chunk keeps the invariant. */
  lemma ChunkedNext(rest: seq<Player>, perTeam: nat, newId: nat -> string, teamName: nat -> string, base: nat, q: seq<Team>, i: int, teamNumber: int)
    requires perTeam > 0 && ChunkedSoFar(rest, perTeam, newId, teamName, base, q, i) && i < |rest|
    requires teamNumber == i / perTeam + 1
    ensures ChunkedSoFar(rest, perTeam, newId, teamName, base,
      q + [Team(newId(base + |q|), teamName(teamNumber), "", rest[i..Min(i + perTeam, |rest|)])], i + perTeam)
  {
    ChunkIndex(|q|, perTeam, i);
    var team := Team(newId(base + |q|), teamName(|q| + 1), "", rest[i..Min(i + perTeam, |rest|)]);
    var later := Chunks(rest[Min(i + perTeam, |rest|)..], perTeam, |q| + 1, newId, teamName, base);
    ChunksStep(rest, i, perTeam, |q|, newId, teamName, base);
    assert rest[Min(i, |rest|)..] == rest[i..];
    assert (q + [team]) + later == q + ([team] + later);
  }

  /** The loop index at the k-th chunk gives the team number k + 1 and steps to the next chunk's index. */
  lemma ChunkIndex(k: nat, perTeam: nat, i: int)
    requires perTeam > 0 && i == k * perTeam
    ensures i / perTeam + 1 == k + 1 && i + perTeam == (k + 1) * perTeam
  {
    MulDiv(k, perTeam);
    MulSucc(k, perTeam);
  }

  /** When the loop stops, `q` is all the chunks. */
  lemma ChunkedDone(rest: seq<Player>, perTeam: nat, newId: nat -> string, teamName: nat -> string, base: nat, q: seq<Team>, i: int)
    requires perTeam > 0 && ChunkedSoFar(rest, perTeam, newId, teamName, base, q, i) && i >= |rest|
    ensures q == Chunks(rest, perTeam, 0, newId, teamName, base)
  {
    assert rest[Min(i, |rest|)..] == [];
    assert q + [] == q;
  }

  /** The players `generateTeams` creates: one per non-blank name, with ids `newId(0..)`. */
  function GeneratedPlayers(names: seq<string>, newId: nat -> string): seq<Player>
  {
    CreatePlayers(NonBlank(names), newId, 0)
  }

  /**
   * How `generateTeams` places the created players `all`: the first `courtLimit` on court A
   * (renamed "Team A"), the next `courtLimit` on court B ("Team B"), the rest in queue teams
   * whose ids continue the id supply after the players' ones.
   */
  function Distribute(qs: QueueState, all: seq<Player>, courtLimit: nat, perTeam: nat, newId: nat -> string): QueueState
    requires perTeam > 0
  {
    var a := all[..Min(courtLimit, |all|)];
    var b := all[Min(courtLimit, |all|)..Min(2 * courtLimit, |all|)];
    var rest := all[Min(2 * courtLimit, |all|)..];
    QueueState(qs.courtA.(players := a, name := "Team A"), qs.courtB.(players := b, name := "Team B"),
      Chunks(rest, perTeam, 0, newId, QueueTeamLabel, |all|), None)
  }

  /**
   * `generateTeams` keeps every created player, in order: at most `courtLimit` on each court,
   * court B full before anyone queues, and queue teams of 1 to `perTeam` players.
   */
  lemma DistributeShape(qs: QueueState, all: seq<Player>, courtLimit: nat, perTeam: nat, newId: nat -> string)
    requires perTeam > 0
    ensures var r := Distribute(qs, all, courtLimit, perTeam, newId);
      Everyone(r) == all &&
      |r.courtA.players| <= courtLimit && |r.courtB.players| <= courtLimit &&
      (|r.courtB.players| < courtLimit ==> r.queue == []) &&
      (forall i :: 0 <= i < |r.queue| ==> 0 < |r.queue[i].players| <= perTeam) &&
      r.courtA.id == qs.courtA.id && r.courtB.id == qs.courtB.id && r.lastReport == None
  {
    var i := Min(courtLimit, |all|);
    var j := Min(2 * courtLimit, |all|);
    var a, b, rest := all[..i], all[i..j], all[j..];
    var q := Chunks(rest, perTeam, 0, newId, QueueTeamLabel, |all|);
    ChunksShape(rest, perTeam, 0, newId, QueueTeamLabel, |all|);
    var r := Distribute(qs, all, courtLimit, perTeam, newId);
    assert r.courtA.players == a && r.courtB.players == b && r.queue == q;
    assert Everyone(r) == a + b + rest;
    ThreeParts(all, i, j);
  }

  lemma ThreeParts(s: seq<Player>, i: nat, j: nat)
    requires i <= j <= |s|
    ensures s[..i] + s[i..j] + s[j..] == s
  {
  }

  /** Blank names are dropped and every other name yields one player, in order. */
  lemma GeneratedPlayersFromNames(names: seq<string>, newId: nat -> string)
    ensures |GeneratedPlayers(names, newId)| == |NonBlank(names)|
    ensures forall i :: 0 <= i < |NonBlank(names)| ==>
      GeneratedPlayers(names, newId)[i] == CreatePlayer(newId(i), NonBlank(names)[i])
  {
    CreatePlayersAt(NonBlank(names), newId, 0);
  }

  lemma {:induction false} CreatePlayersAt(names: seq<string>, newId: nat -> string, base: nat)
    ensures forall i :: 0 <= i < |names| ==> CreatePlayers(names, newId, base)[i] == CreatePlayer(newId(base + i), names[i])
    decreases |names|
  {
    if names != [] {
      CreatePlayersAt(names[1..], newId, base + 1);
      var r := CreatePlayers(names, newId, base);
      forall i | 1 <= i < |names| ensures r[i] == CreatePlayer(newId(base + i), names[i]) {
        assert r[i] == CreatePlayers(names[1..], newId, base + 1)[i - 1];
      }
    }
  }

  // ---------------------------------------------------------------------------------------------
  // Renaming and fixing

  /** `updateTeamName` with an already sanitised name. */
  function RenameTeam(qs: QueueState, teamId: string, name: string): (r: QueueState)
  {
    if teamId == "A" || teamId == qs.courtA.id then qs.(courtA := qs.courtA.(name := name))
    else if teamId == "B" || teamId == qs.courtB.id then qs.(courtB := qs.courtB.(name := name))
    else qs.(queue := RenameQueueTeams(qs.queue, teamId, name))
  }

  function RenameQueueTeams(ts: seq<Team>, teamId: string, name: string): (r: seq<Team>)
    ensures |r| == |ts|
    ensures forall i :: 0 <= i < |ts| ==> r[i] == if ts[i].id == teamId then ts[i].(name := name) else ts[i]
  {
    if ts == [] then [] else [if ts[0].id == teamId then ts[0].(name := name) else ts[0]] + RenameQueueTeams(ts[1..], teamId, name)
  }

  /** Renaming a team moves no player and changes no team id. */
  lemma {:induction false} RenameKeepsPlayers(qs: QueueState, teamId: string, name: string)
    ensures Everyone(RenameTeam(qs, teamId, name)) == Everyone(qs)
    ensures var r := RenameTeam(qs, teamId, name);
      r.courtA.id == qs.courtA.id && r.courtB.id == qs.courtB.id && |r.queue| == |qs.queue| &&
      forall i :: 0 <= i < |r.queue| ==> r.queue[i].id == qs.queue[i].id
  {
    RenamedQueuePlayers(qs.queue, teamId, name);
  }

  lemma {:induction false} RenamedQueuePlayers(ts: seq<Team>, teamId: string, name: string)
    ensures AllPlayers(RenameQueueTeams(ts, teamId, name)) == AllPlayers(ts)
  {
    if ts != [] {
      RenamedQueuePlayers(ts[1..], teamId, name);
      assert RenameQueueTeams(ts, teamId, name)[1..] == RenameQueueTeams(ts[1..], teamId, name);
    }
  }

  /** `players.map(p => p.id === playerId ? { ...p, name } : p)`. */
  function RenameIn(ps: seq<Player>, playerId: string, name: string): (r: seq<Player>)
    ensures |r| == |ps|
  {
    if ps == [] then [] else [if ps[0].id == playerId then ps[0].(name := name) else ps[0]] + RenameIn(ps[1..], playerId, name)
  }

  function RenameInTeams(ts: seq<Team>, playerId: string, name: string): (r: seq<Team>)
    ensures |r| == |ts|
    ensures forall i :: 0 <= i < |ts| ==> r[i] == ts[i].(players := RenameIn(ts[i].players, playerId, name))
  {
    if ts == [] then [] else [ts[0].(players := RenameIn(ts[0].players, playerId, name))] + RenameInTeams(ts[1..], playerId, name)
  }

  /** `updatePlayerName` with an already sanitised name: court A, else court B, else every queue team. */
  function RenamePlayer(qs: QueueState, playerId: string, name: string): QueueState
  {
    if HasPlayer(qs.courtA.players, playerId) then qs.(courtA := qs.courtA.(players := RenameIn(qs.courtA.players, playerId, name)))
    else if HasPlayer(qs.courtB.players, playerId) then qs.(courtB := qs.courtB.(players := RenameIn(qs.courtB.players, playerId, name)))
    else qs.(queue := RenameInTeams(qs.queue, playerId, name))
  }

  lemma {:induction false} RenameInAppend(s: seq<Player>, t: seq<Player>, playerId: string, name: string)
    ensures RenameIn(s + t, playerId, name) == RenameIn(s, playerId, name) + RenameIn(t, playerId, name)
  {
    if s != [] {
      RenameInAppend(s[1..], t, playerId, name);
      assert (s + t)[0] == s[0] && (s + t)[1..] == s[1..] + t;
      var h := [if s[0].id == playerId then s[0].(name := name) else s[0]];
      assert RenameIn(s + t, playerId, name) == h + (RenameIn(s[1..], playerId, name) + RenameIn(t, playerId, name));
    } else {
      assert s + t == t;
    }
  }

  lemma {:induction false} RenameInTeamsPlayers(ts: seq<Team>, playerId: string, name: string)
    ensures AllPlayers(RenameInTeams(ts, playerId, name)) == RenameIn(AllPlayers(ts), playerId, name)
  {
    if ts != [] {
      RenameInTeamsPlayers(ts[1..], playerId, name);
      assert RenameInTeams(ts, playerId, name)[1..] == RenameInTeams(ts[1..], playerId, name);
      RenameInAppend(ts[0].players, AllPlayers(ts[1..]), playerId, name);
    }
  }

  lemma {:induction false} RenameInAbsent(ps: seq<Player>, playerId: string, name: string)
    requires !HasPlayer(ps, playerId)
    ensures RenameIn(ps, playerId, name) == ps
  {
    if ps != [] {
      assert !HasPlayer(ps[1..], playerId) by {
        forall i | 0 <= i < |ps[1..]| ensures ps[1..][i].id != playerId {
          assert ps[1..][i] == ps[i + 1];
        }
      }
      RenameInAbsent(ps[1..], playerId, name);
    }
  }

  /**
   * With distinct ids, renaming a player changes exactly the player carrying that id, wherever
   * it is, and leaves every other player and every position as it was.
   */
  lemma RenamePlayerEffect(qs: QueueState, playerId: string, name: string)
    requires DistinctIds(Everyone(qs))
    ensures Everyone(RenamePlayer(qs, playerId, name)) == RenameIn(Everyone(qs), playerId, name)
  {
    RenameInTeamsPlayers(qs.queue, playerId, name);
    RenameParts(qs.courtA.players, qs.courtB.players, AllPlayers(qs.queue), playerId, name);
  }

  /** Renaming in the first part that holds the id is renaming in the whole list. */
  lemma RenameParts(a: seq<Player>, b: seq<Player>, q: seq<Player>, playerId: string, name: string)
    requires DistinctIds(a + b + q)
    ensures HasPlayer(a, playerId) ==> RenameIn(a, playerId, name) + b + q == RenameIn(a + b + q, playerId, name)
    ensures !HasPlayer(a, playerId) && HasPlayer(b, playerId) ==>
      a + RenameIn(b, playerId, name) + q == RenameIn(a + b + q, playerId, name)
    ensures !HasPlayer(a, playerId) && !HasPlayer(b, playerId) ==>
      a + b + RenameIn(q, playerId, name) == RenameIn(a + b + q, playerId, name)
  {
    if HasPlayer(a, playerId) {
      HasPlayerAppend(b, q, playerId);
      assert a + b + q == a + (b + q);
      DistinctApart(a, b + q, playerId);
      RenameOnlyIn(a, b + q, playerId, name);
    } else if HasPlayer(b, playerId) {
      HasPlayerAppend(a, b, playerId);
      DistinctApart(a + b, q, playerId);
      RenameOnlyIn(a + b, q, playerId, name);
      RenameInAbsent(a, playerId, name);
      RenameInAppend(a, b, playerId, name);
    } else {
      HasPlayerAppend(a, b, playerId);
      RenameInAbsent(a + b, playerId, name);
      RenameInAppend(a + b, q, playerId, name);
    }
  }

  /** When only the first part can hold the id, renaming the whole renames the first part. */
  lemma RenameOnlyIn(s: seq<Player>, t: seq<Player>, playerId: string, name: string)
    requires !HasPlayer(t, playerId)
    ensures RenameIn(s + t, playerId, name) == RenameIn(s, playerId, name) + t
  {
    RenameInAppend(s, t, playerId, name);
    RenameInAbsent(t, playerId, name);
  }

  /** A player is in a concatenation exactly when it is in one of the parts. */
  lemma HasPlayerAppend(s: seq<Player>, t: seq<Player>, playerId: string)
    ensures HasPlayer(s + t, playerId) <==> HasPlayer(s, playerId) || HasPlayer(t, playerId)
  {
    if HasPlayer(s + t, playerId) {
      var i :| 0 <= i < |s + t| && (s + t)[i].id == playerId;
      if i >= |s| {
        assert t[i - |s|].id == playerId;
      }
    }
    if HasPlayer(s, playerId) {
      var i :| 0 <= i < |s| && s[i].id == playerId;
      assert (s + t)[i].id == playerId;
    }
    if HasPlayer(t, playerId) {
      var i :| 0 <= i < |t| && t[i].id == playerId;
      assert (s + t)[|s| + i].id == playerId;
    }
  }

  /** With distinct ids, an id carried in the first part of a list is not carried in the second. */
  lemma DistinctApart(s: seq<Player>, t: seq<Player>, playerId: string)
    requires DistinctIds(s + t) && HasPlayer(s, playerId)
    ensures !HasPlayer(t, playerId)
  {
    var i :| 0 <= i < |s| && s[i].id == playerId;
    forall j | 0 <= j < |t| ensures t[j].id != playerId {
      assert (s + t)[i] == s[i] && (s + t)[|s| + j] == t[j];
    }
  }
}
