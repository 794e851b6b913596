/** The player profile directory of `hooks/usePlayerProfiles.ts`: a map from id to profile in insertion order. */
module Profiles {
  import opened Types
  import opened JsString
  import Dict

  datatype PlayerProfile = PlayerProfile(id: string, name: string, skillLevel: int, createdAt: int, lastUpdated: int)

  /** The profile map: each profile under its id, in insertion order. */
  type Entries = Dict.Entries<PlayerProfile>

  /** Every profile is stored under its own id. */
  predicate KeyedById(es: Entries)
  {
    forall i :: 0 <= i < |es| ==> es[i].0 == es[i].1.id
  }

  lemma SetKeyed(es: Entries, value: PlayerProfile)
    requires KeyedById(es)
    ensures KeyedById(Dict.Set(es, value.id, value))
  {
    var r := Dict.Set(es, value.id, value);
    forall i | 0 <= i < |r| ensures r[i].0 == r[i].1.id
    {
      if i < |es| && es[i].0 != value.id {
        assert r[i] == es[i];
      } else if i < |es| {
        var k := Dict.KeyIndex(es, value.id);
        assert r == es[k := (value.id, value)];
      } else {
        assert r[i] == (value.id, value);
      }
    }
  }

  lemma DeleteKeyed(es: Entries, key: string)
    requires KeyedById(es)
    ensures KeyedById(Dict.Delete(es, key))
  {
    forall i | 0 <= i < |Dict.Delete(es, key)|
      ensures Dict.Delete(es, key)[i].0 == Dict.Delete(es, key)[i].1.id
    {
      assert Dict.Delete(es, key)[i] in es;
    }
  }

  // ---------------------------------------------------------------------------------------------
  // upsertProfile

  /** `Math.min(5, Math.max(1, skillLevel))`. */
  function ClampSkill(skillLevel: int): (r: int)
    ensures 1 <= r <= 5
    ensures 1 <= skillLevel <= 5 ==> r == skillLevel
    ensures skillLevel < 1 ==> r == 1
    ensures skillLevel > 5 ==> r == 5
  {
    Min(5, Max(1, skillLevel))
  }

  /**
   * The profile `upsertProfile` builds: the trimmed name and clamped skill; the id and creation
   * time of the profile stored under `id` when there is one (a falsy `""` or `0` gives way to the
   * fresh id or to `now`), else the fresh id and `now`.
   */
  function NewProfile(es: Entries, name: string, skillLevel: int, id: Option<string>, now: int, freshId: string): (p: PlayerProfile)
    ensures p.name == Trim(name) && 1 <= p.skillLevel <= 5 && p.lastUpdated == now
    ensures var existing := if id.Some? && id.value != "" then Dict.Get(es, id.value) else None;
      (existing.Some? && existing.value.id != "" ==> p.id == existing.value.id) &&
      (existing.None? ==> p.id == freshId && p.createdAt == now) &&
      (existing.Some? && existing.value.createdAt != 0 ==> p.createdAt == existing.value.createdAt)
  {
    var existing := if id.Some? && id.value != "" then Dict.Get(es, id.value) else None;
    PlayerProfile(
      if existing.Some? && existing.value.id != "" then existing.value.id else freshId,
      Trim(name),
      ClampSkill(skillLevel),
      if existing.Some? && existing.value.createdAt != 0 then existing.value.createdAt else now,
      now)
  }

  /** Upserting under the id of a stored profile keeps that id; a given id nothing is stored under is not used. */
  lemma UpsertIds(es: Entries, name: string, skillLevel: int, id: string, now: int, freshId: string)
    requires KeyedById(es) && id != ""
    ensures var p := NewProfile(es, name, skillLevel, Some(id), now, freshId);
      (Dict.Get(es, id).Some? ==> p.id == id) && (Dict.Get(es, id).None? ==> p.id == freshId)
  {
    var r := Dict.Get(es, id);
    if r.Some? {
      var i :| 0 <= i < |es| && es[i] == (id, r.value);
    }
  }

  // ---------------------------------------------------------------------------------------------
  // findProfileByName

  predicate NameIs(p: PlayerProfile, search: string)
  {
    Lower(p.name) == search
  }

  /** The first profile, in insertion order, whose lower-cased name is `search`. */
  function FirstNamed(es: Entries, search: string): (r: Option<PlayerProfile>)
    ensures r.None? <==> forall i :: 0 <= i < |es| ==> !NameIs(es[i].1, search)
    ensures r.Some? ==> exists i :: (0 <= i < |es| && es[i].1 == r.value && NameIs(r.value, search) &&
      forall j :: 0 <= j < i ==> !NameIs(es[j].1, search))
  {
    if es == [] then None
    else if NameIs(es[0].1, search) then Some(es[0].1)
    else
      var r := FirstNamed(es[1..], search);
      assert forall i :: 1 <= i < |es| ==> es[1..][i - 1] == es[i];
      if r.Some? then
        var i :| 0 <= i < |es[1..]| && es[1..][i].1 == r.value && NameIs(r.value, search) &&
          (forall j :: 0 <= j < i ==> !NameIs(es[1..][j].1, search));
        assert es[i + 1].1 == r.value;
        r
      else r
  }

  // ---------------------------------------------------------------------------------------------
  // The hook's state

  class Profiles {
    var entries: Entries

    ghost predicate Valid()
      reads this
    {
      Dict.DistinctKeys(entries) && KeyedById(entries)
    }

    constructor()
      ensures Valid() && entries == []
    {
      entries := [];
    }

    /** `upsertProfile(name, skillLevel, id)`: stores and returns the profile built from the arguments. */
    method UpsertProfile(name: string, skillLevel: int, id: Option<string>, now: int, freshId: string)
      returns (p: PlayerProfile)
      requires Valid()
      modifies this
      ensures Valid()
      ensures p == NewProfile(old(entries), name, skillLevel, id, now, freshId)
      ensures entries == Dict.Set(old(entries), p.id, p)
    {
      p := NewProfile(entries, name, skillLevel, id, now, freshId);
      Dict.SetGet(entries, p.id, p, p.id);
      SetKeyed(entries, p);
      entries := Dict.Set(entries, p.id, p);
    }

    method DeleteProfile(id: string)
      requires Valid()
      modifies this
      ensures Valid()
      ensures entries == Dict.Delete(old(entries), id)
    {
      Dict.DeleteGet(entries, id, id);
      DeleteKeyed(entries, id);
      entries := Dict.Delete(entries, id);
    }

    function GetProfile(id: string): (r: Option<PlayerProfile>)
      reads this
      ensures r.Some? ==> (id, r.value) in entries
      ensures r.None? <==> forall i :: 0 <= i < |entries| ==> entries[i].0 != id
    {
      Dict.Get(entries, id)
    }

    /** `findProfileByName`: the loop over `profiles.values()` that returns at the first match. */
    method FindProfileByName(name: string) returns (r: Option<PlayerProfile>)
      ensures r == FirstNamed(entries, Lower(Trim(name)))
    {
      var search := Lower(Trim(name));
      var i := 0;
      while i < |entries|
        invariant 0 <= i <= |entries|
        invariant FirstNamed(entries, search) == FirstNamed(entries[i..], search)
      {
        assert entries[i..][1..] == entries[i + 1..];
        if Lower(entries[i].1.name) == search {
          return Some(entries[i].1);
        }
        i := i + 1;
      }
      return None;
    }
  }
}
