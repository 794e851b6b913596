/** The match history of `stores/historyStore.ts`: a newest-first list with deletion and JSON import. */
module HistoryStore {
  import opened Types
  import opened JsString
  import opened Lists

  /** A completed match as the app records it. */
  datatype Match = Match(
    id: string,
    date: string,
    timestamp: int,
    durationSeconds: int,
    teamAName: string,
    teamBName: string,
    teamARoster: Option<Team>,
    teamBRoster: Option<Team>,
    setsA: int,
    setsB: int,
    winner: Option<TeamId>,
    sets: seq<SetHistory>,
    actionLog: Option<seq<ActionLog>>,
    config: GameConfig)

  /**
   * A stored record: a match the app added, or an item `importJSON` took over as it was parsed,
   * of which only the fields the import checks are known.
   */
  datatype Record =
    | Added(m: Match)
    | Imported(id: string, timestamp: int, teamAName: string, teamBName: string, item: Json)

  function IdOf(r: Record): string
  {
    if r.Added? then r.m.id else r.id
  }

  function TimestampOf(r: Record): int
  {
    if r.Added? then r.m.timestamp else r.timestamp
  }

  /** The comparator `(a, b) => b.timestamp - a.timestamp` keeps `a` ahead of `b` exactly when this holds. */
  function NewerFirst(a: Record, b: Record): bool
  {
    TimestampOf(a) >= TimestampOf(b)
  }

  lemma NewerFirstPreorder()
    ensures TotalPreorder(NewerFirst)
  {
  }

  // ---------------------------------------------------------------------------------------------
  // addMatch, deleteMatch, clearHistory

  /** `matches.filter(m => m.id !== matchId)`: every record with that id goes, all others stay in order. */
  function Without(matches: seq<Record>, matchId: string): (r: seq<Record>)
    ensures forall x :: x in r ==> IdOf(x) != matchId
    ensures forall x :: x in matches && IdOf(x) != matchId ==> x in r
    ensures multiset(r) <= multiset(matches)
  {
    var keep := (x: Record) => IdOf(x) != matchId;
    FilterKeeps(matches, keep);
    Filter(matches, keep)
  }

  /** Deleting a match just added, whose id no stored match had, gives the history back. */
  lemma {:induction false} DeleteUndoesAdd(matches: seq<Record>, m: Match)
    requires forall x :: x in matches ==> IdOf(x) != m.id
    ensures Without([Added(m)] + matches, m.id) == matches
  {
    var keep := (x: Record) => IdOf(x) != m.id;
    FilterAppend([Added(m)], matches, keep);
    FilterAll(matches, keep);
  }

  // ---------------------------------------------------------------------------------------------
  // importJSON

  /** What `JSON.parse` made of the text: a value, or the message of the `SyntaxError` it threw. */
  datatype ParseOutcome = Parsed(value: Json) | Unparsable(message: string)

  datatype ImportResult = ImportResult(success: bool, errors: Option<seq<string>>)

  function Failure(errors: seq<string>): ImportResult
  {
    ImportResult(false, Some(errors))
  }

  const RootError := "Invalid format: Root must be an array."
  const NoValidError := "No valid match records found in input."
  /** The `TypeError` JavaScript raises for `item.id` when `item` is `null`. */
  const NullItemError := "Cannot read properties of null (reading 'id')"

  /** `obj[key]` on a parsed object: the last field with that key, as `JSON.parse` keeps the last duplicate. */
  function Field(fields: seq<(string, Json)>, key: string): (r: Option<Json>)
    ensures r.Some? <==> exists i :: 0 <= i < |fields| && fields[i].0 == key
    ensures r.Some? ==> (key, r.value) in fields
  {
    if fields == [] then None
    else if fields[|fields| - 1].0 == key then Some(fields[|fields| - 1].1)
    else
      var r := Field(fields[..|fields| - 1], key);
      assert forall i :: 0 <= i < |fields| - 1 ==> fields[..|fields| - 1][i] == fields[i];
      r
  }

  /** `item[key]`: a field of an object; any other non-null value has none of the keys asked for. */
  function Get(item: Json, key: string): Option<Json>
  {
    if item.JObj? then Field(item.fields, key) else None
  }

  /** The import's test: string id, number timestamp, string team names and an array of sets. */
  predicate IsMatchItem(item: Json)
  {
    var id, ts, a, b, sets := Get(item, "id"), Get(item, "timestamp"), Get(item, "teamAName"),
      Get(item, "teamBName"), Get(item, "sets");
    id.Some? && id.value.JStr? && ts.Some? && ts.value.JNum? && a.Some? && a.value.JStr? &&
    b.Some? && b.value.JStr? && sets.Some? && sets.value.JArr?
  }

  function AsRecord(item: Json): Record
    requires IsMatchItem(item)
  {
    Imported(Get(item, "id").value.str, Get(item, "timestamp").value.n,
      Get(item, "teamAName").value.str, Get(item, "teamBName").value.str, item)
  }

  function RejectMessage(index: nat): string
  {
    "Item at index " + NatToString(index) + " is missing required Match fields."
  }

  /** The items that pass the test, in order, as the `forEach` pushes them. */
  function Valid(items: seq<Json>): (r: seq<Record>)
    ensures |r| <= |items|
  {
    if items == [] then []
    else
      var last := items[|items| - 1];
      Valid(items[..|items| - 1]) + (if IsMatchItem(last) then [AsRecord(last)] else [])
  }

  /** One message per item that fails the test, naming its index, in order. */
  function Rejections(items: seq<Json>): (r: seq<string>)
    ensures |r| <= |items|
  {
    if items == [] then []
    else
      var last := items[|items| - 1];
      Rejections(items[..|items| - 1]) + (if IsMatchItem(last) then [] else [RejectMessage(|items| - 1)])
  }

  /** The ids already stored. */
  function StoredIds(matches: seq<Record>): set<string>
  {
    set x | x in matches :: IdOf(x)
  }

  /**
   * The new history: in merge mode the valid records whose id is not stored yet, then the stored
   * ones; in overwrite mode the valid records alone; either way sorted newest first.
   */
  function Merged(valid: seq<Record>, matches: seq<Record>, merge: bool): (r: seq<Record>)
  {
    if merge then
      var ids := StoredIds(matches);
      SortBy(Filter(valid, (x: Record) => IdOf(x) !in ids) + matches, NewerFirst)
    else SortBy(valid, NewerFirst)
  }

  /** One more item of the `forEach`: it joins the records or the rejections. */
  lemma SortStep(items: seq<Json>, i: nat)
    requires i < |items|
    ensures Valid(items[..i + 1]) == Valid(items[..i]) + (if IsMatchItem(items[i]) then [AsRecord(items[i])] else [])
    ensures Rejections(items[..i + 1]) == Rejections(items[..i]) + (if IsMatchItem(items[i]) then [] else [RejectMessage(i)])
  {
    assert items[..i + 1][..i] == items[..i];
  }

  /** `importJSON(text, { merge })`: its result and the history it leaves. */
  function Import(parse: ParseOutcome, merge: bool, matches: seq<Record>): (r: (ImportResult, seq<Record>))
    ensures !r.0.success ==> r.1 == matches && r.0.errors.Some? && |r.0.errors.value| >= 1
  {
    if parse.Unparsable? then (Failure([parse.message]), matches)
    else if !parse.value.JArr? then (Failure([RootError]), matches)
    else
      var items := parse.value.items;
      if JNull in items then (Failure([NullItemError]), matches)
      else
        var valid, errors := Valid(items), Rejections(items);
        if |valid| == 0 && |items| > 0 then (Failure([NoValidError] + errors), matches)
        else (ImportResult(true, if |errors| > 0 then Some(errors) else None), Merged(valid, matches, merge))
  }

  /**
   * An import succeeds exactly when the text parses to an array without `null` items that is empty
   * or holds a valid record; a successful one reports errors exactly when some item was rejected.
   */
  lemma ImportSucceeds(parse: ParseOutcome, merge: bool, matches: seq<Record>)
    ensures var r := Import(parse, merge, matches);
      (r.0.success <==>
        parse.Parsed? && parse.value.JArr? && JNull !in parse.value.items &&
        (parse.value.items == [] || exists i :: 0 <= i < |parse.value.items| && IsMatchItem(parse.value.items[i]))) &&
      (r.0.success ==>
        (r.0.errors.Some? <==> exists i :: 0 <= i < |parse.value.items| && !IsMatchItem(parse.value.items[i])))
  {
    if parse.Parsed? && parse.value.JArr? {
      SomeValid(parse.value.items);
      SomeRejected(parse.value.items);
    }
  }

  lemma SomeValid(items: seq<Json>)
    ensures Valid(items) != [] <==> exists i :: 0 <= i < |items| && IsMatchItem(items[i])
  {
    ValidItems(items);
    if exists i :: 0 <= i < |items| && IsMatchItem(items[i]) {
      var i :| 0 <= i < |items| && IsMatchItem(items[i]);
      assert AsRecord(items[i]) in Valid(items);
    }
  }

  lemma SomeRejected(items: seq<Json>)
    ensures Rejections(items) != [] <==> exists i :: 0 <= i < |items| && !IsMatchItem(items[i])
  {
    RejectedItems(items);
    if exists i :: 0 <= i < |items| && !IsMatchItem(items[i]) {
      var i :| 0 <= i < |items| && !IsMatchItem(items[i]);
      assert RejectMessage(i) in Rejections(items);
    }
    if Rejections(items) != [] {
      assert Rejections(items)[0] in Rejections(items);
    }
  }

  /** Exactly the items that pass the test are kept, and together with the rejected ones they are all the items. */
  lemma ValidItems(items: seq<Json>)
    ensures |Valid(items)| + |Rejections(items)| == |items|
    ensures forall i :: 0 <= i < |items| && IsMatchItem(items[i]) ==> AsRecord(items[i]) in Valid(items)
    ensures forall x :: x in Valid(items) ==> exists i :: 0 <= i < |items| && IsMatchItem(items[i]) && x == AsRecord(items[i])
  {
    ValidCount(items);
    ValidKeeps(items);
    ValidOnly(items);
  }

  lemma {:induction false} ValidCount(items: seq<Json>)
    ensures |Valid(items)| + |Rejections(items)| == |items|
  {
    if items != [] {
      ValidCount(items[..|items| - 1]);
    }
  }

  lemma ValidKeeps(items: seq<Json>)
    ensures forall i :: 0 <= i < |items| && IsMatchItem(items[i]) ==> AsRecord(items[i]) in Valid(items)
  {
    forall i | 0 <= i < |items| && IsMatchItem(items[i])
      ensures AsRecord(items[i]) in Valid(items)
    {
      ValidKeepsAt(items, i);
    }
  }

  lemma {:induction false} ValidKeepsAt(items: seq<Json>, i: nat)
    requires i < |items| && IsMatchItem(items[i])
    ensures AsRecord(items[i]) in Valid(items)
  {
    var init := items[..|items| - 1];
    if i < |init| {
      assert items[i] == init[i];
      ValidKeepsAt(init, i);
      assert Valid(items)[..|Valid(init)|] == Valid(init);
    }
  }

  lemma {:induction false} ValidOnly(items: seq<Json>)
    ensures forall x :: x in Valid(items) ==> exists i :: 0 <= i < |items| && IsMatchItem(items[i]) && x == AsRecord(items[i])
  {
    if items != [] {
      var init := items[..|items| - 1];
      ValidOnly(init);
      forall x | x in Valid(items)
        ensures exists i :: 0 <= i < |items| && IsMatchItem(items[i]) && x == AsRecord(items[i])
      {
        if x in Valid(init) {
          var i :| 0 <= i < |init| && IsMatchItem(init[i]) && x == AsRecord(init[i]);
          assert items[i] == init[i];
        } else {
          assert IsMatchItem(items[|items| - 1]) && x == AsRecord(items[|items| - 1]);
        }
      }
    }
  }

  /** An item is rejected, with the one message naming its index, exactly when it fails the test. */
  lemma {:induction false} RejectedItems(items: seq<Json>)
    ensures forall i :: 0 <= i < |items| ==> (!IsMatchItem(items[i]) <==> RejectMessage(i) in Rejections(items))
    ensures forall m :: m in Rejections(items) ==> exists i :: 0 <= i < |items| && m == RejectMessage(i)
  {
    if items != [] {
      var init := items[..|items| - 1];
      RejectedItems(init);
      forall i | 0 <= i < |items|
        ensures !IsMatchItem(items[i]) <==> RejectMessage(i) in Rejections(items)
      {
        if i < |init| {
          assert items[i] == init[i];
          if !IsMatchItem(items[|items| - 1]) && RejectMessage(i) == RejectMessage(|items| - 1) {
            RejectMessageInjective(i, |items| - 1);
          }
        } else if RejectMessage(i) in Rejections(init) {
          var j :| 0 <= j < |init| && RejectMessage(i) == RejectMessage(j);
          RejectMessageInjective(i, j);
        }
      }
    }
  }

  /** Different indices give different messages. */
  lemma RejectMessageInjective(i: nat, j: nat)
    requires RejectMessage(i) == RejectMessage(j)
    ensures i == j
  {
    var p := "Item at index ";
    var a, b := NatToString(i), NatToString(j);
    if |a| != |b| {
      assert false;
    }
    assert a == RejectMessage(i)[|p|..|p| + |a|];
    assert b == RejectMessage(j)[|p|..|p| + |b|];
    NatToStringRoundTrip(i);
    NatToStringRoundTrip(j);
  }

  /**
   * Merging keeps every stored record and adds just the valid ones with an id not stored before
   * (duplicates within the import stay), newest first.
   */
  lemma MergeAddsNewIds(valid: seq<Record>, matches: seq<Record>)
    ensures var r, ids := Merged(valid, matches, true), StoredIds(matches);
      SortedBy(r, NewerFirst) &&
      multiset(r) == multiset(Filter(valid, (x: Record) => IdOf(x) !in ids)) + multiset(matches) &&
      forall x :: x in r ==> x in matches || (x in valid && IdOf(x) !in ids)
  {
    var ids := StoredIds(matches);
    var added := Filter(valid, (x: Record) => IdOf(x) !in ids);
    NewerFirstPreorder();
    SortBySorted(added + matches, NewerFirst);
    var r := Merged(valid, matches, true);
    forall x | x in r
      ensures x in matches || (x in valid && IdOf(x) !in ids)
    {
      assert x in multiset(r);
    }
  }

  /** Overwriting replaces the history with the valid records, newest first. */
  lemma OverwriteSorts(valid: seq<Record>, matches: seq<Record>)
    ensures var r := Merged(valid, matches, false);
      SortedBy(r, NewerFirst) && multiset(r) == multiset(valid)
  {
    NewerFirstPreorder();
    SortBySorted(valid, NewerFirst);
  }

  /**
   * The `forEach` of `importJSON`: every item joins the records or the rejections. A `null` item
   * throws on its first field access, which the surrounding `catch` turns into a failure; then
   * `complete` is false.
   */
  method SortItems(items: seq<Json>) returns (complete: bool, valid: seq<Record>, errors: seq<string>)
    ensures complete <==> JNull !in items
    ensures complete ==> valid == Valid(items) && errors == Rejections(items)
  {
    valid, errors := [], [];
    var i := 0;
    while i < |items|
      invariant 0 <= i <= |items|
      invariant JNull !in items[..i]
      invariant valid == Valid(items[..i]) && errors == Rejections(items[..i])
    {
      var item := items[i];
      if item == JNull {
        assert items[i] in items;
        return false, valid, errors;
      }
      SortStep(items, i);
      if IsMatchItem(item) {
        valid := valid + [AsRecord(item)];
      } else {
        errors := errors + [RejectMessage(i)];
      }
      i := i + 1;
    }
    assert items[..i] == items;
    complete := true;
  }

  // ---------------------------------------------------------------------------------------------
  // The store

  /** The persisted store: one list of matches, replaced by every action. */
  class Store {
    var matches: seq<Record>

    constructor()
      ensures matches == []
    {
      matches := [];
    }

    /** `addMatch`: the new match goes first. */
    method AddMatch(m: Match)
      modifies this
      ensures matches == [Added(m)] + old(matches)
    {
      matches := [Added(m)] + matches;
    }

    method DeleteMatch(matchId: string)
      modifies this
      ensures matches == Without(old(matches), matchId)
    {
      matches := Without(matches, matchId);
    }

    method ClearHistory()
      modifies this
      ensures matches == []
    {
      matches := [];
    }

    /** `importJSON`: a parsed array is sorted into records and messages, then merged or stored. */
    method ImportJSON(parse: ParseOutcome, merge: bool) returns (res: ImportResult)
      modifies this
      ensures (res, matches) == Import(parse, merge, old(matches))
    {
      if parse.Unparsable? {
        return Failure([parse.message]);
      }
      if !parse.value.JArr? {
        return Failure([RootError]);
      }
      var items := parse.value.items;
      var complete, valid, errors := SortItems(items);
      if !complete {
        return Failure([NullItemError]);
      }
      if |valid| == 0 && |items| > 0 {
        return Failure([NoValidError] + errors);
      }
      matches := Merged(valid, matches, merge);
      res := ImportResult(true, if |errors| > 0 then Some(errors) else None);
    }
  }
}
