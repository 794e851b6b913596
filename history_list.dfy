/**
 * The list of past matches of `components/History/HistoryList.tsx`: the search-and-winner filter
 * over the stored records and the one-card-open expand toggle. Each card's duration text is
 * `TimeFormat.DurationText`.
 */
module HistoryList {
  import opened Types
  import opened JsString
  import opened HistoryStore

  /** The winner filter's three settings: `'all'`, `'A'`, `'B'`. */
  datatype WinnerFilter = All | Only(side: TeamId)

  function TeamANameOf(r: Record): string
  {
    if r.Added? then r.m.teamAName else r.teamAName
  }

  function TeamBNameOf(r: Record): string
  {
    if r.Added? then r.m.teamBName else r.teamBName
  }

  /**
   * `m.winner` compared with `'A'` and `'B'`: the recorded winner of a match the app added; for
   * an imported item, its `winner` field when that is the string `"A"` or `"B"`, and neither
   * otherwise.
   */
  function WinnerOf(r: Record): (w: Option<TeamId>)
    ensures r.Added? ==> w == r.m.winner
    ensures r.Imported? ==> (w == Some(A) <==> Get(r.item, "winner") == Some(JStr("A")))
    ensures r.Imported? ==> (w == Some(B) <==> Get(r.item, "winner") == Some(JStr("B")))
  {
    if r.Added? then r.m.winner
    else
      var w := Get(r.item, "winner");
      if w == Some(JStr("A")) then Some(A)
      else if w == Some(JStr("B")) then Some(B)
      else None
  }

  /** Either team name contains the search term, both lower-cased. */
  predicate MatchesSearch(r: Record, searchTerm: string)
  {
    Contains(Lower(TeamANameOf(r)), Lower(searchTerm)) || Contains(Lower(TeamBNameOf(r)), Lower(searchTerm))
  }

  predicate MatchesWinner(r: Record, winnerFilter: WinnerFilter)
  {
    winnerFilter.All? || WinnerOf(r) == Some(winnerFilter.side)
  }

  /** The test of the filter at lines 144-156. */
  predicate Shown(r: Record, searchTerm: string, winnerFilter: WinnerFilter)
  {
    MatchesSearch(r, searchTerm) && MatchesWinner(r, winnerFilter)
  }

  /** `filteredMatches`. */
  function Filtered(matches: seq<Record>, searchTerm: string, winnerFilter: WinnerFilter): (r: seq<Record>)
    ensures |r| <= |matches|
    ensures forall i :: 0 <= i < |r| ==> Shown(r[i], searchTerm, winnerFilter)
  {
    if matches == [] then []
    else
      (if Shown(matches[0], searchTerm, winnerFilter) then [matches[0]] else []) +
      Filtered(matches[1..], searchTerm, winnerFilter)
  }

  /** Every shown record is kept as often as it is stored, and no other record is kept. */
  lemma {:induction false} FilteredCounts(matches: seq<Record>, searchTerm: string, winnerFilter: WinnerFilter, x: Record)
    ensures multiset(Filtered(matches, searchTerm, winnerFilter))[x] ==
      if Shown(x, searchTerm, winnerFilter) then multiset(matches)[x] else 0
  {
    if matches != [] {
      var h, t := matches[0], matches[1..];
      var head := if Shown(h, searchTerm, winnerFilter) then [h] else [];
      FilteredCounts(t, searchTerm, winnerFilter, x);
      assert Filtered(matches, searchTerm, winnerFilter) == head + Filtered(t, searchTerm, winnerFilter);
      assert matches == [h] + t;
      assert multiset(matches)[x] == multiset([h])[x] + multiset(t)[x];
      assert multiset(head)[x] == if Shown(x, searchTerm, winnerFilter) then multiset([h])[x] else 0;
    }
  }

  /** The filter keeps order: it works on a concatenation part by part. */
  lemma {:induction false} FilteredAppend(a: seq<Record>, b: seq<Record>, searchTerm: string, winnerFilter: WinnerFilter)
    ensures Filtered(a + b, searchTerm, winnerFilter) ==
      Filtered(a, searchTerm, winnerFilter) + Filtered(b, searchTerm, winnerFilter)
  {
    if a == [] {
      assert a + b == b;
    } else {
      assert (a + b)[1..] == a[1..] + b;
      FilteredAppend(a[1..], b, searchTerm, winnerFilter);
    }
  }

  /** An empty search with the filter on `'all'` shows every match, in the stored order. */
  lemma {:induction false} EmptySearchShowsAll(matches: seq<Record>)
    ensures Filtered(matches, "", All) == matches
  {
    if matches != [] {
      EmptySearchShows(matches[0]);
      EmptySearchShowsAll(matches[1..]);
      assert Filtered(matches, "", All) == [matches[0]] + Filtered(matches[1..], "", All);
    }
  }

  lemma EmptySearchShows(r: Record)
    ensures Shown(r, "", All)
  {
    assert Lower("") == "";
    ContainsEmpty(Lower(TeamANameOf(r)));
  }

  /** Filtering the filtered list again changes nothing. */
  lemma {:induction false} FilteredIdempotent(matches: seq<Record>, searchTerm: string, winnerFilter: WinnerFilter)
    ensures Filtered(Filtered(matches, searchTerm, winnerFilter), searchTerm, winnerFilter) ==
      Filtered(matches, searchTerm, winnerFilter)
  {
    if matches != [] {
      var head := if Shown(matches[0], searchTerm, winnerFilter) then [matches[0]] else [];
      var rest := Filtered(matches[1..], searchTerm, winnerFilter);
      FilteredIdempotent(matches[1..], searchTerm, winnerFilter);
      FilteredAppend(head, rest, searchTerm, winnerFilter);
      if head != [] {
        assert ([matches[0]] + [])[1..] == [];
      }
    }
  }

  /** The search ignores the case of the term: a lower-cased term shows the same matches. */
  lemma SearchIgnoresCase(r: Record, searchTerm: string, winnerFilter: WinnerFilter)
    ensures Shown(r, Lower(searchTerm), winnerFilter) == Shown(r, searchTerm, winnerFilter)
  {
    LowerIdempotent(searchTerm);
  }

  /** A side filter shows exactly the `'all'` matches that side won. */
  lemma {:induction false} SideFilterRefines(matches: seq<Record>, searchTerm: string, side: TeamId)
    ensures Filtered(matches, searchTerm, Only(side)) ==
      Filtered(Filtered(matches, searchTerm, All), "", Only(side))
  {
    if matches != [] {
      var x := matches[0];
      SideFilterRefines(matches[1..], searchTerm, side);
      var head := if Shown(x, searchTerm, All) then [x] else [];
      FilteredAppend(head, Filtered(matches[1..], searchTerm, All), "", Only(side));
      ContainsEmpty(Lower(TeamANameOf(x)));
      if head != [] {
        assert ([x] + [])[1..] == [];
      }
    }
  }

  // ---------------------------------------------------------------------------------------------
  // The expand toggle

  /** `onToggle`: the card's id when it was not the open one, nothing when it was. */
  function Toggle(expandedId: Option<string>, id: string): (r: Option<string>)
    ensures r == Some(id) <==> expandedId != Some(id)
    ensures forall other :: other != id ==> r != Some(other)
  {
    if expandedId == Some(id) then None else Some(id)
  }

  /** Toggling the same card twice from a state where it or nothing is open restores that state. */
  lemma ToggleTwice(expandedId: Option<string>, id: string)
    requires expandedId == None || expandedId == Some(id)
    ensures Toggle(Toggle(expandedId, id), id) == expandedId
  {
  }
}
