/** Batch player-list parsing, validation and display of `utils/playerUtils.ts`. */
module PlayerUtils {
  import opened Types
  import opened JsString
  import Lists

  /** The delimiter class `[,\n|;]`. */
  predicate IsNameDelim(c: char)
  {
    c == ',' || c == '\n' || c == '|' || c == ';'
  }

  function TrimAll(xs: seq<string>): (r: seq<string>)
    ensures |r| == |xs|
    ensures forall i :: 0 <= i < |xs| ==> r[i] == Trim(xs[i])
  {
    if xs == [] then [] else [Trim(xs[0])] + TrimAll(xs[1..])
  }

  predicate NonEmpty(s: string) { |s| > 0 }

  /** Index of the entry whose lower-cased spelling is `key`, or `|acc|` when there is none. */
  function KeyIndex(acc: seq<string>, key: string): (i: nat)
    ensures i <= |acc|
    ensures i < |acc| ==> Lower(acc[i]) == key
    ensures forall j :: 0 <= j < i ==> Lower(acc[j]) != key
  {
    if acc == [] then 0
    else if Lower(acc[0]) == key then 0
    else 1 + KeyIndex(acc[1..], key)
  }

  /** `map.set(name.toLowerCase(), name)` on an insertion-ordered map whose values are kept in order. */
  function Put(acc: seq<string>, name: string): seq<string>
  {
    var i := KeyIndex(acc, Lower(name));
    if i < |acc| then acc[i := name] else acc + [name]
  }

  /** The values of `new Map(names.map(n => [n.toLowerCase(), n]))`, in the map's order. */
  function Dedup(names: seq<string>): seq<string>
  {
    if names == [] then [] else Put(Dedup(names[..|names| - 1]), names[|names| - 1])
  }

  predicate DistinctKeys(r: seq<string>)
  {
    forall i, j :: 0 <= i < j < |r| ==> Lower(r[i]) != Lower(r[j])
  }

  predicate HasKey(xs: seq<string>, key: string)
  {
    exists j :: 0 <= j < |xs| && Lower(xs[j]) == key
  }

  /** The last of `names` spelled `key` when lower-cased. */
  function LastWithKey(names: seq<string>, key: string): string
    requires HasKey(names, key)
  {
    if Lower(names[|names| - 1]) == key then names[|names| - 1] else LastWithKey(names[..|names| - 1], key)
  }

  /** Position of the first of `names` spelled `key` when lower-cased. */
  function FirstWithKey(names: seq<string>, key: string): (i: nat)
    requires HasKey(names, key)
    ensures i < |names| && Lower(names[i]) == key
    ensures forall j :: 0 <= j < i ==> Lower(names[j]) != key
  {
    KeyIndex(names, key)
  }

  /** What one `map.set` does to an insertion-ordered map of distinct spellings. */
  lemma PutFacts(acc: seq<string>, x: string)
    requires DistinctKeys(acc)
    ensures DistinctKeys(Put(acc, x))
    ensures KeyIndex(acc, Lower(x)) < |acc| ==>
      |Put(acc, x)| == |acc| && Put(acc, x)[KeyIndex(acc, Lower(x))] == x &&
      forall i :: 0 <= i < |acc| && i != KeyIndex(acc, Lower(x)) ==> Put(acc, x)[i] == acc[i]
    ensures KeyIndex(acc, Lower(x)) == |acc| ==> Put(acc, x) == acc + [x] && !HasKey(acc, Lower(x))
  {
  }

  /** The deduplicated list holds one entry per case-insensitive spelling. */
  lemma {:induction false} DedupDistinct(names: seq<string>)
    ensures DistinctKeys(Dedup(names))
  {
    if names != [] {
      DedupDistinct(names[..|names| - 1]);
      PutFacts(Dedup(names[..|names| - 1]), names[|names| - 1]);
    }
  }

  /** Every spelling of the input is represented in the deduplicated list. */
  lemma {:induction false} DedupCovers(names: seq<string>)
    ensures forall j :: 0 <= j < |names| ==> HasKey(Dedup(names), Lower(names[j]))
  {
    if names != [] {
      var pre := names[..|names| - 1];
      var x := names[|names| - 1];
      DedupCovers(pre);
      DedupDistinct(pre);
      var acc := Dedup(pre);
      var r := Put(acc, x);
      PutFacts(acc, x);
      var idx := KeyIndex(acc, Lower(x));
      forall j | 0 <= j < |names|
        ensures HasKey(r, Lower(names[j]))
      {
        if j == |names| - 1 {
          assert Lower(r[idx]) == Lower(x);
        } else {
          assert names[j] == pre[j];
          var m :| 0 <= m < |acc| && Lower(acc[m]) == Lower(pre[j]);
          assert Lower(r[m]) == Lower(names[j]);
        }
      }
    }
  }

  /** Each entry of the deduplicated list is the last spelling the input gave for its key. */
  lemma {:induction false} DedupLast(names: seq<string>)
    ensures forall i :: 0 <= i < |Dedup(names)| ==>
      HasKey(names, Lower(Dedup(names)[i])) && Dedup(names)[i] == LastWithKey(names, Lower(Dedup(names)[i]))
  {
    if names != [] {
      var pre := names[..|names| - 1];
      var x := names[|names| - 1];
      DedupLast(pre);
      DedupDistinct(pre);
      var acc := Dedup(pre);
      var r := Put(acc, x);
      PutFacts(acc, x);
      forall i | 0 <= i < |r|
        ensures HasKey(names, Lower(r[i])) && r[i] == LastWithKey(names, Lower(r[i]))
      {
        if Lower(r[i]) == Lower(x) {
          assert r[i] == x;
        } else {
          assert r[i] == acc[i];
          var m :| 0 <= m < |pre| && Lower(pre[m]) == Lower(r[i]);
          assert names[m] == pre[m];
        }
      }
    }
  }

  /** Every entry of `r` spells a key of `names`, and `r` lists the keys by first appearance in `names`. */
  predicate OrderedByFirst(names: seq<string>, r: seq<string>)
  {
    (forall i :: 0 <= i < |r| ==> HasKey(names, Lower(r[i]))) &&
    forall i, k :: 0 <= i < k < |r| && HasKey(names, Lower(r[i])) && HasKey(names, Lower(r[k])) ==>
      FirstWithKey(names, Lower(r[i])) < FirstWithKey(names, Lower(r[k]))
  }

  /** The deduplicated list is ordered by where each spelling first appeared. */
  lemma {:induction false} DedupOrder(names: seq<string>)
    ensures OrderedByFirst(names, Dedup(names))
  {
    if names != [] {
      var pre := names[..|names| - 1];
      var x := names[|names| - 1];
      DedupOrder(pre);
      DedupDistinct(pre);
      DedupCovers(pre);
      assert pre + [x] == names;
      OrderStep(pre, x, Dedup(pre));
    }
  }

  lemma OrderStep(pre: seq<string>, x: string, acc: seq<string>)
    requires DistinctKeys(acc) && OrderedByFirst(pre, acc)
    requires forall j :: 0 <= j < |pre| ==> HasKey(acc, Lower(pre[j]))
    ensures OrderedByFirst(pre + [x], Put(acc, x))
  {
    var names := pre + [x];
    var r := Put(acc, x);
    PutLower(acc, x);
    forall i | 0 <= i < |r|
      ensures HasKey(names, Lower(r[i]))
    {
      OrderStepKey(pre, x, acc, r, i);
    }
    forall i, k | 0 <= i < k < |r| && HasKey(names, Lower(r[i])) && HasKey(names, Lower(r[k]))
      ensures FirstWithKey(names, Lower(r[i])) < FirstWithKey(names, Lower(r[k]))
    {
      OrderStepPair(pre, x, acc, r, i, k);
    }
  }

  /** After `map.set`, each position keeps its key, a new key standing last. */
  lemma PutLower(acc: seq<string>, x: string)
    requires DistinctKeys(acc)
    ensures |acc| <= |Put(acc, x)| <= |acc| + 1
    ensures forall i :: 0 <= i < |Put(acc, x)| ==> Lower(Put(acc, x)[i]) == Lower(if i < |acc| then acc[i] else x)
    ensures |Put(acc, x)| == |acc| + 1 ==> !HasKey(acc, Lower(x))
  {
    var r := Put(acc, x);
    PutFacts(acc, x);
    var idx := KeyIndex(acc, Lower(x));
    forall i | 0 <= i < |r|
      ensures Lower(r[i]) == Lower(if i < |acc| then acc[i] else x)
    {
      if i == idx && idx < |acc| {
        assert r[i] == x;
      }
    }
  }

  /** An entry of the list after `map.set` spells a key of the names seen so far. */
  lemma OrderStepKey(pre: seq<string>, x: string, acc: seq<string>, r: seq<string>, i: nat)
    requires OrderedByFirst(pre, acc) && i < |r| && i <= |acc|
    requires Lower(r[i]) == Lower(if i < |acc| then acc[i] else x)
    ensures HasKey(pre + [x], Lower(r[i]))
  {
    var names := pre + [x];
    if i < |acc| {
      var m :| 0 <= m < |pre| && Lower(pre[m]) == Lower(acc[i]);
      assert names[m] == pre[m];
    } else {
      assert names[|pre|] == x;
    }
  }

  /** Two entries after `map.set` keep the order of their keys' first appearance. */
  lemma OrderStepPair(pre: seq<string>, x: string, acc: seq<string>, r: seq<string>, i: nat, k: nat)
    requires OrderedByFirst(pre, acc)
    requires forall j :: 0 <= j < |pre| ==> HasKey(acc, Lower(pre[j]))
    requires i < k < |r| && k <= |acc|
    requires Lower(r[i]) == Lower(acc[i])
    requires Lower(r[k]) == Lower(if k < |acc| then acc[k] else x)
    requires k == |acc| ==> !HasKey(acc, Lower(x))
    requires HasKey(pre + [x], Lower(r[i])) && HasKey(pre + [x], Lower(r[k]))
    ensures FirstWithKey(pre + [x], Lower(r[i])) < FirstWithKey(pre + [x], Lower(r[k]))
  {
    var ki := Lower(r[i]);
    var kk := Lower(r[k]);
    assert HasKey(pre, ki);
    FirstWithKeyExtend(pre, x, ki);
    FirstWithKeyExtend(pre, x, kk);
    if k < |acc| {
      assert HasKey(pre, kk);
      assert FirstWithKey(pre, ki) < FirstWithKey(pre, kk);
    } else {
      assert !HasKey(pre, kk);
    }
  }

  lemma FirstWithKeyExtend(pre: seq<string>, x: string, key: string)
    requires HasKey(pre + [x], key)
    ensures HasKey(pre, key) ==> FirstWithKey(pre + [x], key) == FirstWithKey(pre, key)
    ensures !HasKey(pre, key) ==> FirstWithKey(pre + [x], key) == |pre|
  {
    if HasKey(pre, key) {
      var b := FirstWithKey(pre, key);
      assert (pre + [x])[b] == pre[b];
    }
  }

  /** A list whose spellings are already distinct is left as it is. */
  lemma {:induction false} DedupOfDistinct(names: seq<string>)
    requires DistinctKeys(names)
    ensures Dedup(names) == names
  {
    if names != [] {
      var pre := names[..|names| - 1];
      var x := names[|names| - 1];
      DedupOfDistinct(pre);
      assert pre + [x] == names;
    }
  }

  /** The trimmed, non-empty pieces of the input, before deduplication. */
  function Cleaned(input: string): seq<string>
  {
    Lists.Filter(TrimAll(SplitOn(input, IsNameDelim)), NonEmpty)
  }

  predicate WellFormedName(n: string)
  {
    |n| > 0 && IsTrimmed(n) && NoDelim(n, IsNameDelim)
  }

  /** `parsePlayerCSV(input)`: split on the delimiters, trim, drop empty names, deduplicate. */
  function ParsePlayerCSV(input: string): seq<string>
  {
    if input == "" then [] else Dedup(Cleaned(input))
  }

  /**
   * The parsed names are non-empty, trimmed and free of delimiters, one per case-insensitive
   * spelling; every non-empty piece of the input is represented, by the last spelling given for it.
   */
  lemma ParseShape(input: string)
    ensures DistinctKeys(ParsePlayerCSV(input))
    ensures forall i :: 0 <= i < |ParsePlayerCSV(input)| ==> WellFormedName(ParsePlayerCSV(input)[i])
    ensures input != "" ==> forall j :: 0 <= j < |Cleaned(input)| ==> HasKey(ParsePlayerCSV(input), Lower(Cleaned(input)[j]))
    ensures input != "" ==> forall i :: 0 <= i < |ParsePlayerCSV(input)| ==>
      var n := ParsePlayerCSV(input)[i]; HasKey(Cleaned(input), Lower(n)) && n == LastWithKey(Cleaned(input), Lower(n))
  {
    if input != "" {
      DedupDistinct(Cleaned(input));
      CleanedShape(input);
      DedupCovers(Cleaned(input));
      DedupLast(Cleaned(input));
    }
  }

  lemma CleanedShape(input: string)
    ensures forall i :: 0 <= i < |Dedup(Cleaned(input))| ==> WellFormedName(Dedup(Cleaned(input))[i])
  {
    var raw := SplitOn(input, IsNameDelim);
    var cleaned := Cleaned(input);
    DedupLast(cleaned);
    forall i | 0 <= i < |Dedup(cleaned)|
      ensures WellFormedName(Dedup(cleaned)[i])
    {
      var n := Dedup(cleaned)[i];
      LastWithKeyIn(cleaned, Lower(n));
      assert n in TrimAll(raw);
      var k :| 0 <= k < |raw| && TrimAll(raw)[k] == n;
      TrimmedPiece(raw[k]);
    }
  }

  /** A non-empty trimmed piece of the split input is a well-formed name. */
  lemma TrimmedPiece(piece: string)
    requires NoDelim(piece, IsNameDelim) && Trim(piece) != ""
    ensures WellFormedName(Trim(piece))
  {
    TrimFacts(piece);
    SliceNoDelim(piece, LeadingWhite(piece), LeadingWhite(piece) + |Trim(piece)|);
  }

  lemma {:induction false} LastWithKeyIn(names: seq<string>, key: string)
    requires HasKey(names, key)
    ensures LastWithKey(names, key) in names
    ensures |LastWithKey(names, key)| > 0 || exists j :: 0 <= j < |names| && names[j] == ""
  {
    if Lower(names[|names| - 1]) != key {
      var m :| 0 <= m < |names| && Lower(names[m]) == key;
      assert names[..|names| - 1][m] == names[m];
      LastWithKeyIn(names[..|names| - 1], key);
    }
  }

  lemma SliceNoDelim(s: string, a: int, b: int)
    requires 0 <= a <= b <= |s| && NoDelim(s, IsNameDelim)
    ensures NoDelim(s[a..b], IsNameDelim)
  {
    forall j | 0 <= j < b - a
      ensures !IsNameDelim(s[a..b][j])
    {
      assert s[a..b][j] == s[a + j];
    }
  }

  /** Parsing a parsed list joined with commas gives the same list: parsing is idempotent. */
  lemma ParseIdempotent(input: string)
    ensures ParsePlayerCSV(Join(ParsePlayerCSV(input), ",")) == ParsePlayerCSV(input)
  {
    ParseShape(input);
    var r := ParsePlayerCSV(input);
    if r != [] {
      ReparseWellFormed(r);
    }
  }

  /** A non-empty list of distinct, well-formed names survives being joined with commas and parsed. */
  lemma ReparseWellFormed(r: seq<string>)
    requires r != [] && DistinctKeys(r)
    requires forall i :: 0 <= i < |r| ==> WellFormedName(r[i])
    ensures ParsePlayerCSV(Join(r, ",")) == r
  {
    JoinNonEmpty(r, ",");
    CleanedOfJoin(r);
    DedupOfDistinct(r);
  }

  lemma CleanedOfJoin(r: seq<string>)
    requires r != []
    requires forall i :: 0 <= i < |r| ==> WellFormedName(r[i])
    ensures Cleaned(Join(r, ",")) == r
  {
    assert SplitOn(Join(r, ","), IsNameDelim) == r by {
      SplitJoin(r, ',', IsNameDelim);
    }
    TrimAllTrimmed(r);
    assert Lists.Filter(r, NonEmpty) == r by {
      Lists.FilterAll(r, NonEmpty);
    }
  }

  lemma TrimAllTrimmed(r: seq<string>)
    requires forall i :: 0 <= i < |r| ==> IsTrimmed(r[i])
    ensures TrimAll(r) == r
  {
    forall i | 0 <= i < |r| ensures Trim(r[i]) == r[i] {
      TrimOfTrimmed(r[i]);
    }
  }

  lemma {:induction false} JoinNonEmpty(xs: seq<string>, sep: string)
    requires xs != [] && |xs[0]| > 0
    ensures |Join(xs, sep)| > 0
  {
  }

  /** One finding of `validatePlayerNames`, with the values its message reports. */
  datatype NameError =
    | NoValidNames
    | TooManyPlayers(max: int, got: int)
    | NameTooLong(position: int, max: int)
    | UnsupportedCharacters(name: string)

  /** Characters of `/^[a-zA-Z0-9\s\-'áéíóúàâêôãõç]+$/i`. */
  predicate PlainNameChar(c: char)
  {
    ('a' <= c <= 'z') || ('A' <= c <= 'Z') || ('0' <= c <= '9') || IsWhite(c) || c == '-' || c == '\'' ||
    c == '\U{E1}' || c == '\U{E9}' || c == '\U{ED}' || c == '\U{F3}' || c == '\U{FA}' ||
    c == '\U{E0}' || c == '\U{E2}' || c == '\U{EA}' || c == '\U{F4}' || c == '\U{E3}' || c == '\U{F5}' || c == '\U{E7}' ||
    c == '\U{C1}' || c == '\U{C9}' || c == '\U{CD}' || c == '\U{D3}' || c == '\U{DA}' ||
    c == '\U{C0}' || c == '\U{C2}' || c == '\U{CA}' || c == '\U{D4}' || c == '\U{C3}' || c == '\U{D5}' || c == '\U{C7}'
  }

  predicate PlainName(name: string)
  {
    |name| > 0 && forall i :: 0 <= i < |name| ==> PlainNameChar(name[i])
  }

  /** The findings for the name at 1-based `position`. */
  function StepErrors(name: string, position: int, maxNameLength: int, allowSpecialChars: bool): seq<NameError>
  {
    (if |name| > maxNameLength then [NameTooLong(position, maxNameLength)] else []) +
    (if !allowSpecialChars && !PlainName(name) then [UnsupportedCharacters(name)] else [])
  }

  /** The findings of the loop over the first `n` cleaned names. */
  function NameErrors(cleaned: seq<string>, n: nat, maxNameLength: int, allowSpecialChars: bool): seq<NameError>
    requires n <= |cleaned|
  {
    if n == 0 then []
    else
      NameErrors(cleaned, n - 1, maxNameLength, allowSpecialChars) +
      StepErrors(cleaned[n - 1], n, maxNameLength, allowSpecialChars)
  }

  lemma {:induction false} NameErrorsEmpty(cleaned: seq<string>, n: nat, maxNameLength: int, allowSpecialChars: bool)
    requires n <= |cleaned|
    ensures NameErrors(cleaned, n, maxNameLength, allowSpecialChars) == [] <==>
      forall i :: 0 <= i < n ==> |cleaned[i]| <= maxNameLength && (allowSpecialChars || PlainName(cleaned[i]))
  {
    if n > 0 {
      NameErrorsEmpty(cleaned, n - 1, maxNameLength, allowSpecialChars);
    }
  }

  /** The `forEach` over the cleaned names: appends the findings for each name in turn. */
  method CheckEachName(cleaned: seq<string>, head: seq<NameError>, maxNameLength: int, allowSpecialChars: bool)
    returns (errors: seq<NameError>)
    ensures errors == head + NameErrors(cleaned, |cleaned|, maxNameLength, allowSpecialChars)
  {
    errors := head;
    var idx := 0;
    while idx < |cleaned|
      invariant 0 <= idx <= |cleaned|
      invariant errors == head + NameErrors(cleaned, idx, maxNameLength, allowSpecialChars)
    {
      var name := cleaned[idx];
      ghost var before := errors;
      if |name| > maxNameLength {
        errors := errors + [NameTooLong(idx + 1, maxNameLength)];
      }
      if !allowSpecialChars && !PlainName(name) {
        errors := errors + [UnsupportedCharacters(name)];
      }
      ghost var step := StepErrors(name, idx + 1, maxNameLength, allowSpecialChars);
      ghost var done := NameErrors(cleaned, idx, maxNameLength, allowSpecialChars);
      assert errors == before + step;
      assert (head + done) + step == head + (done + step);
      idx := idx + 1;
    }
  }

  /** Every finding `validatePlayerNames` reports for a cleaned list, in report order. */
  function ValidationErrors(cleaned: seq<string>, maxNameLength: int, maxPlayers: int, allowSpecialChars: bool): seq<NameError>
  {
    (if |cleaned| == 0 then [NoValidNames] else []) +
    (if |cleaned| > maxPlayers then [TooManyPlayers(maxPlayers, |cleaned|)] else []) +
    NameErrors(cleaned, |cleaned|, maxNameLength, allowSpecialChars)
  }

  /** A cleaned list has no findings exactly when it has 1 to `maxPlayers` names, each short enough and, if required, plain. */
  lemma ValidationErrorsEmpty(cleaned: seq<string>, maxNameLength: int, maxPlayers: int, allowSpecialChars: bool)
    ensures ValidationErrors(cleaned, maxNameLength, maxPlayers, allowSpecialChars) == [] <==>
      (1 <= |cleaned| && |cleaned| <= maxPlayers &&
       forall i :: 0 <= i < |cleaned| ==> |cleaned[i]| <= maxNameLength && (allowSpecialChars || PlainName(cleaned[i])))
  {
    NameErrorsEmpty(cleaned, |cleaned|, maxNameLength, allowSpecialChars);
  }

  /** The checks of `validatePlayerNames` once the names are cleaned: count rules first, then each name. */
  method CheckCleanedNames(cleaned: seq<string>, maxNameLength: int, maxPlayers: int, allowSpecialChars: bool)
    returns (errors: seq<NameError>)
    ensures errors == ValidationErrors(cleaned, maxNameLength, maxPlayers, allowSpecialChars)
  {
    errors := [];
    if |cleaned| == 0 {
      errors := errors + [NoValidNames];
    }
    if |cleaned| > maxPlayers {
      errors := errors + [TooManyPlayers(maxPlayers, |cleaned|)];
    }
    errors := CheckEachName(cleaned, errors, maxNameLength, allowSpecialChars);
  }

  /**
   * `validatePlayerNames(names, options)`: the names are joined, parsed again, and each rule
   * that fails adds one error; the list is valid when no error was added.
   */
  method ValidatePlayerNames(names: seq<string>, maxNameLength: int, maxPlayers: int, allowSpecialChars: bool)
    returns (valid: bool, errors: seq<NameError>, cleanedNames: seq<string>)
    ensures cleanedNames == ParsePlayerCSV(Join(names, ","))
    ensures errors == ValidationErrors(cleanedNames, maxNameLength, maxPlayers, allowSpecialChars)
    ensures valid <==> (1 <= |cleanedNames| && |cleanedNames| <= maxPlayers &&
      forall i :: 0 <= i < |cleanedNames| ==>
        |cleanedNames[i]| <= maxNameLength && (allowSpecialChars || PlainName(cleanedNames[i])))
  {
    var cleaned := ParsePlayerCSV(Join(names, ","));
    errors := CheckCleanedNames(cleaned, maxNameLength, maxPlayers, allowSpecialChars);
    ValidationErrorsEmpty(cleaned, maxNameLength, maxPlayers, allowSpecialChars);
    valid := |errors| == 0;
    cleanedNames := cleaned;
  }

  /** `names.slice(0, end)` with JavaScript's treatment of a negative end. */
  function SliceEnd<T>(s: seq<T>, end: int): (r: seq<T>)
    ensures 0 <= end ==> r == s[..Min(end, |s|)]
    ensures end < 0 ==> r == s[..Max(0, |s| + end)]
  {
    if end < 0 then s[..Max(0, |s| + end)] else s[..Min(end, |s|)]
  }

  /** `formatPlayerListForDisplay(names, maxDisplay)`. */
  function FormatPlayerListForDisplay(names: seq<string>, maxDisplay: int): (r: string)
    ensures names == [] ==> r == "(no players)"
    ensures names != [] && 0 <= maxDisplay && |names| <= maxDisplay ==> r == Join(names, ", ")
    ensures names != [] && 0 <= maxDisplay < |names| ==>
      r == Join(names[..maxDisplay], ", ") + ", +" + NatToString(|names| - maxDisplay) + " more"
  {
    if names == [] then "(no players)"
    else
      var displayed := SliceEnd(names, maxDisplay);
      var rest := |names| - maxDisplay;
      assert 0 <= maxDisplay && |names| <= maxDisplay ==> displayed == names;
      var formatted := Join(displayed, ", ");
      if rest > 0 then formatted + ", +" + NatToString(rest) + " more" else formatted
  }

  /** With a negative limit the shown names and the reported remainder overlap: more are counted than hidden. */
  lemma NegativeDisplayLimit()
    ensures FormatPlayerListForDisplay(["a", "b"], -1) == "a, +3 more"
  {
    assert SliceEnd(["a", "b"], -1) == ["a"];
    assert NatToString(3) == "3";
  }
}
