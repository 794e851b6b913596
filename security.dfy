/** Input sanitisation and the guard predicates of `utils/security.ts`. */
module Security {
  import opened Types
  import opened JsString
  import Lists

  /** Longest name the sanitiser keeps by default. */
  const MaxInputLength := 30

  /** The allow-list: ASCII letters and digits, space, `-`, `.`, `'` and U+00C0 to U+00FF. */
  predicate Allowed(c: char)
  {
    ('a' <= c <= 'z') || ('A' <= c <= 'Z') || ('0' <= c <= '9') ||
    c == ' ' || c == '-' || c == '.' || c == '\'' || ('\U{C0}' <= c <= '\U{FF}')
  }

  /**
   * `sanitizeInput(input, maxLength)`: a non-string gives the empty string; otherwise the input
   * is trimmed, every character outside the allow-list is removed and the rest is cut to `maxLength`.
   */
  function SanitizeInput(input: Json, maxLength: int): (r: string)
    ensures !input.JStr? ==> r == ""
    ensures forall i :: 0 <= i < |r| ==> Allowed(r[i])
    ensures |r| <= Max(0, maxLength)
    ensures input.JStr? ==> (
      var kept := Lists.Filter(Trim(input.str), Allowed);
      |r| == Min(|kept|, Max(0, maxLength)) && r == kept[..|r|])
  {
    if !input.JStr? then ""
    else
      var clean := Lists.Filter(Trim(input.str), Allowed);
      if |clean| > maxLength then clean[..Max(0, maxLength)] else clean
  }

  /** The characters markup and script injection need never survive sanitising. */
  lemma SanitizeStripsMarkup(input: Json, maxLength: int)
    ensures forall i :: 0 <= i < |SanitizeInput(input, maxLength)| ==>
      SanitizeInput(input, maxLength)[i] !in {'<', '>', '/', ';', '(', ')', '"', '&'}
  {
  }

  /** A trimmed, allow-listed string that fits is returned unchanged. */
  lemma SanitizeKeepsCleanInput(s: string, maxLength: int)
    requires IsTrimmed(s) && |s| <= maxLength
    requires forall i :: 0 <= i < |s| ==> Allowed(s[i])
    ensures SanitizeInput(JStr(s), maxLength) == s
  {
    TrimOfTrimmed(s);
    Lists.FilterAll(s, Allowed);
  }

  /**
   * Sanitising is not idempotent: trimming happens before filtering, so a disallowed character
   * at the end can leave a trailing space that a second pass removes.
   */
  lemma SanitizeNotIdempotent()
    ensures SanitizeInput(JStr("x <"), MaxInputLength) == "x "
    ensures SanitizeInput(JStr("x "), MaxInputLength) == "x"
  {
    TrimOfTrimmed("x <");
    FilterSample();
    TrimSample();
    Lists.FilterAll("x", Allowed);
  }

  lemma FilterSample()
    ensures Lists.Filter("x <", Allowed) == "x "
  {
    assert "x <"[1..] == " <";
    assert " <"[1..] == "<";
    assert Lists.Filter("<", Allowed) == "";
  }

  lemma TrimSample()
    ensures Trim("x ") == "x"
  {
    assert TrimStart("x ") == "x ";
    assert "x "[..1] == "x";
    assert TrimEnd("x ") == TrimEnd("x");
  }

  /** `isValidScoreOperation`: the resulting score stays within 0..200. */
  function IsValidScoreOperation(currentScore: int, delta: int): (r: bool)
    ensures r <==> 0 <= currentScore + delta <= 200
  {
    var result := currentScore + delta;
    if result < 0 then false else if result > 200 then false else true
  }

  /** `isValidTimeoutRequest`: another timeout is allowed while fewer than `maxTimeouts` were used. */
  function IsValidTimeoutRequest(currentTimeouts: int, maxTimeouts: int): (r: bool)
    ensures r <==> currentTimeouts < maxTimeouts
  {
    currentTimeouts < maxTimeouts
  }
}
