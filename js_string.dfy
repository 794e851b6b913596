/**
 * The few JavaScript string operations the scoreboard relies on, written out so that their
 * behaviour on edge cases (empty strings, whitespace, case) is explicit.
 */
module JsString {

  /** WhiteSpace and LineTerminator code points, as `String.prototype.trim` and the regex class `\s` use them. */
  predicate IsWhite(c: char)
  {
    c == '\t' || c == '\n' || c == '\U{B}' || c == '\U{C}' || c == '\r' || c == ' ' ||
    c == '\U{A0}' || c == '\U{1680}' || ('\U{2000}' <= c <= '\U{200A}') || c == '\U{2028}' ||
    c == '\U{2029}' || c == '\U{202F}' || c == '\U{205F}' || c == '\U{3000}' || c == '\U{FEFF}'
  }

  function TrimStart(s: string): string
  {
    if s != [] && IsWhite(s[0]) then TrimStart(s[1..]) else s
  }

  function TrimEnd(s: string): string
  {
    if s != [] && IsWhite(s[|s| - 1]) then TrimEnd(s[..|s| - 1]) else s
  }

  /** Number of whitespace code points in front of `s`. */
  function LeadingWhite(s: string): (n: nat)
    ensures n <= |s|
  {
    if s != [] && IsWhite(s[0]) then 1 + LeadingWhite(s[1..]) else 0
  }

  /** `trimStart` drops exactly the leading whitespace. */
  lemma {:induction false} TrimStartDrops(s: string)
    ensures TrimStart(s) == s[LeadingWhite(s)..]
    ensures forall i :: 0 <= i < LeadingWhite(s) ==> IsWhite(s[i])
    ensures LeadingWhite(s) == |s| || !IsWhite(s[LeadingWhite(s)])
  {
    if s != [] && IsWhite(s[0]) {
      TrimStartDrops(s[1..]);
      forall i | 1 <= i < LeadingWhite(s) ensures IsWhite(s[i]) {
        assert s[i] == s[1..][i - 1];
      }
    }
  }

  /** `trimEnd` keeps a prefix and drops only whitespace. */
  lemma {:induction false} TrimEndKeeps(s: string)
    ensures |TrimEnd(s)| <= |s| && TrimEnd(s) == s[..|TrimEnd(s)|]
    ensures TrimEnd(s) == [] || !IsWhite(TrimEnd(s)[|TrimEnd(s)| - 1])
    ensures forall i :: |TrimEnd(s)| <= i < |s| ==> IsWhite(s[i])
  {
    if s != [] && IsWhite(s[|s| - 1]) {
      TrimEndKeeps(s[..|s| - 1]);
    }
  }

  /** `s.trim()`. */
  function Trim(s: string): string
  {
    TrimEnd(TrimStart(s))
  }

  /** Trimming gives the slice of `s` left after dropping whitespace, and only whitespace, from both ends. */
  lemma TrimFacts(s: string)
    ensures LeadingWhite(s) + |Trim(s)| <= |s|
    ensures Trim(s) == s[LeadingWhite(s)..LeadingWhite(s) + |Trim(s)|]
    ensures forall i :: 0 <= i < LeadingWhite(s) ==> IsWhite(s[i])
    ensures forall i :: LeadingWhite(s) + |Trim(s)| <= i < |s| ==> IsWhite(s[i])
    ensures Trim(s) == [] || (!IsWhite(Trim(s)[0]) && !IsWhite(Trim(s)[|Trim(s)| - 1]))
  {
    TrimStartDrops(s);
    var t := TrimStart(s);
    TrimEndKeeps(t);
    var r := Trim(s);
    var n := LeadingWhite(s);
    assert r == s[n..n + |r|];
    forall i | n + |r| <= i < |s| ensures IsWhite(s[i]) {
      assert s[i] == t[i - n];
    }
    if r != [] {
      assert r[0] == s[n];
    }
  }

  predicate IsTrimmed(s: string)
  {
    s == [] || (!IsWhite(s[0]) && !IsWhite(s[|s| - 1]))
  }

  /** Trimming a string with no whitespace at either end changes nothing. */
  lemma TrimOfTrimmed(s: string)
    requires IsTrimmed(s)
    ensures Trim(s) == s
  {
    TrimStartDrops(s);
    assert TrimStart(s) == s;
    if s != [] {
      assert TrimEnd(s) == s;
    }
  }

  /** Trimming is idempotent. */
  lemma TrimIdempotent(s: string)
    ensures Trim(Trim(s)) == Trim(s)
  {
    TrimFacts(s);
    TrimOfTrimmed(Trim(s));
  }

  /** A string is all whitespace exactly when trimming leaves nothing. */
  lemma {:induction false} TrimEmptyIffBlank(s: string)
    ensures Trim(s) == [] <==> forall i :: 0 <= i < |s| ==> IsWhite(s[i])
  {
    TrimFacts(s);
    if Trim(s) != [] {
      var r := Trim(s);
      assert s[LeadingWhite(s)] == r[0];
    }
  }

  /** `toLowerCase` on one code point: ASCII and the Latin-1 capitals (U+00C0 to U+00DE except U+00D7). */
  function LowerChar(c: char): char
  {
    if 'A' <= c <= 'Z' || ('\U{C0}' <= c <= '\U{DE}' && c != '\U{D7}') then (c as int + 32) as char else c
  }

  function Lower(s: string): (r: string)
    ensures |r| == |s|
  {
    if s == [] then [] else [LowerChar(s[0])] + Lower(s[1..])
  }

  lemma {:induction false} LowerIdempotent(s: string)
    ensures Lower(Lower(s)) == Lower(s)
  {
    if s != [] {
      LowerIdempotent(s[1..]);
      var l := Lower(s);
      assert l[0] == LowerChar(s[0]) && l[1..] == Lower(s[1..]);
    }
  }

  lemma {:induction false} LowerAppend(s: string, t: string)
    ensures Lower(s + t) == Lower(s) + Lower(t)
  {
    if s == [] {
      assert s + t == t;
    } else {
      assert (s + t)[1..] == s[1..] + t;
      LowerAppend(s[1..], t);
    }
  }

  /** `toUpperCase` on one code point, for ASCII and Latin-1 (the sharp s becomes two letters). */
  function UpperChar(c: char): string
  {
    if 'a' <= c <= 'z' || ('\U{E0}' <= c <= '\U{FE}' && c != '\U{F7}') then [(c as int - 32) as char]
    else if c == '\U{FF}' then ['\U{178}']
    else if c == '\U{B5}' then ['\U{39C}']
    else if c == '\U{DF}' then "SS"
    else [c]
  }

  function Upper(s: string): (r: string)
    ensures |r| >= |s|
    ensures (forall i :: 0 <= i < |s| ==> s[i] != '\U{DF}') ==> |r| == |s|
  {
    if s == [] then [] else UpperChar(s[0]) + Upper(s[1..])
  }

  /** `s.includes(sub)`. */
  predicate Contains(s: string, sub: string)
  {
    exists i :: 0 <= i <= |s| - |sub| && OccursAt(s, sub, i)
  }

  predicate OccursAt(s: string, sub: string, i: int)
    requires 0 <= i <= |s| - |sub|
  {
    s[i..i + |sub|] == sub
  }

  lemma ContainsEmpty(s: string)
    ensures Contains(s, "")
  {
    assert OccursAt(s, "", 0);
  }

  /** `s.startsWith(prefix)`. */
  predicate StartsWith(s: string, prefix: string)
  {
    |prefix| <= |s| && s[..|prefix|] == prefix
  }

  /** `arr.join(sep)`. */
  function Join(xs: seq<string>, sep: string): (r: string)
    ensures xs == [] ==> r == ""
    ensures |xs| == 1 ==> r == xs[0]
  {
    if xs == [] then "" else if |xs| == 1 then xs[0] else xs[0] + sep + Join(xs[1..], sep)
  }

  /** `s.split(re)` for a regular expression matching exactly one delimiter character. */
  function SplitOn(s: string, isDelim: char -> bool): (r: seq<string>)
    ensures |r| >= 1
    ensures forall i :: 0 <= i < |r| ==> forall j :: 0 <= j < |r[i]| ==> !isDelim(r[i][j])
  {
    if s == [] then [""]
    else
      var rest := SplitOn(s[1..], isDelim);
      if isDelim(s[0]) then [""] + rest else [[s[0]] + rest[0]] + rest[1..]
  }

  predicate NoDelim(x: string, isDelim: char -> bool)
  {
    forall j :: 0 <= j < |x| ==> !isDelim(x[j])
  }

  /** Splitting a list joined with a delimiter gives the list back when no element contains a delimiter. */
  lemma {:induction false} SplitJoin(xs: seq<string>, sep: char, isDelim: char -> bool)
    requires xs != [] && isDelim(sep)
    requires forall i :: 0 <= i < |xs| ==> NoDelim(xs[i], isDelim)
    ensures SplitOn(Join(xs, [sep]), isDelim) == xs
    decreases |xs|
  {
    if |xs| == 1 {
      SplitWord(xs[0], isDelim);
    } else {
      SplitJoin(xs[1..], sep, isDelim);
      var tail := Join(xs[1..], [sep]);
      SplitCons(xs[0], [sep] + tail, isDelim);
      assert SplitOn([sep] + tail, isDelim) == [""] + xs[1..] by {
        assert ([sep] + tail)[1..] == tail;
      }
      assert Join(xs, [sep]) == xs[0] + ([sep] + tail);
      assert xs[0] + "" == xs[0];
      assert [xs[0]] + xs[1..] == xs;
    }
  }

  /** A word with no delimiter splits into itself. */
  lemma {:induction false} SplitWord(w: string, isDelim: char -> bool)
    requires NoDelim(w, isDelim)
    ensures SplitOn(w, isDelim) == [w]
    decreases |w|
  {
    if w != [] {
      SplitWord(w[1..], isDelim);
      assert [w[0]] + w[1..] == w;
    }
  }

  /** A delimiter-free word in front of a string extends that string's first piece. */
  lemma {:induction false} SplitCons(w: string, s: string, isDelim: char -> bool)
    requires NoDelim(w, isDelim)
    ensures SplitOn(w + s, isDelim) == [w + SplitOn(s, isDelim)[0]] + SplitOn(s, isDelim)[1..]
    decreases |w|
  {
    if w != [] {
      assert (w + s)[1..] == w[1..] + s;
      SplitCons(w[1..], s, isDelim);
      assert [w[0]] + (w[1..] + SplitOn(s, isDelim)[0]) == w + SplitOn(s, isDelim)[0];
    } else {
      assert w + s == s;
      assert w + SplitOn(s, isDelim)[0] == SplitOn(s, isDelim)[0];
    }
  }

  /** Decimal digits of a natural number, as `String(n)` prints it. */
  function NatToString(n: nat): (r: string)
    ensures |r| >= 1
    ensures forall i :: 0 <= i < |r| ==> '0' <= r[i] <= '9'
    ensures |r| > 1 ==> r[0] != '0'
    decreases n
  {
    if n < 10 then [('0' as int + n) as char] else NatToString(n / 10) + [('0' as int + n % 10) as char]
  }

  function DigitsValue(s: string): int
  {
    if s == [] then 0 else DigitsValue(s[..|s| - 1]) * 10 + (s[|s| - 1] as int - '0' as int)
  }

  /** Reading back the printed digits gives the number. */
  lemma {:induction false} NatToStringRoundTrip(n: nat)
    ensures DigitsValue(NatToString(n)) == n
    decreases n
  {
    if n >= 10 {
      NatToStringRoundTrip(n / 10);
      var s := NatToString(n);
      assert s[..|s| - 1] == NatToString(n / 10);
    }
  }
}
