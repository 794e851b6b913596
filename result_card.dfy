/**
 * The text of the shareable result card of `components/Share/ResultCard.tsx`: the team names as
 * printed, their font size, and which side is styled as the winner. Its duration line is
 * `TimeFormat.DurationText`.
 */
module ResultCard {
  import opened Types
  import opened JsString

  /** `formatName`: the trimmed name in capitals, cut to its first three characters when longer than eight. */
  function FormatName(name: string): string
  {
    var trimmed := Trim(name);
    if |trimmed| > 8 then Upper(trimmed[..3]) else Upper(trimmed)
  }

  /** No `ß`, the one character in the range that capitalises to two. */
  predicate NoSharpS(s: string)
  {
    forall i :: 0 <= i < |s| ==> s[i] != '\U{DF}'
  }

  /**
   * A printed name is never longer than eight characters, an abbreviated one is exactly three, and
   * a name that fits keeps its trimmed length, as long as capitalising does not lengthen it.
   */
  lemma FormatNameLength(name: string)
    requires NoSharpS(Trim(name))
    ensures |FormatName(name)| <= 8
    ensures |Trim(name)| > 8 ==> |FormatName(name)| == 3
    ensures |Trim(name)| <= 8 ==> |FormatName(name)| == |Trim(name)|
  {
    var t := Trim(name);
    if |t| > 8 {
      assert forall i :: 0 <= i < 3 ==> t[..3][i] == t[i];
    }
  }

  /** A name of which capitalising changes nothing is printed as it is when it fits. */
  lemma FormatNameKeepsShortCapitals(name: string)
    requires IsTrimmed(name) && |name| <= 8 && Upper(name) == name
    ensures FormatName(name) == name
  {
    TrimOfTrimmed(name);
  }

  /** The font sizes `getNameSize` picks from. */
  datatype NameSize = Text9xl | Text8xl | Text6xl

  /** How large a size is: 9xl is the largest. */
  function Rank(s: NameSize): nat
  {
    match s
    case Text9xl => 2
    case Text8xl => 1
    case Text6xl => 0
  }

  /** `getNameSize`: up to three characters 9xl, up to five 8xl, longer 6xl. */
  function GetNameSize(name: string): NameSize
  {
    if |name| <= 3 then Text9xl else if |name| <= 5 then Text8xl else Text6xl
  }

  /** A longer name never gets a larger font. */
  lemma NameSizeMonotone(a: string, b: string)
    requires |a| <= |b|
    ensures Rank(GetNameSize(b)) <= Rank(GetNameSize(a))
  {
  }

  /** An abbreviated name is always printed in the largest size. */
  lemma AbbreviatedNamesAreLargest(name: string)
    requires NoSharpS(Trim(name)) && |Trim(name)| > 8
    ensures GetNameSize(FormatName(name)) == Text9xl
  {
    FormatNameLength(name);
  }

  /**
   * `isWinnerA`: team A is styled as the winner exactly when it won; every other case, a match
   * without a winner included, styles team B as the winner.
   */
  function IsWinnerA(winner: Option<TeamId>): (r: bool)
    ensures winner == Some(B) || winner.None? ==> !r
    ensures r ==> winner == Some(A)
  {
    winner == Some(A)
  }

  /**
   * The side the card styles as the winner, with the crown, the brighter name and the stronger
   * glow: the recorded winner, and B when none is recorded.
   */
  function CrownedSide(winner: Option<TeamId>): (t: TeamId)
    ensures winner.Some? ==> t == winner.value
    ensures winner.None? ==> t == B
  {
    if IsWinnerA(winner) then A
    else
      assert winner.Some? ==> winner == Some(winner.value) && winner.value != A;
      B
  }
}
