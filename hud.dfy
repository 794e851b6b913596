/**
 * The small rules of the full-screen overlays: `components/FullscreenHUD.tsx`,
 * `components/Fullscreen/FloatingTopBar.tsx` and `src/components/Fullscreen/FloatingTopBar.tsx`.
 * All three print the clock as `TimeFormat.FormatTime`, show two timeout dots per team and grey out
 * a team's timeout button once it has taken two.
 */
module Hud {
  import opened Types
  import opened JsString
  import TimeFormat
  import Security

  // ---------------------------------------------------------------------------------------------
  // The clock

  /** A digit string of at most two digits is worth less than 100. */
  lemma {:induction false} ShortDigits(s: string)
    requires |s| <= 2 && TimeFormat.AllDigits(s)
    ensures 0 <= DigitsValue(s) < 100
  {
    if s != [] {
      ShortDigits(s[..|s| - 1]);
    }
  }

  /**
   * `formatTime`: the seconds field is always the last two characters, worth the seconds past the
   * minute; the minutes are not capped, so from 100 minutes on they take three digits or more.
   */
  lemma FormatTimeFields(seconds: nat)
    ensures var r := TimeFormat.FormatTime(seconds);
      DigitsValue(r[|r| - 2..]) == seconds % 60 && DigitsValue(r[..|r| - 3]) == seconds / 60
    ensures seconds >= 6000 ==> |TimeFormat.FormatTime(seconds)| >= 6
  {
    var m, s := TimeFormat.Pad2(seconds / 60), TimeFormat.Pad2(seconds % 60);
    var r := TimeFormat.FormatTime(seconds);
    assert r == m + ":" + s;
    assert r[|r| - 2..] == s;
    assert r[..|r| - 3] == m;
    if seconds >= 6000 && |m| <= 2 {
      ShortDigits(m);
    }
  }

  // ---------------------------------------------------------------------------------------------
  // Timeouts

  /** Dot `i` (1 or 2) of a team's timeout indicator shows as used once `i` timeouts were taken. */
  predicate DotUsed(i: int, timeouts: int)
  {
    i <= timeouts
  }

  /** The `src/` top bar's wording of the same dot: available while more than `timeouts`. */
  predicate DotAvailable(i: int, timeouts: int)
  {
    i > timeouts
  }

  /** How many of the two dots show as used. */
  function UsedDots(timeouts: int): (n: nat)
    ensures n == Min(2, Max(0, timeouts))
  {
    (if DotUsed(1, timeouts) then 1 else 0) + (if DotUsed(2, timeouts) then 1 else 0)
  }

  /** The two wordings agree: each dot is exactly one of used and available. */
  lemma DotWordingsAgree(i: int, timeouts: int)
    ensures DotAvailable(i, timeouts) <==> !DotUsed(i, timeouts)
  {
  }

  /** `timeouts >= 2`: the button is greyed out and, in the `src/` top bar, clicks are ignored. */
  predicate Exhausted(timeouts: int)
  {
    timeouts >= 2
  }

  /** The `src/` top bar's click: the request reaches the game only while the team is not exhausted. */
  function ClickRequestsTimeout(timeouts: int): (r: bool)
    ensures r <==> UsedDots(timeouts) < 2
  {
    !Exhausted(timeouts)
  }

  /**
   * A greyed-out button is exactly a request the game's guard refuses with two timeouts per set,
   * and it shows both dots used.
   */
  lemma ExhaustedMatchesGuard(timeouts: int)
    ensures Exhausted(timeouts) <==> !Security.IsValidTimeoutRequest(timeouts, 2)
    ensures Exhausted(timeouts) <==> UsedDots(timeouts) == 2
  {
  }

  // ---------------------------------------------------------------------------------------------
  // Labels and names

  /** JavaScript's printing of an integer. */
  function IntText(n: int): string
  {
    if n >= 0 then NatToString(n) else "-" + NatToString(-n)
  }

  /** The set label: `Tie Break` in the tie-break, `Set n` otherwise. */
  function SetLabel(isTieBreak: bool, currentSet: int): (r: string)
    ensures r == "Tie Break" <==> isTieBreak
    ensures !isTieBreak ==> |r| > 4 && r[..4] == "Set "
  {
    if isTieBreak then "Tie Break"
    else
      var r := "Set " + IntText(currentSet);
      assert r[..4] == "Set ";
      assert r[0] != "Tie Break"[0];
      r
  }

  /** Outside the tie-break the label names the set: the digits after `Set ` read back as its number. */
  lemma SetLabelNumber(currentSet: nat)
    ensures DigitsValue(SetLabel(false, currentSet)[4..]) == currentSet
  {
    assert SetLabel(false, currentSet)[4..] == NatToString(currentSet);
    NatToStringRoundTrip(currentSet);
  }

  /** `truncateName`: a name of more than eight characters becomes its first seven and `..`. */
  function TruncateName(name: string): (r: string)
    ensures |r| <= 9
    ensures |name| <= 8 ==> r == name
    ensures |name| > 8 ==> |r| == 9 && r[..7] == name[..7] && r[7..] == ".."
  {
    if |name| > 8 then name[..7] + ".." else name
  }

  /** A truncated name truncates to itself. */
  lemma TruncateIdempotent(name: string)
    ensures TruncateName(TruncateName(name)) == TruncateName(name)
  {
    if |name| > 8 {
      var r := TruncateName(name);
      assert r[..7] + ".." == r;
    }
  }
}
