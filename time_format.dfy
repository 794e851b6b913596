/** Clock and duration texts shared by the scoreboard's timers, history cards and share card. */
module TimeFormat {
  import opened JsString

  predicate IsColon(c: char) { c == ':' }

  predicate AllDigits(s: string)
  {
    forall i :: 0 <= i < |s| ==> '0' <= s[i] <= '9'
  }

  /** Reads a colon-separated clock text back into seconds: each field counts 60 of the next one. */
  function ClockValue(fields: seq<string>): int
  {
    if fields == [] then 0 else ClockValue(fields[..|fields| - 1]) * 60 + DigitsValue(fields[|fields| - 1])
  }

  lemma ClockValueSnoc(fields: seq<string>, f: string)
    ensures ClockValue(fields + [f]) == ClockValue(fields) * 60 + DigitsValue(f)
  {
    assert (fields + [f])[..|fields|] == fields;
  }

  /** Hours, minutes and seconds of a duration recombine into it. */
  lemma HmsParts(d: nat)
    ensures (d / 3600 * 60 + (d % 3600) / 60) * 60 + d % 60 == d
    ensures ((d % 3600) / 60) * 60 + d % 60 == d % 3600
    ensures d / 3600 * 60 + (d % 3600) / 60 == d / 60
  {
    var q := d / 3600;
    var r := d % 3600;
    assert d == 3600 * q + r;
    assert r == 60 * (r / 60) + r % 60;
    assert d == 60 * (60 * q + r / 60) + r % 60;
    assert d % 60 == r % 60;
    assert d / 60 == 60 * q + r / 60;
  }

  function ReadClock(t: string): int
  {
    ClockValue(SplitOn(t, IsColon))
  }

  /** A zero in front does not change the value of a digit string. */
  lemma {:induction false} LeadingZero(s: string)
    ensures DigitsValue("0" + s) == DigitsValue(s)
    decreases |s|
  {
    if s != [] {
      var t := "0" + s;
      assert t[..|t| - 1] == "0" + s[..|s| - 1];
      LeadingZero(s[..|s| - 1]);
    }
  }

  /** Two-digit field of a clock: `n.toString().padStart(2, '0')`. */
  function Pad2(n: nat): (r: string)
    ensures |r| >= 2 && AllDigits(r)
    ensures n < 100 ==> |r| == 2
    ensures DigitsValue(r) == n
  {
    var s := NatToString(n);
    NatToStringRoundTrip(n);
    if |s| == 1 then
      LeadingZero(s);
      "0" + s
    else
      if n < 100 then NatToStringSmall(n); s else s
  }

  lemma NatToStringSmall(n: nat)
    requires n < 100
    ensures |NatToString(n)| <= 2
  {
  }

  lemma DigitsNoColon(s: string)
    requires AllDigits(s)
    ensures NoDelim(s, IsColon)
  {
  }

  /** `formatTime(seconds)`: minutes and seconds, each padded to two digits. */
  function FormatTime(seconds: nat): (r: string)
    ensures |r| >= 5 && r[|r| - 3] == ':'
    ensures AllDigits(r[..|r| - 3]) && AllDigits(r[|r| - 2..])
  {
    Pad2(seconds / 60) + ":" + Pad2(seconds % 60)
  }

  /** Reading the minutes-and-seconds text back gives the number of seconds. */
  lemma FormatTimeRoundTrip(seconds: nat)
    ensures ReadClock(FormatTime(seconds)) == seconds
  {
    var a := Pad2(seconds / 60);
    var b := Pad2(seconds % 60);
    assert Join([a, b], ":") == FormatTime(seconds);
    ReadTwoFields(a, b);
  }

  /** `GameTimer`: `H:MM:SS` from the first hour on, `MM:SS` before it. */
  function GameTimerText(duration: nat): (r: string)
    ensures duration < 3600 ==> |r| == 5
    ensures duration >= 3600 ==> |r| >= 7 && r[|r| - 3] == ':' && r[|r| - 6] == ':'
  {
    var h := duration / 3600;
    var m := (duration % 3600) / 60;
    var s := duration % 60;
    if h > 0 then NatToString(h) + ":" + Pad2(m) + ":" + Pad2(s) else Pad2(m) + ":" + Pad2(s)
  }

  /** Reading the game-timer text back gives the duration. */
  lemma GameTimerRoundTrip(duration: nat)
    ensures ReadClock(GameTimerText(duration)) == duration
  {
    HmsParts(duration);
    if duration / 3600 > 0 {
      GameTimerLong(duration);
    } else {
      GameTimerShort(duration);
    }
  }

  lemma GameTimerLong(duration: nat)
    requires duration / 3600 > 0
    ensures ReadClock(GameTimerText(duration)) ==
      (duration / 3600 * 60 + (duration % 3600) / 60) * 60 + duration % 60
  {
    var hs := NatToString(duration / 3600);
    var m := Pad2((duration % 3600) / 60);
    var s := Pad2(duration % 60);
    NatToStringRoundTrip(duration / 3600);
    assert GameTimerText(duration) == hs + ":" + m + ":" + s;
    assert Join([hs, m, s], ":") == hs + ":" + m + ":" + s by {
      assert [hs, m, s][1..] == [m, s];
      assert [m, s][1..] == [s];
    }
    ReadThreeFields(hs, m, s);
  }

  lemma GameTimerShort(duration: nat)
    requires duration / 3600 == 0
    ensures ReadClock(GameTimerText(duration)) == ((duration % 3600) / 60) * 60 + duration % 60
  {
    var m := Pad2((duration % 3600) / 60);
    var s := Pad2(duration % 60);
    assert Join([m, s], ":") == m + ":" + s by {
      assert [m, s][1..] == [s];
    }
    ReadTwoFields(m, s);
  }

  lemma ReadTwoFields(a: string, b: string)
    requires AllDigits(a) && AllDigits(b)
    ensures ReadClock(Join([a, b], ":")) == DigitsValue(a) * 60 + DigitsValue(b)
  {
    DigitsNoColon(a);
    DigitsNoColon(b);
    SplitJoin([a, b], ':', IsColon);
    ClockValueSnoc([], a);
    ClockValueSnoc([a], b);
    assert [] + [a] == [a] && [a] + [b] == [a, b];
  }

  lemma ReadThreeFields(a: string, b: string, c: string)
    requires AllDigits(a) && AllDigits(b) && AllDigits(c)
    ensures ReadClock(Join([a, b, c], ":")) == (DigitsValue(a) * 60 + DigitsValue(b)) * 60 + DigitsValue(c)
  {
    DigitsNoColon(a);
    DigitsNoColon(b);
    DigitsNoColon(c);
    SplitJoin([a, b, c], ':', IsColon);
    ClockValueSnoc([], a);
    ClockValueSnoc([a], b);
    ClockValueSnoc([a, b], c);
    assert [] + [a] == [a] && [a] + [b] == [a, b] && [a, b] + [c] == [a, b, c];
  }

  /** Match duration as `Hh Mm`, or `Mm` under an hour; leftover seconds are dropped. */
  function DurationText(durationSeconds: nat): (r: string)
    ensures |r| >= 2 && r[|r| - 1] == 'm'
    ensures durationSeconds < 3600 <==> (forall i :: 0 <= i < |r| ==> r[i] != 'h')
  {
    var h := durationSeconds / 3600;
    var m := (durationSeconds % 3600) / 60;
    if h > 0 then
      assert NatToString(h) + "h " + NatToString(m) + "m" == NatToString(h) + ("h " + NatToString(m) + "m");
      assert (NatToString(h) + "h " + NatToString(m) + "m")[|NatToString(h)|] == 'h';
      NatToString(h) + "h " + NatToString(m) + "m"
    else NatToString(m) + "m"
  }

  /** The number before `h` and the number before `m`, read as hours and minutes, give the whole minutes. */
  lemma DurationTextRoundTrip(durationSeconds: nat)
    ensures var h := durationSeconds / 3600; var m := (durationSeconds % 3600) / 60;
      DurationText(durationSeconds) ==
        (if h > 0 then NatToString(h) + "h " else "") + NatToString(m) + "m" &&
      DigitsValue(NatToString(h)) * 60 + DigitsValue(NatToString(m)) == durationSeconds / 60 &&
      DigitsValue(NatToString(m)) < 60
  {
    NatToStringRoundTrip(durationSeconds / 3600);
    NatToStringRoundTrip((durationSeconds % 3600) / 60);
    HmsParts(durationSeconds);
  }
}
