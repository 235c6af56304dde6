/** `formatDuration` of lib/utils.ts: a count of elapsed seconds rendered as a
    short human-readable string. Durations are whole, non-negative seconds. */
module Duration {
  import opened Text

  /** Whole hours, minutes within the hour and seconds within the minute. */
  function Hours(seconds: nat): nat { seconds / 3600 }
  function Minutes(seconds: nat): nat { (seconds % 3600) / 60 }
  function RemainingSeconds(seconds: nat): nat { seconds % 60 }

  /** The three parts put back together give the duration, and the two lower
      parts are below 60. */
  lemma DecomposeDuration(seconds: nat)
    ensures Hours(seconds) * 3600 + Minutes(seconds) * 60 + RemainingSeconds(seconds) == seconds
    ensures Minutes(seconds) < 60 && RemainingSeconds(seconds) < 60
  {
    var h, q := seconds / 3600, seconds % 3600;
    var m, r := q / 60, q % 60;
    assert seconds == h * 3600 + q;
    assert q == m * 60 + r;
    assert seconds == (h * 60 + m) * 60 + r;
    assert seconds % 60 == r;
  }

  /** Any split of `s` into hours, minutes below 60 and seconds below 60 is
      the one the formatter computes. */
  lemma DecompositionUnique(s: nat, h: nat, m: nat, r: nat)
    requires m < 60 && r < 60 && s == h * 3600 + m * 60 + r
    ensures Hours(s) == h && Minutes(s) == m && RemainingSeconds(s) == r
  {
    assert m * 60 + r < 3600;
    assert s / 3600 == h && s % 3600 == m * 60 + r;
    assert s == (h * 60 + m) * 60 + r;
    assert s % 60 == r;
  }

  /** The six branch conditions of the formatter, in source order, stated on
      the split of the duration. */
  function ShapeGuards(s: nat): (g: seq<bool>)
    ensures |g| == 6
  {
    var h, m, r := Hours(s), Minutes(s), RemainingSeconds(s);
    [ s < 60,
      h > 0 && r > 0,
      h > 0 && m > 0 && r == 0,
      h > 0 && m == 0 && r == 0,
      60 <= s < 3600 && m > 0 && r > 0,
      60 <= s < 3600 && m > 0 && r == 0 ]
  }

  /** The formatter as written: the hours-plus-seconds shape labels the hours
      with `s`, and the whole-hour and whole-minute shapes carry no unit. */
  function FormatDuration(seconds: nat): (t: string)
    ensures var g, h, m, r := ShapeGuards(seconds), Hours(seconds), Minutes(seconds), RemainingSeconds(seconds);
      && (g[0] ==> t == NatToString(seconds) + " s")
      && (g[1] ==> t == NatToString(h) + "s " + NatToString(m) + "m " + NatToString(r) + "s")
      && (g[2] ==> t == NatToString(h) + "h " + NatToString(m) + "m")
      && (g[3] ==> t == NatToString(h))
      && (g[4] ==> t == NatToString(m) + "m " + NatToString(r) + "s")
      && (g[5] ==> t == NatToString(m))
  {
    DecomposeDuration(seconds);
    if seconds < 60 then NatToString(seconds) + " s"
    else
      var hours := Hours(seconds);
      var minutes := Minutes(seconds);
      var rem := RemainingSeconds(seconds);
      if hours > 0 then
        if rem > 0 then NatToString(hours) + "s " + NatToString(minutes) + "m " + NatToString(rem) + "s"
        else if minutes > 0 then NatToString(hours) + "h " + NatToString(minutes) + "m"
        else NatToString(hours)
      else
        if rem > 0 then NatToString(minutes) + "m " + NatToString(rem) + "s"
        else NatToString(minutes)
  }

  // The six shapes below are selected by conditions on the unique split
  // s == h * 3600 + m * 60 + r (m, r < 60); FormatDurationShapes shows that
  // exactly one of them applies to every duration.

  lemma FormatUnderMinute(s: nat)
    requires s < 60
    ensures FormatDuration(s) == NatToString(s) + " s"
  {
  }

  lemma FormatHoursMinutesSeconds(s: nat, h: nat, m: nat, r: nat)
    requires s == h * 3600 + m * 60 + r && h > 0 && m < 60 && 0 < r < 60
    ensures FormatDuration(s) == NatToString(h) + "s " + NatToString(m) + "m " + NatToString(r) + "s"
  {
    DecompositionUnique(s, h, m, r);
  }

  lemma FormatHoursMinutes(s: nat, h: nat, m: nat)
    requires s == h * 3600 + m * 60 && h > 0 && 0 < m < 60
    ensures FormatDuration(s) == NatToString(h) + "h " + NatToString(m) + "m"
  {
    DecompositionUnique(s, h, m, 0);
  }

  lemma FormatWholeHours(s: nat, h: nat)
    requires s == h * 3600 && h > 0
    ensures FormatDuration(s) == NatToString(h)
  {
    DecompositionUnique(s, h, 0, 0);
  }

  lemma FormatMinutesSeconds(s: nat, m: nat, r: nat)
    requires s == m * 60 + r && 0 < m < 60 && 0 < r < 60
    ensures FormatDuration(s) == NatToString(m) + "m " + NatToString(r) + "s"
  {
    DecompositionUnique(s, 0, m, r);
  }

  lemma FormatWholeMinutes(s: nat, m: nat)
    requires s == m * 60 && 0 < m < 60
    ensures FormatDuration(s) == NatToString(m)
  {
    DecompositionUnique(s, 0, m, 0);
  }

  /** Every duration takes exactly one of the six shapes: one of the guards
      always holds, and no two hold together. */
  lemma FormatDurationShapes(s: nat)
    ensures true in ShapeGuards(s)
    ensures forall i, j :: 0 <= i < j < 6 ==> !(ShapeGuards(s)[i] && ShapeGuards(s)[j])
  {
    DecomposeDuration(s);
  }

  /** 45 seconds, a minute and a half, and an hour, a minute and a second. */
  lemma FormatDurationExamples()
    ensures FormatDuration(45) == "45 s"
    ensures FormatDuration(90) == "1m 30s"
    ensures FormatDuration(3661) == "1s 1m 1s"
  {
    FormatMinutesSeconds(90, 1, 30);
    FormatHoursMinutesSeconds(3661, 1, 1, 1);
    assert NatToString(45) == "45";
    assert NatToString(30) == "30";
  }

  /** As written, one minute and one hour both render as the bare "1". */
  lemma FormatDurationAmbiguous()
    ensures FormatDuration(60) == FormatDuration(3600) == "1"
  {
    FormatWholeMinutes(60, 1);
    FormatWholeHours(3600, 1);
  }

  /** The formatter with the evident intent: hours labelled `h` and the
      whole-hour and whole-minute shapes carrying their unit. */
  function FormatDurationLabelled(seconds: nat): string {
    if seconds < 60 then NatToString(seconds) + " s"
    else
      var hours := Hours(seconds);
      var minutes := Minutes(seconds);
      var rem := RemainingSeconds(seconds);
      if hours > 0 then
        if rem > 0 then NatToString(hours) + "h " + NatToString(minutes) + "m " + NatToString(rem) + "s"
        else if minutes > 0 then NatToString(hours) + "h " + NatToString(minutes) + "m"
        else NatToString(hours) + "h"
      else
        if rem > 0 then NatToString(minutes) + "m " + NatToString(rem) + "s"
        else NatToString(minutes) + "m"
  }

  /** Reads a rendered duration back into seconds. */
  function ParseDuration(t: string): Option<int> {
    match ReadNat(t)
    case None => None
    case Some((a, rest)) =>
      if rest == " s" then Some(a)
      else if rest == "h" then Some(a * 3600)
      else if rest == "m" then Some(a * 60)
      else if |rest| >= 2 && rest[..2] == "h " then ParseAfterHours(rest[2..], a * 3600)
      else if |rest| >= 2 && rest[..2] == "m " then ParseAfterMinutes(rest[2..], a * 60)
      else None
  }

  /** Reads "<m>m" or "<m>m <r>s" following the hours. */
  function ParseAfterHours(t: string, base: int): Option<int> {
    match ReadNat(t)
    case None => None
    case Some((b, rest)) =>
      if rest == "m" then Some(base + b * 60)
      else if |rest| >= 2 && rest[..2] == "m " then ParseAfterMinutes(rest[2..], base + b * 60)
      else None
  }

  /** Reads "<r>s" following the minutes. */
  function ParseAfterMinutes(t: string, base: int): Option<int> {
    match ReadNat(t)
    case None => None
    case Some((c, rest)) => if rest == "s" then Some(base + c) else None
  }

  // One step of reading each: what the parser does once the number at the
  // front has been read.

  lemma ParseHoursLabel(t: string, a: nat, rest: string)
    requires ReadNat(t) == Some((a, rest))
    requires |rest| > 2 && rest[..2] == "h "
    ensures ParseDuration(t) == ParseAfterHours(rest[2..], a * 3600)
  {
  }

  lemma ParseMinutesLabel(t: string, a: nat, rest: string)
    requires ReadNat(t) == Some((a, rest))
    requires |rest| > 2 && rest[..2] == "m "
    ensures ParseDuration(t) == ParseAfterMinutes(rest[2..], a * 60)
  {
  }

  lemma ParseAfterHoursLabel(t: string, base: int, b: nat, rest: string)
    requires ReadNat(t) == Some((b, rest))
    requires |rest| > 2 && rest[..2] == "m "
    ensures ParseAfterHours(t, base) == ParseAfterMinutes(rest[2..], base + b * 60)
  {
  }

  lemma ParseAfterMinutesEnd(t: string, base: int, c: nat)
    requires ReadNat(t) == Some((c, "s"))
    ensures ParseAfterMinutes(t, base) == Some(base + c)
  {
  }

  lemma SplitLabel(u: string, x: string, y: string)
    requires |u| == 2
    ensures (u + x + y)[..2] == u && (u + x + y)[2..] == x + y
  {
  }

  lemma Regroup(a: string, b: string, c: string, d: string)
    ensures a + b + c + d == a + (b + c + d)
  {
  }

  // The three multi-part shapes, first for any numerals that read back as
  // given, then for the decimal renderings.

  lemma ParseHoursMinutesSecondsFrom(sh: string, sm: string, sr: string, h: nat, m: nat, r: nat)
    requires ReadNat(sh + ("h " + sm + ("m " + sr + "s"))) == Some((h, "h " + sm + ("m " + sr + "s")))
    requires ReadNat(sm + ("m " + sr + "s")) == Some((m, "m " + sr + "s"))
    requires ReadNat(sr + "s") == Some((r, "s"))
    ensures ParseDuration(sh + ("h " + sm + ("m " + sr + "s"))) == Some(h * 3600 + m * 60 + r)
  {
    var tail := "m " + sr + "s";
    var rest := "h " + sm + tail;
    SplitLabel("h ", sm, tail);
    SplitLabel("m ", sr, "s");
    ParseAfterMinutesEnd(sr + "s", h * 3600 + m * 60, r);
    ParseAfterHoursLabel(sm + tail, h * 3600, m, tail);
    ParseHoursLabel(sh + rest, h, rest);
  }

  lemma ParseHoursMinutesSeconds(h: nat, m: nat, r: nat)
    ensures ParseDuration(NatToString(h) + "h " + NatToString(m) + "m " + NatToString(r) + "s")
         == Some(h * 3600 + m * 60 + r)
  {
    var sh, sm, sr := NatToString(h), NatToString(m), NatToString(r);
    var tail := "m " + sr + "s";
    var rest := "h " + sm + tail;
    Regroup(sh + "h " + sm, "m ", sr, "s");
    Regroup(sh, "h ", sm, tail);
    ReadNatOfNatToString(h, rest);
    ReadNatOfNatToString(m, tail);
    ReadNatOfNatToString(r, "s");
    ParseHoursMinutesSecondsFrom(sh, sm, sr, h, m, r);
  }

  lemma ParseHoursMinutesFrom(sh: string, sm: string, h: nat, m: nat)
    requires ReadNat(sh + ("h " + sm + "m")) == Some((h, "h " + sm + "m"))
    requires ReadNat(sm + "m") == Some((m, "m"))
    ensures ParseDuration(sh + ("h " + sm + "m")) == Some(h * 3600 + m * 60)
  {
    var rest := "h " + sm + "m";
    SplitLabel("h ", sm, "m");
    ParseHoursLabel(sh + rest, h, rest);
  }

  lemma ParseHoursMinutes(h: nat, m: nat)
    ensures ParseDuration(NatToString(h) + "h " + NatToString(m) + "m") == Some(h * 3600 + m * 60)
  {
    var sh, sm := NatToString(h), NatToString(m);
    Regroup(sh, "h ", sm, "m");
    ReadNatOfNatToString(h, "h " + sm + "m");
    ReadNatOfNatToString(m, "m");
    ParseHoursMinutesFrom(sh, sm, h, m);
  }

  lemma ParseMinutesSecondsFrom(sm: string, sr: string, m: nat, r: nat)
    requires ReadNat(sm + ("m " + sr + "s")) == Some((m, "m " + sr + "s"))
    requires ReadNat(sr + "s") == Some((r, "s"))
    ensures ParseDuration(sm + ("m " + sr + "s")) == Some(m * 60 + r)
  {
    var rest := "m " + sr + "s";
    SplitLabel("m ", sr, "s");
    ParseAfterMinutesEnd(sr + "s", m * 60, r);
    ParseMinutesLabel(sm + rest, m, rest);
  }

  lemma ParseMinutesSeconds(m: nat, r: nat)
    ensures ParseDuration(NatToString(m) + "m " + NatToString(r) + "s") == Some(m * 60 + r)
  {
    var sm, sr := NatToString(m), NatToString(r);
    Regroup(sm, "m ", sr, "s");
    ReadNatOfNatToString(m, "m " + sr + "s");
    ReadNatOfNatToString(r, "s");
    ParseMinutesSecondsFrom(sm, sr, m, r);
  }

  lemma RoundTripUnderMinute(seconds: nat)
    requires seconds < 60
    ensures ParseDuration(FormatDurationLabelled(seconds)) == Some(seconds)
  {
    ReadNatOfNatToString(seconds, " s");
  }

  lemma RoundTripHoursMinutesSeconds(seconds: nat)
    requires seconds >= 60 && Hours(seconds) > 0 && RemainingSeconds(seconds) > 0
    ensures ParseDuration(FormatDurationLabelled(seconds)) == Some(seconds)
  {
    DecomposeDuration(seconds);
    ParseHoursMinutesSeconds(Hours(seconds), Minutes(seconds), RemainingSeconds(seconds));
  }

  lemma RoundTripHoursMinutes(seconds: nat)
    requires seconds >= 60 && Hours(seconds) > 0 && RemainingSeconds(seconds) == 0 && Minutes(seconds) > 0
    ensures ParseDuration(FormatDurationLabelled(seconds)) == Some(seconds)
  {
    DecomposeDuration(seconds);
    ParseHoursMinutes(Hours(seconds), Minutes(seconds));
  }

  lemma RoundTripWholeHours(seconds: nat)
    requires seconds >= 60 && Hours(seconds) > 0 && RemainingSeconds(seconds) == 0 && Minutes(seconds) == 0
    ensures ParseDuration(FormatDurationLabelled(seconds)) == Some(seconds)
  {
    DecomposeDuration(seconds);
    ReadNatOfNatToString(Hours(seconds), "h");
  }

  lemma RoundTripMinutesSeconds(seconds: nat)
    requires seconds >= 60 && Hours(seconds) == 0 && RemainingSeconds(seconds) > 0
    ensures ParseDuration(FormatDurationLabelled(seconds)) == Some(seconds)
  {
    DecomposeDuration(seconds);
    ParseMinutesSeconds(Minutes(seconds), RemainingSeconds(seconds));
  }

  lemma RoundTripWholeMinutes(seconds: nat)
    requires seconds >= 60 && Hours(seconds) == 0 && RemainingSeconds(seconds) == 0
    ensures ParseDuration(FormatDurationLabelled(seconds)) == Some(seconds)
  {
    DecomposeDuration(seconds);
    ReadNatOfNatToString(Minutes(seconds), "m");
  }

  /** Reading back the labelled rendering gives the duration it came from. */
  lemma ParseFormatDurationLabelled(seconds: nat)
    ensures ParseDuration(FormatDurationLabelled(seconds)) == Some(seconds)
  {
    if seconds < 60 {
      RoundTripUnderMinute(seconds);
    } else if Hours(seconds) > 0 && RemainingSeconds(seconds) > 0 {
      RoundTripHoursMinutesSeconds(seconds);
    } else if Hours(seconds) > 0 && Minutes(seconds) > 0 {
      RoundTripHoursMinutes(seconds);
    } else if Hours(seconds) > 0 {
      RoundTripWholeHours(seconds);
    } else if RemainingSeconds(seconds) > 0 {
      RoundTripMinutesSeconds(seconds);
    } else {
      RoundTripWholeMinutes(seconds);
    }
  }

  /** Distinct durations have distinct labelled renderings. */
  lemma FormatDurationLabelledInjective(a: nat, b: nat)
    ensures FormatDurationLabelled(a) == FormatDurationLabelled(b) ==> a == b
  {
    ParseFormatDurationLabelled(a);
    ParseFormatDurationLabelled(b);
  }
}
