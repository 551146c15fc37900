/** SubRip timestamps, as `format_srt_time` writes them: `HH:MM:SS,mmm`
    with every unit truncated, the hours at least two digits wide.
    Time is a whole number of milliseconds, so the arithmetic is exact. */
module SrtTime {
  import opened Wrappers
  import opened Digits

  function Hours(ms: nat): nat { ms / 3600000 }
  function Minutes(ms: nat): nat { (ms % 3600000) / 60000 }
  function Seconds(ms: nat): nat { (ms % 60000) / 1000 }
  function Millis(ms: nat): nat { ms % 1000 }

  /** `format_srt_time(ms / 1000)` */
  function FormatSrtTime(ms: nat): string {
    Pad(Hours(ms), 2) + ":" + Pad(Minutes(ms), 2) + ":" + Pad(Seconds(ms), 2) + "," + Pad(Millis(ms), 3)
  }

  /** The text matches `^\d{2,}:\d{2}:\d{2},\d{3}$`. */
  predicate IsSrtTimeShape(s: string) {
    && |s| >= 12
    && s[|s| - 10] == ':' && s[|s| - 7] == ':' && s[|s| - 4] == ','
    && AllDigits(s[..|s| - 10])
    && AllDigits(s[|s| - 9..|s| - 7])
    && AllDigits(s[|s| - 6..|s| - 4])
    && AllDigits(s[|s| - 3..])
  }

  /** Reads a SubRip timestamp back; None for text of another shape or with
      minutes or seconds of 60 or more. */
  function ParseSrtTime(s: string): Option<nat> {
    if !IsSrtTimeShape(s) then None
    else
      var h := DigitsValue(s[..|s| - 10]);
      var m := DigitsValue(s[|s| - 9..|s| - 7]);
      var sec := DigitsValue(s[|s| - 6..|s| - 4]);
      var f := DigitsValue(s[|s| - 3..]);
      if m < 60 && sec < 60 then Some(h * 3600000 + m * 60000 + sec * 1000 + f) else None
  }

  /** The units are truncated components of the time and recombine to it. */
  lemma UnitsDecompose(ms: nat)
    ensures Minutes(ms) < 60 && Seconds(ms) < 60 && Millis(ms) < 1000
    ensures ms == Hours(ms) * 3600000 + Minutes(ms) * 60000 + Seconds(ms) * 1000 + Millis(ms)
  {
    var r := ms % 3600000;
    assert ms == Hours(ms) * 3600000 + r;
    assert r == Minutes(ms) * 60000 + r % 60000;
    assert r % 60000 == ms % 60000 by {
      assert ms == (Hours(ms) * 60) * 60000 + r;
    }
    var q := ms % 60000;
    assert q == Seconds(ms) * 1000 + q % 1000;
    assert q % 1000 == ms % 1000 by {
      assert ms == (ms / 60000 * 60) * 1000 + q;
    }
  }

  /** Where the fields of `a:b:c,d` sit, counted from the end. */
  lemma JoinedFields(s: string, a: string, b: string, c: string, d: string)
    requires s == a + ":" + b + ":" + c + "," + d
    requires |a| >= 2 && |b| == 2 && |c| == 2 && |d| == 3
    ensures |s| == |a| + 10 && |s| >= 12
    ensures s[|s| - 10] == ':' && s[|s| - 7] == ':' && s[|s| - 4] == ','
    ensures s[..|s| - 10] == a && s[|s| - 9..|s| - 7] == b
    ensures s[|s| - 6..|s| - 4] == c && s[|s| - 3..] == d
  {
    var n := |s|;
    assert s[..n - 10] == a;
    assert s[n - 9..n - 7] == b;
    assert s[n - 6..n - 4] == c;
    assert s[n - 3..] == d;
  }

  /** The four fields of a timestamp: the hours at least two digits wide,
      minutes and seconds two, millis three. */
  lemma FieldWidths(ms: nat)
    ensures |Pad(Hours(ms), 2)| >= 2 && |Pad(Minutes(ms), 2)| == 2
    ensures |Pad(Seconds(ms), 2)| == 2 && |Pad(Millis(ms), 3)| == 3
  {
    UnitsDecompose(ms);
    PadExact(Minutes(ms), 2);
    PadExact(Seconds(ms), 2);
    PadExact(Millis(ms), 3);
  }

  /** Every field of the timestamp: the hours are at least two digits and
      denote `ms / 3600000`; minutes and seconds are two digits, millis three,
      each denoting its truncated unit. */
  lemma FormatSrtTimeFields(ms: nat)
    ensures var s := FormatSrtTime(ms); var n := |s|;
      && n >= 12
      && s[n - 10] == ':' && s[n - 7] == ':' && s[n - 4] == ','
      && s[..n - 10] == Pad(Hours(ms), 2) && |s[..n - 10]| >= 2
      && s[n - 9..n - 7] == Pad(Minutes(ms), 2)
      && s[n - 6..n - 4] == Pad(Seconds(ms), 2)
      && s[n - 3..] == Pad(Millis(ms), 3)
  {
    FieldWidths(ms);
    JoinedFields(FormatSrtTime(ms), Pad(Hours(ms), 2), Pad(Minutes(ms), 2), Pad(Seconds(ms), 2), Pad(Millis(ms), 3));
  }

  /** A text of the timestamp shape with minutes and seconds below 60 reads
      as the time its four fields denote. */
  lemma ReadShaped(s: string)
    requires IsSrtTimeShape(s)
    requires DigitsValue(s[|s| - 9..|s| - 7]) < 60 && DigitsValue(s[|s| - 6..|s| - 4]) < 60
    ensures ParseSrtTime(s) == Some(DigitsValue(s[..|s| - 10]) * 3600000 + DigitsValue(s[|s| - 9..|s| - 7]) * 60000
      + DigitsValue(s[|s| - 6..|s| - 4]) * 1000 + DigitsValue(s[|s| - 3..]))
  {
  }

  /** A text laid out as a timestamp with the given fields reads back as
      the time they make up. */
  lemma ReadLaidOut(s: string, h: nat, m: nat, sec: nat, f: nat)
    requires m < 60 && sec < 60
    requires |s| >= 12 && s[|s| - 10] == ':' && s[|s| - 7] == ':' && s[|s| - 4] == ','
    requires s[..|s| - 10] == Pad(h, 2) && s[|s| - 9..|s| - 7] == Pad(m, 2)
    requires s[|s| - 6..|s| - 4] == Pad(sec, 2) && s[|s| - 3..] == Pad(f, 3)
    ensures IsSrtTimeShape(s)
    ensures ParseSrtTime(s) == Some(h * 3600000 + m * 60000 + sec * 1000 + f)
  {
    PadRoundTrip(h, 2);
    PadRoundTrip(m, 2);
    PadRoundTrip(sec, 2);
    PadRoundTrip(f, 3);
    ReadShaped(s);
  }

  /** `format_srt_time` always produces the SubRip timestamp shape. */
  lemma FormatSrtTimeShape(ms: nat)
    ensures IsSrtTimeShape(FormatSrtTime(ms))
  {
    FormatSrtTimeRoundTrip(ms);
  }

  /** Reading a formatted timestamp gives back the exact time. */
  lemma FormatSrtTimeRoundTrip(ms: nat)
    ensures IsSrtTimeShape(FormatSrtTime(ms))
    ensures ParseSrtTime(FormatSrtTime(ms)) == Some(ms)
  {
    FormatSrtTimeFields(ms);
    UnitsDecompose(ms);
    ReadLaidOut(FormatSrtTime(ms), Hours(ms), Minutes(ms), Seconds(ms), Millis(ms));
  }

  /** So distinct times are written as distinct timestamps. */
  lemma FormatSrtTimeInjective(a: nat, b: nat)
    requires FormatSrtTime(a) == FormatSrtTime(b)
    ensures a == b
  {
    FormatSrtTimeRoundTrip(a);
    FormatSrtTimeRoundTrip(b);
  }

  /** A timestamp contains no blank, so a cue's time line can be split at its first space. */
  lemma FormatSrtTimeHasNoSpace(ms: nat)
    ensures forall i :: 0 <= i < |FormatSrtTime(ms)| ==> FormatSrtTime(ms)[i] != ' '
  {
    FormatSrtTimeFields(ms);
    var s := FormatSrtTime(ms);
    var n := |s|;
    forall i | 0 <= i < n ensures s[i] != ' ' {
      if i < n - 10 {
        assert s[i] == s[..n - 10][i];
      } else if n - 9 <= i < n - 7 {
        assert s[i] == s[n - 9..n - 7][i - (n - 9)];
      } else if n - 6 <= i < n - 4 {
        assert s[i] == s[n - 6..n - 4][i - (n - 6)];
      } else if n - 3 <= i {
        assert s[i] == s[n - 3..][i - (n - 3)];
      }
    }
  }

  /** 3661.25 s (1 h, 1 min, 1 s, 250 ms) is written `01:01:01,250`. */
  lemma FormatSrtTimeExample()
    ensures FormatSrtTime(3661250) == "01:01:01,250"
  {
    assert Hours(3661250) == 1 && Minutes(3661250) == 1 && Seconds(3661250) == 1 && Millis(3661250) == 250;
    assert NatStr(250) == "250" by {
      assert NatStr(25) == "25";
    }
  }
}
