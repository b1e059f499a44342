/**
 The channel page's own `formatDuration`, which differs from the shared one:
 the hour count is written unpadded and followed by a colon only when there
 are hours, the minutes field is the total number of minutes (not the
 minutes within the hour) and is never padded, and the seconds field is
 padded to two digits. So 65 seconds print as "1:05" and 3661 as "1:61:01".
 */
module ChannelPage {
  import opened JsValue
  import opened Text
  import Durations

  /** `formatDuration(s)` of the channel page for a whole, non-negative number of seconds, as written. */
  function FormatDuration(s: nat): string {
    var hours := s / 3600;
    var minutes := s / 60;
    var seconds := s % 60;
    var h := if hours > 0 then Digits(hours) + ":" else "";
    h + Digits(minutes) + ":" + TwoDigits(seconds)
  }

  /** The fields of the as-written text, before joining: the hour count when there is one, the minutes, the padded seconds. */
  function Fields(hours: nat, minutes: nat, seconds: nat): seq<string> {
    (if hours > 0 then [Digits(hours)] else []) + [Digits(minutes), TwoDigits(seconds)]
  }

  /** The as-written text is its fields joined with ":", with the total minute count in the minutes field. */
  lemma {:induction false} FormatDurationFields(s: nat)
    ensures FormatDuration(s) == Join(Fields(s / 3600, s / 60, s % 60), ':')
  {
    var m, sec := Digits(s / 60), TwoDigits(s % 60);
    assert Join([sec], ':') == sec;
    assert Join([m, sec], ':') == m + ":" + sec by {
      assert [m, sec][1..] == [sec];
    }
    if s >= 3600 {
      var h := Digits(s / 3600);
      assert [h, m, sec][1..] == [m, sec];
      assert Join([h, m, sec], ':') == h + ":" + (m + ":" + sec);
    }
  }

  /** Splitting joined fields on ":" gives them back; there is one colon fewer than fields. */
  lemma {:induction false} FieldsSplit(hours: nat, minutes: nat, seconds: nat)
    ensures var f := Fields(hours, minutes, seconds);
            && Split(Join(f, ':'), ':') == f
            && Occurrences(Join(f, ':'), ':') == |f| - 1
  {
    var f := Fields(hours, minutes, seconds);
    forall i | 0 <= i < |f| ensures ':' !in f[i] {
      DigitsHaveNoColon(f[i]);
    }
    SplitJoin(f, ':');
  }

  /** Read as `h:mm:ss`, the fields add up as hours, minutes and seconds, whatever the minutes field holds. */
  lemma {:induction false} ReadWrittenFields(hours: nat, minutes: nat, seconds: nat)
    ensures Durations.ReadFields(Fields(hours, minutes, seconds)).Some?
    ensures Durations.ReadFields(Fields(hours, minutes, seconds)).value == hours * 3600 + minutes * 60 + seconds
  {
    var m, sec := Digits(minutes), TwoDigits(seconds);
    ReadDigitsOfDigits(minutes);
    if hours > 0 {
      var h := Digits(hours);
      ReadDigitsOfDigits(hours);
      assert Fields(hours, minutes, seconds) == [h, m, sec];
      Durations.ReadThreeFields(h, m, sec);
      assert ReadDigits(h) == hours && ReadDigits(m) == minutes && ReadDigits(sec) == seconds;
    } else {
      assert Fields(hours, minutes, seconds) == [m, sec];
      Durations.ReadTwoFields(m, sec);
      assert ReadDigits(m) == minutes && ReadDigits(sec) == seconds;
    }
  }

  /**
   The shape of the channel page's duration text: one colon below an hour and
   two from an hour on; the seconds field is exactly two digits holding the
   seconds within the minute; the field before it holds the TOTAL number of
   minutes and is a single digit exactly when that count is; the hour field,
   when present, has no leading zero.
   */
  lemma {:induction false} FormatDurationShape(s: nat)
    ensures var f := Split(FormatDuration(s), ':');
            && Occurrences(FormatDuration(s), ':') == (if s < 3600 then 1 else 2)
            && |f| == (if s < 3600 then 2 else 3)
            && (forall i :: 0 <= i < |f| ==> AllDigits(f[i]))
            && |f[|f| - 1]| == 2 && ReadDigits(f[|f| - 1]) == s % 60
            && ReadDigits(f[|f| - 2]) == s / 60
            && (|f[|f| - 2]| == 1 <==> s < 600)
            && (s >= 3600 ==> ReadDigits(f[0]) == s / 3600 && f[0][0] != '0')
  {
    var f := Fields(s / 3600, s / 60, s % 60);
    FormatDurationFields(s);
    FieldsSplit(s / 3600, s / 60, s % 60);
    assert f[|f| - 1] == TwoDigits(s % 60);
    DigitsLength(s % 60);
    assert |TwoDigits(s % 60)| == 2;
    assert f[|f| - 2] == Digits(s / 60);
    ReadDigitsOfDigits(s / 60);
    DigitsLength(s / 60);
    if s >= 3600 {
      assert f[0] == Digits(s / 3600);
      ReadDigitsOfDigits(s / 3600);
      DigitsNoLeadingZero(s / 3600);
    }
  }

  lemma MinutesAndSeconds(s: nat)
    ensures (s / 60) * 60 + s % 60 == s
    ensures s / 3600 > 0 <==> s >= 3600
  {
  }

  /**
   Read back as `h:mm:ss`, the as-written text counts every full hour twice,
   once in the hour field and once more in the total-minutes field: it reads
   back correctly exactly below one hour.
   */
  lemma {:induction false} FormatDurationMisreads(s: nat)
    ensures Durations.ReadClock(FormatDuration(s)).Some?
    ensures Durations.ReadClock(FormatDuration(s)).value == s + 3600 * (s / 3600)
    ensures Durations.ReadClock(FormatDuration(s)).value == s <==> s < 3600
  {
    var h, m, sec := s / 3600, s / 60, s % 60;
    var f := Fields(h, m, sec);
    FormatDurationFields(s);
    FieldsSplit(h, m, sec);
    assert Durations.ReadClock(FormatDuration(s)) == Durations.ReadFields(f);
    ReadWrittenFields(h, m, sec);
    MinutesAndSeconds(s);
  }

  /** The smallest counterexample with minutes past the hour: 3661 seconds print as "1:61:01", which reads back as 7261. */
  lemma {:induction false} OneHourOneMinuteOneSecond(s: nat)
    requires s == 3661
    ensures FormatDuration(s) == "1:61:01"
    ensures Durations.ReadClock(FormatDuration(s)).Some? && Durations.ReadClock(FormatDuration(s)).value == 7261
  {
    assert s / 3600 == 1 && s / 60 == 61 && s % 60 == 1;
    assert Digits(1) == "1";
    assert Digits(61) == Digits(6) + [DigitChar(1)] == "61";
    assert TwoDigits(1) == "01";
    FormatDurationMisreads(s);
  }

  // ---------------------------------------------------------------------------
  // The evidently intended formatter

  /**
   `h:mm:ss`: the minutes field is the minutes within the hour, padded to two
   digits when an hour field precedes it; below an hour the text is the same
   as the original's.
   */
  function FormatDurationFixed(s: nat): string {
    FixedText(Durations.ToClock(s))
  }

  function FixedText(c: Durations.Clock): string {
    if c.hours > 0 then Digits(c.hours) + ":" + TwoDigits(c.minutes) + ":" + TwoDigits(c.seconds)
    else Digits(c.minutes) + ":" + TwoDigits(c.seconds)
  }

  /** The fields of the corrected text, before joining. */
  function FixedFields(c: Durations.Clock): seq<string> {
    if c.hours > 0 then [Digits(c.hours), TwoDigits(c.minutes), TwoDigits(c.seconds)]
    else [Digits(c.minutes), TwoDigits(c.seconds)]
  }

  /** Splitting the corrected text on ":" gives back its fields. */
  lemma {:induction false} FixedSplits(c: Durations.Clock)
    ensures Split(FixedText(c), ':') == FixedFields(c)
  {
    var f := FixedFields(c);
    if c.hours > 0 {
      JoinShort(f[0], f[1], f[2], ':');
    } else {
      JoinShort(f[0], f[1], "", ':');
    }
    assert FixedText(c) == Join(f, ':');
    Durations.SplitDigitFields(f);
  }

  /** Reading the corrected text back adds the clock fields up again. */
  lemma {:induction false} ReadFixedText(c: Durations.Clock)
    ensures Durations.ReadClock(FixedText(c)).Some?
    ensures Durations.ReadClock(FixedText(c)).value == c.hours * 3600 + c.minutes * 60 + c.seconds
  {
    var f := FixedFields(c);
    var sec := TwoDigits(c.seconds);
    FixedSplits(c);
    ReadDigitsOfDigits(c.minutes);
    if c.hours > 0 {
      var h, m := Digits(c.hours), TwoDigits(c.minutes);
      ReadDigitsOfDigits(c.hours);
      assert f == [h, m, sec];
      Durations.ReadThreeFields(h, m, sec);
      assert ReadDigits(h) == c.hours && ReadDigits(m) == c.minutes && ReadDigits(sec) == c.seconds;
    } else {
      var m := Digits(c.minutes);
      assert f == [m, sec];
      Durations.ReadTwoFields(m, sec);
      assert ReadDigits(m) == c.minutes && ReadDigits(sec) == c.seconds;
    }
  }

  /** The corrected text reads back as the number of seconds it was made from. */
  lemma {:induction false} FormatDurationFixedRoundTrip(s: nat)
    ensures Durations.ReadClock(FormatDurationFixed(s)).Some?
    ensures Durations.ReadClock(FormatDurationFixed(s)).value == s
  {
    ReadFixedText(Durations.ToClock(s));
  }

  /** Below an hour the corrected text is the original's. */
  lemma {:induction false} FixedAgreesBelowAnHour(s: nat)
    requires s < 3600
    ensures FormatDurationFixed(s) == FormatDuration(s)
  {
    var c := Durations.ToClock(s);
    assert c.hours == 0 && c.minutes == s / 60 && c.seconds == s % 60;
    var t := Digits(s / 60) + ":" + TwoDigits(s % 60);
    assert FixedText(c) == t;
    assert FormatDuration(s) == "" + t;
    assert "" + t == t;
  }

  /** The correction changes the text exactly from one hour on. */
  lemma {:induction false} FormatDurationFixedBelowAnHour(s: nat)
    ensures FormatDurationFixed(s) == FormatDuration(s) <==> s < 3600
  {
    if s < 3600 {
      FixedAgreesBelowAnHour(s);
    } else {
      FormatDurationFixedRoundTrip(s);
      FormatDurationMisreads(s);
    }
  }
}
