/**
 The shared formatting helpers: `formatDuration` (seconds to `hh:mm:ss`,
 the hours field only when there are hours) and the unit choice of
 `getRelativeTime` (which unit to print a time difference in, and the signed
 count handed to the relative-time formatter).
 */
module Durations {
  import opened JsValue
  import opened Text

  // ---------------------------------------------------------------------------
  // formatDuration

  /** A duration split into clock fields. */
  datatype Clock = Clock(hours: nat, minutes: nat, seconds: nat)

  /** `Math.floor(sec / 3600)`, `Math.floor((sec % 3600) / 60)`, `sec % 60`. */
  function ToClock(total: nat): (c: Clock)
    ensures c.hours * 3600 + c.minutes * 60 + c.seconds == total
    ensures c.minutes < 60 && c.seconds < 60
  {
    ClockArithmetic(total);
    Clock(total / 3600, (total % 3600) / 60, total % 60)
  }

  /** The seconds within the minute are the same whether counted from the start or from the last full hour. */
  lemma ClockArithmetic(total: nat)
    ensures (total / 3600) * 3600 + ((total % 3600) / 60) * 60 + total % 60 == total
  {
    var h, r := total / 3600, total % 3600;
    var m, sec := r / 60, r % 60;
    assert total == (h * 60 + m) * 60 + sec;
    RemainderUnique(total, h * 60 + m, sec);
  }

  /** Whole minutes and a remainder below 60 are the quotient and the remainder. */
  lemma RemainderUnique(a: int, q: int, r: int)
    requires 0 <= r < 60 && a == q * 60 + r
    ensures a % 60 == r
  {
    var q', r' := a / 60, a % 60;
    assert (q - q') * 60 == r' - r;
  }

  /** `.filter(Boolean)` over strings and nulls: drops `null` and `""`. */
  function Compact(parts: seq<Option<string>>): (r: seq<string>)
    ensures |r| <= |parts|
    ensures forall i :: 0 <= i < |r| ==> r[i] != ""
    decreases |parts|
  {
    if |parts| == 0 then []
    else
      (if parts[0].Some? && parts[0].value != "" then [parts[0].value] else []) + Compact(parts[1..])
  }

  /** Exactly the non-empty strings survive the filter. */
  lemma {:induction false} CompactMembers(parts: seq<Option<string>>)
    ensures forall s :: s in Compact(parts) <==> s != "" && Some(s) in parts
    decreases |parts|
  {
    if |parts| > 0 {
      CompactMembers(parts[1..]);
      assert parts == [parts[0]] + parts[1..];
    }
  }

  /** The filter works entry by entry, so it keeps the survivors in their order: filtering a concatenation concatenates the filtered halves. */
  lemma {:induction false} CompactAppend(a: seq<Option<string>>, b: seq<Option<string>>)
    ensures Compact(a + b) == Compact(a) + Compact(b)
    decreases |a|
  {
    if |a| > 0 {
      assert (a + b)[0] == a[0];
      assert (a + b)[1..] == a[1..] + b;
      CompactAppend(a[1..], b);
    } else {
      assert a + b == b;
    }
  }

  /** The three candidate fields before filtering: hours (or null), minutes, seconds, each padded to two digits. */
  function Segments(c: Clock): seq<Option<string>> {
    [if c.hours > 0 then Some(TwoDigits(c.hours)) else None, Some(TwoDigits(c.minutes)), Some(TwoDigits(c.seconds))]
  }

  /** The clock fields written out: `[h, m, s].filter(Boolean).join(":")`. */
  function ClockText(c: Clock): string {
    Join(Compact(Segments(c)), ':')
  }

  /** `formatDuration(totalSeconds)` for a whole, non-negative number of seconds. */
  function FormatDuration(total: nat): string {
    ClockText(ToClock(total))
  }

  /** Reads `[mm, ss]` or `[h, mm, ss]` digit fields back into seconds. */
  function ReadFields(f: seq<string>): Option<nat> {
    if |f| == 2 && AllDigits(f[0]) && AllDigits(f[1]) then
      Some(ReadDigits(f[0]) * 60 + ReadDigits(f[1]))
    else if |f| == 3 && AllDigits(f[0]) && AllDigits(f[1]) && AllDigits(f[2]) then
      Some(ReadDigits(f[0]) * 3600 + ReadDigits(f[1]) * 60 + ReadDigits(f[2]))
    else None
  }

  /** Reads an `mm:ss` or `h:mm:ss` string back into seconds; the partner of both duration formatters. */
  function ReadClock(s: string): Option<nat> {
    ReadFields(Split(s, ':'))
  }

  /** `[h, m, s].filter(Boolean)` for two non-empty trailing fields. */
  lemma {:induction false} CompactThree(h: Option<string>, m: string, s: string)
    requires m != "" && s != ""
    ensures h.Some? && h.value != "" ==> Compact([h, Some(m), Some(s)]) == [h.value, m, s]
    ensures !(h.Some? && h.value != "") ==> Compact([h, Some(m), Some(s)]) == [m, s]
  {
    var segs := [h, Some(m), Some(s)];
    assert segs[1..] == [Some(m), Some(s)];
    assert [Some(m), Some(s)][1..] == [Some(s)];
    assert [Some(s)][1..] == [];
    assert Compact([Some(s)]) == [s];
    assert Compact([Some(m), Some(s)]) == [m, s];
  }

  /** The fields that get joined: the hours field exactly when there are hours. */
  lemma {:induction false} ClockFields(c: Clock)
    ensures c.hours > 0 ==> Compact(Segments(c)) == [TwoDigits(c.hours), TwoDigits(c.minutes), TwoDigits(c.seconds)]
    ensures c.hours == 0 ==> Compact(Segments(c)) == [TwoDigits(c.minutes), TwoDigits(c.seconds)]
  {
    var h := if c.hours > 0 then Some(TwoDigits(c.hours)) else None;
    var m, sec := TwoDigits(c.minutes), TwoDigits(c.seconds);
    assert Segments(c) == [h, Some(m), Some(sec)];
    CompactThree(h, m, sec);
  }

  /** Splitting joined digit fields on ":" recovers them. */
  lemma {:induction false} SplitDigitFields(parts: seq<string>)
    requires 2 <= |parts| <= 3
    requires AllDigits(parts[0]) && AllDigits(parts[1])
    requires |parts| == 3 ==> AllDigits(parts[2])
    ensures Split(Join(parts, ':'), ':') == parts
  {
    forall i | 0 <= i < |parts| ensures ':' !in parts[i] {
      DigitsHaveNoColon(parts[i]);
    }
    SplitJoin(parts, ':');
  }

  /** Splitting the text on ":" recovers the fields that were joined. */
  lemma {:induction false} ClockTextSplits(c: Clock)
    ensures c.hours > 0 ==> Split(ClockText(c), ':') == [TwoDigits(c.hours), TwoDigits(c.minutes), TwoDigits(c.seconds)]
    ensures c.hours == 0 ==> Split(ClockText(c), ':') == [TwoDigits(c.minutes), TwoDigits(c.seconds)]
  {
    var m, sec := TwoDigits(c.minutes), TwoDigits(c.seconds);
    ClockFields(c);
    if c.hours > 0 {
      var h := TwoDigits(c.hours);
      assert ClockText(c) == Join([h, m, sec], ':');
      SplitDigitFields([h, m, sec]);
    } else {
      assert ClockText(c) == Join([m, sec], ':');
      SplitDigitFields([m, sec]);
    }
  }

  /** Reading the clock text back adds the fields up again. */
  lemma {:induction false} ReadClockText(c: Clock)
    ensures ReadClock(ClockText(c)).Some?
    ensures ReadClock(ClockText(c)).value == c.hours * 3600 + c.minutes * 60 + c.seconds
  {
    var m, sec := TwoDigits(c.minutes), TwoDigits(c.seconds);
    var text := ClockText(c);
    ClockTextSplits(c);
    if c.hours > 0 {
      var h := TwoDigits(c.hours);
      assert Split(text, ':') == [h, m, sec];
      ReadThreeFields(h, m, sec);
      assert ReadClock(text) == Some(ReadDigits(h) * 3600 + ReadDigits(m) * 60 + ReadDigits(sec));
      assert ReadDigits(h) == c.hours && ReadDigits(m) == c.minutes && ReadDigits(sec) == c.seconds;
    } else {
      assert Split(text, ':') == [m, sec];
      ReadTwoFields(m, sec);
      assert ReadClock(text) == Some(ReadDigits(m) * 60 + ReadDigits(sec));
      assert ReadDigits(m) == c.minutes && ReadDigits(sec) == c.seconds;
    }
  }

  lemma ReadThreeFields(h: string, m: string, s: string)
    requires AllDigits(h) && AllDigits(m) && AllDigits(s)
    ensures ReadFields([h, m, s]) == Some(ReadDigits(h) * 3600 + ReadDigits(m) * 60 + ReadDigits(s))
  {
    var f := [h, m, s];
    assert f[0] == h && f[1] == m && f[2] == s;
  }

  lemma ReadTwoFields(m: string, s: string)
    requires AllDigits(m) && AllDigits(s)
    ensures ReadFields([m, s]) == Some(ReadDigits(m) * 60 + ReadDigits(s))
  {
    var f := [m, s];
    assert f[0] == m && f[1] == s;
  }

  lemma HoursIffHour(total: nat)
    ensures ToClock(total).hours > 0 <==> total >= 3600
  {
  }

  /**
   The clock fields as written: all digits, at least two each (exactly two
   for minutes and seconds below 100), the hours field only when there are
   hours, and each reads back as its clock field.
   */
  predicate PaddedFields(f: seq<string>, c: Clock) {
    && |f| == (if c.hours > 0 then 3 else 2)
    && (forall i :: 0 <= i < |f| ==> AllDigits(f[i]) && |f[i]| >= 2)
    && ReadDigits(f[|f| - 1]) == c.seconds
    && ReadDigits(f[|f| - 2]) == c.minutes
    && (c.seconds < 100 ==> |f[|f| - 1]| == 2)
    && (c.minutes < 100 ==> |f[|f| - 2]| == 2)
    && (c.hours > 0 ==> ReadDigits(f[0]) == c.hours)
  }

  /** The fields of the clock text have that shape. */
  lemma {:induction false} ClockTextShape(c: Clock)
    ensures PaddedFields(Split(ClockText(c), ':'), c)
  {
    ClockTextSplits(c);
    PaddedFieldsShape(Split(ClockText(c), ':'), c);
  }

  /** The padded fields have that shape before they are joined. */
  lemma PaddedFieldsShape(f: seq<string>, c: Clock)
    requires c.hours > 0 ==> f == [TwoDigits(c.hours), TwoDigits(c.minutes), TwoDigits(c.seconds)]
    requires c.hours == 0 ==> f == [TwoDigits(c.minutes), TwoDigits(c.seconds)]
    ensures PaddedFields(f, c)
  {
    var m, sec := TwoDigits(c.minutes), TwoDigits(c.seconds);
    if c.hours > 0 {
      WideDigitFields([TwoDigits(c.hours), m, sec]);
    } else {
      WideDigitFields([m, sec]);
    }
  }

  /** Fields each of at least two digits, checked one by one. */
  lemma WideDigitFields(f: seq<string>)
    requires 2 <= |f| <= 3
    requires AllDigits(f[0]) && |f[0]| >= 2 && AllDigits(f[1]) && |f[1]| >= 2
    requires |f| == 3 ==> AllDigits(f[2]) && |f[2]| >= 2
    ensures forall i :: 0 <= i < |f| ==> AllDigits(f[i]) && |f[i]| >= 2
  {
  }

  /**
   The shape of `formatDuration(n)`: two colon-separated fields below an hour,
   three from an hour on; every field at least two zero-padded digits; the
   last two are exactly two digits, the minutes within the hour and the
   seconds within the minute;
   the hours field is the full hour count, never cut to two digits.
   */
  lemma {:induction false} FormatDurationShape(total: nat)
    ensures var f := Split(FormatDuration(total), ':');
            && |f| == (if total < 3600 then 2 else 3)
            && (forall i :: 0 <= i < |f| ==> AllDigits(f[i]) && |f[i]| >= 2)
            && |f[|f| - 1]| == 2 && ReadDigits(f[|f| - 1]) == total % 60
            && |f[|f| - 2]| == 2 && ReadDigits(f[|f| - 2]) == (total % 3600) / 60
            && (total >= 3600 ==> ReadDigits(f[0]) == total / 3600)
  {
    var c := ToClock(total);
    ClockTextShape(c);
    HoursIffHour(total);
    assert c.seconds == total % 60 && c.minutes == (total % 3600) / 60 && c.hours == total / 3600;
  }

  /** Reading the formatted duration back gives the number of seconds formatted. */
  lemma {:induction false} FormatDurationRoundTrip(total: nat)
    ensures ReadClock(FormatDuration(total)).Some?
    ensures ReadClock(FormatDuration(total)).value == total
  {
    var c := ToClock(total);
    ReadClockText(c);
    assert c.hours * 3600 + c.minutes * 60 + c.seconds == total;
  }

  lemma TwoDigitsOfDigit(n: nat)
    requires n < 10
    ensures TwoDigits(n) == ['0', DigitChar(n)]
  {
    assert Digits(n) == [DigitChar(n)];
    assert Repeat('0', 1) == ['0'];
  }

  /** Zero gives "00:00": `"00"` is truthy, so both fields survive the filter. */
  lemma FormatDurationZero()
    ensures FormatDuration(0) == "00:00"
  {
    assert ToClock(0) == Clock(0, 0, 0);
    ZeroClockText();
  }

  lemma ZeroClockText()
    ensures ClockText(Clock(0, 0, 0)) == "00:00"
  {
    var z := TwoDigits(0);
    TwoDigitsOfDigit(0);
    assert z == "00";
    assert Segments(Clock(0, 0, 0)) == [None, Some(z), Some(z)];
    CompactThree(None, z, z);
    JoinShort(z, z, "", ':');
  }

  lemma FormatDurationExamples()
    ensures FormatDuration(65) == "01:05"
    ensures FormatDuration(3661) == "01:01:01"
  {
    assert ToClock(65) == Clock(0, 1, 5);
    assert ToClock(3661) == Clock(1, 1, 1);
    ClockFields(Clock(0, 1, 5));
    ClockFields(Clock(1, 1, 1));
    TwoDigitsOfDigit(1);
    TwoDigitsOfDigit(5);
    JoinShort("01", "05", "", ':');
    JoinShort("01", "01", "01", ':');
  }

  // ---------------------------------------------------------------------------
  // getRelativeTime: unit choice

  /** A unit's upper limit; the last unit ("year") has none. */
  datatype Limit = Below(bound: nat) | Unlimited

  datatype TimeUnit = TimeUnit(max: Limit, size: nat, name: string)

  /** The unit table, smallest first. */
  const Units: seq<TimeUnit> := [
    TimeUnit(Below(60), 1, "second"),
    TimeUnit(Below(3600), 60, "minute"),
    TimeUnit(Below(86400), 3600, "hour"),
    TimeUnit(Below(2592000), 86400, "day"),
    TimeUnit(Below(31536000), 2592000, "month"),
    TimeUnit(Unlimited, 31536000, "year")
  ]

  /** `diff < unit.max` */
  predicate Fits(diff: int, u: TimeUnit) {
    u.max.Unlimited? || diff < u.max.bound
  }

  /** Unit `k` is the first in the table that `diff` fits. */
  ghost predicate FirstFit(diff: int, k: nat) {
    && k < |Units|
    && Fits(diff, Units[k])
    && forall j :: 0 <= j < k ==> !Fits(diff, Units[j])
  }

  /**
   The loop of `getRelativeTime` for a whole number of seconds `diff`
   (positive for the past): the index of the unit chosen and the value
   `Math.floor(diff / unit.value) * -1` handed to the formatter.
   */
  method RelativeTime(diff: int) returns (k: nat, value: int)
    ensures FirstFit(diff, k)
    // -value is the number of whole units in diff (floor division)
    ensures -value * Units[k].size <= diff < (-value + 1) * Units[k].size
    ensures diff >= 0 ==> value <= 0
    ensures Units[k].max.Below? ==> -value * Units[k].size < Units[k].max.bound
  {
    k := 0;
    while !Fits(diff, Units[k])
      invariant 0 <= k < |Units|
      invariant forall j :: 0 <= j < k ==> !Fits(diff, Units[j])
      decreases |Units| - k
    {
      k := k + 1;
    }
    value := (diff / Units[k].size) * -1;
  }

  /** Exactly one unit is chosen for any difference. */
  lemma FirstFitUnique(diff: int, k1: nat, k2: nat)
    requires FirstFit(diff, k1) && FirstFit(diff, k2)
    ensures k1 == k2
  {
  }

  /** Units are never smaller for a longer difference. */
  lemma FirstFitMonotone(d1: int, d2: int, k1: nat, k2: nat)
    requires d1 <= d2
    requires FirstFit(d1, k1) && FirstFit(d2, k2)
    ensures k1 <= k2
  {
  }
}
