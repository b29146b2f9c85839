/** The date helpers of the app (`getCurrentDay`, `formatAMPM`,
    `getMinutesDifference`), the clock reading the engines take as "now", and the
    day-type choice the home page makes from the current day. */
module DateUtils {
  import opened Wrappers
  import opened Strings

  // ---------------------------------------------------------------------------
  // Days

  const Days: seq<string> := ["Sunday", "Monday", "Tuesday", "Wednesday", "Thursday", "Friday", "Saturday"]

  /** `getCurrentDay()`. `dayIndex` stands for `new Date().getDay()`, which the
      source computes and then ignores: it always answers with entry 1 of the list. */
  function CurrentDay(dayIndex: int): (r: string)
    ensures r == "Monday"
    ensures 0 <= dayIndex < |Days| && dayIndex != 1 ==> r != Days[dayIndex]
  {
    Days[1]
  }

  /** The two schedule variants of the timetable document, with their keys. */
  datatype DayType = Weekday | Saturday {
    function Key(): string {
      match this
      case Weekday => "weekday"
      case Saturday => "Saturday"
    }
  }

  /** The initial schedule tab: "Saturday" on a Saturday, the weekday schedule otherwise. */
  function InitialDayType(currentDay: string): (d: DayType)
    ensures d.Key() == (if currentDay == "Saturday" then currentDay else "weekday")
  {
    if currentDay == "Saturday" then Saturday else Weekday
  }

  /** Because the current day is always "Monday", the start page never shows the
      Sunday notice and always opens on the weekday schedule. */
  lemma AlwaysWeekdayOnStart(dayIndex: int)
    ensures CurrentDay(dayIndex) != "Sunday"
    ensures InitialDayType(CurrentDay(dayIndex)) == Weekday
  {
  }

  // ---------------------------------------------------------------------------
  // Clock

  /** The reading of `new Date()` the engines use: local hour, minute, second and
      millisecond of the current day. */
  datatype Clock = Clock(hour: int, minute: int, second: int, millis: int) {
    predicate Valid() {
      0 <= hour < 24 && 0 <= minute < 60 && 0 <= second < 60 && 0 <= millis < 1000
    }

    /** `getTime()` up to the offset of today's midnight, which cancels in every
        difference and comparison the engines make. */
    function Millis(): int {
      ((hour * 60 + minute) * 60 + second) * 1000 + millis
    }
  }

  // ---------------------------------------------------------------------------
  // getMinutesDifference

  /** `Math.floor((end.getTime() - start.getTime()) / 60000)` on the two instants. */
  function MinutesDifference(start: int, end: int): (r: int)
    ensures r * 60000 <= end - start < r * 60000 + 60000
  {
    (end - start) / 60000
  }

  /** The difference is zero from an instant to itself, never negative forwards,
      and rounds towards minus infinity backwards: one millisecond back is -1. */
  lemma MinutesDifferenceSigns(start: int, end: int)
    ensures MinutesDifference(start, start) == 0
    ensures start <= end ==> MinutesDifference(start, end) >= 0
    ensures end < start ==> MinutesDifference(start, end) < 0
    ensures MinutesDifference(start, start - 1) == -1
  {
  }

  // ---------------------------------------------------------------------------
  // formatAMPM

  function Suffix(hour: nat): string {
    if hour >= 12 then "PM" else "AM"
  }

  /** `hour % 12 || 12`. */
  function DisplayHour(hour: nat): (d: nat)
    ensures 1 <= d <= 12 && d % 12 == hour % 12
  {
    if hour % 12 == 0 then 12 else hour % 12
  }

  /** `minute < 10 ? "0" + minute : minute`, as the text it interpolates to. */
  function DisplayMinute(minute: nat): (s: string)
    ensures |s| >= 1 && AllDigits(s)
    ensures minute < 60 ==> |s| == 2 && DigitsValue(s) == minute
  {
    if minute < 10 then
      var s := "0" + NatToString(minute);
      assert s[..1] == "0" && DigitsValue(s[..1][..0]) == 0;
      s
    else
      DigitsValueOfNatToString(minute);
      NatToString(minute)
  }

  /** `formatAMPM(hour, minute)`: "<H>:<MM> <AM|PM>" on a 12-hour clock. */
  function FormatAMPM(hour: nat, minute: nat): (r: string)
    ensures |r| >= 6
    ensures r[|r| - 2..] == "AM" || r[|r| - 2..] == "PM"
    ensures r[|r| - 2..] == "PM" <==> hour >= 12
  {
    NatToString(DisplayHour(hour)) + ":" + DisplayMinute(minute) + " " + Suffix(hour)
  }

  /** Reads a "<H>:<MM> <AM|PM>" text back into a 24-hour (hour, minute) pair:
      `H` is one or two digits in 1..12, `MM` is two digits in 00..59. */
  function ParseAMPM(s: string): Option<(int, int)> {
    if |s| < 7 then None
    else
      var n := |s|;
      var hourText, minuteText, suffix := s[..n - 6], s[n - 5..n - 3], s[n - 2..];
      if s[n - 6] != ':' || s[n - 3] != ' ' || (suffix != "AM" && suffix != "PM")
         || |hourText| > 2 || !AllDigits(hourText) || !AllDigits(minuteText)
      then None
      else
        var h, m := DigitsValue(hourText), DigitsValue(minuteText);
        if h < 1 || 12 < h || 59 < m then None
        else if suffix == "PM" then Some((if h == 12 then 12 else h + 12, m))
        else Some((if h == 12 then 0 else h, m))
  }

  /** Every time of day is formatted into a text that reads back as that time. */
  lemma FormatAMPMRoundTrip(hour: nat, minute: nat)
    requires hour < 24 && minute < 60
    ensures ParseAMPM(FormatAMPM(hour, minute)) == Some((hour, minute))
  {
    var a, b, c := NatToString(DisplayHour(hour)), DisplayMinute(minute), Suffix(hour);
    var s := FormatAMPM(hour, minute);
    var n := |s|;
    assert s == a + ":" + b + " " + c;
    assert n == |a| + 6;
    assert s[..n - 6] == a;
    assert s[n - 5..n - 3] == b;
    assert s[n - 2..] == c;
    assert s[n - 6] == ':' && s[n - 3] == ' ';
    DigitsValueOfNatToString(DisplayHour(hour));
  }

  /** Different times of day are never shown as the same text. */
  lemma FormatAMPMInjective(h1: nat, m1: nat, h2: nat, m2: nat)
    requires h1 < 24 && m1 < 60 && h2 < 24 && m2 < 60
    requires FormatAMPM(h1, m1) == FormatAMPM(h2, m2)
    ensures h1 == h2 && m1 == m2
  {
    FormatAMPMRoundTrip(h1, m1);
    FormatAMPMRoundTrip(h2, m2);
  }

  /** Midnight and noon both show hour 12; afternoon hours drop twelve. */
  lemma FormatAMPMExamples()
    ensures FormatAMPM(0, 0) == "12:00 AM"
    ensures FormatAMPM(12, 0) == "12:00 PM"
    ensures FormatAMPM(13, 5) == "1:05 PM"
    ensures FormatAMPM(23, 59) == "11:59 PM"
  {
  }
}
