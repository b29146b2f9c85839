/** The route dialog's list of upcoming departures (`fetchNextBusTimes`): every
    minute of the current hour that is still to come, then every minute of each
    later hour in ascending order, collected until three are held, and cut to
    three. */
module RouteModal {
  import opened Wrappers
  import opened Strings
  import opened DateUtils
  import opened Timetable
  import BusLineCard

  /** How many bus times the dialog shows. */
  const Shown := 3

  function Min(a: int, b: int): int {
    if a <= b then a else b
  }

  /** `times.slice(0, 3)`. */
  function Take(times: seq<BusTime>): (r: seq<BusTime>)
    ensures |r| == Min(Shown, |times|) && r == times[..|r|]
  {
    times[..Min(Shown, |times|)]
  }

  /** What the dialog lists for a schedule: the bus times of the first three
      upcoming departures. */
  function RouteTimesOf(n: Schedule, now: Clock): seq<BusTime> {
    Take(BusTimesOf(now, UpcomingOf(n, now)))
  }

  function RouteTimes(t: HourTable, now: Clock): seq<BusTime>
    requires WellFormed(t)
  {
    RouteTimesOf(Normalize(t), now)
  }

  /** `fetchNextBusTimes` from the current time to the list the dialog shows. */
  method NextBusTimes(t: HourTable, now: Clock) returns (result: seq<BusTime>)
    requires WellFormed(t) && now.Valid()
    ensures result == RouteTimes(t, now)
  {
    var times := CollectCurrentHour(t, now);
    ghost var n := Normalize(t);
    BusTimesOfConcat(now, CurrentSlots(n, now), FutureSlots(n, now));
    times := CollectLaterHours(t, now, times);
    result := times[..Min(Shown, |times|)];
    TakeOfPrefix(times, BusTimesOf(now, UpcomingOf(n, now)));
  }

  /** Once at least three are held, or all of them, cutting to three gives the
      first three of the whole list. */
  lemma TakeOfPrefix<T>(times: seq<T>, full: seq<T>)
    requires |times| <= |full| && times == full[..|times|]
    requires |times| == |full| || |times| >= Shown
    ensures times[..Min(Shown, |times|)] == full[..Min(Shown, |full|)]
  {
  }

  /** `fetchNextBusTimes` from the loaded document: nothing is computed when the
      line has no entry for the day type. */
  method FetchNextBusTimes(doc: Document, day: DayType, line: string, now: Clock)
    returns (r: Fetch<seq<BusTime>>)
    requires now.Valid()
    requires Lookup(doc, day, line).Some? ==> WellFormed(Lookup(doc, day, line).value)
    ensures Lookup(doc, day, line).None? <==> r == RouteMissing
    ensures Lookup(doc, day, line).Some? ==> r == Loaded(RouteTimes(Lookup(doc, day, line).value, now))
  {
    var lineData := Lookup(doc, day, line);
    if lineData.None? {
      return RouteMissing;
    }
    var times := NextBusTimes(lineData.value, now);
    r := Loaded(times);
  }

  // ---------------------------------------------------------------------------
  // The collecting loops

  /** The `addBusTime` closure: the departure at `hour:minute` of today, kept in
      the seconds and milliseconds of `now` but with seconds cleared, is pushed
      only when it is later than `now`. */
  method AddBusTime(times: seq<BusTime>, now: Clock, hour: int, minute: int) returns (times': seq<BusTime>)
    ensures var s := Slot(hour, minute);
      times' == if DepartureMillis(now, s) > now.Millis() then times + [ToBusTime(now, s)] else times
  {
    var time := DepartureMillis(now, Slot(hour, minute));
    if time > now.Millis() {
      times' := times + [BusTime(time, MinutesDifference(now.Millis(), time))];
    } else {
      times' := times;
    }
  }

  lemma BusTimesOfConcat(now: Clock, a: seq<Slot>, b: seq<Slot>)
    ensures BusTimesOf(now, a + b) == BusTimesOf(now, a) + BusTimesOf(now, b)
  {
    var l, r := BusTimesOf(now, a + b), BusTimesOf(now, a) + BusTimesOf(now, b);
    forall i | 0 <= i < |l| ensures l[i] == r[i] {
      if i < |a| {
        assert (a + b)[i] == a[i];
      } else {
        assert (a + b)[i] == b[i - |a|];
      }
    }
  }

  /** The current-hour part: the list of the current hour, if the table has one. */
  method CollectCurrentHour(t: HourTable, now: Clock) returns (times: seq<BusTime>)
    requires WellFormed(t) && now.Valid()
    ensures times == BusTimesOf(now, CurrentSlots(Normalize(t), now))
  {
    times := [];
    var currentHour := NatToString(now.hour);
    if currentHour in t {
      assert MinutesOf(t[currentHour]) == Normalize(t)[now.hour];
      times := CollectAfter(now, t[currentHour]);
    }
  }

  /** The current-hour loop: every minute after the current one, in list order,
      with no early exit. */
  method CollectAfter(now: Clock, minutes: seq<string>) returns (times: seq<BusTime>)
    requires AllMinuteTokens(minutes) && now.Valid()
    ensures times == BusTimesOf(now, SlotsAfter(now.hour, MinutesOf(minutes), now.minute))
  {
    ghost var ms := MinutesOf(minutes);
    times := [];
    ghost var added: seq<Slot> := [];
    for i := 0 to |minutes|
      invariant added + SlotsAfter(now.hour, ms[i..], now.minute) == SlotsAfter(now.hour, ms, now.minute)
      invariant times == BusTimesOf(now, added)
    {
      var minuteValue := ReadMinute(minutes, i);
      CollectStep(now, ms, i, added);
      if minuteValue > now.minute {
        times := AddBusTime(times, now, now.hour, minuteValue);
        added := added + [Slot(now.hour, minuteValue)];
      }
    }
    assert added + [] == added;
  }

  /** `Number.parseInt(minutes[i].trim())`. */
  method ReadMinute(minutes: seq<string>, i: int) returns (m: int)
    requires AllMinuteTokens(minutes) && 0 <= i < |minutes|
    ensures m == MinutesOf(minutes)[i]
  {
    m := MinuteOf(minutes[i]);
  }

  /** One turn of the current-hour loop keeps the collected bus times those of
      the slots the filter has kept so far. */
  lemma CollectStep(now: Clock, minutes: seq<int>, i: int, added: seq<Slot>)
    requires now.Valid() && 0 <= i < |minutes|
    requires added + SlotsAfter(now.hour, minutes[i..], now.minute) == SlotsAfter(now.hour, minutes, now.minute)
    ensures var s, later := Slot(now.hour, minutes[i]), SlotsAfter(now.hour, minutes[i + 1..], now.minute);
      if minutes[i] > now.minute then
        && (added + [s]) + later == SlotsAfter(now.hour, minutes, now.minute)
        && BusTimesOf(now, added + [s]) == BusTimesOf(now, added) + [ToBusTime(now, s)]
        && DepartureMillis(now, s) > now.Millis()
      else added + later == SlotsAfter(now.hour, minutes, now.minute)
  {
    var s, later := Slot(now.hour, minutes[i]), SlotsAfter(now.hour, minutes[i + 1..], now.minute);
    SlotsAfterStep(now.hour, minutes, now.minute, i);
    if minutes[i] > now.minute {
      assert (added + [s]) + later == added + ([s] + later);
      BusTimesOfConcat(now, added, [s]);
      } else {
      assert [] + later == later;
    }
  }

  /** One hour of the later-hours loop: every minute of the hour in list order,
      stopping as soon as three bus times are held. What it holds is always the
      start of what it had followed by the bus times of the whole hour, and it
      stops short of the end only holding three or more. */
  method CollectHour(now: Clock, hour: int, minutes: seq<string>, times0: seq<BusTime>)
    returns (times: seq<BusTime>)
    requires AllMinuteTokens(minutes) && now.Valid() && now.hour < hour
    ensures var all := times0 + BusTimesOf(now, AllSlots(hour, MinutesOf(minutes)));
      |times0| <= |times| <= |all| && times == all[..|times|] && (|times| == |all| || |times| >= Shown)
  {
    ghost var ms := MinutesOf(minutes);
    ghost var all := times0 + BusTimesOf(now, AllSlots(hour, ms));
    times := times0;
    for i := 0 to |minutes|
      invariant |times| == |times0| + i && times == all[..|times|]
    {
      var minuteValue := ReadMinute(minutes, i);
      HourStep(now, hour, ms, i, times0);
      times := AddBusTime(times, now, hour, minuteValue);
      if |times| >= Shown {
        break;
      }
    }
  }

  /** One turn of the loop over an hour after the current one: its departure is
      after now, so it is pushed, and it is the next of the hour's bus times. */
  lemma HourStep(now: Clock, hour: int, ms: seq<int>, i: int, times0: seq<BusTime>)
    requires now.Valid() && now.hour < hour && 0 <= i < |ms| && 0 <= ms[i] < 60
    ensures var all, s := times0 + BusTimesOf(now, AllSlots(hour, ms)), Slot(hour, ms[i]);
      && DepartureMillis(now, s) > now.Millis()
      && all[..|times0| + i] + [ToBusTime(now, s)] == all[..|times0| + i + 1]
  {
    var all, s := times0 + BusTimesOf(now, AllSlots(hour, ms)), Slot(hour, ms[i]);
    assert all[|times0| + i] == BusTimesOf(now, AllSlots(hour, ms))[i];
  }

  /** The later-hours loop: hour after hour in ascending order, until three bus
      times are held. */
  method CollectLaterHours(t: HourTable, now: Clock, times0: seq<BusTime>) returns (times: seq<BusTime>)
    requires WellFormed(t) && now.Valid()
    ensures var full := times0 + BusTimesOf(now, FutureSlots(Normalize(t), now));
      |times0| <= |times| <= |full| && times == full[..|times|] && (|times| == |full| || |times| >= Shown)
  {
    ghost var n := Normalize(t);
    ghost var full := times0 + BusTimesOf(now, FutureSlots(n, now));
    times := times0;
    var hours := LaterHours(t, now.hour);
    LaterHoursNormal(t, now.hour);
    ghost var stopped := false;
    for j := 0 to |hours|
      invariant |times0| <= |times| && full == times + BusTimesOf(now, LaterSlots(n, hours[j..]))
      invariant !stopped
    {
      var key := NatToString(hours[j]);
      assert hours[j] in n && key in t && n[hours[j]] == MinutesOf(t[key]);
      ghost var before := times;
      times := CollectHour(now, hours[j], t[key], times);
      LaterHourStep(now, n, hours, j, before, times, full);
      if |times| >= Shown {
        stopped := true;
        break;
      }
    }
    if !stopped {
      assert full == times + [];
    }
  }

  /** One turn of the later-hours loop: the hour's bus times come next in the
      full list, so a cut-short collection is still the start of it. */
  lemma LaterHourStep(now: Clock, n: Schedule, hours: seq<int>, j: int,
                      before: seq<BusTime>, after: seq<BusTime>, full: seq<BusTime>)
    requires 0 <= j < |hours| && hours[j] in n
    requires full == before + BusTimesOf(now, LaterSlots(n, hours[j..]))
    requires var all := before + BusTimesOf(now, AllSlots(hours[j], n[hours[j]]));
      |after| <= |all| && after == all[..|after|] && (|after| == |all| || |after| >= Shown)
    ensures |after| <= |full| && after == full[..|after|]
    ensures |after| < Shown ==> full == after + BusTimesOf(now, LaterSlots(n, hours[j + 1..]))
  {
    var here, later := AllSlots(hours[j], n[hours[j]]), LaterSlots(n, hours[j + 1..]);
    LaterSlotsStep(n, hours, j);
    BusTimesOfConcat(now, here, later);
    var x, y := BusTimesOf(now, here), BusTimesOf(now, later);
    Associative(before, x, y);
    PrefixOfConcat(before + x, y, after);
  }

  lemma Associative<T>(a: seq<T>, b: seq<T>, c: seq<T>)
    ensures a + (b + c) == (a + b) + c
  {
  }

  lemma PrefixOfConcat<T>(a: seq<T>, b: seq<T>, c: seq<T>)
    requires |c| <= |a| && c == a[..|c|]
    ensures c == (a + b)[..|c|]
  {
    assert (a + b)[..|c|] == a[..|c|];
  }

  // ---------------------------------------------------------------------------
  // What the dialog lists

  /** At most three entries, and fewer only when fewer departures remain today;
      entry `i` is the `i`-th upcoming departure: first the current hour's later
      minutes in list order, then the later hours' minutes, hours ascending. */
  lemma RouteTimesAreFirstUpcoming(n: Schedule, now: Clock)
    ensures var r, u := RouteTimesOf(n, now), UpcomingOf(n, now);
      && |r| <= Shown && |r| == Min(Shown, |u|)
      && forall i :: 0 <= i < |r| ==> r[i] == ToBusTime(now, u[i])
  {
    var u := UpcomingOf(n, now);
    var b := BusTimesOf(now, u);
    forall i | 0 <= i < |RouteTimesOf(n, now)| ensures RouteTimesOf(n, now)[i] == ToBusTime(now, u[i]) {
      assert RouteTimesOf(n, now)[i] == b[i];
    }
  }

  /** Every listed bus leaves strictly after now, and its `minutesUntil` is
      `getMinutesDifference(now, time)`, hence never negative. */
  lemma RouteTimesAfterNow(n: Schedule, now: Clock, i: int)
    requires ValidSchedule(n) && now.Valid() && 0 <= i < |RouteTimesOf(n, now)|
    ensures var b := RouteTimesOf(n, now)[i];
      && b.time > now.Millis()
      && b.minutesUntil == MinutesDifference(now.Millis(), b.time)
      && b.minutesUntil >= 0
  {
    RouteTimesAreFirstUpcoming(n, now);
    var s := UpcomingOf(n, now)[i];
    UpcomingMembers(n, now, s);
  }

  /** The dialog's first entry is the card's bus, and the dialog is empty exactly
      when the card says there is no more bus today. */
  lemma RouteStartsWithCard(n: Schedule, now: Clock)
    ensures RouteTimesOf(n, now) == [] <==> BusLineCard.CardTimeOf(n, now) == None
    ensures RouteTimesOf(n, now) != [] ==> BusLineCard.CardTimeOf(n, now) == Some(RouteTimesOf(n, now)[0])
  {
    RouteTimesAreFirstUpcoming(n, now);
  }

  /** When every hour lists its minutes in ascending order, the listed times are
      strictly increasing. */
  lemma RouteTimesIncreasing(t: HourTable, now: Clock)
    requires WellFormed(t) && AscendingMinutes(t) && now.Valid()
    ensures var r := RouteTimes(t, now);
      forall i, j :: 0 <= i < j < |r| ==> r[i].time < r[j].time
  {
    var n := Normalize(t);
    UpcomingIncreasing(t, now);
    RouteTimesAreFirstUpcoming(n, now);
  }

  /** With 9:10, 9:20, 9:30 and 9:40 still to come in the current hour, at 9:05
      the dialog lists the first three of them and nothing of later hours. */
  lemma CurrentHourFillsTheList(n: Schedule, now: Clock)
    requires n == map[9 := [10, 20, 30, 40], 10 := [0]] && now == Clock(9, 5, 0, 0)
    ensures RouteTimesOf(n, now) == [
      BusTime((9 * 60 + 10) * 60000, 5), BusTime((9 * 60 + 20) * 60000, 15), BusTime((9 * 60 + 30) * 60000, 25)]
  {
    assert CurrentSlots(n, now) == [Slot(9, 10), Slot(9, 20), Slot(9, 30), Slot(9, 40)];
    RouteTimesAreFirstUpcoming(n, now);
  }
}
