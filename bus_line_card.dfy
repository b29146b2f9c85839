/** The next-departure card of one line (`fetchNextBusTime`): the first minute
    of the current hour, in list order, that is still to come, or else the
    first-listed minute of the earliest later hour that has any, together with
    the whole minutes until it. */
module BusLineCard {
  import opened Wrappers
  import opened Strings
  import opened DateUtils
  import opened Timetable

  /** What the card shows for a schedule: the next departure as a bus time,
      `None` for "No more buses today". */
  function CardTimeOf(n: Schedule, now: Clock): Option<BusTime> {
    match NextOf(n, now)
    case None => None
    case Some(s) => Some(ToBusTime(now, s))
  }

  function CardTime(t: HourTable, now: Clock): Option<BusTime>
    requires WellFormed(t)
  {
    CardTimeOf(Normalize(t), now)
  }

  /** The selection of `fetchNextBusTime`, from the current hour and minute of
      `now` to `nextBus` and `minutesUntil`. */
  method NextBusTime(t: HourTable, now: Clock) returns (next: Option<BusTime>)
    requires WellFormed(t) && now.Valid()
    ensures next == CardTime(t, now)
  {
    NextSplit(Normalize(t), now);
    var nextBus := ScanCurrentHour(t, now);
    if nextBus.None? {
      nextBus := ScanLaterHours(t, now);
    }
    if nextBus.Some? {
      var time := DepartureMillis(now, nextBus.value);
      next := Some(BusTime(time, MinutesDifference(now.Millis(), time)));
    } else {
      next := None;
    }
  }

  /** The first loop: the current hour's minutes in list order, stopping at the
      first one after the current minute. */
  method ScanCurrentHour(t: HourTable, now: Clock) returns (nextBus: Option<Slot>)
    requires WellFormed(t) && now.Valid()
    ensures nextBus == First(CurrentSlots(Normalize(t), now))
  {
    ghost var n := Normalize(t);
    ghost var cur := CurrentSlots(n, now);
    nextBus := None;
    var currentHour := NatToString(now.hour);
    if currentHour in t {
      var minutes := t[currentHour];
      ghost var ms := MinutesOf(minutes);
      assert ms == n[now.hour];
      for i := 0 to |minutes|
        invariant SlotsAfter(now.hour, ms[i..], now.minute) == cur
      {
        var minuteValue := MinuteOf(minutes[i]);
        assert minuteValue == ms[i];
        assert ms[i..][1..] == ms[i + 1..];
        if minuteValue > now.minute {
          nextBus := Some(Slot(now.hour, minuteValue));
          break;
        }
      }
    }
  }

  /** The second loop: the later hours in ascending order, stopping at the first
      one that has entries and taking its first-listed minute. */
  method ScanLaterHours(t: HourTable, now: Clock) returns (nextBus: Option<Slot>)
    requires WellFormed(t) && now.Valid()
    ensures nextBus == First(FutureSlots(Normalize(t), now))
  {
    ghost var n := Normalize(t);
    ghost var rest := FutureSlots(n, now);
    nextBus := None;
    var hours := LaterHours(t, now.hour);
    LaterHoursNormal(t, now.hour);
    for j := 0 to |hours|
      invariant LaterSlots(n, hours[j..]) == rest
    {
      var key := NatToString(hours[j]);
      assert hours[j] in n <==> key in t;
      assert hours[j..][1..] == hours[j + 1..];
      if key in t && |t[key]| > 0 {
        assert n[hours[j]] == MinutesOf(t[key]);
        var firstMinute := MinuteOf(t[key][0]);
        nextBus := Some(Slot(hours[j], firstMinute));
        break;
      }
    }
  }

  /** `fetchNextBusTime` from the loaded document: nothing is computed when the
      line has no entry for the day type. */
  method FetchNextBusTime(doc: Document, day: DayType, line: string, now: Clock)
    returns (r: Fetch<Option<BusTime>>)
    requires now.Valid()
    requires Lookup(doc, day, line).Some? ==> WellFormed(Lookup(doc, day, line).value)
    ensures Lookup(doc, day, line).None? <==> r == RouteMissing
    ensures Lookup(doc, day, line).Some? ==> r == Loaded(CardTime(Lookup(doc, day, line).value, now))
  {
    var lineData := Lookup(doc, day, line);
    if lineData.None? {
      return RouteMissing;
    }
    var next := NextBusTime(lineData.value, now);
    r := Loaded(next);
  }

  // ---------------------------------------------------------------------------
  // What the card selects

  /** When the current hour lists a minute after the current one, the card takes
      the first such minute in list order, at the current hour, whatever
      smaller qualifying minutes come after it in the list. */
  lemma CardFromCurrentHour(n: Schedule, now: Clock, i: int)
    requires now.hour in n && 0 <= i < |n[now.hour]| && n[now.hour][i] > now.minute
    requires forall j :: 0 <= j < i ==> n[now.hour][j] <= now.minute
    ensures NextOf(n, now) == Some(Slot(now.hour, n[now.hour][i]))
  {
    SlotsAfterFirst(now.hour, n[now.hour], now.minute, i);
    NextSplit(n, now);
  }

  /** When nothing in the current hour is still to come, the card takes the
      first-listed minute of the numerically smallest later hour that has
      entries; later hours without entries are passed over. */
  lemma CardFromLaterHour(n: Schedule, now: Clock, h: int)
    requires now.hour in n ==> forall j :: 0 <= j < |n[now.hour]| ==> n[now.hour][j] <= now.minute
    requires now.hour < h && h in n && n[h] != []
    requires forall g :: g in n && now.hour < g < h ==> n[g] == []
    ensures NextOf(n, now) == Some(Slot(h, n[h][0]))
  {
    if now.hour in n {
      SlotsAfterEmpty(now.hour, n[now.hour], now.minute);
    }
    var hours := LaterHoursOf(n, now.hour);
    var i :| 0 <= i < |hours| && hours[i] == h;
    LaterSlotsFirst(n, hours, i);
    NextSplit(n, now);
  }

  /** "No more buses today" exactly when the schedule has no departure later
      today: the card never wraps around to tomorrow's first bus. */
  lemma CardNoMoreBuses(n: Schedule, now: Clock)
    requires ValidSchedule(n) && now.Valid()
    ensures CardTimeOf(n, now) == None <==>
      forall s :: IsDeparture(n, s) ==> MinuteOfDay(s) <= NowMinute(now)
  {
    var u := UpcomingOf(n, now);
    if u != [] {
      UpcomingMembers(n, now, u[0]);
    } else {
      forall s | IsDeparture(n, s) ensures MinuteOfDay(s) <= NowMinute(now) {
        UpcomingMembers(n, now, s);
      }
    }
  }

  /** The card's departure is an entry of the schedule strictly after now; its
      `minutesUntil` is the minute gap, less one when `now` is past the start
      of its minute, and never negative. */
  lemma CardAfterNow(n: Schedule, now: Clock)
    requires ValidSchedule(n) && now.Valid() && CardTimeOf(n, now).Some?
    ensures var s, b := NextOf(n, now).value, CardTimeOf(n, now).value;
      && IsDeparture(n, s) && MinuteOfDay(s) > NowMinute(now)
      && b.time > now.Millis()
      && b.minutesUntil == MinuteOfDay(s) - NowMinute(now) - (if now.second > 0 then 1 else 0)
      && b.minutesUntil >= 0
  {
    var s := NextOf(n, now).value;
    UpcomingMembers(n, now, s);
  }

  /** At 9:10 with the 9 o'clock minutes listed as 45 then 15, the card shows
      9:45 although 9:15 is also still to come. */
  lemma ListOrderNotSmallest()
    ensures NextOf(map[9 := [45, 15]], Clock(9, 10, 0, 0)) == Some(Slot(9, 45))
    ensures Slot(9, 15) in UpcomingOf(map[9 := [45, 15]], Clock(9, 10, 0, 0))
  {
    var n: Schedule := map[9 := [45, 15]];
    CardFromCurrentHour(n, Clock(9, 10, 0, 0), 0);
    UpcomingMembers(n, Clock(9, 10, 0, 0), Slot(9, 15));
  }

  /** With 9:15, 9:45 and 10:00 listed, at 9:30:00 the card shows 9:45 in 15
      minutes, and in 14 once the clock is some seconds into 9:30. */
  lemma NextAtHalfPast()
    ensures CardTimeOf(map[9 := [15, 45], 10 := [0]], Clock(9, 30, 0, 0))
      == Some(BusTime((9 * 60 + 45) * 60000, 15))
    ensures CardTimeOf(map[9 := [15, 45], 10 := [0]], Clock(9, 30, 12, 250))
      == Some(BusTime((9 * 60 + 45) * 60000 + 250, 14))
  {
    CardFromCurrentHour(map[9 := [15, 45], 10 := [0]], Clock(9, 30, 0, 0), 1);
    CardFromCurrentHour(map[9 := [15, 45], 10 := [0]], Clock(9, 30, 12, 250), 1);
  }

  /** At 8:59:30 the card passes over the empty hours 9 and 10 and shows 11:05. */
  lemma EmptyHoursSkipped()
    ensures NextOf(map[9 := [], 10 := [], 11 := [5]], Clock(8, 59, 30, 0)) == Some(Slot(11, 5))
  {
    CardFromLaterHour(map[9 := [], 10 := [], 11 := [5]], Clock(8, 59, 30, 0), 11);
  }

  /** At 9:20 with only 9:15 listed there is no more bus today. */
  lemma NoBusAfterLastOne()
    ensures CardTimeOf(map[9 := [15]], Clock(9, 20, 0, 0)) == None
  {
    var n: Schedule := map[9 := [15]];
    forall s | IsDeparture(n, s) ensures MinuteOfDay(s) <= NowMinute(Clock(9, 20, 0, 0)) {
      assert s.hour == 9 && s.minute == 15;
    }
    CardNoMoreBuses(n, Clock(9, 20, 0, 0));
  }
}
