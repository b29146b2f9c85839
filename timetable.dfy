/** The timetable as the two next-departure engines read it: a per-line
    `HourTable` from hour keys to lists of minute strings, the instants they build
    for a departure, and the reference sequence of today's remaining departures
    that both engines are proved against. */
module Timetable {
  import opened Wrappers
  import opened Strings
  import opened Sorting
  import opened DateUtils

  /** `{ "<hour>": ["<minute>", ...], ... }` for one line on one day type. */
  type HourTable = map<string, seq<string>>

  /** The parsed `timetable.json`: day-type key, then line name, then hour table. */
  type Document = map<string, map<string, HourTable>>

  /** What a view holds after reading `data[dayType][lineName]`: nothing when the
      line (or the day type) is absent, otherwise what it computed from the table. */
  datatype Fetch<T> = RouteMissing | Loaded(value: T)

  /** `data[dayType][lineName]`, `None` when it is `undefined`. */
  function Lookup(doc: Document, day: DayType, line: string): (r: Option<HourTable>)
    ensures r.Some? <==> day.Key() in doc && line in doc[day.Key()]
  {
    if day.Key() in doc && line in doc[day.Key()] then Some(doc[day.Key()][line]) else None
  }

  // ---------------------------------------------------------------------------
  // Well-formed tables

  /** An hour key as the engines can look it up again: the canonical decimal
      text of an hour 0..23 (so "9" is one, "09" is not). */
  predicate IsHourKey(k: string) {
    var p := ParseInt(k);
    p.Some? && 0 <= p.value < 24 && NatToString(p.value) == k
  }

  /** A minute token: after `trim`, a decimal digit string that `Number.parseInt`
      reads as 0..59. Signs, radix prefixes such as "0x" and trailing text are
      not minute tokens. */
  predicate IsMinuteToken(tok: string) {
    var p := ParseInt(Trim(tok));
    AllDigits(Trim(tok)) && p.Some? && 0 <= p.value < 60
  }

  function HourOf(k: string): (h: nat)
    requires IsHourKey(k)
    ensures h < 24 && NatToString(h) == k
  {
    ParseInt(k).value
  }

  function MinuteOf(tok: string): (m: nat)
    requires IsMinuteToken(tok)
    ensures m < 60 && m == DigitsValue(Trim(tok))
  {
    ParseIntOfDigits(Trim(tok));
    ParseInt(Trim(tok)).value
  }

  predicate AllMinuteTokens(mins: seq<string>) {
    forall i :: 0 <= i < |mins| ==> IsMinuteToken(mins[i])
  }

  /** The tables the model covers: every key an hour key, every token a minute. */
  predicate WellFormed(t: HourTable) {
    forall k :: k in t ==> IsHourKey(k) && AllMinuteTokens(t[k])
  }

  /** Strictly ascending numbers. */
  predicate StrictlyAscending(xs: seq<int>) {
    forall i, j :: 0 <= i < j < |xs| ==> xs[i] < xs[j]
  }

  /** Minutes listed in ascending order within every hour. */
  predicate AscendingMinutes(t: HourTable)
    requires WellFormed(t)
  {
    forall k :: k in t ==> StrictlyAscending(MinutesOf(t[k]))
  }

  /** A leading zero makes a key that `hour.toString()` never produces, so
      the engines' lookups would miss it. */
  lemma PaddedKeyIsNotAnHourKey()
    ensures IsHourKey("9") && !IsHourKey("09")
  {
    ParseIntOfNatToString(9);
    assert NatToString(9) == "9";
  }

  /** Hexadecimal and signed tokens, which `Number.parseInt` would read as 26 and
      -5, are not minute tokens; " 05 " is one, and reads as 5. */
  lemma RadixTokensAreNotMinuteTokens()
    ensures !IsMinuteToken("0x1A") && !IsMinuteToken("-0x5")
    ensures IsMinuteToken(" 05 ") && MinuteOf(" 05 ") == 5
  {
    assert TrimStart("0x1A") == "0x1A" && TrimEnd("0x1A") == "0x1A";
    assert !IsDigit("0x1A"[1]);
    assert TrimStart("-0x5") == "-0x5" && TrimEnd("-0x5") == "-0x5";
    assert !IsDigit("-0x5"[0]);
    TrimmedPaddedToken();
  }

  // ---------------------------------------------------------------------------
  // The table read as numbers

  /** A table with its keys and tokens read as numbers: hour to minutes, in list order. */
  type Schedule = map<int, seq<int>>

  predicate ValidSchedule(n: Schedule) {
    forall h :: h in n ==> 0 <= h < 24 && forall i :: 0 <= i < |n[h]| ==> 0 <= n[h][i] < 60
  }

  /** `mins.map(m => Number.parseInt(m.trim()))`. */
  function MinutesOf(mins: seq<string>): (r: seq<int>)
    requires AllMinuteTokens(mins)
    ensures |r| == |mins|
    ensures forall i :: 0 <= i < |mins| ==> 0 <= r[i] < 60
  {
    seq(|mins|, i requires 0 <= i < |mins| => MinuteOf(mins[i]))
  }

  /** Every key of a well-formed table read as its hour, every token as its minute. */
  function Normalize(t: HourTable): (n: Schedule)
    requires WellFormed(t)
    ensures ValidSchedule(n)
    ensures forall h :: h in n <==> 0 <= h < 24 && NatToString(h) in t
    ensures forall k :: k in t ==> HourOf(k) in n && n[HourOf(k)] == MinutesOf(t[k])
  {
    map h | 0 <= h < 24 && NatToString(h) in t :: MinutesOf(t[NatToString(h)])
  }

  // ---------------------------------------------------------------------------
  // Departures and bus times

  /** A departure of the day, as the hour and minute of a table entry. */
  datatype Slot = Slot(hour: int, minute: int)

  function MinuteOfDay(s: Slot): int {
    s.hour * 60 + s.minute
  }

  function NowMinute(now: Clock): int {
    now.hour * 60 + now.minute
  }

  /** `{ time, minutesUntil }` of a departure: the instant, in the milliseconds of
      `Clock.Millis`, and the whole minutes until it. */
  datatype BusTime = BusTime(time: int, minutesUntil: int)

  /** `d = new Date(now); d.setHours(h); d.setMinutes(m); d.setSeconds(0)`:
      the whole minutes of the instant are the departure's minute of the day, and
      `setSeconds(0)` leaves only the milliseconds of `now` below them. */
  function DepartureMillis(now: Clock, s: Slot): (ms: int)
    ensures now.Valid() ==> ms / 60000 == MinuteOfDay(s) && ms % 60000 == now.millis
  {
    MinuteOfDay(s) * 60000 + now.millis
  }

  /** The bus time of a departure seen from `now`. It is strictly after `now`
      exactly when its minute of the day is; its `minutesUntil`
      (`getMinutesDifference(now, time)`) is then the minute gap, less one when
      `now` is past the start of its minute, and never negative. */
  function ToBusTime(now: Clock, s: Slot): (b: BusTime)
    ensures b.time == DepartureMillis(now, s)
    ensures b.minutesUntil == MinutesDifference(now.Millis(), b.time)
    ensures now.Valid() ==> (b.time > now.Millis() <==> MinuteOfDay(s) > NowMinute(now))
    ensures now.Valid() && MinuteOfDay(s) > NowMinute(now) ==>
      b.minutesUntil == MinuteOfDay(s) - NowMinute(now) - (if now.second > 0 then 1 else 0)
      && b.minutesUntil >= 0
  {
    var time := DepartureMillis(now, s);
    if now.Valid() then
      FloorOfGap(now.Millis(), time, MinuteOfDay(s) - NowMinute(now), now.second);
      BusTime(time, MinutesDifference(now.Millis(), time))
    else
      BusTime(time, MinutesDifference(now.Millis(), time))
  }

  /** Two instants `gap` minutes less `second` seconds apart: the later one is
      after exactly when the gap is positive, and the floor of their distance in
      minutes is the gap, less one when `second` is non-zero. */
  lemma FloorOfGap(start: int, end: int, gap: int, second: int)
    requires 0 <= second < 60 && end - start == gap * 60000 - second * 1000
    ensures end > start <==> gap > 0
    ensures gap > 0 ==> MinutesDifference(start, end) == gap - (if second > 0 then 1 else 0)
  {
    if gap > 0 {
      var q := gap - (if second > 0 then 1 else 0);
      var r := MinutesDifference(start, end);
      assert q * 60000 <= end - start < q * 60000 + 60000;
      assert !(r < q) && !(q < r);
    }
  }

  /** The bus times of a list of departures, in the same order. */
  function BusTimesOf(now: Clock, ss: seq<Slot>): (r: seq<BusTime>)
    ensures |r| == |ss|
    ensures forall i :: 0 <= i < |ss| ==> r[i] == ToBusTime(now, ss[i])
  {
    if ss == [] then [] else [ToBusTime(now, ss[0])] + BusTimesOf(now, ss[1..])
  }

  // ---------------------------------------------------------------------------
  // The remaining departures of the day

  /** `Object.keys(t).map(h => parseInt(h)).filter(h => h > cur).sort((a, b) => a - b)`;
      the keys of a well-formed table are distinct hours, so no hour is listed twice. */
  function LaterHours(t: HourTable, cur: int): (hs: seq<int>)
    requires WellFormed(t)
    ensures forall i, j :: 0 <= i < j < |hs| ==> hs[i] < hs[j]
  {
    SortNumeric(set k | k in t && HourOf(k) > cur :: HourOf(k))
  }

  /** The hours of a schedule after `cur`, ascending. */
  function LaterHoursOf(n: Schedule, cur: int): (hs: seq<int>)
    ensures forall i, j :: 0 <= i < j < |hs| ==> hs[i] < hs[j]
    ensures forall h :: h in hs <==> h in n && cur < h
  {
    SortNumeric(set h | h in n && h > cur)
  }

  /** On a well-formed table the source's later hours are the schedule's. */
  lemma LaterHoursNormal(t: HourTable, cur: int)
    requires WellFormed(t)
    ensures LaterHours(t, cur) == LaterHoursOf(Normalize(t), cur)
  {
    LaterHourSet(t, cur);
  }

  lemma LaterHourSet(t: HourTable, cur: int)
    requires WellFormed(t)
    ensures (set k | k in t && HourOf(k) > cur :: HourOf(k)) == set h | h in Normalize(t) && h > cur
  {
    var n := Normalize(t);
    forall h | h in n && h > cur ensures exists k :: k in t && HourOf(k) > cur && HourOf(k) == h {
      HourKeyOfHour(t, h);
    }
  }

  /** Every hour of the schedule is keyed in the table by its `toString`. */
  lemma HourKeyOfHour(t: HourTable, h: int)
    requires WellFormed(t) && h in Normalize(t)
    ensures NatToString(h) in t && HourOf(NatToString(h)) == h
  {
    var k := NatToString(h);
    NatToStringInjective(HourOf(k), h);
  }

  /** The entries of one hour whose minute is after `after`, in list order. */
  function SlotsAfter(hour: int, ms: seq<int>, after: int): (r: seq<Slot>)
    ensures |r| <= |ms|
  {
    if ms == [] then []
    else (if ms[0] > after then [Slot(hour, ms[0])] else []) + SlotsAfter(hour, ms[1..], after)
  }

  /** One step of the filter from position `i` of the list. */
  lemma SlotsAfterStep(hour: int, ms: seq<int>, after: int, i: int)
    requires 0 <= i < |ms|
    ensures SlotsAfter(hour, ms[i..], after)
      == (if ms[i] > after then [Slot(hour, ms[i])] else []) + SlotsAfter(hour, ms[i + 1..], after)
  {
    assert ms[i..][1..] == ms[i + 1..];
  }

  /** Every entry of one hour, in list order. */
  function AllSlots(hour: int, ms: seq<int>): (r: seq<Slot>)
    ensures |r| == |ms| && forall i :: 0 <= i < |ms| ==> r[i] == Slot(hour, ms[i])
  {
    seq(|ms|, i requires 0 <= i < |ms| => Slot(hour, ms[i]))
  }

  /** The entries of the given hours, hour after hour. */
  function LaterSlots(n: Schedule, hours: seq<int>): seq<Slot> {
    if hours == [] then []
    else (if hours[0] in n then AllSlots(hours[0], n[hours[0]]) else []) + LaterSlots(n, hours[1..])
  }

  /** One step of the later hours from position `j` of the list. */
  lemma LaterSlotsStep(n: Schedule, hours: seq<int>, j: int)
    requires 0 <= j < |hours|
    ensures LaterSlots(n, hours[j..])
      == (if hours[j] in n then AllSlots(hours[j], n[hours[j]]) else []) + LaterSlots(n, hours[j + 1..])
  {
    assert hours[j..][1..] == hours[j + 1..];
  }

  /** The current hour's entries after the current minute, in list order. */
  function CurrentSlots(n: Schedule, now: Clock): seq<Slot> {
    if now.hour in n then SlotsAfter(now.hour, n[now.hour], now.minute) else []
  }

  /** Every entry of each hour after the current one, hours ascending. */
  function FutureSlots(n: Schedule, now: Clock): seq<Slot> {
    LaterSlots(n, LaterHoursOf(n, now.hour))
  }

  /** The departures of a schedule after `now`, in the order both engines scan:
      the current hour's later minutes in list order, then every entry of each
      later hour, hours ascending. */
  function UpcomingOf(n: Schedule, now: Clock): seq<Slot> {
    CurrentSlots(n, now) + FutureSlots(n, now)
  }

  function Upcoming(t: HourTable, now: Clock): seq<Slot>
    requires WellFormed(t)
  {
    UpcomingOf(Normalize(t), now)
  }

  function First(ss: seq<Slot>): Option<Slot> {
    if ss == [] then None else Some(ss[0])
  }

  /** The next departure: the first of the upcoming ones, if any. */
  function NextOf(n: Schedule, now: Clock): Option<Slot> {
    First(UpcomingOf(n, now))
  }

  /** The next departure is the current hour's first one still to come, and
      only when there is none the first one of the later hours. */
  lemma NextSplit(n: Schedule, now: Clock)
    ensures NextOf(n, now) ==
      if CurrentSlots(n, now) != [] then First(CurrentSlots(n, now)) else First(FutureSlots(n, now))
  {
    var a, b := CurrentSlots(n, now), FutureSlots(n, now);
    if a != [] {
      assert (a + b)[0] == a[0];
    } else {
      assert a + b == b;
    }
  }

  // ---------------------------------------------------------------------------
  // What the upcoming departures are

  /** `s` is an entry of the schedule. */
  predicate IsDeparture(n: Schedule, s: Slot) {
    s.hour in n && s.minute in n[s.hour]
  }

  lemma {:induction false} SlotsAfterMembers(hour: int, ms: seq<int>, after: int, s: Slot)
    ensures s in SlotsAfter(hour, ms, after) <==> s.hour == hour && after < s.minute && s.minute in ms
  {
    if ms != [] {
      SlotsAfterMembers(hour, ms[1..], after, s);
      assert ms == [ms[0]] + ms[1..];
    }
  }

  lemma {:induction false} LaterSlotsMembers(n: Schedule, hours: seq<int>, s: Slot)
    ensures s in LaterSlots(n, hours) <==> s.hour in hours && IsDeparture(n, s)
  {
    if hours != [] {
      LaterSlotsMembers(n, hours[1..], s);
      assert hours == [hours[0]] + hours[1..];
      if hours[0] in n {
        var ms := n[hours[0]];
        if s.hour == hours[0] && s.minute in ms {
          var i :| 0 <= i < |ms| && ms[i] == s.minute;
          assert AllSlots(hours[0], ms)[i] == s;
        }
      }
    }
  }

  /** The upcoming departures are exactly the schedule's departures strictly
      after `now` on the same day: earlier hours, earlier minutes of the current
      hour and tomorrow never appear, and nothing later today is missed. */
  lemma UpcomingMembers(n: Schedule, now: Clock, s: Slot)
    requires ValidSchedule(n) && now.Valid()
    ensures s in UpcomingOf(n, now) <==> IsDeparture(n, s) && MinuteOfDay(s) > NowMinute(now)
  {
    LaterSlotsMembers(n, LaterHoursOf(n, now.hour), s);
    if now.hour in n {
      SlotsAfterMembers(now.hour, n[now.hour], now.minute, s);
    }
    if IsDeparture(n, s) {
      var i :| 0 <= i < |n[s.hour]| && n[s.hour][i] == s.minute;
      assert 0 <= s.minute < 60;
    }
  }

  // ---------------------------------------------------------------------------
  // Where the first upcoming departure comes from

  /** The first entry after `after` in list order is the first slot the filter keeps. */
  lemma {:induction false} SlotsAfterFirst(hour: int, ms: seq<int>, after: int, i: int)
    requires 0 <= i < |ms| && ms[i] > after
    requires forall j :: 0 <= j < i ==> ms[j] <= after
    ensures SlotsAfter(hour, ms, after) != [] && SlotsAfter(hour, ms, after)[0] == Slot(hour, ms[i])
  {
    if i > 0 {
      SlotsAfterFirst(hour, ms[1..], after, i - 1);
    }
  }

  /** The filter keeps nothing exactly when no entry is after `after`. */
  lemma {:induction false} SlotsAfterEmpty(hour: int, ms: seq<int>, after: int)
    ensures SlotsAfter(hour, ms, after) == [] <==> forall j :: 0 <= j < |ms| ==> ms[j] <= after
  {
    if ms != [] {
      SlotsAfterEmpty(hour, ms[1..], after);
      if ms[0] <= after && SlotsAfter(hour, ms[1..], after) == [] {
        forall j | 1 <= j < |ms| ensures ms[j] <= after {
          assert ms[1..][j - 1] == ms[j];
        }
      }
    }
  }

  /** An hour of the list that has no entries contributes nothing. */
  predicate NoEntries(n: Schedule, h: int) {
    h !in n || n[h] == []
  }

  /** The first slot of the later hours is the first entry of the first of them
      that has any entries. */
  lemma {:induction false} LaterSlotsFirst(n: Schedule, hours: seq<int>, i: int)
    requires 0 <= i < |hours| && !NoEntries(n, hours[i])
    requires forall j :: 0 <= j < i ==> NoEntries(n, hours[j])
    ensures LaterSlots(n, hours) != [] && LaterSlots(n, hours)[0] == Slot(hours[i], n[hours[i]][0])
  {
    if i > 0 {
      LaterSlotsFirst(n, hours[1..], i - 1);
    }
  }

  /** The later hours contribute nothing exactly when none of them has entries. */
  lemma {:induction false} LaterSlotsEmpty(n: Schedule, hours: seq<int>)
    ensures LaterSlots(n, hours) == [] <==> forall j :: 0 <= j < |hours| ==> NoEntries(n, hours[j])
  {
    if hours != [] {
      LaterSlotsEmpty(n, hours[1..]);
      if NoEntries(n, hours[0]) && LaterSlots(n, hours[1..]) == [] {
        forall j | 1 <= j < |hours| ensures NoEntries(n, hours[j]) {
          assert hours[1..][j - 1] == hours[j];
        }
      }
    }
  }

  // ---------------------------------------------------------------------------
  // Order of the upcoming departures

  /** Strictly increasing in time of day. */
  predicate Increasing(ss: seq<Slot>) {
    forall i, j :: 0 <= i < j < |ss| ==> MinuteOfDay(ss[i]) < MinuteOfDay(ss[j])
  }

  /** Strictly ascending minutes within every hour of the schedule. */
  predicate AscendingSchedule(n: Schedule) {
    forall h :: h in n ==> StrictlyAscending(n[h])
  }

  lemma AscendingNormal(t: HourTable)
    requires WellFormed(t) && AscendingMinutes(t)
    ensures AscendingSchedule(Normalize(t))
  {
    var n := Normalize(t);
    forall h | h in n ensures StrictlyAscending(n[h]) {
      assert n[h] == MinutesOf(t[NatToString(h)]);
    }
  }

  lemma IncreasingConcat(a: seq<Slot>, b: seq<Slot>)
    requires Increasing(a) && Increasing(b)
    requires forall i, j :: 0 <= i < |a| && 0 <= j < |b| ==> MinuteOfDay(a[i]) < MinuteOfDay(b[j])
    ensures Increasing(a + b)
  {
    forall i, j | 0 <= i < j < |a + b| ensures MinuteOfDay((a + b)[i]) < MinuteOfDay((a + b)[j]) {
      if j < |a| {
        assert (a + b)[i] == a[i] && (a + b)[j] == a[j];
      } else if i < |a| {
        assert (a + b)[i] == a[i] && (a + b)[j] == b[j - |a|];
      } else {
        assert (a + b)[i] == b[i - |a|] && (a + b)[j] == b[j - |a|];
      }
    }
  }

  lemma {:induction false} SlotsAfterIncreasing(hour: int, ms: seq<int>, after: int)
    requires StrictlyAscending(ms)
    ensures Increasing(SlotsAfter(hour, ms, after))
  {
    if ms != [] {
      var rest := SlotsAfter(hour, ms[1..], after);
      SlotsAfterIncreasing(hour, ms[1..], after);
      if ms[0] > after {
        forall j | 0 <= j < |rest| ensures MinuteOfDay(Slot(hour, ms[0])) < MinuteOfDay(rest[j]) {
          SlotsAfterMembers(hour, ms[1..], after, rest[j]);
          var k :| 0 <= k < |ms[1..]| && ms[1..][k] == rest[j].minute;
          assert ms[k + 1] == rest[j].minute;
        }
        IncreasingConcat([Slot(hour, ms[0])], rest);
      }
    }
  }

  lemma {:induction false} LaterSlotsIncreasing(n: Schedule, hours: seq<int>)
    requires ValidSchedule(n) && AscendingSchedule(n)
    requires forall i, j :: 0 <= i < j < |hours| ==> hours[i] < hours[j]
    ensures Increasing(LaterSlots(n, hours))
  {
    if hours != [] {
      var h := hours[0];
      var rest := LaterSlots(n, hours[1..]);
      LaterSlotsIncreasing(n, hours[1..]);
      if h in n {
        var first := AllSlots(h, n[h]);
        forall i, j | 0 <= i < |first| && 0 <= j < |rest| ensures MinuteOfDay(first[i]) < MinuteOfDay(rest[j]) {
          LaterSlotsMembers(n, hours[1..], rest[j]);
          var k :| 0 <= k < |hours[1..]| && hours[1..][k] == rest[j].hour;
          assert hours[k + 1] == rest[j].hour;
          var m :| 0 <= m < |n[rest[j].hour]| && n[rest[j].hour][m] == rest[j].minute;
        }
        IncreasingConcat(first, rest);
      }
    }
  }

  lemma UpcomingOfIncreasing(n: Schedule, now: Clock)
    requires ValidSchedule(n) && AscendingSchedule(n) && now.Valid()
    ensures Increasing(UpcomingOf(n, now))
  {
    var hours := LaterHoursOf(n, now.hour);
    LaterSlotsIncreasing(n, hours);
    var rest := LaterSlots(n, hours);
    if now.hour in n {
      var cur := SlotsAfter(now.hour, n[now.hour], now.minute);
      SlotsAfterIncreasing(now.hour, n[now.hour], now.minute);
      forall i, j | 0 <= i < |cur| && 0 <= j < |rest| ensures MinuteOfDay(cur[i]) < MinuteOfDay(rest[j]) {
        SlotsAfterMembers(now.hour, n[now.hour], now.minute, cur[i]);
        LaterSlotsMembers(n, hours, rest[j]);
        var m :| 0 <= m < |n[rest[j].hour]| && n[rest[j].hour][m] == rest[j].minute;
      }
      IncreasingConcat(cur, rest);
    }
  }

  /** When every hour lists its minutes in ascending order, the upcoming
      departures come out strictly increasing in time. */
  lemma UpcomingIncreasing(t: HourTable, now: Clock)
    requires WellFormed(t) && AscendingMinutes(t) && now.Valid()
    ensures Increasing(Upcoming(t, now))
  {
    AscendingNormal(t);
    UpcomingOfIncreasing(Normalize(t), now);
  }
}
