/** The complete-timetable dialog: one section per hour key of the chosen line
    and day type, in default string order, headed by an hour label and holding
    one `formatAMPM` cell per listed minute. */
module AllTimesModal {
  import opened Wrappers
  import opened Strings
  import opened Sorting
  import opened DateUtils
  import opened Timetable

  /** The tabs the dialog opens on. */
  const DefaultLine: string := "Line 1"
  const DefaultDay: DayType := Weekday

  /** `Object.keys(lineData).sort()`: each key once, in string order. */
  function HourKeys(t: HourTable): (keys: seq<string>)
    ensures forall k :: k in t <==> k in keys
    ensures forall i, j :: 0 <= i < j < |keys| ==> LexLe(keys[i], keys[j]) && keys[i] != keys[j]
  {
    SortDefault(t.Keys)
  }

  /** The section heading of an hour key:
      `{parseInt(hour) > 12 ? parseInt(hour) - 12 : hour}:00 {parseInt(hour) >= 12 ? "PM" : "AM"}`.
      A key that does not parse compares false both times. */
  function HeaderLabel(key: string): (heading: string)
    ensures |heading| >= 6 && heading[|heading| - 6..|heading| - 2] == ":00 "
    ensures heading[|heading| - 2..] == "PM" <==> ParseInt(key).Some? && ParseInt(key).value >= 12
    ensures heading[|heading| - 2..] == "AM" <==> !(ParseInt(key).Some? && ParseInt(key).value >= 12)
  {
    var p := ParseInt(key);
    var number := if p.Some? && p.value > 12 then NatToString(p.value - 12) else key;
    number + ":00 " + (if p.Some? && p.value >= 12 then "PM" else "AM")
  }

  /** The cells of an hour: `formatAMPM(parseInt(hour), parseInt(minute.trim()))`
      for each listed minute, in list order. */
  function Cells(t: HourTable, key: string): (cells: seq<string>)
    requires WellFormed(t) && key in t
    ensures |cells| == |t[key]|
  {
    seq(|t[key]|, i requires 0 <= i < |t[key]| => FormatAMPM(HourOf(key), MinuteOf(t[key][i])))
  }

  datatype Section = Section(header: string, cells: seq<string>)

  /** The sections of the listing, one per hour key in string order. */
  function Sections(t: HourTable): (ss: seq<Section>)
    requires WellFormed(t)
    ensures |ss| == |HourKeys(t)|
  {
    var keys := HourKeys(t);
    seq(|keys|, i requires 0 <= i < |keys| => Section(HeaderLabel(keys[i]), Cells(t, keys[i])))
  }

  /** What the dialog shows: nothing before the document is loaded, a spinner
      while loading, the listing otherwise; looking up a day type the document
      lacks, or listing a line it lacks, throws. */
  datatype View = Hidden | Spinner | Listing(sections: seq<Section>) | Throws

  function Render(timetable: Option<Document>, loading: bool, day: DayType, line: string): (v: View)
    requires timetable.Some? && Lookup(timetable.value, day, line).Some? ==>
      WellFormed(Lookup(timetable.value, day, line).value)
    ensures v == Hidden <==> timetable.None?
    ensures v == Spinner <==> timetable.Some? && day.Key() in timetable.value && loading
    ensures v.Listing? <==> timetable.Some? && !loading && Lookup(timetable.value, day, line).Some?
    ensures v.Listing? ==> v.sections == Sections(Lookup(timetable.value, day, line).value)
    ensures v == Throws <==>
      timetable.Some? && (day.Key() !in timetable.value || (!loading && Lookup(timetable.value, day, line).None?))
  {
    match timetable
    case None => Hidden
    case Some(doc) =>
      if day.Key() !in doc then Throws
      else if loading then Spinner
      else if line !in doc[day.Key()] then Throws
      else Listing(Sections(doc[day.Key()][line]))
  }

  // ---------------------------------------------------------------------------
  // Section order

  /** The sections follow string order, not numeric order: hour "10" is listed
      before hour "6". */
  lemma TenBeforeSix(t: HourTable, i: int, j: int)
    requires 0 <= i < |HourKeys(t)| && 0 <= j < |HourKeys(t)|
    requires HourKeys(t)[i] == "10" && HourKeys(t)[j] == "6"
    ensures i < j
  {
    assert !LexLe("6", "10");
  }

  /** Every hour key of the line has exactly one section, which carries its
      heading and its cells. */
  lemma {:induction false} SectionOfEveryHour(t: HourTable, key: string)
    requires WellFormed(t) && key in t
    ensures exists i :: (0 <= i < |Sections(t)| && HourKeys(t)[i] == key
                         && Sections(t)[i] == Section(HeaderLabel(key), Cells(t, key)))
    ensures forall i, j :: (0 <= i < |HourKeys(t)| && 0 <= j < |HourKeys(t)|
                            && HourKeys(t)[i] == key && HourKeys(t)[j] == key) ==> i == j
  {
    var keys := HourKeys(t);
    var i :| 0 <= i < |keys| && keys[i] == key;
    assert Sections(t)[i] == Section(HeaderLabel(key), Cells(t, key));
  }

  // ---------------------------------------------------------------------------
  // Headings

  /** The heading of a canonical hour key: the hour on a 12-hour clock without
      the midnight correction, then ":00" and the AM/PM suffix. */
  lemma HeaderOfHour(h: nat)
    requires h < 24
    ensures HeaderLabel(NatToString(h)) == NatToString(if h > 12 then h - 12 else h) + ":00 " + Suffix(h)
  {
    ParseIntOfNatToString(h);
  }

  /** `formatAMPM(hour, 0)`, the text of an hour on the hour. */
  lemma OnTheHour(h: nat)
    ensures FormatAMPM(h, 0) == NatToString(DisplayHour(h)) + ":00 " + Suffix(h)
  {
    assert DisplayMinute(0) == "0" + NatToString(0);
  }

  /** The heading agrees with `formatAMPM(hour, 0)` except at hour 0, which is
      headed "0:00 AM" where `formatAMPM` writes "12:00 AM". */
  lemma HeaderVersusFormatAMPM(h: nat)
    requires h < 24
    ensures HeaderLabel(NatToString(h)) == FormatAMPM(h, 0) <==> h != 0
  {
    HeaderOfHour(h);
    OnTheHour(h);
    if h == 0 {
      var a, b := NatToString(0), NatToString(12);
      assert (a + ":00 AM")[0] == a[0] && (b + ":00 AM")[0] == b[0];
    } else {
      DisplayHourOfDaytime(h);
    }
  }

  lemma DisplayHourOfDaytime(h: nat)
    requires 0 < h < 24
    ensures DisplayHour(h) == if h > 12 then h - 12 else h
  {
    if h >= 12 {
      assert h % 12 == h - 12;
    }
  }

  /** Hour 0 is headed "0:00 AM", while its cells start "12:". */
  lemma MidnightHeader()
    ensures HeaderLabel(NatToString(0)) == "0:00 AM"
    ensures FormatAMPM(0, 0) == "12:00 AM"
  {
    HeaderOfHour(0);
    assert NatToString(0) == "0";
    OnTheHour(0);
    assert NatToString(12) == "12";
  }

  /** Hour 13 is headed "1:00 PM". */
  lemma AfternoonHeader()
    ensures HeaderLabel(NatToString(13)) == "1:00 PM"
  {
    HeaderOfHour(13);
    assert NatToString(1) == "1";
  }

  // ---------------------------------------------------------------------------
  // Cells

  /** Each cell reads back as the section's hour and the entry's minute. */
  lemma CellReadsBack(t: HourTable, key: string, i: int)
    requires WellFormed(t) && key in t && 0 <= i < |t[key]|
    ensures ParseAMPM(Cells(t, key)[i]) == Some((HourOf(key), MinuteOf(t[key][i])))
  {
    FormatAMPMRoundTrip(HourOf(key), MinuteOf(t[key][i]));
  }

  /** Two cells of a section are the same text exactly when their entries name
      the same minute: duplicated entries stay as duplicated cells. */
  lemma CellsOfSameMinute(t: HourTable, key: string, i: int, j: int)
    requires WellFormed(t) && key in t && 0 <= i < |t[key]| && 0 <= j < |t[key]|
    ensures Cells(t, key)[i] == Cells(t, key)[j] <==> MinuteOf(t[key][i]) == MinuteOf(t[key][j])
  {
    if Cells(t, key)[i] == Cells(t, key)[j] {
      FormatAMPMInjective(HourOf(key), MinuteOf(t[key][i]), HourOf(key), MinuteOf(t[key][j]));
    }
  }

  /** The AM/PM suffix of every cell is that of its heading. */
  lemma CellAgreesWithHeader(t: HourTable, key: string, i: int)
    requires WellFormed(t) && key in t && 0 <= i < |t[key]|
    ensures var c, hd := Cells(t, key)[i], HeaderLabel(key);
      |c| >= 2 && |hd| >= 2 && c[|c| - 2..] == hd[|hd| - 2..]
  {
    var h := HourOf(key);
    HeaderOfHour(h);
    var hd := HeaderLabel(key);
    assert hd[|hd| - 2..] == Suffix(h);
  }

  // ---------------------------------------------------------------------------
  // Rendering

  /** Every cell of the listing reads back as a departure of the line's schedule. */
  lemma CellsAreDepartures(t: HourTable, i: int, j: int)
    requires WellFormed(t) && 0 <= i < |Sections(t)| && 0 <= j < |Sections(t)[i].cells|
    ensures var p := ParseAMPM(Sections(t)[i].cells[j]);
      p.Some? && IsDeparture(Normalize(t), Slot(p.value.0, p.value.1))
  {
    var key := HourKeys(t)[i];
    assert Sections(t)[i].cells == Cells(t, key);
    CellReadsBack(t, key, j);
    assert Normalize(t)[HourOf(key)] == MinutesOf(t[key]);
    assert MinutesOf(t[key])[j] == MinuteOf(t[key][j]);
  }

  /** Every departure of the line's schedule is shown by some cell of the listing. */
  lemma DeparturesAreListed(t: HourTable, s: Slot)
    requires WellFormed(t) && IsDeparture(Normalize(t), s)
    ensures exists i, j :: (0 <= i < |Sections(t)| && 0 <= j < |Sections(t)[i].cells|
                            && ParseAMPM(Sections(t)[i].cells[j]) == Some((s.hour, s.minute)))
  {
    HourKeyOfHour(t, s.hour);
    var key := NatToString(s.hour);
    var ms := MinutesOf(t[key]);
    assert Normalize(t)[s.hour] == ms;
    var j :| 0 <= j < |ms| && ms[j] == s.minute;
    SectionOfEveryHour(t, key);
    var i :| 0 <= i < |Sections(t)| && HourKeys(t)[i] == key
      && Sections(t)[i] == Section(HeaderLabel(key), Cells(t, key));
    CellReadsBack(t, key, j);
    assert ParseAMPM(Sections(t)[i].cells[j]) == Some((s.hour, s.minute));
  }

  /** The dialog opens on the weekday timetable of "Line 1". */
  lemma OpensOnLineOne(doc: Document)
    requires "weekday" in doc && "Line 1" in doc["weekday"] && WellFormed(doc["weekday"]["Line 1"])
    ensures Render(Some(doc), false, DefaultDay, DefaultLine) == Listing(Sections(doc["weekday"]["Line 1"]))
  {
  }
}
