/** The live schedule page's view-model: a day of eight hourly slots, each
    classed booked or available by looking the hour up in the loaded
    records, the load state around a query, and day paging. */
module SchedulePage {
  import opened Wrappers
  import opened Decimal
  import opened Calendar
  import opened Timestamps
  import opened ScheduleData

  /** The bookable hours, 9 AM to 4 PM. */
  const TimeSlots: seq<int> := [9, 10, 11, 12, 13, 14, 15, 16]

  /** The slots are eight consecutive hours starting at 9. */
  lemma TimeSlotsFromNine()
    ensures |TimeSlots| == 8
    ensures forall i :: 0 <= i < |TimeSlots| ==> TimeSlots[i] == i + 9
  {
  }

  // ---------------------------------------------------------------------
  // Slot lookup

  /** Where a slot lookup reads a record's hour from. */
  datatype HourSource =
    | FromAppointmentTime  // the hour of the parsed `appointmentTime`, as the live page does
    | FromTime             // `apt.time`, the field the service fills in

  /** The hour a lookup sees in a record; `None` for `NaN`, which equals no hour. */
  function RecordHour(v: ViewRecord, src: HourSource): Option<int> {
    match src
    case FromAppointmentTime =>
      (match v.appointmentTime
       case Some(s) => HourOf(s)
       case None => None)
    case FromTime => v.time
  }

  /** Read from `time`, the hour is that field. Read from `appointmentTime`,
      it is defined (not `NaN`) exactly when the field is present and parses
      as a timestamp, and then it is an hour of the day. */
  lemma RecordHourSources(v: ViewRecord)
    ensures RecordHour(v, FromTime) == v.time
    ensures RecordHour(v, FromAppointmentTime).Some? <==>
      v.appointmentTime.Some? && ParseTimestamp(v.appointmentTime.value).Some?
    ensures RecordHour(v, FromAppointmentTime).Some? ==> 0 <= RecordHour(v, FromAppointmentTime).value <= 23
  {
  }

  /** Index of the first record, in list order, whose hour is `hour`. */
  function FirstWithHour(apts: seq<ViewRecord>, hour: int, src: HourSource): (r: Option<nat>)
    ensures r.Some? ==> r.value < |apts| && RecordHour(apts[r.value], src) == Some(hour)
    ensures r.Some? ==> forall j :: 0 <= j < r.value ==> RecordHour(apts[j], src) != Some(hour)
    ensures r.None? ==> forall j :: 0 <= j < |apts| ==> RecordHour(apts[j], src) != Some(hour)
  {
    if |apts| == 0 then None
    else if RecordHour(apts[0], src) == Some(hour) then Some(0)
    else
      match FirstWithHour(apts[1..], hour, src)
      case None => None
      case Some(i) => Some(i + 1)
  }

  /** The first record, in list order, whose hour equals `hour`, or nothing
      when no record has it. */
  function FindByHour(apts: seq<ViewRecord>, hour: int, src: HourSource): (r: Option<ViewRecord>)
    ensures r.Some? ==> exists i :: 0 <= i < |apts| && apts[i] == r.value
                          && RecordHour(apts[i], src) == Some(hour)
                          && forall j :: 0 <= j < i ==> RecordHour(apts[j], src) != Some(hour)
    ensures r.None? <==> forall v :: v in apts ==> RecordHour(v, src) != Some(hour)
  {
    match FirstWithHour(apts, hour, src)
    case Some(i) => Some(apts[i])
    case None => None
  }

  /** `findAppointmentForHour(hour)` as the live page writes it: it reads
      `appointmentTime`, which a record may lack. */
  function FindAppointmentForHour(apts: seq<ViewRecord>, hour: int): (r: Option<ViewRecord>)
    ensures r.Some? ==> r.value in apts && r.value.appointmentTime.Some?
                        && HourOf(r.value.appointmentTime.value) == Some(hour)
    ensures r.None? <==> forall v :: v in apts && v.appointmentTime.Some? ==> HourOf(v.appointmentTime.value) != Some(hour)
  {
    FindByHour(apts, hour, FromAppointmentTime)
  }

  /** The lookup the page needs for the records the service sends: by `time`. */
  function FindAppointmentForHourCorrected(apts: seq<ViewRecord>, hour: int): (r: Option<ViewRecord>)
    ensures r.Some? ==> r.value in apts && r.value.time == Some(hour)
    ensures r.None? <==> forall v :: v in apts ==> v.time != Some(hour)
  {
    FindByHour(apts, hour, FromTime)
  }

  // ---------------------------------------------------------------------
  // Slot rendering

  datatype SlotClass = Booked | Available

  /** A rendered slot without its DOM: the hour, its label, the CSS class,
      the record shown in it and whether clicking opens the details. */
  datatype SlotView = SlotView(hour: int, timeLabel: string, cssClass: SlotClass,
                               appointment: Option<ViewRecord>, clickable: bool)

  /** `createTimeSlotElement(hour, appointment)`. */
  function CreateTimeSlot(hour: int, appointment: Option<ViewRecord>): (s: SlotView)
    ensures s.hour == hour && s.timeLabel == FormatTime(hour) && s.appointment == appointment
    ensures s.cssClass == Booked <==> appointment.Some?
    ensures s.clickable <==> s.cssClass == Booked
  {
    if appointment.Some? then SlotView(hour, FormatTime(hour), Booked, appointment, true)
    else SlotView(hour, FormatTime(hour), Available, None, false)
  }

  /** The slots `render()` appends, one per entry of `TimeSlots`, in order,
      with the lookup reading hours from `src`. */
  function RenderSlots(apts: seq<ViewRecord>, src: HourSource): (slots: seq<SlotView>)
    ensures |slots| == |TimeSlots|
    ensures forall i :: 0 <= i < |slots| ==>
      && slots[i].hour == TimeSlots[i]
      && slots[i].timeLabel == FormatTime(TimeSlots[i])
      && slots[i].appointment == FindByHour(apts, TimeSlots[i], src)
      && (slots[i].cssClass == Booked <==> slots[i].appointment.Some?)
      && (slots[i].clickable <==> slots[i].cssClass == Booked)
  {
    seq(|TimeSlots|, i requires 0 <= i < |TimeSlots| => CreateTimeSlot(TimeSlots[i], FindByHour(apts, TimeSlots[i], src)))
  }

  /** A slot is booked exactly when some loaded record has its hour, and a
      booked slot shows the first such record. */
  lemma RenderSlotsBookedIff(apts: seq<ViewRecord>, src: HourSource, i: nat)
    requires i < |TimeSlots|
    ensures var slot := RenderSlots(apts, src)[i];
            && (slot.cssClass == Booked <==> exists v :: v in apts && RecordHour(v, src) == Some(TimeSlots[i]))
            && (slot.cssClass == Booked ==>
                  exists k :: 0 <= k < |apts| && slot.appointment == Some(apts[k])
                              && RecordHour(apts[k], src) == Some(TimeSlots[i])
                              && forall j :: 0 <= j < k ==> RecordHour(apts[j], src) != Some(TimeSlots[i]))
  {
  }

  /** `render()` as the live page writes it. */
  function Render(apts: seq<ViewRecord>): (slots: seq<SlotView>)
    ensures |slots| == |TimeSlots|
    ensures forall i :: 0 <= i < |slots| ==>
      && slots[i].hour == TimeSlots[i]
      && slots[i].appointment == FindAppointmentForHour(apts, TimeSlots[i])
      && (slots[i].cssClass == Booked <==> slots[i].appointment.Some?)
  {
    RenderSlots(apts, FromAppointmentTime)
  }

  /** `render()` with the lookup by `time`. */
  function RenderCorrected(apts: seq<ViewRecord>): (slots: seq<SlotView>)
    ensures |slots| == |TimeSlots|
    ensures forall i :: 0 <= i < |slots| ==>
      && slots[i].hour == TimeSlots[i]
      && slots[i].appointment == FindAppointmentForHourCorrected(apts, TimeSlots[i])
      && (slots[i].cssClass == Booked <==> slots[i].appointment.Some?)
  {
    RenderSlots(apts, FromTime)
  }

  // ---------------------------------------------------------------------
  // Time labels

  /** The hour as a 12-hour clock shows it: hours past noon lose 12. */
  function DisplayHour(hour: int): int {
    if hour > 12 then hour - 12 else hour
  }

  /** The displayed hour is the hour itself or 12 less, so the clock
      position is kept; noon stays 12 and midnight stays 0. Over hours 0..23
      these clauses admit exactly one value. */
  lemma DisplayHourClock(hour: int)
    ensures DisplayHour(hour) == hour || DisplayHour(hour) == hour - 12
    ensures 0 <= hour <= 23 ==> 0 <= DisplayHour(hour) <= 12
    ensures 1 <= hour <= 23 ==> 1 <= DisplayHour(hour)
  {
  }

  /** "PM" from noon on, "AM" before. */
  function Period(hour: int): (p: string)
    ensures |p| == 2
  {
    if hour >= 12 then "PM" else "AM"
  }

  lemma PeriodAtNoon(hour: int)
    ensures Period(hour) == "PM" <==> hour >= 12
    ensures Period(hour) == "AM" <==> hour < 12
  {
  }

  /** `formatTime(hour)`: a 12-hour label such as "9:00 AM" or "1:00 PM";
      12 stays "12:00 PM" and 0 is "0:00 AM". */
  function FormatTime(hour: int): (s: string)
    ensures |s| >= 7
  {
    IntToString(DisplayHour(hour)) + ":00 " + Period(hour)
  }

  /** A label splits into the numeral, ":00 " and the two-letter period. */
  lemma FormatTimeParts(hour: int)
    ensures var s := FormatTime(hour);
            && s[..|s| - 6] == IntToString(DisplayHour(hour))
            && s[|s| - 6..|s| - 2] == ":00 "
            && s[|s| - 2..] == Period(hour)
  {
    var numeral := IntToString(DisplayHour(hour));
    var s := FormatTime(hour);
    assert s == numeral + (":00 " + Period(hour));
  }

  /** The numeral before ":00 " reads back as the displayed hour, and the
      suffix is "PM" exactly from noon on. */
  lemma FormatTimeReadsBack(hour: int)
    ensures var s := FormatTime(hour);
            && s[|s| - 6..|s| - 2] == ":00 "
            && (s[|s| - 2..] == "PM" <==> hour >= 12)
            && (s[|s| - 2..] == "AM" <==> hour < 12)
            && (hour >= 0 ==> AllDigits(s[..|s| - 6]) && DigitsValue(s[..|s| - 6]) == DisplayHour(hour))
            && (hour >= 0 ==> |s| - 6 >= 1 && (|s| - 6 > 1 ==> s[0] != '0'))
  {
    FormatTimeParts(hour);
  }

  /** Over a day's hours 0..23 no two hours share a label. */
  lemma FormatTimeInjective(h1: int, h2: int)
    requires 0 <= h1 <= 23 && 0 <= h2 <= 23
    ensures FormatTime(h1) == FormatTime(h2) ==> h1 == h2
  {
    FormatTimeReadsBack(h1);
    FormatTimeReadsBack(h2);
  }

  /** Hours 0..9 read as themselves: 9 is "9:00 AM". */
  lemma FormatTimeMorning(hour: int)
    requires 0 <= hour <= 9
    ensures FormatTime(hour) == [DigitChar(hour)] + ":00 AM"
  {
    assert DisplayHour(hour) == hour && Period(hour) == "AM";
    NatToStringOneDigit(hour);
    assert IntToString(hour) == [DigitChar(hour)];
  }

  /** Noon keeps its number: "12:00 PM". */
  lemma FormatTimeNoon()
    ensures FormatTime(12) == "12:00 PM"
  {
    NatToStringTwoDigits(12);
  }

  /** Hours 13..21 lose 12: 13 is "1:00 PM", 16 is "4:00 PM". */
  lemma FormatTimeAfternoon(hour: int)
    requires 13 <= hour <= 21
    ensures FormatTime(hour) == [DigitChar(hour - 12)] + ":00 PM"
  {
    assert DisplayHour(hour) == hour - 12 && Period(hour) == "PM";
    NatToStringOneDigit(hour - 12);
    assert IntToString(hour - 12) == [DigitChar(hour - 12)];
  }

  // ---------------------------------------------------------------------
  // Page state

  /** The page's state: the day shown, the records loaded for it and the
      loading flag. */
  datatype PageState = PageState(currentDate: Date, appointments: seq<ViewRecord>, isLoading: bool)

  /** The state the constructor sets up: today's date, no records, not
      loading. */
  function InitialState(today: Date): (r: PageState)
    ensures r.currentDate == today && r.appointments == [] && !r.isLoading
  {
    PageState(today, [], false)
  }

  /** Before the first load every slot shows available. */
  lemma InitialStateAllAvailable(today: Date, i: nat)
    requires i < |TimeSlots|
    ensures Render(InitialState(today).appointments)[i].cssClass == Available
  {
  }

  /** How the awaited query settled: it resolved with an envelope, or it threw. */
  datatype LoadOutcome = Resolved(response: Response) | Rejected(reason: string)

  predicate Succeeded(outcome: LoadOutcome) {
    outcome.Resolved? && outcome.response.success
  }

  /** `setLoading(true)` at the start of `loadAppointments`. */
  function StartLoading(s: PageState): (r: PageState)
    ensures r.isLoading
    ensures r.currentDate == s.currentDate && r.appointments == s.appointments
  {
    s.(isLoading := true)
  }

  /** The rest of `loadAppointments`: keep the records of a successful
      envelope; on `success: false` or a thrown error keep none; either way
      `setLoading(false)` in the `finally`. */
  function FinishLoading(s: PageState, outcome: LoadOutcome): (r: PageState)
    ensures !r.isLoading && r.currentDate == s.currentDate
    ensures Succeeded(outcome) ==> r.appointments == outcome.response.appointments
    ensures !Succeeded(outcome) ==> r.appointments == []
  {
    if Succeeded(outcome) then s.(appointments := outcome.response.appointments, isLoading := false)
    else s.(appointments := [], isLoading := false)
  }

  /** `loadAppointments()` from start to finish. */
  function LoadAppointments(s: PageState, outcome: LoadOutcome): (r: PageState)
    ensures !r.isLoading && r.currentDate == s.currentDate
    ensures Succeeded(outcome) ==> r.appointments == outcome.response.appointments
    ensures !Succeeded(outcome) ==> r.appointments == []
  {
    FinishLoading(StartLoading(s), outcome)
  }

  /** The loaded state depends only on the day and the outcome, not on what
      was loaded before; in particular loading twice is loading once. */
  lemma LoadAppointmentsForgetsPrior(s1: PageState, s2: PageState, outcome: LoadOutcome)
    requires s1.currentDate == s2.currentDate
    ensures LoadAppointments(s1, outcome) == LoadAppointments(s2, outcome)
    ensures LoadAppointments(LoadAppointments(s1, outcome), outcome) == LoadAppointments(s1, outcome)
  {
  }

  /** `changeDate(offset)`: move the shown day by `offset` days, then load. */
  function ChangeDate(s: PageState, offset: int, outcome: LoadOutcome): (r: PageState)
    requires ValidDate(s.currentDate)
    ensures ValidDate(r.currentDate) && !r.isLoading
    ensures offset > 0 ==> Before(s.currentDate, r.currentDate)
    ensures offset < 0 ==> Before(r.currentDate, s.currentDate)
    ensures offset == 0 ==> r.currentDate == s.currentDate
    ensures r.currentDate == AddDays(s.currentDate, offset)
    ensures Succeeded(outcome) ==> r.appointments == outcome.response.appointments
    ensures !Succeeded(outcome) ==> r.appointments == []
  {
    LoadAppointments(s.(currentDate := AddDays(s.currentDate, offset)), outcome)
  }

  /** Paging by `k` and then by `-k` shows the original day again, and the
      state is what reloading that day with the second outcome gives. */
  lemma ChangeDateRoundTrip(s: PageState, k: int, first: LoadOutcome, second: LoadOutcome)
    requires ValidDate(s.currentDate)
    ensures ChangeDate(ChangeDate(s, k, first), -k, second).currentDate == s.currentDate
    ensures ChangeDate(ChangeDate(s, k, first), -k, second) == LoadAppointments(s, second)
  {
    AddDaysInverse(s.currentDate, k);
  }

  /** Successive pages compose: `changeDate(j)` after `changeDate(k)` shows
      the day `changeDate(k + j)` would. */
  lemma ChangeDateComposes(s: PageState, k: int, j: int, first: LoadOutcome, second: LoadOutcome)
    requires ValidDate(s.currentDate)
    ensures ChangeDate(ChangeDate(s, k, first), j, second) == ChangeDate(s, k + j, second)
  {
    AddDaysAdditive(s.currentDate, k, j);
  }
}
