/** The page and the service together: what the live page shows for the
    records the service sends, the corrected lookup, the fixture, and day
    paging against a stable store. */
module ScheduleIntegration {
  import opened Wrappers
  import opened Decimal
  import opened Calendar
  import opened Timestamps
  import opened ScheduleData
  import opened SchedulePage

  // ---------------------------------------------------------------------
  // The fixture

  /** The moments the fixture's timestamp strings denote, in store order. */
  const FixtureMoments: seq<LocalDateTime> := [
    LocalDateTime(Date(2024, 11, 16), 11, 0, 0),
    LocalDateTime(Date(2024, 11, 18), 13, 0, 0),
    LocalDateTime(Date(2024, 11, 16), 9, 0, 0),
    LocalDateTime(Date(2024, 11, 17), 14, 0, 0),
    LocalDateTime(Date(2024, 11, 19), 10, 0, 0)
  ]

  /** A two-digit field written out character by character: the fact of
      `Decimal.FixedDigitsTwo`, with the expected string as a parameter so
      that the fixture proofs below compare against a literal without
      unfolding `FixedDigits` again. */
  lemma TwoDigitsAre(n: nat, s: string)
    requires n < 100 && s == [DigitChar(n / 10), DigitChar(n % 10)]
    ensures FixedDigits(n, 2) == s
  {
    FixedDigitsTwo(n);
  }

  /** A date key written out character by character: the fact of
      `Calendar.FormatDateChars`, with the expected string as a parameter,
      for the same reason as `TwoDigitsAre`. */
  lemma DateKeyIs(d: Date, s: string)
    requires ValidDate(d) && 0 <= d.year <= 9999 && s == DateKeyChars(d)
    ensures FormatDate(d) == s
  {
    FormatDateChars(d);
  }

  /** Each stored timestamp string is the timestamp of its moment: the
      date key, `T`, the two-digit hour and `:00:00`. */
  lemma FixtureTimestamp0()
    ensures MockAppointments[0].appointmentTime == FormatTimestamp(FixtureMoments[0])
  {
    var t := FixtureMoments[0];
    DateKeyIs(t.date, "2024-11-16");
    TwoDigitsAre(t.hour, "11");
    TwoDigitsAre(0, "00");
    assert "2024-11-16" + "T" + "11" + ":" + "00" + ":" + "00" == "2024-11-16T11:00:00";
  }

  lemma FixtureTimestamp1()
    ensures MockAppointments[1].appointmentTime == FormatTimestamp(FixtureMoments[1])
  {
    var t := FixtureMoments[1];
    DateKeyIs(t.date, "2024-11-18");
    TwoDigitsAre(t.hour, "13");
    TwoDigitsAre(0, "00");
    assert "2024-11-18" + "T" + "13" + ":" + "00" + ":" + "00" == "2024-11-18T13:00:00";
  }

  lemma FixtureTimestamp2()
    ensures MockAppointments[2].appointmentTime == FormatTimestamp(FixtureMoments[2])
  {
    var t := FixtureMoments[2];
    DateKeyIs(t.date, "2024-11-16");
    TwoDigitsAre(t.hour, "09");
    TwoDigitsAre(0, "00");
    assert "2024-11-16" + "T" + "09" + ":" + "00" + ":" + "00" == "2024-11-16T09:00:00";
  }

  lemma FixtureTimestamp3()
    ensures MockAppointments[3].appointmentTime == FormatTimestamp(FixtureMoments[3])
  {
    var t := FixtureMoments[3];
    DateKeyIs(t.date, "2024-11-17");
    TwoDigitsAre(t.hour, "14");
    TwoDigitsAre(0, "00");
    assert "2024-11-17" + "T" + "14" + ":" + "00" + ":" + "00" == "2024-11-17T14:00:00";
  }

  lemma FixtureTimestamp4()
    ensures MockAppointments[4].appointmentTime == FormatTimestamp(FixtureMoments[4])
  {
    var t := FixtureMoments[4];
    DateKeyIs(t.date, "2024-11-19");
    TwoDigitsAre(t.hour, "10");
    TwoDigitsAre(0, "00");
    assert "2024-11-19" + "T" + "10" + ":" + "00" + ":" + "00" == "2024-11-19T10:00:00";
  }

  /** Each fixture timestamp is the timestamp string of its moment. */
  lemma FixtureTimestamp(i: nat)
    requires i < |MockAppointments|
    ensures ValidDateTime(FixtureMoments[i])
    ensures MockAppointments[i].appointmentTime == FormatTimestamp(FixtureMoments[i])
  {
    if i == 0 {
      FixtureTimestamp0();
    } else if i == 1 {
      FixtureTimestamp1();
    } else if i == 2 {
      FixtureTimestamp2();
    } else if i == 3 {
      FixtureTimestamp3();
    } else {
      FixtureTimestamp4();
    }
  }

  /** Every fixture timestamp parses, and the hour the service reports for
      it is the `HH` written in it. */
  lemma FixtureTimestampsParse()
    ensures forall i :: 0 <= i < |MockAppointments| ==>
      ParseTimestamp(MockAppointments[i].appointmentTime) == Some(FixtureMoments[i])
      && HourOf(MockAppointments[i].appointmentTime) == Some(FixtureMoments[i].hour)
  {
    forall i | 0 <= i < |MockAppointments|
      ensures ParseTimestamp(MockAppointments[i].appointmentTime) == Some(FixtureMoments[i])
      ensures HourOf(MockAppointments[i].appointmentTime) == Some(FixtureMoments[i].hour)
    {
      FixtureTimestamp(i);
      FormatTimestampParses(FixtureMoments[i]);
    }
  }

  // ---------------------------------------------------------------------
  // The live lookup against the service's records

  /** The live lookup never finds a record the service sent: those records
      have no `appointmentTime`, so the hour the lookup reads is `NaN`. */
  lemma ServiceViewsNeverMatchLiveLookup(svc: ScheduleDataService, date: Date, hour: int)
    requires ValidDate(date)
    ensures FindAppointmentForHour(GetAppointments(svc, date).appointments, hour) == None
  {
  }

  /** Hence the live page renders every slot available, whatever is booked. */
  lemma LivePageShowsEverySlotAvailable(svc: ScheduleDataService, date: Date)
    requires ValidDate(date)
    ensures forall i :: 0 <= i < |TimeSlots| ==>
      Render(GetAppointments(svc, date).appointments)[i].cssClass == Available
  {
    var views := GetAppointments(svc, date).appointments;
    forall i | 0 <= i < |TimeSlots|
      ensures Render(views)[i].cssClass == Available
    {
      ServiceViewsNeverMatchLiveLookup(svc, date, TimeSlots[i]);
    }
  }

  /** A fixture booking is on a day's key exactly when its moment falls
      on that day. */
  lemma FixtureOnDay(i: nat, date: Date)
    requires i < |MockAppointments|
    requires ValidDate(date) && 0 <= date.year <= 9999
    ensures IsOn(MockAppointments[i], FormatDate(date)) <==> FixtureMoments[i].date == date
    ensures HourOf(MockAppointments[i].appointmentTime) == Some(FixtureMoments[i].hour)
  {
    FixtureTimestamp(i);
    FormatTimestampParses(FixtureMoments[i]);
    StartsWithKeyIffOnDay(MockAppointments[i].appointmentTime, date);
  }

  /** Any own booking at a slot hour is in the service's answer, yet the
      live page shows its slot available. */
  lemma OwnBookingShownAvailable(svc: ScheduleDataService, date: Date, a: Appointment, i: nat)
    requires ValidDate(date) && i < |TimeSlots|
    requires a in svc.mockAppointments && IsOn(a, FormatDate(date))
    requires a.memberId == svc.currentMemberId && HourOf(a.appointmentTime) == Some(TimeSlots[i])
    ensures var views := GetAppointments(svc, date).appointments;
            && (exists v :: v in views && v.time == Some(TimeSlots[i]) && v.isOwnAppointment && v.id == Some(a.id))
            && Render(views)[i].cssClass == Available
  {
    var v := Transform(a, svc.currentMemberId);
    assert v in GetAppointments(svc, date).appointments;
    LivePageShowsEverySlotAvailable(svc, date);
  }

  /** The concrete case: with member 20's 11 AM booking 76 of 2024-11-16
      in the store (as in the fixture), it is in the service's answer for
      that day, yet the live page shows the 11 AM slot available. */
  lemma FixtureOwnBookingShownAvailable(svc: ScheduleDataService, date: Date)
    requires svc.currentMemberId == CurrentMemberId && MockAppointments[0] in svc.mockAppointments
    requires date == Date(2024, 11, 16)
    ensures var views := GetAppointments(svc, date).appointments;
            && (exists v :: v in views && v.time == Some(11) && v.isOwnAppointment && v.id == Some(76))
            && Render(views)[2].hour == 11
            && Render(views)[2].cssClass == Available
  {
    TimeSlotsFromNine();
    FixtureOnDay(0, date);
    OwnBookingShownAvailable(svc, date, MockAppointments[0], 2);
  }

  // ---------------------------------------------------------------------
  // The corrected lookup against the service's records

  /** With the lookup by `time`, a slot is booked exactly when the store
      holds a booking on that day's key at that hour, and the record shown
      is the view of such a booking. */
  lemma CorrectedSlotBookedIffStored(svc: ScheduleDataService, date: Date)
    requires ValidDate(date)
    ensures var slots := RenderCorrected(GetAppointments(svc, date).appointments);
            forall i :: 0 <= i < |slots| ==>
              && (slots[i].cssClass == Booked <==>
                    exists a :: a in svc.mockAppointments && IsOn(a, FormatDate(date))
                                && HourOf(a.appointmentTime) == Some(TimeSlots[i]))
              && (slots[i].appointment.Some? ==>
                    exists a :: a in svc.mockAppointments && IsOn(a, FormatDate(date))
                                && HourOf(a.appointmentTime) == Some(TimeSlots[i])
                                && slots[i].appointment.value == Transform(a, svc.currentMemberId))
  {
    var views := GetAppointments(svc, date).appointments;
    var slots := RenderCorrected(views);
    forall i | 0 <= i < |slots|
      ensures slots[i].cssClass == Booked ==>
        exists a :: a in svc.mockAppointments && IsOn(a, FormatDate(date))
                    && HourOf(a.appointmentTime) == Some(TimeSlots[i])
    {
      if slots[i].cssClass == Booked {
        var v :| v in views && v.time == Some(TimeSlots[i]);
        var a :| a in svc.mockAppointments && IsOn(a, FormatDate(date)) && v == Transform(a, svc.currentMemberId);
        assert HourOf(a.appointmentTime) == Some(TimeSlots[i]);
      }
    }
    forall i | 0 <= i < |slots|
      ensures (exists a :: a in svc.mockAppointments && IsOn(a, FormatDate(date))
                           && HourOf(a.appointmentTime) == Some(TimeSlots[i])) ==> slots[i].cssClass == Booked
    {
      if a :| a in svc.mockAppointments && IsOn(a, FormatDate(date)) && HourOf(a.appointmentTime) == Some(TimeSlots[i]) {
        var v := Transform(a, svc.currentMemberId);
        assert v in views && v.time == Some(TimeSlots[i]);
      }
    }
  }

  /** Filtering a five-entry store whose first and third entries are on the
      key and the rest are not. */
  lemma FilterFirstAndThird(m: seq<Appointment>, key: string)
    requires |m| == 5
    requires IsOn(m[0], key) && !IsOn(m[1], key) && IsOn(m[2], key)
    requires !IsOn(m[3], key) && !IsOn(m[4], key)
    ensures FilterByDate(m, key) == [m[0], m[2]]
  {
    assert FilterByDate(m[4..], key) == [] by {
      assert m[4..][1..] == [];
    }
    assert FilterByDate(m[3..], key) == [] by {
      assert m[3..][1..] == m[4..];
    }
    assert FilterByDate(m[2..], key) == [m[2]] by {
      assert m[2..][1..] == m[3..];
    }
    assert FilterByDate(m[1..], key) == [m[2]] by {
      assert m[1..][1..] == m[2..];
    }
  }

  /** The fixture's bookings on 2024-11-16 are 76 and 78, in store order. */
  lemma FixtureDayMatches(svc: ScheduleDataService, date: Date)
    requires svc == NewService() && date == Date(2024, 11, 16)
    ensures FilterByDate(svc.mockAppointments, FormatDate(date))
         == [svc.mockAppointments[0], svc.mockAppointments[2]]
  {
    FixtureOnDay(0, date);
    FixtureOnDay(1, date);
    FixtureOnDay(2, date);
    FixtureOnDay(3, date);
    FixtureOnDay(4, date);
    FilterFirstAndThird(svc.mockAppointments, FormatDate(date));
  }

  /** The service's answer for 2024-11-16: the views of bookings 76 and
      78, in store order. */
  lemma FixtureDayViews(svc: ScheduleDataService, date: Date)
    requires svc == NewService() && date == Date(2024, 11, 16)
    ensures GetAppointments(svc, date).appointments
         == [Transform(svc.mockAppointments[0], 20), Transform(svc.mockAppointments[2], 20)]
  {
    FixtureDayMatches(svc, date);
    GetAppointmentsOneToOne(svc, date);
  }

  /** What member 20 sees of a fixture booking: its hour, and the id only
      when the booking is member 20's own. */
  lemma FixtureView(i: nat)
    requires i < |MockAppointments|
    ensures var v := Transform(MockAppointments[i], CurrentMemberId);
            && v.time == Some(FixtureMoments[i].hour)
            && (v.isOwnAppointment <==> MockAppointments[i].memberId == CurrentMemberId)
            && v.id == (if v.isOwnAppointment then Some(MockAppointments[i].id) else None)
  {
    FixtureTimestamp(i);
    FormatTimestampParses(FixtureMoments[i]);
  }

  /** With one record at 11 AM and then one at 9 AM, the lookup by `time`
      finds each at its own hour and nothing at any other slot hour. */
  lemma CorrectedLookupNineAndEleven(apts: seq<ViewRecord>, i: nat)
    requires |apts| == 2 && apts[0].time == Some(11) && apts[1].time == Some(9)
    requires i < |TimeSlots|
    ensures FindAppointmentForHourCorrected(apts, 11) == Some(apts[0])
    ensures FindAppointmentForHourCorrected(apts, 9) == Some(apts[1])
    ensures i != 0 && i != 2 ==> FindAppointmentForHourCorrected(apts, TimeSlots[i]) == None
  {
    assert FirstWithHour(apts[1..], 9, FromTime) == Some(0);
    TimeSlotsFromNine();
    assert forall v :: v in apts ==> v.time == Some(9) || v.time == Some(11);
  }

  /** The corrected grid for a day whose records are one at 11 AM and then
      one at 9 AM, slot by slot: the 9 AM and 11 AM slots show them and every
      other slot is free. */
  lemma RenderCorrectedNineAndEleven(apts: seq<ViewRecord>, i: nat)
    requires |apts| == 2 && apts[0].time == Some(11) && apts[1].time == Some(9)
    requires i < |TimeSlots|
    ensures var slot := RenderCorrected(apts)[i];
            && (i == 0 ==> slot.hour == 9 && slot.appointment == Some(apts[1]))
            && (i == 2 ==> slot.hour == 11 && slot.appointment == Some(apts[0]))
            && (i != 0 && i != 2 ==> slot.cssClass == Available)
  {
    TimeSlotsFromNine();
    CorrectedLookupNineAndEleven(apts, i);
  }

  /** The corrected page on the fixture's 2024-11-16, slot by slot: 9 AM is
      taken by another member, 11 AM is member 20's own booking 76, every
      other slot is available. */
  lemma FixtureCorrectedDay(svc: ScheduleDataService, date: Date, i: nat)
    requires svc == NewService() && date == Date(2024, 11, 16)
    requires i < |TimeSlots|
    ensures var slot := RenderCorrected(GetAppointments(svc, date).appointments)[i];
            && (i == 0 ==> slot.hour == 9 && slot.cssClass == Booked
                           && !slot.appointment.value.isOwnAppointment
                           && slot.appointment.value.id == None)
            && (i == 2 ==> slot.hour == 11 && slot.cssClass == Booked
                           && slot.appointment.value.isOwnAppointment
                           && slot.appointment.value.id == Some(76))
            && (i != 0 && i != 2 ==> slot.cssClass == Available)
  {
    var views := GetAppointments(svc, date).appointments;
    FixtureDayViews(svc, date);
    FixtureView(0);
    FixtureView(2);
    RenderCorrectedNineAndEleven(views, i);
  }

  // ---------------------------------------------------------------------
  // Paging against a stable store

  /** `loadAppointments()` answered by the service for the shown day. */
  function Reload(s: PageState, svc: ScheduleDataService): (r: PageState)
    requires ValidDate(s.currentDate)
    ensures r.currentDate == s.currentDate && !r.isLoading
    ensures r.appointments == GetAppointments(svc, s.currentDate).appointments
  {
    LoadAppointments(s, Resolved(GetAppointments(svc, s.currentDate)))
  }

  /** `changeDate(offset)` answered by the service for the new day. */
  function Page(s: PageState, offset: int, svc: ScheduleDataService): (r: PageState)
    requires ValidDate(s.currentDate)
    ensures ValidDate(r.currentDate) && !r.isLoading
    ensures r.currentDate == AddDays(s.currentDate, offset)
    ensures r.appointments == GetAppointments(svc, r.currentDate).appointments
  {
    ChangeDate(s, offset, Resolved(GetAppointments(svc, AddDays(s.currentDate, offset))))
  }

  /** Paging forward and back by the same number of days restores the day,
      the loaded records and so the rendered grid, as written and with the
      corrected lookup. */
  lemma PagingThereAndBackRestores(s: PageState, k: int, svc: ScheduleDataService)
    requires ValidDate(s.currentDate)
    ensures Page(Page(s, k, svc), -k, svc) == Reload(s, svc)
    ensures Render(Page(Page(s, k, svc), -k, svc).appointments) == Render(Reload(s, svc).appointments)
    ensures RenderCorrected(Page(Page(s, k, svc), -k, svc).appointments)
         == RenderCorrected(Reload(s, svc).appointments)
  {
    AddDaysInverse(s.currentDate, k);
  }

  /** Reloading an unchanged day is idempotent. */
  lemma ReloadIdempotent(s: PageState, svc: ScheduleDataService)
    requires ValidDate(s.currentDate)
    ensures Reload(Reload(s, svc), svc) == Reload(s, svc)
  {
  }
}
