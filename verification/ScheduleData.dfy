/** The mock appointment query service: an in-memory appointment store
    filtered by calendar day, with every match reduced to the view the
    signed-in member may see. */
module ScheduleData {
  import opened Wrappers
  import opened Calendar
  import opened Timestamps

  /** The member the service answers for; a real deployment takes it from
      the authentication session. */
  const CurrentMemberId: int := 20

  /** A stored booking. Fields the store leaves out (or sets to `null`) are
      `None`. */
  datatype Appointment = Appointment(
    id: int,
    appointmentTime: string,
    checkInTime: Option<string>,
    status: Option<string>,
    memberId: int,
    memberName: Option<string>,
    ptId: Option<int>,
    ptName: Option<string>)

  /** A booking as the schedule page receives it. `time` is the hour
      (`None` for `NaN`). `appointmentTime` and `memberName` are here because
      the page reads them; the service never fills them in. */
  datatype ViewRecord = ViewRecord(
    time: Option<int>,
    isOwnAppointment: bool,
    id: Option<int>,
    ptName: Option<string>,
    status: Option<string>,
    appointmentTime: Option<string>,
    memberName: Option<string>)

  /** The envelope a query resolves with. */
  datatype Response = Response(success: bool, appointments: seq<ViewRecord>, error: Option<string>)

  datatype ScheduleDataService = ScheduleDataService(currentMemberId: int, mockAppointments: seq<Appointment>)

  /** The fixture: two bookings of member 20 and three of other members,
      the latter carrying only `id`, `appointmentTime` and `memberId`. */
  const MockAppointments: seq<Appointment> := [
    Appointment(76, "2024-11-16T11:00:00", None, Some("SCHEDULED"), 20, Some("John Garcia"), Some(4), Some("Personal Trainer")),
    Appointment(77, "2024-11-18T13:00:00", None, Some("SCHEDULED"), 20, Some("John Garcia"), Some(4), Some("Personal Trainer")),
    Appointment(78, "2024-11-16T09:00:00", None, None, 21, None, None, None),
    Appointment(79, "2024-11-17T14:00:00", None, None, 22, None, None, None),
    Appointment(80, "2024-11-19T10:00:00", None, None, 23, None, None, None)
  ]

  /** The service as the page constructs it: it answers for member 20 over
      the five fixture bookings, ids 76 to 80, the first two being that
      member's own. */
  function NewService(): (r: ScheduleDataService)
    ensures r.currentMemberId == 20 && |r.mockAppointments| == 5
    ensures forall i :: 0 <= i < |r.mockAppointments| ==> r.mockAppointments[i].id == 76 + i
    ensures forall i :: 0 <= i < |r.mockAppointments| ==>
      (r.mockAppointments[i].memberId == r.currentMemberId <==> i < 2)
  {
    ScheduleDataService(CurrentMemberId, MockAppointments)
  }

  /** The filter test: the booking's timestamp string begins with the key. */
  predicate IsOn(a: Appointment, key: string) {
    StartsWith(a.appointmentTime, key)
  }

  /** A booking is on a key exactly when its timestamp is the key followed
      by something. */
  lemma IsOnIffKeyPrefix(a: Appointment, key: string)
    ensures IsOn(a, key) <==> exists rest :: a.appointmentTime == key + rest
  {
    if IsOn(a, key) {
      assert a.appointmentTime == key + a.appointmentTime[|key|..];
    }
    forall rest | a.appointmentTime == key + rest
      ensures IsOn(a, key)
    {
      assert a.appointmentTime[..|key|] == key;
    }
  }

  /** The view of one booking: everyone sees its hour and whether it is the
      member's own; only the owner also sees id, trainer name and status. */
  function Transform(a: Appointment, currentMemberId: int): (v: ViewRecord)
    ensures v.isOwnAppointment <==> a.memberId == currentMemberId
    ensures v.time == HourOf(a.appointmentTime)
    ensures v.appointmentTime == None && v.memberName == None
    ensures !v.isOwnAppointment ==> v.id == None && v.ptName == None && v.status == None
    ensures v.isOwnAppointment ==> v.id == Some(a.id) && v.ptName == a.ptName && v.status == a.status
  {
    var own := a.memberId == currentMemberId;
    ViewRecord(
      HourOf(a.appointmentTime),
      own,
      if own then Some(a.id) else None,
      if own then a.ptName else None,
      if own then a.status else None,
      None,
      None)
  }

  /** The store's bookings whose timestamp begins with the key: each
      matching booking is kept as often as it occurs, nothing else is. */
  function FilterByDate(apts: seq<Appointment>, key: string): (r: seq<Appointment>)
    ensures forall a :: multiset(r)[a] == if IsOn(a, key) then multiset(apts)[a] else 0
  {
    if |apts| == 0 then []
    else
      var rest := FilterByDate(apts[1..], key);
      assert apts == [apts[0]] + apts[1..];
      if IsOn(apts[0], key) then [apts[0]] + rest else rest
  }

  /** The filter keeps list order: filtering a concatenation filters each part. */
  lemma {:induction false} FilterByDateAppend(xs: seq<Appointment>, ys: seq<Appointment>, key: string)
    ensures FilterByDate(xs + ys, key) == FilterByDate(xs, key) + FilterByDate(ys, key)
  {
    if |xs| == 0 {
      assert xs + ys == ys;
    } else {
      assert (xs + ys)[0] == xs[0];
      assert (xs + ys)[1..] == xs[1..] + ys;
      FilterByDateAppend(xs[1..], ys, key);
    }
  }

  /** A booking survives the filter exactly when it is stored and on the key. */
  lemma FilterByDateMembership(apts: seq<Appointment>, key: string)
    ensures forall a :: a in FilterByDate(apts, key) <==> a in apts && IsOn(a, key)
  {
    var r := FilterByDate(apts, key);
    forall a
      ensures a in r <==> a in apts && IsOn(a, key)
    {
      assert a in r <==> multiset(r)[a] > 0;
      assert a in apts <==> multiset(apts)[a] > 0;
    }
  }

  /** The matching bookings turned into views one by one, in order. */
  function TransformAll(apts: seq<Appointment>, currentMemberId: int): (r: seq<ViewRecord>)
    ensures |r| == |apts|
    ensures forall i :: 0 <= i < |r| ==> r[i] == Transform(apts[i], currentMemberId)
  {
    seq(|apts|, i requires 0 <= i < |apts| => Transform(apts[i], currentMemberId))
  }

  lemma TransformAllMembership(apts: seq<Appointment>, currentMemberId: int)
    ensures forall v :: v in TransformAll(apts, currentMemberId) ==>
      exists a :: a in apts && v == Transform(a, currentMemberId)
    ensures forall a :: a in apts ==> Transform(a, currentMemberId) in TransformAll(apts, currentMemberId)
  {
    var views := TransformAll(apts, currentMemberId);
    forall v | v in views
      ensures exists a :: a in apts && v == Transform(a, currentMemberId)
    {
      var i :| 0 <= i < |views| && views[i] == v;
      assert apts[i] in apts;
    }
    forall a | a in apts
      ensures Transform(a, currentMemberId) in views
    {
      var i :| 0 <= i < |apts| && apts[i] == a;
      assert views[i] == Transform(a, currentMemberId);
    }
  }

  /** `getAppointments(date)`: the views of all bookings on the day's key, in
      store order. It always reports success. */
  function GetAppointments(svc: ScheduleDataService, date: Date): (r: Response)
    requires ValidDate(date)
    ensures r.success && r.error == None
    ensures forall v :: v in r.appointments ==>
      exists a :: a in svc.mockAppointments && IsOn(a, FormatDate(date)) && v == Transform(a, svc.currentMemberId)
    ensures forall a :: a in svc.mockAppointments && IsOn(a, FormatDate(date)) ==>
      Transform(a, svc.currentMemberId) in r.appointments
    ensures forall v :: v in r.appointments ==> v.appointmentTime == None && v.memberName == None
  {
    var matches := FilterByDate(svc.mockAppointments, FormatDate(date));
    FilterByDateMembership(svc.mockAppointments, FormatDate(date));
    var views := TransformAll(matches, svc.currentMemberId);
    TransformAllMembership(matches, svc.currentMemberId);
    Response(true, views, None)
  }

  /** Filter then map is one-to-one: the i-th view is the view of the i-th
      matching booking, so there are exactly as many views as matches. */
  lemma GetAppointmentsOneToOne(svc: ScheduleDataService, date: Date)
    requires ValidDate(date)
    ensures var out := GetAppointments(svc, date).appointments;
            var matches := FilterByDate(svc.mockAppointments, FormatDate(date));
            && |out| == |matches|
            && forall i :: 0 <= i < |out| ==> out[i] == Transform(matches[i], svc.currentMemberId)
  {
  }

  /** Store order is kept: a store that is the concatenation of two lists
      answers with the answer for the first list followed by the second's. */
  lemma GetAppointmentsKeepsOrder(xs: seq<Appointment>, ys: seq<Appointment>, id: int, date: Date)
    requires ValidDate(date)
    ensures GetAppointments(ScheduleDataService(id, xs + ys), date).appointments
         == GetAppointments(ScheduleDataService(id, xs), date).appointments
          + GetAppointments(ScheduleDataService(id, ys), date).appointments
  {
    var key := FormatDate(date);
    FilterByDateAppend(xs, ys, key);
    TransformAllAppend(FilterByDate(xs, key), FilterByDate(ys, key), id);
  }

  lemma TransformAllAppend(xs: seq<Appointment>, ys: seq<Appointment>, id: int)
    ensures TransformAll(xs + ys, id) == TransformAll(xs, id) + TransformAll(ys, id)
  {
  }

  /** For well-formed timestamps, prefix filtering selects exactly the
      bookings whose timestamp falls on the requested day. */
  lemma GetAppointmentsSelectsDay(svc: ScheduleDataService, date: Date)
    requires ValidDate(date) && 0 <= date.year <= 9999
    requires forall a :: a in svc.mockAppointments ==> ParseTimestamp(a.appointmentTime).Some?
    ensures forall a :: a in svc.mockAppointments ==>
      (IsOn(a, FormatDate(date)) <==> ParseTimestamp(a.appointmentTime).value.date == date)
    ensures forall v :: v in GetAppointments(svc, date).appointments ==>
      exists a :: a in svc.mockAppointments && ParseTimestamp(a.appointmentTime).value.date == date
               && v == Transform(a, svc.currentMemberId)
  {
    forall a | a in svc.mockAppointments
      ensures IsOn(a, FormatDate(date)) <==> ParseTimestamp(a.appointmentTime).value.date == date
    {
      StartsWithKeyIffOnDay(a.appointmentTime, date);
    }
  }

  /** A foreign booking's view carries nothing but its hour: two foreign
      bookings at the same hour are indistinguishable to the page. */
  lemma ForeignViewsRevealOnlyHour(a1: Appointment, a2: Appointment, currentMemberId: int)
    requires a1.memberId != currentMemberId && a2.memberId != currentMemberId
    requires HourOf(a1.appointmentTime) == HourOf(a2.appointmentTime)
    ensures Transform(a1, currentMemberId) == Transform(a2, currentMemberId)
  {
  }
}
