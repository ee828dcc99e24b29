/** The request handlers that move slots between "free" and "taken": booking, cancelling,
    the per-day availability query, the online/offline switch and the availability upload.
    The two document collections (doctors and appointments) are a pair of maps; every
    handler returns its response together with the collections as it leaves them. */
module Clinic {
  import opened Outcomes
  import opened Text
  import opened Fields
  import SlotGrid
  import DoctorSerializers

  /** A doctor document, reduced to the keys the handlers read. Any key may be missing. */
  datatype Doctor = Doctor(
    firstName: Option<string>,
    lastName: Option<string>,
    isActive: Option<bool>,
    availability: Option<SlotGrid.Grid>)
  {
    /** A doctor without the flag counts as active. */
    predicate Active() { isActive.GetOr(true) }

    /** `availability`, or an empty week when the key is missing. */
    function Grid(): SlotGrid.Grid { availability.GetOr([]) }
  }

  datatype Status = Confirmed | Cancelled

  /** An appointment document, stored under its booking id. */
  datatype Appointment = Appointment(
    bookingId: string,
    doctorUid: string,
    doctorName: string,
    patientName: string,
    patientEmail: string,
    patientPhone: string,
    day: string,
    startTime: string,
    endTime: string,
    reason: string,
    status: Status)

  /** The two collections, keyed by document id. */
  datatype Store = Store(doctors: map<string, Doctor>, appointments: map<string, Appointment>)

  /** A response and the collections as the handler leaves them. */
  datatype Reply<O> = Reply(outcome: O, store: Store)

  // ----- booking -----

  datatype BookOutcome =
    | BookingInvalid(errors: Errors)
    | DoctorNotFound
    | DoctorOffline
    | NoAvailabilityForDay
    | SlotNotFound
    | SlotAlreadyBooked
    | MissingDoctorName
    | Booked(appointment: Appointment)

  /** The HTTP status of each booking response. `MissingDoctorName` is the handler's catch-all
      error response: the doctor document lacks a name key after the grid was written. */
  function BookStatus(o: BookOutcome): (code: int)
    ensures code == 201 <==> o.Booked?
    ensures code == 404 <==> o == DoctorNotFound || o == SlotNotFound
    ensures code == 500 <==> o == MissingDoctorName
    ensures code == 400 <==>
              o.BookingInvalid? || o == DoctorOffline || o == NoAvailabilityForDay || o == SlotAlreadyBooked
  {
    match o
    case BookingInvalid(_) => 400
    case DoctorNotFound => 404
    case DoctorOffline => 400
    case NoAvailabilityForDay => 400
    case SlotNotFound => 404
    case SlotAlreadyBooked => 400
    case MissingDoctorName => 500
    case Booked(_) => 201
  }

  /** The response to a refused claim. */
  function Refusal(why: SlotGrid.ClaimError): BookOutcome {
    match why
    case NoDayEntry => NoAvailabilityForDay
    case NoSuchSlot => SlotNotFound
    case AlreadyBooked => SlotAlreadyBooked
  }

  /** The doctor exists and accepts bookings. */
  predicate Bookable(st: Store, uid: string) {
    uid in st.doctors && st.doctors[uid].Active()
  }

  /** What the booking handler tries to do to the doctor's grid. */
  function ClaimFor(st: Store, uid: string, req: DoctorSerializers.BookingRequest, id: string)
    : Result<SlotGrid.Grid, SlotGrid.ClaimError>
    requires uid in st.doctors
  {
    SlotGrid.Claim(st.doctors[uid].Grid(), req.day, req.startTime, req.endTime, req.patientEmail, id)
  }

  /** The appointment document a successful booking writes. */
  function NewAppointment(uid: string, doc: Doctor, req: DoctorSerializers.BookingRequest, id: string): (a: Appointment)
    requires doc.firstName.Some? && doc.lastName.Some?
    ensures a.bookingId == id && a.doctorUid == uid && a.status == Confirmed
    ensures a.doctorName == doc.firstName.value + " " + doc.lastName.value
    ensures a.patientName == req.patientName && a.patientEmail == req.patientEmail
    ensures a.patientPhone == req.patientPhone && a.day == req.day
    ensures a.startTime == req.startTime && a.endTime == req.endTime
    ensures a.reason == req.reason.GetOr("")
  {
    Appointment(
      id, uid, doc.firstName.value + " " + doc.lastName.value,
      req.patientName, req.patientEmail, req.patientPhone,
      req.day, req.startTime, req.endTime, req.reason.GetOr(""), Confirmed)
  }

  /** `BookAppointmentView.post` after validation, with `id` standing for the fresh
      `uuid4()`: doctor lookup, the online check, the slot claim, the grid write-back and the
      appointment document. Refusals leave both collections untouched. */
  function BookValidated(st: Store, uid: string, req: DoctorSerializers.BookingRequest, id: string)
    : (r: Reply<BookOutcome>)
    ensures r.outcome == DoctorNotFound <==> uid !in st.doctors
    ensures r.outcome == DoctorOffline <==> uid in st.doctors && !st.doctors[uid].Active()
    ensures r.outcome == NoAvailabilityForDay <==>
              Bookable(st, uid) && SlotGrid.FindDay(st.doctors[uid].Grid(), req.day).None?
    ensures r.outcome == SlotNotFound <==>
              Bookable(st, uid) && ClaimFor(st, uid, req, id) == Failure(SlotGrid.NoSuchSlot)
    ensures r.outcome == SlotAlreadyBooked <==>
              Bookable(st, uid) && ClaimFor(st, uid, req, id) == Failure(SlotGrid.AlreadyBooked)
    ensures !r.outcome.BookingInvalid?
    ensures !(r.outcome.Booked? || r.outcome == MissingDoctorName) ==> r.store == st
    ensures r.outcome.Booked? || r.outcome == MissingDoctorName ==>
              && Bookable(st, uid) && ClaimFor(st, uid, req, id).Success?
              && r.store.doctors == st.doctors[uid := st.doctors[uid].(availability := Some(ClaimFor(st, uid, req, id).value))]
    ensures r.outcome == MissingDoctorName ==> r.store.appointments == st.appointments
    ensures Bookable(st, uid) && ClaimFor(st, uid, req, id).Success? ==>
              (r.outcome == MissingDoctorName <==>
                 st.doctors[uid].firstName.None? || st.doctors[uid].lastName.None?)
    ensures r.outcome.Booked? ==>
              && var a := r.outcome.appointment;
              && r.store.appointments == st.appointments[id := a]
              && a.bookingId == id && a.doctorUid == uid && a.status == Confirmed
              && a.doctorName == st.doctors[uid].firstName.value + " " + st.doctors[uid].lastName.value
              && a.patientName == req.patientName && a.patientEmail == req.patientEmail
              && a.patientPhone == req.patientPhone && a.day == req.day
              && a.startTime == req.startTime && a.endTime == req.endTime
              && a.reason == req.reason.GetOr("")
  {
    if uid !in st.doctors then Reply(DoctorNotFound, st)
    else
      var doc := st.doctors[uid];
      if !doc.Active() then Reply(DoctorOffline, st)
      else
        match ClaimFor(st, uid, req, id)
        case Failure(why) => Reply(Refusal(why), st)
        case Success(g) =>
          var written := st.(doctors := st.doctors[uid := doc.(availability := Some(g))]);
          if doc.firstName.None? || doc.lastName.None? then Reply(MissingDoctorName, written)
          else
            var a := NewAppointment(uid, doc, req, id);
            Reply(Booked(a), written.(appointments := written.appointments[id := a]))
  }

  /** `BookAppointmentView.post`: the serializer's errors are answered first; otherwise the
      validated request is booked. */
  function Book(st: Store, uid: string, p: DoctorSerializers.BookingPayload, accepts: string -> bool, id: string)
    : (r: Reply<BookOutcome>)
    ensures r.outcome.BookingInvalid? <==> DoctorSerializers.ValidateBooking(p, accepts).Failure?
    ensures r.outcome.BookingInvalid? ==>
              r.outcome.errors == DoctorSerializers.ValidateBooking(p, accepts).error && r.store == st
    ensures !r.outcome.BookingInvalid? ==>
              r == BookValidated(st, uid, DoctorSerializers.ValidateBooking(p, accepts).value, id)
  {
    match DoctorSerializers.ValidateBooking(p, accepts)
    case Failure(errs) => Reply(BookingInvalid(errs), st)
    case Success(req) => BookValidated(st, uid, req, id)
  }

  // ----- cancellation -----

  datatype CancelOutcome = AppointmentNotFound | CancelledOk(bookingId: string)

  function CancelStatus(o: CancelOutcome): (code: int)
    ensures code == 404 <==> o.AppointmentNotFound?
    ensures code == 200 <==> o.CancelledOk?
  {
    match o
    case AppointmentNotFound => 404
    case CancelledOk(_) => 200
  }

  /** The doctor document as the cancellation handler writes it back: the released grid,
      stored even when the document had no `availability` key. */
  function Released(doc: Doctor, a: Appointment, id: string): (d: Doctor)
    ensures d.firstName == doc.firstName && d.lastName == doc.lastName && d.isActive == doc.isActive
    ensures d.availability == Some(SlotGrid.Release(doc.Grid(), a.day, id, a.startTime, a.endTime))
  {
    doc.(availability := Some(SlotGrid.Release(doc.Grid(), a.day, id, a.startTime, a.endTime)))
  }

  /** `CancelAppointmentView.post`: an unknown id is refused; otherwise the appointment's slot
      is released in its doctor's grid, if the doctor still exists, and the appointment is
      marked cancelled whatever its previous status. */
  function Cancel(st: Store, id: string): (r: Reply<CancelOutcome>)
    ensures r.outcome.AppointmentNotFound? <==> id !in st.appointments
    ensures r.outcome.AppointmentNotFound? ==> r.store == st
    ensures r.outcome.CancelledOk? ==>
              && r.outcome.bookingId == id
              && var a := st.appointments[id];
              && r.store.appointments == st.appointments[id := a.(status := Cancelled)]
              && r.store.doctors.Keys == st.doctors.Keys
              && (forall u :: u in st.doctors && u != a.doctorUid ==> r.store.doctors[u] == st.doctors[u])
              && (a.doctorUid in st.doctors ==>
                    r.store.doctors[a.doctorUid] == Released(st.doctors[a.doctorUid], a, id))
  {
    if id !in st.appointments then Reply(AppointmentNotFound, st)
    else
      var a := st.appointments[id];
      var doctors :=
        if a.doctorUid in st.doctors then st.doctors[a.doctorUid := Released(st.doctors[a.doctorUid], a, id)]
        else st.doctors;
      Reply(CancelledOk(id), Store(doctors, st.appointments[id := a.(status := Cancelled)]))
  }

  // ----- availability query -----

  datatype DayAnswer =
    | DayRequired
    | InvalidDay
    | DayDoctorNotFound
    | OfflineToday(day: string)
    | NotScheduled(day: string)
    | Scheduled(day: string, isAvailable: bool, slots: seq<SlotGrid.Slot>)

  function DayAnswerStatus(o: DayAnswer): (code: int)
    ensures code == 400 <==> o == DayRequired || o == InvalidDay
    ensures code == 404 <==> o == DayDoctorNotFound
    ensures code == 200 <==> o.OfflineToday? || o.NotScheduled? || o.Scheduled?
  {
    match o
    case DayRequired => 400
    case InvalidDay => 400
    case DayDoctorNotFound => 404
    case _ => 200
  }

  /** The `day` query parameter as the handler reads it: missing means empty, then lower-cased. */
  function DayParam(raw: Option<string>): (day: string)
    ensures day == "" <==> raw.None? || raw.value == ""
    ensures |day| == |raw.GetOr("")|
    ensures raw.Some? && IsWeekday(raw.value) ==> day == raw.value
  {
    var given := raw.GetOr("");
    WeekdaysAreLower(given);
    Lower(given)
  }

  /** `CheckDoctorAvailabilityView.get`: read-only. The query parameter is checked before the
      doctor is looked up; an offline doctor is reported unavailable whatever the grid says; a
      day entry's own flag defaults to unavailable here. */
  function CheckAvailability(st: Store, uid: string, raw: Option<string>): (r: DayAnswer)
    ensures r == DayRequired <==> DayParam(raw) == ""
    ensures r == InvalidDay <==> DayParam(raw) != "" && !IsWeekday(DayParam(raw))
    ensures r == DayDoctorNotFound <==> IsWeekday(DayParam(raw)) && uid !in st.doctors
    ensures r.OfflineToday? <==> IsWeekday(DayParam(raw)) && uid in st.doctors && !st.doctors[uid].Active()
    ensures r.NotScheduled? <==>
              IsWeekday(DayParam(raw)) && Bookable(st, uid)
              && SlotGrid.FindDay(st.doctors[uid].Grid(), DayParam(raw)).None?
    ensures r.Scheduled? ==>
              && IsWeekday(DayParam(raw)) && Bookable(st, uid)
              && var g := st.doctors[uid].Grid();
              && SlotGrid.FindDay(g, r.day).Some?
              && var e := g[SlotGrid.FindDay(g, r.day).value];
              && r.isAvailable == e.isAvailable.GetOr(false) && r.slots == e.Slots()
    ensures r.OfflineToday? || r.NotScheduled? || r.Scheduled? ==> r.day == DayParam(raw)
  {
    var day := DayParam(raw);
    if day == "" then DayRequired
    else if !IsWeekday(day) then InvalidDay
    else if uid !in st.doctors then DayDoctorNotFound
    else
      var doc := st.doctors[uid];
      if !doc.Active() then OfflineToday(day)
      else
        match SlotGrid.FindDay(doc.Grid(), day)
        case None => NotScheduled(day)
        case Some(d) =>
          var e := doc.Grid()[d];
          Scheduled(day, e.isAvailable.GetOr(false), e.Slots())
  }

  // ----- online/offline switch -----

  datatype ToggleOutcome = ToggleDoctorNotFound | Toggled(isActive: bool)

  /** `ToggleDoctorStatusView.post`: flips the doctor's active flag, reading a missing flag as
      active, and changes nothing else. */
  function ToggleStatus(st: Store, uid: string): (r: Reply<ToggleOutcome>)
    ensures r.outcome.ToggleDoctorNotFound? <==> uid !in st.doctors
    ensures r.outcome.ToggleDoctorNotFound? ==> r.store == st
    ensures r.outcome.Toggled? ==>
              && r.outcome.isActive == !st.doctors[uid].Active()
              && r.store.appointments == st.appointments
              && r.store.doctors.Keys == st.doctors.Keys
              && r.store.doctors[uid].Active() == r.outcome.isActive
              && r.store.doctors[uid].isActive.Some?
              && r.store.doctors[uid] == st.doctors[uid].(isActive := r.store.doctors[uid].isActive)
              && forall u :: u in st.doctors && u != uid ==> r.store.doctors[u] == st.doctors[u]
  {
    if uid !in st.doctors then Reply(ToggleDoctorNotFound, st)
    else
      var doc := st.doctors[uid];
      var now := !doc.Active();
      Reply(Toggled(now), st.(doctors := st.doctors[uid := doc.(isActive := Some(now))]))
  }

  // ----- availability upload -----

  datatype UploadOutcome = UploadInvalid(errors: Errors) | UploadDoctorNotFound | Uploaded(availability: SlotGrid.Grid)

  function UploadStatus(o: UploadOutcome): (code: int)
    ensures code == 200 <==> o.Uploaded?
    ensures code == 404 <==> o.UploadDoctorNotFound?
    ensures code == 400 <==> o.UploadInvalid?
  {
    match o
    case UploadInvalid(_) => 400
    case UploadDoctorNotFound => 404
    case Uploaded(_) => 200
  }

  /** `DoctorAvailabilityView.put`: the payload is validated before the doctor is looked up;
      an accepted payload replaces the whole grid, booked slots included. */
  function SetAvailability(st: Store, uid: string, payload: Option<seq<DoctorSerializers.DayPayload>>)
    : (r: Reply<UploadOutcome>)
    ensures r.outcome.UploadInvalid? <==> DoctorSerializers.ValidateAvailability(payload).Failure?
    ensures r.outcome.UploadDoctorNotFound? <==>
              DoctorSerializers.ValidateAvailability(payload).Success? && uid !in st.doctors
    ensures !r.outcome.Uploaded? ==> r.store == st
    ensures r.outcome.Uploaded? ==>
              && uid in st.doctors
              && r.outcome.availability == DoctorSerializers.ValidateAvailability(payload).value
              && r.store == st.(doctors := st.doctors[uid := st.doctors[uid].(availability := Some(r.outcome.availability))])
  {
    match DoctorSerializers.ValidateAvailability(payload)
    case Failure(errs) => Reply(UploadInvalid(errs), st)
    case Success(g) =>
      if uid !in st.doctors then Reply(UploadDoctorNotFound, st)
      else Reply(Uploaded(g), st.(doctors := st.doctors[uid := st.doctors[uid].(availability := Some(g))]))
  }
}
