/** The request validators of the doctors' side: the availability payload (days of slots)
    and the booking request. Each returns the validated data or the map of
    refused fields, as the framework's `is_valid()` / `errors` pair does. */
module DoctorSerializers {
  import opened Outcomes
  import opened Text
  import opened Fields
  import TimeFormat
  import Seqs
  import SlotGrid

  /** A `start_time` / `end_time` field: `CharField(max_length=5)`, then the `HH:MM` pattern. */
  function TimeField(raw: Option<string>): (r: Result<string, Fault>)
    ensures r.Success? <==> raw.Some? && TimeFormat.TimeMatches(Trim(raw.value))
    ensures r.Success? ==> r.value == Trim(raw.value)
    ensures raw.None? ==> r == Failure(Required)
  {
    match RequiredChars(CharSpec(Some(5), None, false), raw)
    case Failure(f) =>
      if raw.Some? then TimesPassLength(raw.value); Failure(f) else Failure(f)
    case Success(t) =>
      AnchoredOnStripped(TimeFormat.TimeMatches, raw.value);
      if TimeFormat.TimePatternMatches(t) then Success(t) else Failure(InvalidFormat)
  }

  /** A string that trims to a valid time passes the length and character checks. */
  lemma TimesPassLength(s: string)
    ensures TimeFormat.TimeMatches(Trim(s)) ==> CleanChars(CharSpec(Some(5), None, false), s).Success?
  {
    var t := Trim(s);
    if TimeFormat.TimeMatches(t) {
      TimeFormat.MatchedTimeIsShort(t);
      assert NUL !in t;
    }
  }

  // ----- availability -----

  /** One slot of an availability payload, keys possibly missing. */
  datatype SlotPayload = SlotPayload(
    startTime: Option<string>,
    endTime: Option<string>,
    isAvailable: Option<bool>,
    bookedBy: Option<string>,
    bookingId: Option<string>)

  /** `booked_by` and `booking_id`: optional, blank allowed. */
  const LooseChars := CharSpec(None, None, true)

  /** `TimeSlotSerializer`. Each field is checked on its own: the two times are not compared. */
  function ValidateSlot(p: SlotPayload): (r: Result<SlotGrid.Slot, Errors>)
    ensures r.Success? <==>
              && TimeField(p.startTime).Success? && TimeField(p.endTime).Success?
              && OptionalChars(LooseChars, p.bookedBy).Success?
              && OptionalChars(LooseChars, p.bookingId).Success?
    ensures r.Success? ==>
              r.value == SlotGrid.Slot(
                TimeField(p.startTime).value, TimeField(p.endTime).value, Some(p.isAvailable.GetOr(true)),
                OptionalChars(LooseChars, p.bookedBy).value, OptionalChars(LooseChars, p.bookingId).value)
    ensures r.Failure? ==>
              && (StartTimeKey in r.error <==> TimeField(p.startTime).Failure?)
              && (EndTimeKey in r.error <==> TimeField(p.endTime).Failure?)
              && (BookedByKey in r.error <==> OptionalChars(LooseChars, p.bookedBy).Failure?)
              && (BookingIdKey in r.error <==> OptionalChars(LooseChars, p.bookingId).Failure?)
    ensures r.Failure? ==> r.error.Keys <= {StartTimeKey, EndTimeKey, BookedByKey, BookingIdKey}
  {
    var s := TimeField(p.startTime);
    var e := TimeField(p.endTime);
    var b := OptionalChars(LooseChars, p.bookedBy);
    var i := OptionalChars(LooseChars, p.bookingId);
    if s.Success? && e.Success? && b.Success? && i.Success? then
      Success(SlotGrid.Slot(s.value, e.value, Some(FlagDefaultTrue(p.isAvailable)), b.value, i.value))
    else
      Failure(NoteBooking(NoteTimes(s, e), b, i))
  }

  /** The slot errors of the two time fields. */
  function NoteTimes(start: Result<string, Fault>, end: Result<string, Fault>): (m: Errors)
    ensures StartTimeKey in m <==> start.Failure?
    ensures EndTimeKey in m <==> end.Failure?
    ensures BookedByKey !in m && BookingIdKey !in m
    ensures m.Keys <= {StartTimeKey, EndTimeKey}
  {
    Note(Note(map[], StartTimeKey, start), EndTimeKey, end)
  }

  /** `errs` with the slot errors of the two booking fields added. */
  function NoteBooking(errs: Errors, holder: Result<Option<string>, Fault>, id: Result<Option<string>, Fault>): (m: Errors)
    requires BookedByKey !in errs && BookingIdKey !in errs
    ensures BookedByKey in m <==> holder.Failure?
    ensures BookingIdKey in m <==> id.Failure?
    ensures StartTimeKey in m <==> StartTimeKey in errs
    ensures EndTimeKey in m <==> EndTimeKey in errs
    ensures m.Keys <= errs.Keys + {BookedByKey, BookingIdKey}
  {
    Note(Note(errs, BookedByKey, holder), BookingIdKey, id)
  }

  /** One day of an availability payload. */
  datatype DayPayload = DayPayload(day: Option<string>, isAvailable: Option<bool>, timeSlots: Option<seq<SlotPayload>>)

  /** `time_slots`: optional, and when present every slot must pass `TimeSlotSerializer`. */
  function SlotList(xs: Option<seq<SlotPayload>>): (r: Result<Option<seq<SlotGrid.Slot>>, Fault>)
    ensures xs.None? ==> r == Success(None)
    ensures xs.Some? ==> (r.Success? <==> forall i :: 0 <= i < |xs.value| ==> ValidateSlot(xs.value[i]).Success?)
    ensures xs.Some? && r.Success? ==>
              && r.value.Some? && |r.value.value| == |xs.value|
              && forall i :: 0 <= i < |xs.value| ==> r.value.value[i] == ValidateSlot(xs.value[i]).value
  {
    match xs
    case None => Success(None)
    case Some(ps) =>
      match ValidateEach(ps, (x: SlotPayload) => ToFault(ValidateSlot(x)))
      case Success(slots) => Success(Some(slots))
      case Failure(f) => Failure(f)
  }

  /** `DayAvailabilitySerializer`: a weekday, the whole-day flag defaulting to true, and
      `time_slots`, which may be omitted and then stays omitted. */
  function ValidateDay(p: DayPayload): (r: Result<SlotGrid.DayEntry, Errors>)
    ensures r.Success? <==> DayChoice(p.day).Success? && SlotList(p.timeSlots).Success?
    ensures r.Success? ==>
              && r.value.day == DayChoice(p.day).value
              && r.value.isAvailable == Some(p.isAvailable.GetOr(true))
              && r.value.timeSlots == SlotList(p.timeSlots).value
    ensures r.Failure? ==>
              && (DayKey in r.error <==> DayChoice(p.day).Failure?)
              && (TimeSlotsKey in r.error <==> SlotList(p.timeSlots).Failure?)
    ensures r.Failure? ==> r.error.Keys <= {DayKey, TimeSlotsKey}
  {
    var d := DayChoice(p.day);
    var ts := SlotList(p.timeSlots);
    if d.Success? && ts.Success? then Success(SlotGrid.DayEntry(d.value, Some(FlagDefaultTrue(p.isAvailable)), ts.value))
    else Failure(Note(Note(map[], DayKey, d), TimeSlotsKey, ts))
  }

  /** A nested serializer's error map, seen from its parent as one refused element. */
  function ToFault<T>(r: Result<T, Errors>): (q: Result<T, Fault>)
    ensures q.Success? == r.Success? && (r.Success? ==> q.value == r.value)
  {
    match r
    case Success(v) => Success(v)
    case Failure(_) => Failure(NestedInvalid)
  }

  function DaysOf(entries: seq<SlotGrid.DayEntry>): (days: seq<string>)
    ensures |days| == |entries| && forall i :: 0 <= i < |entries| ==> days[i] == entries[i].day
  {
    if |entries| == 0 then [] else [entries[0].day] + DaysOf(entries[1..])
  }

  /** No two entries of the payload name the same day. */
  predicate NoRepeatedDay(ps: seq<DayPayload>) {
    forall i, j :: 0 <= i < j < |ps| ==> ps[i].day != ps[j].day
  }

  /** The `availability` list: every entry must pass `DayAvailabilitySerializer`. */
  function DayList(ps: seq<DayPayload>): (r: Result<SlotGrid.Grid, Fault>)
    ensures r.Success? <==> forall i :: 0 <= i < |ps| ==> ValidateDay(ps[i]).Success?
    ensures r.Success? ==> |r.value| == |ps| && forall i :: 0 <= i < |ps| ==> r.value[i] == ValidateDay(ps[i]).value
    ensures r.Failure? ==> r.error == NestedInvalid
  {
    ValidateEach(ps, (p: DayPayload) => ToFault(ValidateDay(p)))
  }

  /** Validated entries carry the payload's own day names, so the source's cardinality test
      on them refuses exactly the payloads in which a day repeats. */
  lemma RepeatTestMatchesPayload(ps: seq<DayPayload>)
    requires DayList(ps).Success?
    ensures var days := DaysOf(DayList(ps).value);
      |days| == |Seqs.ToSet(days)| <==> NoRepeatedDay(ps)
  {
    var days := DaysOf(DayList(ps).value);
    Seqs.DistinctIffNoCollapse(days);
    assert forall i :: 0 <= i < |ps| ==> days[i] == ps[i].day.value;
  }

  /** `AvailabilitySerializer`: every entry valid, then `validate_availability`'s test
      `len(days) != len(set(days))`, which refuses the payload exactly when a day repeats. */
  function ValidateAvailability(payload: Option<seq<DayPayload>>): (r: Result<SlotGrid.Grid, Errors>)
    ensures payload.None? ==> r == Failure(map[AvailabilityKey := Required])
    ensures r.Success? <==> payload.Some? && DayList(payload.value).Success? && NoRepeatedDay(payload.value)
    ensures r == Failure(map[AvailabilityKey := DuplicateDays]) <==>
              payload.Some? && DayList(payload.value).Success? && !NoRepeatedDay(payload.value)
    ensures r.Success? ==> r.value == DayList(payload.value).value
  {
    match payload
    case None =>
      assert map[AvailabilityKey := Required][AvailabilityKey] != DuplicateDays;
      Failure(map[AvailabilityKey := Required])
    case Some(ps) =>
      match DayList(ps)
      case Failure(f) =>
        assert map[AvailabilityKey := f][AvailabilityKey] != DuplicateDays;
        Failure(map[AvailabilityKey := f])
      case Success(entries) =>
        RepeatTestMatchesPayload(ps);
        var days := DaysOf(entries);
        if |days| != |Seqs.ToSet(days)| then Failure(map[AvailabilityKey := DuplicateDays])
        else Success(entries)
  }

  // ----- booking request -----

  /** A booking request as posted, keys possibly missing. */
  datatype BookingPayload = BookingPayload(
    patientName: Option<string>,
    patientEmail: Option<string>,
    patientPhone: Option<string>,
    day: Option<string>,
    startTime: Option<string>,
    endTime: Option<string>,
    reason: Option<string>)

  /** A validated booking request. */
  datatype BookingRequest = BookingRequest(
    patientName: string,
    patientEmail: string,
    patientPhone: string,
    day: string,
    startTime: string,
    endTime: string,
    reason: Option<string>)

  /** The seven keys of a booking request. */
  const BookingKeys: set<FieldName> :=
    {PatientNameKey, PatientEmailKey, PatientPhoneKey, DayKey, StartTimeKey, EndTimeKey, ReasonKey}

  const NameSpec := CharSpec(Some(100), None, false)
  const PhoneSpec := CharSpec(Some(15), None, false)

  /** `BookAppointmentSerializer`: names, contact details, a weekday and two `HH:MM` times,
      each checked on its own. The e-mail is kept as given, not lower-cased. */
  function ValidateBooking(p: BookingPayload, accepts: string -> bool): (r: Result<BookingRequest, Errors>)
    ensures r.Success? <==>
              && RequiredChars(NameSpec, p.patientName).Success?
              && EmailField(p.patientEmail, accepts).Success?
              && RequiredChars(PhoneSpec, p.patientPhone).Success?
              && DayChoice(p.day).Success?
              && TimeField(p.startTime).Success? && TimeField(p.endTime).Success?
              && OptionalChars(LooseChars, p.reason).Success?
    ensures r.Success? ==>
              && r.value.patientName == RequiredChars(NameSpec, p.patientName).value
              && r.value.patientEmail == EmailField(p.patientEmail, accepts).value
              && r.value.patientPhone == RequiredChars(PhoneSpec, p.patientPhone).value
              && r.value.day == DayChoice(p.day).value
              && r.value.startTime == TimeField(p.startTime).value && r.value.endTime == TimeField(p.endTime).value
              && r.value.reason == OptionalChars(LooseChars, p.reason).value
    ensures r.Failure? ==>
              && (PatientNameKey in r.error <==> RequiredChars(NameSpec, p.patientName).Failure?)
              && (PatientEmailKey in r.error <==> EmailField(p.patientEmail, accepts).Failure?)
              && (PatientPhoneKey in r.error <==> RequiredChars(PhoneSpec, p.patientPhone).Failure?)
              && (DayKey in r.error <==> DayChoice(p.day).Failure?)
              && (StartTimeKey in r.error <==> TimeField(p.startTime).Failure?)
              && (EndTimeKey in r.error <==> TimeField(p.endTime).Failure?)
              && (ReasonKey in r.error <==> OptionalChars(LooseChars, p.reason).Failure?)
    ensures r.Failure? ==> r.error.Keys <= BookingKeys
  {
    Gather(
      RequiredChars(NameSpec, p.patientName), EmailField(p.patientEmail, accepts),
      RequiredChars(PhoneSpec, p.patientPhone), DayChoice(p.day),
      TimeField(p.startTime), TimeField(p.endTime), OptionalChars(LooseChars, p.reason))
  }

  /** The booking serializer's outcome from its fields' outcomes. */
  function Gather(
    name: Result<string, Fault>, email: Result<string, Fault>, phone: Result<string, Fault>,
    day: Result<string, Fault>, start: Result<string, Fault>, end: Result<string, Fault>,
    reason: Result<Option<string>, Fault>): (r: Result<BookingRequest, Errors>)
    ensures r.Success? <==>
              name.Success? && email.Success? && phone.Success? && day.Success? && start.Success? && end.Success? && reason.Success?
    ensures r.Success? ==>
              r.value == BookingRequest(name.value, email.value, phone.value, day.value, start.value, end.value, reason.value)
    ensures r.Failure? ==>
              && (PatientNameKey in r.error <==> name.Failure?)
              && (PatientEmailKey in r.error <==> email.Failure?)
              && (PatientPhoneKey in r.error <==> phone.Failure?)
              && (DayKey in r.error <==> day.Failure?)
              && (StartTimeKey in r.error <==> start.Failure?)
              && (EndTimeKey in r.error <==> end.Failure?)
              && (ReasonKey in r.error <==> reason.Failure?)
    ensures r.Failure? ==> r.error.Keys <= BookingKeys
  {
    if name.Success? && email.Success? && phone.Success? && day.Success? && start.Success? && end.Success? && reason.Success? then
      Success(BookingRequest(name.value, email.value, phone.value, day.value, start.value, end.value, reason.value))
    else
      Failure(NoteSchedule(NoteContact(name, email, phone), day, start, end, reason))
  }

  /** The booking errors of the three patient fields. */
  function NoteContact(name: Result<string, Fault>, email: Result<string, Fault>, phone: Result<string, Fault>)
    : (m: Errors)
    ensures PatientNameKey in m <==> name.Failure?
    ensures PatientEmailKey in m <==> email.Failure?
    ensures PatientPhoneKey in m <==> phone.Failure?
    ensures DayKey !in m && StartTimeKey !in m && EndTimeKey !in m && ReasonKey !in m
    ensures m.Keys <= {PatientNameKey, PatientEmailKey, PatientPhoneKey}
  {
    Note(Note(Note(map[], PatientNameKey, name), PatientEmailKey, email), PatientPhoneKey, phone)
  }

  /** `errs` with the booking errors of the four schedule fields added. */
  function NoteSchedule(errs: Errors, day: Result<string, Fault>, start: Result<string, Fault>,
                        end: Result<string, Fault>, reason: Result<Option<string>, Fault>): (m: Errors)
    requires DayKey !in errs && StartTimeKey !in errs && EndTimeKey !in errs && ReasonKey !in errs
    ensures DayKey in m <==> day.Failure?
    ensures StartTimeKey in m <==> start.Failure?
    ensures EndTimeKey in m <==> end.Failure?
    ensures ReasonKey in m <==> reason.Failure?
    ensures PatientNameKey in m <==> PatientNameKey in errs
    ensures PatientEmailKey in m <==> PatientEmailKey in errs
    ensures PatientPhoneKey in m <==> PatientPhoneKey in errs
    ensures m.Keys <= errs.Keys + {DayKey, StartTimeKey, EndTimeKey, ReasonKey}
  {
    NoteUntil(NoteWhen(errs, day, start), end, reason)
  }

  /** `errs` with the errors of the day and the start time added. */
  function NoteWhen(errs: Errors, day: Result<string, Fault>, start: Result<string, Fault>): (m: Errors)
    requires DayKey !in errs && StartTimeKey !in errs
    ensures DayKey in m <==> day.Failure?
    ensures StartTimeKey in m <==> start.Failure?
    ensures EndTimeKey in m <==> EndTimeKey in errs
    ensures ReasonKey in m <==> ReasonKey in errs
    ensures PatientNameKey in m <==> PatientNameKey in errs
    ensures PatientEmailKey in m <==> PatientEmailKey in errs
    ensures PatientPhoneKey in m <==> PatientPhoneKey in errs
    ensures m.Keys <= errs.Keys + {DayKey, StartTimeKey}
  {
    Note(Note(errs, DayKey, day), StartTimeKey, start)
  }

  /** `errs` with the errors of the end time and the reason added. */
  function NoteUntil(errs: Errors, end: Result<string, Fault>, reason: Result<Option<string>, Fault>): (m: Errors)
    requires EndTimeKey !in errs && ReasonKey !in errs
    ensures EndTimeKey in m <==> end.Failure?
    ensures ReasonKey in m <==> reason.Failure?
    ensures DayKey in m <==> DayKey in errs
    ensures StartTimeKey in m <==> StartTimeKey in errs
    ensures PatientNameKey in m <==> PatientNameKey in errs
    ensures PatientEmailKey in m <==> PatientEmailKey in errs
    ensures PatientPhoneKey in m <==> PatientPhoneKey in errs
    ensures m.Keys <= errs.Keys + {EndTimeKey, ReasonKey}
  {
    Note(Note(errs, EndTimeKey, end), ReasonKey, reason)
  }
}
