/** The patients' own booking serializer: only the schedule part of a request (day, two
    times, reason); the patient's identity is not part of it. */
module PatientSerializers {
  import opened Outcomes
  import opened Fields
  import DoctorSerializers

  /** A patient's booking request as posted, keys possibly missing. */
  datatype SchedulePayload = SchedulePayload(
    day: Option<string>,
    startTime: Option<string>,
    endTime: Option<string>,
    reason: Option<string>)

  /** A validated schedule request. */
  datatype ScheduleRequest = ScheduleRequest(day: string, startTime: string, endTime: string, reason: Option<string>)

  /** The patients' `BookAppointmentSerializer`: a weekday, two `HH:MM` times with the same
      pattern as the doctors' serializer, and an optional reason, each checked on its own. */
  function ValidateSchedule(p: SchedulePayload): (r: Result<ScheduleRequest, Errors>)
    ensures r.Success? <==>
              && DayChoice(p.day).Success?
              && DoctorSerializers.TimeField(p.startTime).Success?
              && DoctorSerializers.TimeField(p.endTime).Success?
              && OptionalChars(DoctorSerializers.LooseChars, p.reason).Success?
    ensures r.Success? ==>
              r.value == ScheduleRequest(
                DayChoice(p.day).value, DoctorSerializers.TimeField(p.startTime).value,
                DoctorSerializers.TimeField(p.endTime).value, OptionalChars(DoctorSerializers.LooseChars, p.reason).value)
    ensures r.Failure? ==>
              && (DayKey in r.error <==> DayChoice(p.day).Failure?)
              && (StartTimeKey in r.error <==> DoctorSerializers.TimeField(p.startTime).Failure?)
              && (EndTimeKey in r.error <==> DoctorSerializers.TimeField(p.endTime).Failure?)
              && (ReasonKey in r.error <==> OptionalChars(DoctorSerializers.LooseChars, p.reason).Failure?)
    ensures r.Failure? ==> r.error.Keys <= {DayKey, StartTimeKey, EndTimeKey, ReasonKey}
  {
    var d := DayChoice(p.day);
    var s := DoctorSerializers.TimeField(p.startTime);
    var e := DoctorSerializers.TimeField(p.endTime);
    var why := OptionalChars(DoctorSerializers.LooseChars, p.reason);
    if d.Success? && s.Success? && e.Success? && why.Success? then Success(ScheduleRequest(d.value, s.value, e.value, why.value))
    else Failure(DoctorSerializers.NoteSchedule(map[], d, s, e, why))
  }

  /** The schedule part of a doctors'-side booking payload. */
  function ScheduleOf(p: DoctorSerializers.BookingPayload): SchedulePayload {
    SchedulePayload(p.day, p.startTime, p.endTime, p.reason)
  }

  /** The two booking serializers agree on the schedule: a doctors'-side request is accepted
      exactly when its identity fields pass and the patients' serializer accepts its schedule
      part, and then both carry the same day, times and reason. */
  lemma SchedulesAgree(p: DoctorSerializers.BookingPayload, accepts: string -> bool)
    ensures var full := DoctorSerializers.ValidateBooking(p, accepts);
      var part := ValidateSchedule(ScheduleOf(p));
      && (full.Success? <==>
            && RequiredChars(DoctorSerializers.NameSpec, p.patientName).Success?
            && EmailField(p.patientEmail, accepts).Success?
            && RequiredChars(DoctorSerializers.PhoneSpec, p.patientPhone).Success?
            && part.Success?)
      && (full.Success? ==>
            && full.value.day == part.value.day
            && full.value.startTime == part.value.startTime && full.value.endTime == part.value.endTime
            && full.value.reason == part.value.reason)
  {
  }
}
