/** Concrete cases that pin down behaviour a reader might not expect: the whole-day flag is
    not consulted when booking, slot times are only checked one at a time, and replacing a
    doctor's availability can leave a confirmed appointment with no slot behind it. */
module Scenarios {
  import opened Outcomes
  import opened Text
  import opened Fields
  import opened SlotGrid
  import opened GridLaws
  import opened Clinic
  import opened BookingLaws
  import DoctorSerializers
  import TimeFormat

  const Morning := Slot("09:00", "09:30", None, None, None)

  /** A Monday marked unavailable as a whole, with one slot that is free. */
  const ClosedMonday := DayEntry("monday", Some(false), Some([Morning]))

  const Smith := Doctor(Some("Ann"), Some("Smith"), None, Some([ClosedMonday]))

  const Request := DoctorSerializers.BookingRequest("Bo", "bo@example.org", "555", "monday", "09:00", "09:30", None)

  const Week := Store(map["d1" := Smith], map[])

  /** The availability query reports the whole Monday unavailable... */
  lemma ClosedDayReported()
    ensures CheckAvailability(Week, "d1", Some("Monday")) == Scheduled("monday", false, [Morning])
  {
    assert Lower("Monday") == "monday";
    assert FindDay(Smith.Grid(), "monday") == Some(0);
  }

  /** ...yet booking its free slot succeeds: the booking handler reads only the slot's own
      flag, never the day's. */
  lemma ClosedDayBookable()
    ensures BookValidated(Week, "d1", Request, "b1").outcome.Booked?
  {
    assert FindDay(Smith.Grid(), "monday") == Some(0);
    assert FindSlot(ClosedMonday.Slots(), "09:00", "09:30") == Some(0);
  }

  /** The slot serializer accepts a slot that ends before it starts: each time is validated
      against the pattern on its own and the two are never compared. */
  lemma BackwardsSlotAccepted()
    ensures DoctorSerializers.ValidateSlot(
              DoctorSerializers.SlotPayload(Some("17:00"), Some("9:00"), None, None, None))
            == Success(Slot("17:00", "9:00", Some(true), None, None))
  {
    TimeAccepted("17:00");
    TimeAccepted("9:00");
  }

  /** A well-formed time without surrounding whitespace passes the time field unchanged. */
  lemma TimeAccepted(t: string)
    requires t == "17:00" || t == "9:00"
    ensures DoctorSerializers.TimeField(Some(t)) == Success(t)
  {
    TrimUnpadded(t);
    assert TimeFormat.TimeMatches(t);
  }

  const Held := Slot("09:00", "09:30", Some(false), Some("bo@example.org"), Some("b1"))

  const Confirmation := Appointment("b1", "d1", "Ann Smith", "Bo", "bo@example.org", "555", "monday", "09:00", "09:30", "", Confirmed)

  /** One doctor with one booked Monday slot, and the appointment it records. */
  const BookedWeek := Store(
    map["d1" := Doctor(Some("Ann"), Some("Smith"), None, Some([DayEntry("monday", Some(true), Some([Held]))]))],
    map["b1" := Confirmation])

  /** An upload that keeps Monday but drops its slots. */
  const SlotlessMonday := [DoctorSerializers.DayPayload(Some("monday"), None, None)]

  /** The availability upload replaces the grid wholesale, booked slots included, so a
      consistent store can become inconsistent: the appointment stays confirmed while no slot
      records it any more. */
  lemma UploadOrphansAppointment()
    ensures Consistent(BookedWeek)
    ensures SetAvailability(BookedWeek, "d1", Some(SlotlessMonday)).outcome.Uploaded?
    ensures !Consistent(SetAvailability(BookedWeek, "d1", Some(SlotlessMonday)).store)
  {
    var g := BookedWeek.doctors["d1"].Grid();
    assert Backs(g, Confirmation, 0, 0);
    assert DoctorSerializers.ValidateDay(SlotlessMonday[0]) == Success(DayEntry("monday", Some(true), None));
    var after := SetAvailability(BookedWeek, "d1", Some(SlotlessMonday)).store;
    assert after.doctors["d1"].Grid() == [DayEntry("monday", Some(true), None)];
    assert !Backed(after, "b1");
  }
}
