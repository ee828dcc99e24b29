/** Properties of the handlers taken together: what a booking followed by its cancellation
    leaves behind, that a taken slot cannot be booked twice, that the availability query and
    the booking handler agree, and the consistency between appointment documents and the
    doctors' grids that booking (with a fresh id), cancellation and the status switch keep. */
module BookingLaws {
  import opened Outcomes
  import opened Text
  import opened Fields
  import opened SlotGrid
  import opened GridLaws
  import opened Clinic
  import DoctorSerializers

  // ----- the consistency invariant -----

  /** Slot `s` of entry `d` is the one slot recording appointment `a`: held by its id alone,
      in an entry for its day, with its times, marked taken and booked by its patient. */
  ghost predicate Backs(g: Grid, a: Appointment, d: int, s: int) {
    && SoleHolder(g, a.bookingId, d, s)
    && g[d].day == a.day
    && g[d].Slots()[s].Spans(a.startTime, a.endTime)
    && g[d].Slots()[s].isAvailable == Some(false)
    && g[d].Slots()[s].bookedBy == Some(a.patientEmail)
  }

  /** The appointment stored under `id` is recorded by exactly one slot of its doctor's grid. */
  ghost predicate Backed(st: Store, id: string)
    requires id in st.appointments
  {
    var a := st.appointments[id];
    && a.bookingId == id
    && a.doctorUid in st.doctors
    && exists d, s :: Backs(st.doctors[a.doctorUid].Grid(), a, d, s)
  }

  /** Every confirmed appointment is recorded in its doctor's grid. */
  ghost predicate Consistent(st: Store) {
    forall id :: id in st.appointments && st.appointments[id].status == Confirmed ==> Backed(st, id)
  }

  /** `id` is new: no appointment has it and no slot of any doctor holds it. */
  ghost predicate Fresh(st: Store, id: string) {
    id !in st.appointments && forall u :: u in st.doctors ==> NoHolder(st.doctors[u].Grid(), id)
  }

  /** A successful claim with a fresh id makes that id the sole holder of the claimed slot. */
  lemma ClaimMakesSoleHolder(g: Grid, day: string, start: string, end: string, patient: string, id: string)
    requires NoHolder(g, id)
    requires Claim(g, day, start, end, patient, id).Success?
    ensures var d := FindDay(g, day).value;
      var s := FindSlot(g[d].Slots(), start, end).value;
      var c := Claim(g, day, start, end, patient, id).value;
      && SoleHolder(c, id, d, s) && c[d].day == day
      && c[d].Slots()[s] == Taken(g[d].Slots()[s], patient, id)
  {
    var d := FindDay(g, day).value;
    var s := FindSlot(g[d].Slots(), start, end).value;
    var c := Claim(g, day, start, end, patient, id).value;
    forall d', s' | 0 <= d' < |c| && 0 <= s' < |c[d'].Slots()| && (d' != d || s' != s)
      ensures !c[d'].Slots()[s'].HeldBy(id)
    {
      assert c[d'].Slots()[s'] == g[d'].Slots()[s'];
    }
  }

  /** A claim takes a free slot, so a slot recording another appointment keeps doing so. */
  lemma ClaimKeepsBacking(g: Grid, day: string, start: string, end: string, patient: string, id: string,
                          a: Appointment, d: int, s: int)
    requires Claim(g, day, start, end, patient, id).Success?
    requires Backs(g, a, d, s) && a.bookingId != id
    ensures Backs(Claim(g, day, start, end, patient, id).value, a, d, s)
  {
    var c := Claim(g, day, start, end, patient, id).value;
    var dc := FindDay(g, day).value;
    var sc := FindSlot(g[dc].Slots(), start, end).value;
    assert (d, s) != (dc, sc) by {
      assert !g[d].Slots()[s].IsFree();
    }
    assert c[d].Slots()[s] == g[d].Slots()[s];
    forall d', s' | HeldAt(c, a.bookingId, d', s')
      ensures d' == d && s' == s
    {
      if (d', s') != (dc, sc) {
        assert c[d'].Slots()[s'] == g[d'].Slots()[s'];
        assert HeldAt(g, a.bookingId, d', s');
      }
    }
  }

  /** A release of one id leaves a slot recording another appointment in place. */
  lemma ReleaseKeepsBacking(g: Grid, day: string, id: string, start: string, end: string,
                            a: Appointment, d: int, s: int)
    requires Backs(g, a, d, s) && a.bookingId != id
    ensures Backs(Release(g, day, id, start, end), a, d, s)
  {
    var r := Release(g, day, id, start, end);
    KeepsOtherHolders(g, day, id, start, end, a.bookingId, d, s);
    ReleasedSlot(g, day, id, start, end, d, s);
    forall d', s' | HeldAt(r, a.bookingId, d', s')
      ensures d' == d && s' == s
    {
      KeepsOtherHolders(g, day, id, start, end, a.bookingId, d', s');
    }
  }

  /** Booking with a fresh id keeps the store consistent, whatever the outcome. */
  lemma BookKeepsConsistent(st: Store, uid: string, req: DoctorSerializers.BookingRequest, id: string)
    requires Consistent(st) && Fresh(st, id)
    ensures Consistent(BookValidated(st, uid, req, id).store)
  {
    var r := BookValidated(st, uid, req, id);
    if r.store != st {
      var g := st.doctors[uid].Grid();
      var c := ClaimFor(st, uid, req, id).value;
      assert r.store.doctors[uid].Grid() == c;
      forall k | k in r.store.appointments && r.store.appointments[k].status == Confirmed
        ensures Backed(r.store, k)
      {
        if k == id {
          ClaimMakesSoleHolder(g, req.day, req.startTime, req.endTime, req.patientEmail, id);
          var d := FindDay(g, req.day).value;
          var s := FindSlot(g[d].Slots(), req.startTime, req.endTime).value;
          assert Backs(c, r.store.appointments[k], d, s);
        } else {
          var a := st.appointments[k];
          assert Backed(st, k);
          var d, s :| Backs(st.doctors[a.doctorUid].Grid(), a, d, s);
          if a.doctorUid == uid {
            ClaimKeepsBacking(g, req.day, req.startTime, req.endTime, req.patientEmail, id, a, d, s);
          }
          assert Backs(r.store.doctors[a.doctorUid].Grid(), a, d, s);
        }
      }
    }
  }

  /** Cancelling keeps the store consistent: the cancelled appointment leaves the invariant
      and every other confirmed appointment keeps its slot. */
  lemma CancelKeepsConsistent(st: Store, id: string)
    requires Consistent(st)
    ensures Consistent(Cancel(st, id).store)
  {
    var r := Cancel(st, id);
    if id in st.appointments {
      var x := st.appointments[id];
      forall k | k in r.store.appointments && r.store.appointments[k].status == Confirmed
        ensures Backed(r.store, k)
      {
        var a := st.appointments[k];
        assert Backed(st, k);
        var d, s :| Backs(st.doctors[a.doctorUid].Grid(), a, d, s);
        if a.doctorUid == x.doctorUid {
          ReleaseKeepsBacking(st.doctors[a.doctorUid].Grid(), x.day, id, x.startTime, x.endTime, a, d, s);
        }
        assert Backs(r.store.doctors[a.doctorUid].Grid(), a, d, s);
      }
    }
  }

  /** Switching a doctor on or off keeps the store consistent. */
  lemma ToggleKeepsConsistent(st: Store, uid: string)
    requires Consistent(st)
    ensures Consistent(ToggleStatus(st, uid).store)
  {
    var r := ToggleStatus(st, uid);
    forall k | k in r.store.appointments && r.store.appointments[k].status == Confirmed
      ensures Backed(r.store, k)
    {
      var a := st.appointments[k];
      assert Backed(st, k);
      var d, s :| Backs(st.doctors[a.doctorUid].Grid(), a, d, s);
      assert r.store.doctors[a.doctorUid].Grid() == st.doctors[a.doctorUid].Grid();
    }
  }

  // ----- booking and cancellation together -----

  /** Cancelling an appointment whose document was just written next to a new grid for its
      doctor releases the appointment's slot in that grid and marks the document cancelled. */
  lemma CancelWritten(st: Store, uid: string, c: Grid, a: Appointment)
    requires uid in st.doctors && a.doctorUid == uid
    ensures var written := Store(st.doctors[uid := st.doctors[uid].(availability := Some(c))],
                                 st.appointments[a.bookingId := a]);
      var back := Cancel(written, a.bookingId);
      && back.outcome == CancelledOk(a.bookingId)
      && back.store.appointments == st.appointments[a.bookingId := a.(status := Cancelled)]
      && back.store.doctors.Keys == st.doctors.Keys
      && (forall u :: u in st.doctors && u != uid ==> back.store.doctors[u] == st.doctors[u])
      && back.store.doctors[uid] ==
           st.doctors[uid].(availability := Some(Release(c, a.day, a.bookingId, a.startTime, a.endTime)))
  {
    var written := Store(st.doctors[uid := st.doctors[uid].(availability := Some(c))],
                         st.appointments[a.bookingId := a]);
    assert written.appointments[a.bookingId] == a;
    assert written.appointments[a.bookingId := a.(status := Cancelled)]
           == st.appointments[a.bookingId := a.(status := Cancelled)];
  }

  /** What cancelling a just-booked appointment does: it releases exactly the booked id,
      day and times in the booking doctor's grid, and marks the new document cancelled. */
  lemma CancelAfterBook(st: Store, uid: string, req: DoctorSerializers.BookingRequest, id: string)
    requires BookValidated(st, uid, req, id).outcome.Booked?
    ensures var booked := BookValidated(st, uid, req, id);
      var back := Cancel(booked.store, id);
      && back.outcome == CancelledOk(id)
      && back.store.appointments == st.appointments[id := booked.outcome.appointment.(status := Cancelled)]
      && back.store.doctors.Keys == st.doctors.Keys
      && (forall u :: u in st.doctors && u != uid ==> back.store.doctors[u] == st.doctors[u])
      && back.store.doctors[uid] ==
           st.doctors[uid].(availability := Some(Release(ClaimFor(st, uid, req, id).value, req.day, id, req.startTime, req.endTime)))
  {
    var booked := BookValidated(st, uid, req, id);
    var a := booked.outcome.appointment;
    var c := ClaimFor(st, uid, req, id).value;
    assert booked.store == Store(st.doctors[uid := st.doctors[uid].(availability := Some(c))], st.appointments[id := a]);
    CancelWritten(st, uid, c, a);
  }

  /** Booking a slot with a fresh id and then cancelling the appointment gives the doctor
      back the grid it had, except that the slot comes back freed; a slot that was pristine
      comes back identical, so the doctors' collection is restored exactly. */
  lemma BookThenCancel(st: Store, uid: string, req: DoctorSerializers.BookingRequest, id: string)
    requires uid in st.doctors && NoHolder(st.doctors[uid].Grid(), id)
    requires BookValidated(st, uid, req, id).outcome.Booked?
    ensures var g := st.doctors[uid].Grid();
      var d := FindDay(g, req.day).value;
      var s := FindSlot(g[d].Slots(), req.startTime, req.endTime).value;
      var back := Cancel(BookValidated(st, uid, req, id).store, id).store;
      && OnlySlotChanged(g, back.doctors[uid].Grid(), d, s, Freed(g[d].Slots()[s]))
      && (Pristine(g[d].Slots()[s]) ==> back.doctors == st.doctors)
  {
    var g := st.doctors[uid].Grid();
    var back := Cancel(BookValidated(st, uid, req, id).store, id).store;
    var released := Release(ClaimFor(st, uid, req, id).value, req.day, id, req.startTime, req.endTime);
    CancelAfterBook(st, uid, req, id);
    ClaimThenRelease(g, req.day, req.startTime, req.endTime, req.patientEmail, id);
    RestoredWhenUnchanged(st.doctors, back.doctors, uid, released);
  }

  /** A doctors' collection that differs from the original at most in one doctor's grid, and
      there only by a grid equal to the original, is the original. */
  lemma RestoredWhenUnchanged(before: map<string, Doctor>, after: map<string, Doctor>, uid: string, g: Grid)
    requires uid in before && after.Keys == before.Keys
    requires forall u :: u in before && u != uid ==> after[u] == before[u]
    requires after[uid] == before[uid].(availability := Some(g))
    ensures after[uid].Grid() == g
    ensures g == before[uid].Grid() && |g| > 0 ==> after == before
  {
    if g == before[uid].Grid() && |g| > 0 {
      assert after[uid] == before[uid];
    }
  }

  /** Once a slot is booked, a second request for the same doctor, day and times is refused
      as already booked and changes nothing. */
  lemma SecondBookingRefused(st: Store, uid: string, req: DoctorSerializers.BookingRequest, id: string,
                             other: DoctorSerializers.BookingRequest, otherId: string)
    requires BookValidated(st, uid, req, id).outcome.Booked?
    requires other.day == req.day && other.startTime == req.startTime && other.endTime == req.endTime
    ensures var after := BookValidated(st, uid, req, id).store;
      BookValidated(after, uid, other, otherId) == Reply(SlotAlreadyBooked, after)
  {
    var g := st.doctors[uid].Grid();
    ClaimedSlotIsBooked(g, req.day, req.startTime, req.endTime, req.patientEmail, id, other.patientEmail, otherId);
  }

  /** Cancelling a confirmed appointment of a consistent store twice: the second call finds
      nothing left to release, so it leaves the doctors' grids as the first call left them. */
  lemma CancelTwice(st: Store, id: string)
    requires Consistent(st) && id in st.appointments && st.appointments[id].status == Confirmed
    ensures var once := Cancel(st, id).store;
      Cancel(once, id).store == once
  {
    var a := st.appointments[id];
    assert Backed(st, id);
    var g := st.doctors[a.doctorUid].Grid();
    var d, s :| Backs(g, a, d, s);
    ReleaseLeavesNoHolder(g, a.day, id, a.startTime, a.endTime, d, s);
    var once := Cancel(st, id).store;
    var rg := Release(g, a.day, id, a.startTime, a.endTime);
    ReleaseWithoutHolder(rg, a.day, id, a.startTime, a.endTime);
    assert once.doctors[a.doctorUid] == Released(st.doctors[a.doctorUid], a, id);
    assert Cancel(once, id).store.doctors[a.doctorUid] == once.doctors[a.doctorUid];
  }

  // ----- the query and the switch -----

  /** For a weekday, the availability query and the booking handler make the same three
      decisions in the same order: the doctor is unknown, offline, or has no entry for it. */
  lemma QueryAgreesWithBooking(st: Store, uid: string, req: DoctorSerializers.BookingRequest, id: string)
    requires IsWeekday(req.day)
    ensures var q := CheckAvailability(st, uid, Some(req.day));
      var b := BookValidated(st, uid, req, id).outcome;
      && (q == DayDoctorNotFound <==> b == DoctorNotFound)
      && (q.OfflineToday? <==> b == DoctorOffline)
      && (q.NotScheduled? <==> b == NoAvailabilityForDay)
  {
    WeekdaysAreLower(req.day);
  }

  // ----- the availability upload -----

  /** After an accepted upload for an active doctor, the query for a day the upload names
      reports that entry: its whole-day flag (true when it was left out) and its slots (none
      when the list was left out). */
  lemma UploadThenQuery(st: Store, uid: string, ps: seq<DoctorSerializers.DayPayload>, i: int)
    requires SetAvailability(st, uid, Some(ps)).outcome.Uploaded?
    requires st.doctors[uid].Active()
    requires 0 <= i < |ps|
    ensures var day := ps[i].day.value;
      CheckAvailability(SetAvailability(st, uid, Some(ps)).store, uid, Some(day))
      == Scheduled(day, ps[i].isAvailable.GetOr(true), DoctorSerializers.SlotList(ps[i].timeSlots).value.GetOr([]))
  {
    var after := UploadedStore(st, uid, ps);
    UploadedEntry(ps, i);
    UploadedDayFound(ps, i);
    QueryReadsEntry(after, uid, ps[i].day.value, i);
  }

  /** After an accepted upload for an active doctor, the query for a weekday the upload does
      not name reports it unscheduled, whatever the grid held before. */
  lemma UploadThenQueryUnnamed(st: Store, uid: string, ps: seq<DoctorSerializers.DayPayload>, day: string)
    requires SetAvailability(st, uid, Some(ps)).outcome.Uploaded?
    requires st.doctors[uid].Active()
    requires IsWeekday(day) && forall i :: 0 <= i < |ps| ==> ps[i].day != Some(day)
    ensures CheckAvailability(SetAvailability(st, uid, Some(ps)).store, uid, Some(day)) == NotScheduled(day)
  {
    var after := UploadedStore(st, uid, ps);
    var g := after.doctors[uid].Grid();
    forall k | 0 <= k < |g|
      ensures g[k].day != day
    {
      UploadedEntry(ps, k);
    }
    var r := CheckAvailability(after, uid, Some(day));
    assert DayParam(Some(day)) == day;
  }

  /** The store an accepted upload leaves: the doctor is still there, as active as before,
      and holds the validated grid, which repeats no day. */
  lemma UploadedStore(st: Store, uid: string, ps: seq<DoctorSerializers.DayPayload>) returns (after: Store)
    requires SetAvailability(st, uid, Some(ps)).outcome.Uploaded?
    ensures after == SetAvailability(st, uid, Some(ps)).store
    ensures DoctorSerializers.DayList(ps).Success? && DoctorSerializers.NoRepeatedDay(ps)
    ensures Bookable(after, uid) == Bookable(st, uid)
    ensures uid in after.doctors && after.doctors[uid].Grid() == DoctorSerializers.DayList(ps).value
  {
    after := SetAvailability(st, uid, Some(ps)).store;
  }

  /** Entry `i` of a validated upload carries the payload's day, its flag with true as the
      default, and its slots. */
  lemma UploadedEntry(ps: seq<DoctorSerializers.DayPayload>, i: int)
    requires DoctorSerializers.DayList(ps).Success?
    requires 0 <= i < |ps|
    ensures var e := DoctorSerializers.DayList(ps).value[i];
      && ps[i].day.Some? && IsWeekday(ps[i].day.value) && e.day == ps[i].day.value
      && e.isAvailable == Some(ps[i].isAvailable.GetOr(true))
      && DoctorSerializers.SlotList(ps[i].timeSlots).Success?
      && e.Slots() == DoctorSerializers.SlotList(ps[i].timeSlots).value.GetOr([])
  {
    assert DoctorSerializers.ValidateDay(ps[i]).Success?;
  }

  /** In a validated upload without repeated days, the entry for a day the payload names is
      the one the payload put there. */
  lemma UploadedDayFound(ps: seq<DoctorSerializers.DayPayload>, i: int)
    requires DoctorSerializers.DayList(ps).Success? && DoctorSerializers.NoRepeatedDay(ps)
    requires 0 <= i < |ps|
    ensures ps[i].day.Some?
    ensures SlotGrid.FindDay(DoctorSerializers.DayList(ps).value, ps[i].day.value) == Some(i)
  {
    var g := DoctorSerializers.DayList(ps).value;
    UploadedEntry(ps, i);
    forall k | 0 <= k < i
      ensures g[k].day != g[i].day
    {
      UploadedEntry(ps, k);
      assert ps[k].day != ps[i].day;
    }
  }

  /** For an active doctor, the query for a weekday reads the first entry for that day. */
  lemma QueryReadsEntry(st: Store, uid: string, day: string, i: nat)
    requires Bookable(st, uid) && IsWeekday(day)
    requires SlotGrid.FindDay(st.doctors[uid].Grid(), day) == Some(i)
    ensures var e := st.doctors[uid].Grid()[i];
      CheckAvailability(st, uid, Some(day)) == Scheduled(day, e.isAvailable.GetOr(false), e.Slots())
  {
    assert DayParam(Some(day)) == day;
  }

  /** Switching twice restores whether the doctor is active, and restores the document itself
      when it carried the flag. */
  lemma ToggleTwice(st: Store, uid: string)
    requires uid in st.doctors
    ensures var twice := ToggleStatus(ToggleStatus(st, uid).store, uid);
      && twice.outcome == Toggled(st.doctors[uid].Active())
      && twice.store.doctors[uid].Active() == st.doctors[uid].Active()
      && (st.doctors[uid].isActive.Some? ==> twice.store == st)
  {
    var once := ToggleStatus(st, uid).store;
    var twice := ToggleStatus(once, uid).store;
    if st.doctors[uid].isActive.Some? {
      assert twice.doctors[uid] == st.doctors[uid];
      assert twice.doctors == st.doctors;
    }
  }
}
