/** What claiming and releasing do to a grid, slot by slot, and how the two undo each other. */
module GridLaws {
  import opened Outcomes
  import opened SlotGrid

  /** Slot `s` of entry `d` exists and is held by `id`. */
  ghost predicate HeldAt(g: Grid, id: string, d: int, s: int) {
    0 <= d < |g| && 0 <= s < |g[d].Slots()| && g[d].Slots()[s].HeldBy(id)
  }

  /** No slot of the grid is held by `id`, as for a freshly drawn booking id. */
  ghost predicate NoHolder(g: Grid, id: string) {
    forall d, s :: 0 <= d < |g| && 0 <= s < |g[d].Slots()| ==> !g[d].Slots()[s].HeldBy(id)
  }

  /** A slot nobody has touched since it was uploaded as free. */
  predicate Pristine(s: Slot) {
    s.isAvailable == Some(true) && s.bookedBy.None? && s.bookingId.None?
  }

  /** Releasing changes no entry's shape and changes a slot only by freeing it, and only when
      it is the first slot of an entry for `day` held by `id` with the given times. */
  lemma ReleasedSlot(g: Grid, day: string, id: string, start: string, end: string, d: int, s: int)
    requires 0 <= d < |g|
    ensures var r := Release(g, day, id, start, end);
      && r[d].day == g[d].day && r[d].isAvailable == g[d].isAvailable
      && |r[d].Slots()| == |g[d].Slots()|
      && (0 <= s < |g[d].Slots()| ==>
            r[d].Slots()[s] ==
              if g[d].day == day && FirstHolder(g[d].Slots(), id, start, end, s) then Freed(g[d].Slots()[s])
              else g[d].Slots()[s])
  {
  }

  /** A grid in which `id` holds nothing is left exactly as it was by releasing `id`. */
  lemma {:induction false} ReleaseWithoutHolder(g: Grid, day: string, id: string, start: string, end: string)
    requires NoHolder(g, id)
    ensures Release(g, day, id, start, end) == g
  {
    var r := Release(g, day, id, start, end);
    forall d | 0 <= d < |g|
      ensures r[d] == g[d]
    {
      if g[d].day == day && g[d].timeSlots.Some? {
        var slots := g[d].Slots();
        var freed := ReleaseSlots(slots, id, start, end);
        forall t | 0 <= t < |slots|
          ensures freed[t] == slots[t]
        {
          assert !slots[t].HeldBy(id);
        }
        assert freed == slots;
      }
    }
  }

  /** Releasing `id` leaves every slot held by another id where and as it was. */
  lemma KeepsOtherHolders(g: Grid, day: string, id: string, start: string, end: string, other: string, d: int, s: int)
    requires other != id
    ensures HeldAt(Release(g, day, id, start, end), other, d, s) <==> HeldAt(g, other, d, s)
    ensures HeldAt(g, other, d, s) ==> Release(g, day, id, start, end)[d].Slots()[s] == g[d].Slots()[s]
  {
    if 0 <= d < |g| {
      ReleasedSlot(g, day, id, start, end, d, s);
    }
  }

  /** After a release, `id` still holds a slot only where the release did not reach: in an
      entry for another day, or under other times, or behind an earlier holder in its entry. */
  lemma ReleasedHolder(g: Grid, day: string, id: string, start: string, end: string, d: int, s: int)
    requires HeldAt(Release(g, day, id, start, end), id, d, s)
    ensures HeldAt(g, id, d, s)
    ensures !(g[d].day == day && FirstHolder(g[d].Slots(), id, start, end, s))
  {
    ReleasedSlot(g, day, id, start, end, d, s);
  }

  /** `id` holds slot `s` of entry `d` and no other slot of the grid. */
  ghost predicate SoleHolder(g: Grid, id: string, d: int, s: int) {
    HeldAt(g, id, d, s) && forall d', s' :: HeldAt(g, id, d', s') ==> d' == d && s' == s
  }

  /** When `id` holds exactly one slot of the grid, in an entry for `day` and with the given
      times, releasing frees that slot and touches nothing else. */
  lemma ReleaseSoleHolder(g: Grid, day: string, id: string, start: string, end: string, d: int, s: int)
    requires SoleHolder(g, id, d, s) && g[d].day == day && g[d].Slots()[s].Spans(start, end)
    ensures OnlySlotChanged(g, Release(g, day, id, start, end), d, s, Freed(g[d].Slots()[s]))
  {
    var r := Release(g, day, id, start, end);
    assert FirstHolder(g[d].Slots(), id, start, end, s) by {
      forall u | 0 <= u < s
        ensures !(g[d].Slots()[u].HeldBy(id) && g[d].Slots()[u].Spans(start, end))
      {
        assert !HeldAt(g, id, d, u);
      }
    }
    forall k | 0 <= k < |g| && k != d
      ensures r[k] == g[k]
    {
      forall t | 0 <= t < |g[k].Slots()|
        ensures !g[k].Slots()[t].HeldBy(id)
      {
        assert !HeldAt(g, id, k, t);
      }
      ReleaseEntryUntouched(g[k], day, id, start, end);
    }
    forall t | 0 <= t < |g[d].Slots()|
      ensures r[d].Slots()[t] == if t == s then Freed(g[d].Slots()[s]) else g[d].Slots()[t]
    {
      ReleasedSlot(g, day, id, start, end, d, t);
    }
    ReleasedSlot(g, day, id, start, end, d, s);
  }

  /** Under the same conditions no slot is held by `id` once it has been released. */
  lemma ReleaseLeavesNoHolder(g: Grid, day: string, id: string, start: string, end: string, d: int, s: int)
    requires SoleHolder(g, id, d, s) && g[d].day == day && g[d].Slots()[s].Spans(start, end)
    ensures NoHolder(Release(g, day, id, start, end), id)
  {
    var r := Release(g, day, id, start, end);
    assert FirstHolder(g[d].Slots(), id, start, end, s) by {
      forall u | 0 <= u < s
        ensures !(g[d].Slots()[u].HeldBy(id) && g[d].Slots()[u].Spans(start, end))
      {
        assert !HeldAt(g, id, d, u);
      }
    }
    forall d', s' | 0 <= d' < |r| && 0 <= s' < |r[d'].Slots()|
      ensures !r[d'].Slots()[s'].HeldBy(id)
    {
      ReleasedSlot(g, day, id, start, end, d', s');
      if g[d'].Slots()[s'].HeldBy(id) {
        assert HeldAt(g, id, d', s');
      }
    }
  }

  /** An entry in which `id` holds no slot is not changed by releasing `id`. */
  lemma ReleaseEntryUntouched(e: DayEntry, day: string, id: string, start: string, end: string)
    requires forall t :: 0 <= t < |e.Slots()| ==> !e.Slots()[t].HeldBy(id)
    ensures ReleaseEntry(e, day, id, start, end) == e
  {
    if e.day == day && e.timeSlots.Some? {
      var freed := ReleaseSlots(e.Slots(), id, start, end);
      assert forall t :: 0 <= t < |freed| ==> freed[t] == e.Slots()[t];
      assert freed == e.Slots();
    }
  }

  /** Claiming with a fresh id and then releasing that id leaves the grid as it was, except
      that the claimed slot comes back freed; a slot that was pristine comes back identical. */
  lemma ClaimThenRelease(g: Grid, day: string, start: string, end: string, patient: string, id: string)
    requires NoHolder(g, id)
    requires Claim(g, day, start, end, patient, id).Success?
    ensures var d := FindDay(g, day).value;
      var s := FindSlot(g[d].Slots(), start, end).value;
      var back := Release(Claim(g, day, start, end, patient, id).value, day, id, start, end);
      && OnlySlotChanged(g, back, d, s, Freed(g[d].Slots()[s]))
      && (Pristine(g[d].Slots()[s]) ==> back == g)
  {
    var d := FindDay(g, day).value;
    var s := FindSlot(g[d].Slots(), start, end).value;
    var c := Claim(g, day, start, end, patient, id).value;
    var taken := Taken(g[d].Slots()[s], patient, id);
    assert HeldAt(c, id, d, s);
    forall d', s' | 0 <= d' < |c| && 0 <= s' < |c[d'].Slots()| && (d' != d || s' != s)
      ensures !c[d'].Slots()[s'].HeldBy(id)
    {
      assert c[d'].Slots()[s'] == g[d'].Slots()[s'];
    }
    ReleaseSoleHolder(c, day, id, start, end, d, s);
    var back := Release(c, day, id, start, end);
    assert Freed(taken) == Freed(g[d].Slots()[s]);
    if Pristine(g[d].Slots()[s]) {
      assert g[d].timeSlots.Some?;
      assert back[d].Slots() == g[d].Slots();
      assert back[d] == g[d];
      assert back == g;
    }
  }

  /** A slot just claimed is refused to the next claim for the same day and times. */
  lemma ClaimedSlotIsBooked(g: Grid, day: string, start: string, end: string, patient: string, id: string,
                            otherPatient: string, otherId: string)
    requires Claim(g, day, start, end, patient, id).Success?
    ensures Claim(Claim(g, day, start, end, patient, id).value, day, start, end, otherPatient, otherId)
            == Failure(AlreadyBooked)
  {
    var d := FindDay(g, day).value;
    var s := FindSlot(g[d].Slots(), start, end).value;
    var c := Claim(g, day, start, end, patient, id).value;
    assert FindDay(c, day) == Some(d) by {
      SameDays(g, c, d, day);
    }
    assert FindSlot(c[d].Slots(), start, end) == Some(s) by {
      assert forall t :: 0 <= t < s ==> c[d].Slots()[t] == g[d].Slots()[t];
      SameFirstSlot(c[d].Slots(), start, end, s);
    }
  }

  /** `FindDay` only looks at day names. */
  lemma SameDays(g: Grid, c: Grid, d: nat, day: string)
    requires FindDay(g, day) == Some(d)
    requires |c| == |g| && forall k :: 0 <= k < |g| ==> c[k].day == g[k].day
    ensures FindDay(c, day) == Some(d)
  {
    assert c[d].day == day;
    assert forall k :: 0 <= k < d ==> c[k].day != day;
  }

  /** `FindSlot` finds the first slot with the times, so a list that spans them at `s` and
      nowhere before finds `s`. */
  lemma SameFirstSlot(slots: seq<Slot>, start: string, end: string, s: nat)
    requires s < |slots| && slots[s].Spans(start, end)
    requires forall t :: 0 <= t < s ==> !slots[t].Spans(start, end)
    ensures FindSlot(slots, start, end) == Some(s)
  {
  }
}
