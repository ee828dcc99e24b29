/** A doctor's weekly availability as the source stores it: a list of day entries, each with
    an optional list of time slots, and the two in-place edits the booking and cancellation
    handlers make to it. Slots are addressed by their `(start_time, end_time)` pair, the
    first match winning; nothing keeps slots ordered, disjoint or well-formed. */
module SlotGrid {
  import opened Outcomes
  import Seqs

  /** One bookable slot. Every key but the two times may be missing from the stored document. */
  datatype Slot = Slot(
    startTime: string,
    endTime: string,
    isAvailable: Option<bool>,
    bookedBy: Option<string>,
    bookingId: Option<string>)
  {
    /** A slot without the flag counts as free. */
    predicate IsFree() { isAvailable.GetOr(true) }

    predicate Spans(start: string, end: string) { startTime == start && endTime == end }

    predicate HeldBy(id: string) { bookingId == Some(id) }
  }

  /** One day of the week. `isAvailable` is the whole-day flag; booking never reads it. */
  datatype DayEntry = DayEntry(day: string, isAvailable: Option<bool>, timeSlots: Option<seq<Slot>>)
  {
    /** `time_slots`, or no slots when the key is missing. */
    function Slots(): seq<Slot> { timeSlots.GetOr([]) }
  }

  type Grid = seq<DayEntry>

  /** The slot as the booking handler leaves it. */
  function Taken(s: Slot, patient: string, id: string): (b: Slot)
    ensures b.Spans(s.startTime, s.endTime) && b.isAvailable == Some(false)
    ensures b.bookedBy == Some(patient) && b.HeldBy(id)
  {
    s.(isAvailable := Some(false), bookedBy := Some(patient), bookingId := Some(id))
  }

  /** The slot as the cancellation handler leaves it. */
  function Freed(s: Slot): (f: Slot)
    ensures f.Spans(s.startTime, s.endTime) && f.isAvailable == Some(true)
    ensures f.bookedBy.None? && f.bookingId.None?
  {
    s.(isAvailable := Some(true), bookedBy := None, bookingId := None)
  }

  /** Position of the first day entry for `day`. */
  function FindDay(g: Grid, day: string): (r: Option<nat>)
    ensures r.Some? ==> r.value < |g| && g[r.value].day == day
    ensures r.Some? ==> forall k :: 0 <= k < r.value ==> g[k].day != day
    ensures r.None? <==> forall k :: 0 <= k < |g| ==> g[k].day != day
  {
    Seqs.FirstIndex(g, (e: DayEntry) => e.day == day)
  }

  /** Position of the first slot whose two times both equal the request. */
  function FindSlot(slots: seq<Slot>, start: string, end: string): (r: Option<nat>)
    ensures r.Some? ==> r.value < |slots| && slots[r.value].Spans(start, end)
    ensures r.Some? ==> forall t :: 0 <= t < r.value ==> !slots[t].Spans(start, end)
    ensures r.None? <==> forall t :: 0 <= t < |slots| ==> !slots[t].Spans(start, end)
  {
    Seqs.FirstIndex(slots, (s: Slot) => s.Spans(start, end))
  }

  /** Why a claim was refused, in the order the handler tests for it. */
  datatype ClaimError = NoDayEntry | NoSuchSlot | AlreadyBooked

  /** `g2` is `g` with slot `s` of entry `d` replaced by `b` and nothing else changed. */
  ghost predicate OnlySlotChanged(g: Grid, g2: Grid, d: nat, s: nat, b: Slot) {
    && d < |g| && s < |g[d].Slots()|
    && |g2| == |g|
    && (forall k :: 0 <= k < |g| && k != d ==> g2[k] == g[k])
    && g2[d].day == g[d].day && g2[d].isAvailable == g[d].isAvailable
    && g2[d].timeSlots.Some? && |g2[d].Slots()| == |g[d].Slots()|
    && (forall t :: 0 <= t < |g[d].Slots()| && t != s ==> g2[d].Slots()[t] == g[d].Slots()[t])
    && g2[d].Slots()[s] == b
  }

  /** The booking handler's edit of the grid: take the first slot with the requested times in
      the first entry for the requested day, unless it is already taken. */
  function Claim(g: Grid, day: string, start: string, end: string, patient: string, id: string)
    : (r: Result<Grid, ClaimError>)
    ensures r == Failure(NoDayEntry) <==> FindDay(g, day).None?
    ensures r == Failure(NoSuchSlot) <==>
              FindDay(g, day).Some? && FindSlot(g[FindDay(g, day).value].Slots(), start, end).None?
    ensures r == Failure(AlreadyBooked) <==>
              && FindDay(g, day).Some?
              && var slots := g[FindDay(g, day).value].Slots();
              && FindSlot(slots, start, end).Some?
              && !slots[FindSlot(slots, start, end).value].IsFree()
    ensures r.Success? ==>
              && FindDay(g, day).Some?
              && var d := FindDay(g, day).value;
              && FindSlot(g[d].Slots(), start, end).Some?
              && var s := FindSlot(g[d].Slots(), start, end).value;
              && g[d].Slots()[s].IsFree()
              && OnlySlotChanged(g, r.value, d, s, Taken(g[d].Slots()[s], patient, id))
  {
    match FindDay(g, day)
    case None => Failure(NoDayEntry)
    case Some(d) =>
      var slots := g[d].Slots();
      match FindSlot(slots, start, end)
      case None => Failure(NoSuchSlot)
      case Some(s) =>
        if !slots[s].IsFree() then Failure(AlreadyBooked)
        else Success(g[d := g[d].(timeSlots := Some(slots[s := Taken(slots[s], patient, id)]))])
  }

  /** Slot `t` is the first one held by `id` with the given times. */
  ghost predicate FirstHolder(slots: seq<Slot>, id: string, start: string, end: string, t: int) {
    && 0 <= t < |slots|
    && slots[t].HeldBy(id) && slots[t].Spans(start, end)
    && forall u :: 0 <= u < t ==> !(slots[u].HeldBy(id) && slots[u].Spans(start, end))
  }

  /** The cancellation handler's inner loop: free the first slot held by `id` with the given
      times; leave everything else, including a list with no such slot, as it was. */
  function ReleaseSlots(slots: seq<Slot>, id: string, start: string, end: string): (r: seq<Slot>)
    ensures |r| == |slots|
    ensures forall t :: 0 <= t < |slots| && !FirstHolder(slots, id, start, end, t) ==> r[t] == slots[t]
    ensures forall t :: FirstHolder(slots, id, start, end, t) ==> r[t] == Freed(slots[t])
  {
    match Seqs.FirstIndex(slots, (x: Slot) => x.HeldBy(id) && x.Spans(start, end))
    case None => slots
    case Some(k) => slots[k := Freed(slots[k])]
  }

  /** One day entry as the cancellation handler leaves it: only an entry for `day` that has a
      slot list is touched, and then only through `ReleaseSlots`. */
  function ReleaseEntry(e: DayEntry, day: string, id: string, start: string, end: string): (r: DayEntry)
    ensures r.day == e.day && r.isAvailable == e.isAvailable && r.timeSlots.Some? == e.timeSlots.Some?
    ensures e.day != day ==> r == e
    ensures e.day == day ==> r.Slots() == ReleaseSlots(e.Slots(), id, start, end)
  {
    if e.day == day && e.timeSlots.Some? then e.(timeSlots := Some(ReleaseSlots(e.timeSlots.value, id, start, end)))
    else e
  }

  /** The cancellation handler's edit of the grid. Its outer loop has no `break`, so every
      entry for `day` is visited, not only the first. */
  function Release(g: Grid, day: string, id: string, start: string, end: string): (r: Grid)
    ensures |r| == |g|
    ensures forall k :: 0 <= k < |g| ==> r[k] == ReleaseEntry(g[k], day, id, start, end)
  {
    if |g| == 0 then []
    else [ReleaseEntry(g[0], day, id, start, end)] + Release(g[1..], day, id, start, end)
  }
}
