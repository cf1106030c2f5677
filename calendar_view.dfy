/** The calendar page (components/Calendar.tsx): the day shown, the slot
    clicks, the day navigation, the booking workflow with its two refusals,
    deletion, and the three counters. */
module CalendarView {
  import opened Common
  import opened Types
  import opened Dates
  import opened CalendarUtils
  import opened Firestore
  import opened DataSafety

  // ---------------------------------------------------------------------------
  // Admission of a new booking
  // ---------------------------------------------------------------------------

  /** What `handleBookingCreated` decides about a submitted booking. */
  datatype Verdict =
    | Duplicate(existing: seq<Booking>)     // the client already has a booking then
    | Conflicts(found: seq<Booking>)        // a weekly booking clashes within the window
    | Unavailable                           // today is not a readable date, so the window has no end
    | Admit

  /** The booking asks for the recurring check: recurring, with a weekday. */
  predicate WantsRecurringCheck(d: BookingDraft)
  {
    d.isRecurring && d.recurringDay.Some?
  }

  /** The stored booking duplicates the draft's client, date and time. */
  predicate ClashesWith(b: Booking, d: BookingDraft)
  {
    AtClientDateTime(b, d.clientId, d.date, d.time)
  }

  /** The decision: refused as a duplicate when the store holds a booking of
      the same client at the same date and time; otherwise, for a recurring
      booking with a weekday, refused when a recurring booking of the client
      on that weekday and time lies between the booking's date and today
      plus 84 days; otherwise admitted. */
  function Decide(store: seq<Booking>, d: BookingDraft, today: string): (a: Verdict)
    ensures a.Duplicate? <==> exists b :: b in store && ClashesWith(b, d)
    ensures a.Duplicate? ==> forall b :: b in a.existing <==> b in store && ClashesWith(b, d)
    ensures a.Unavailable? <==>
      (forall b :: b in store ==> !ClashesWith(b, d)) && WantsRecurringCheck(d) && HorizonEnd(today).None?
    ensures a.Conflicts? <==>
      (forall b :: b in store ==> !ClashesWith(b, d)) && WantsRecurringCheck(d) && HorizonEnd(today).Some? &&
      exists b :: b in store && RecurringConflict(b, d.clientId, d.recurringDay.value, d.time, d.date, HorizonEnd(today).value)
    ensures a.Conflicts? ==> a.found != [] && HorizonEnd(today).Some? && forall b :: b in a.found <==>
      b in store && RecurringConflict(b, d.clientId, d.recurringDay.value, d.time, d.date, HorizonEnd(today).value)
    ensures a.Admit? <==>
      (forall b :: b in store ==> !ClashesWith(b, d)) &&
      (WantsRecurringCheck(d) ==>
         (HorizonEnd(today).Some? &&
          forall b :: b in store ==> !RecurringConflict(b, d.clientId, d.recurringDay.value, d.time, d.date, HorizonEnd(today).value)))
  {
    var existing := GetByClientAndTime(store, d.clientId, d.date, d.time);
    if existing != [] then
      assert existing[0] in existing;
      Duplicate(existing)
    else if WantsRecurringCheck(d) then
      match CheckRecurringConflicts(store, d.clientId, d.recurringDay.value, d.time, d.date, today)
      case None => Unavailable
      case Some(found) =>
        if found != [] then
          assert found[0] in found;
          Conflicts(found)
        else Admit
    else Admit
  }

  /** A booking that is not recurring is only ever refused as a duplicate. */
  lemma OneOffSkipsRecurringCheck(store: seq<Booking>, d: BookingDraft, today: string)
    requires !d.isRecurring
    ensures Decide(store, d, today).Admit? || Decide(store, d, today).Duplicate?
  {
  }

  /** A recurring booking whose weekday is NaN passes the recurring check
      whatever the store holds: it is refused only as a duplicate. */
  lemma NaNDayNeverConflicts(store: seq<Booking>, d: BookingDraft, today: string)
    requires d.isRecurring && d.recurringDay == Some(NaN)
    requires HorizonEnd(today).Some?
    ensures Decide(store, d, today).Admit? || Decide(store, d, today).Duplicate?
  {
    NaNDayFindsNothing(store, d.clientId, d.time, d.date, today);
  }

  /** Once today plus 84 days lies past year 9999, the window's end is
      written `+YYYYYY-MM-DD` and no booking dated with a four-digit year
      falls before it: the recurring check finds nothing, and the booking is
      refused only as a duplicate. */
  lemma ExpandedEndNeverConflicts(store: seq<Booking>, d: BookingDraft, today: string)
    requires ParseIsoDate(today).Some? && AddDays(today, HorizonDays).None?
    requires d.date != [] && IsDigit(d.date[0])
    ensures Decide(store, d, today).Admit? || Decide(store, d, today).Duplicate?
  {
    if WantsRecurringCheck(d) {
      ExpandedEndFindsNothing(store, d.clientId, d.recurringDay.value, d.time, d.date, today);
    }
  }

  /** An admitted booking never shows up in the duplicate report: the report
      for the store with the booking appended is the report it had before. */
  lemma AdmittedNotReported(store: seq<Booking>, d: BookingDraft, today: string, id: string, createdAt: Instant)
    requires Decide(store, d, today).Admit?
    ensures CheckDuplicates(store + [Persist(d, id, createdAt)]) == CheckDuplicates(store)
  {
    CheckDuplicatesSnoc(store, Persist(d, id, createdAt));
  }

  /** A store free of duplicates stays free of them however many bookings
      the workflow admits. */
  lemma AdmissionKeepsStoreClean(store: seq<Booking>, d: BookingDraft, today: string, id: string, createdAt: Instant)
    requires CheckDuplicates(store) == []
    requires Decide(store, d, today).Admit?
    ensures CheckDuplicates(store + [Persist(d, id, createdAt)]) == []
  {
    AdmittedNotReported(store, d, today, id, createdAt);
  }

  // ---------------------------------------------------------------------------
  // Day navigation
  // ---------------------------------------------------------------------------

  datatype Direction = Prev | Next

  /** The date the arrows lead to; an unreadable date, or a step out of the
      four-digit years, stays where it is. */
  function Navigate(date: string, dir: Direction): (r: string)
    ensures dir == Next && AddDays(date, 1).Some? ==> r == AddDays(date, 1).value
    ensures dir == Prev && SubDays(date, 1).Some? ==> r == SubDays(date, 1).value
    ensures (if dir == Next then AddDays(date, 1) else SubDays(date, 1)).None? ==> r == date
  {
    match (if dir == Next then AddDays(date, 1) else SubDays(date, 1))
    case Some(d) => d
    case None => date
  }

  /** Forward then back returns to the day shown, and so does back then
      forward. */
  lemma NavigateRoundTrip(date: string)
    ensures AddDays(date, 1).Some? ==> Navigate(Navigate(date, Next), Prev) == date
    ensures SubDays(date, 1).Some? ==> Navigate(Navigate(date, Prev), Next) == date
  {
    if AddDays(date, 1).Some? {
      ForwardThenBack(date);
    }
    if SubDays(date, 1).Some? {
      BackThenForward(date);
    }
  }

  lemma ForwardThenBack(date: string)
    requires AddDays(date, 1).Some?
    ensures Navigate(Navigate(date, Next), Prev) == date
  {
    var n := AddDays(date, 1).value;
    assert Navigate(date, Next) == n;
    AddThenSubDay(date);
    assert SubDays(n, 1) == Some(date);
  }

  lemma BackThenForward(date: string)
    requires SubDays(date, 1).Some?
    ensures Navigate(Navigate(date, Prev), Next) == date
  {
    var p := SubDays(date, 1).value;
    assert Navigate(date, Prev) == p;
    SubThenAddDay(date);
    assert AddDays(p, 1) == Some(date);
  }

  // ---------------------------------------------------------------------------
  // Counters
  // ---------------------------------------------------------------------------

  /** The "Onboarding Calls" figure. */
  function OnboardingCount(bs: seq<Booking>): (n: nat)
    ensures n <= |bs|
  {
    |Filter(bs, (b: Booking) => b.callType == Onboarding)|
  }

  /** The "Follow-up Calls" figure. */
  function FollowUpCount(bs: seq<Booking>): (n: nat)
    ensures n <= |bs|
  {
    |Filter(bs, (b: Booking) => b.callType == FollowUp)|
  }

  /** A booking is at most one of the two kinds, so the two figures never
      add up to more than the bookings there are. */
  lemma {:induction false} CallCountsBound(bs: seq<Booking>)
    ensures OnboardingCount(bs) + FollowUpCount(bs) <= |bs|
  {
    if bs != [] {
      CallCountsBound(bs[1..]);
    }
  }

  /** Every booking the form builds is recurring exactly when it is a
      follow-up; over such bookings the "Recurring Sessions" figure equals
      the follow-up figure. */
  lemma {:induction false} FormBookingsRecurIffFollowUp(bs: seq<Booking>)
    requires forall i :: 0 <= i < |bs| ==> (bs[i].isRecurring <==> bs[i].callType == FollowUp)
    ensures RecurringCount(bs) == FollowUpCount(bs)
  {
    FilterEquivalent(bs, (b: Booking) => b.isRecurring, (b: Booking) => b.callType == FollowUp);
  }

  // ---------------------------------------------------------------------------
  // The page's state
  // ---------------------------------------------------------------------------

  /** The calendar page over one booking store. `bookings` is the latest
      snapshot the store's subscription delivered; the schedule shown is
      always the selected day populated with that snapshot. */
  class Calendar {
    const store: BookingStore
    var bookings: seq<Booking>
    var selectedDate: string
    var schedule: DaySchedule
    var isModalOpen: bool
    var selectedTimeSlot: string
    var loading: bool

    predicate Valid()
      reads this, store
    {
      store.Valid() && schedule == ScheduleFor(selectedDate, bookings)
    }

    /** The page opens on today, with no snapshot yet and the form closed. */
    constructor (store: BookingStore, today: string)
      requires store.Valid()
      ensures Valid()
      ensures this.store == store && selectedDate == today && bookings == []
      ensures !isModalOpen && selectedTimeSlot == [] && loading
    {
      this.store := store;
      selectedDate := today;
      bookings := [];
      schedule := ScheduleFor(today, []);
      isModalOpen := false;
      selectedTimeSlot := [];
      loading := true;
    }

    /** A snapshot arrives: the page takes the store's bookings and the
        schedule effect repopulates the day. */
    method OnSnapshot()
      requires Valid()
      modifies this
      ensures Valid()
      ensures bookings == store.bookings && !loading
      ensures selectedDate == old(selectedDate) && isModalOpen == old(isModalOpen)
      ensures selectedTimeSlot == old(selectedTimeSlot)
    {
      bookings := store.bookings;
      loading := false;
      schedule := ScheduleFor(selectedDate, bookings);
    }

    /** `handleDateChange`: one day forward or back; the schedule effect
        repopulates the new day. */
    method HandleDateChange(dir: Direction)
      requires Valid()
      modifies this
      ensures Valid()
      ensures selectedDate == Navigate(old(selectedDate), dir)
      ensures bookings == old(bookings) && isModalOpen == old(isModalOpen)
      ensures selectedTimeSlot == old(selectedTimeSlot) && loading == old(loading)
    {
      selectedDate := Navigate(selectedDate, dir);
      schedule := ScheduleFor(selectedDate, bookings);
    }

    /** `handleTimeSlotClick`: a free slot opens the form for its time; a
        booked slot does nothing. */
    method HandleTimeSlotClick(slot: TimeSlot)
      requires Valid()
      modifies this
      ensures Valid()
      ensures slot.isBooked ==> isModalOpen == old(isModalOpen) && selectedTimeSlot == old(selectedTimeSlot)
      ensures !slot.isBooked ==> isModalOpen && selectedTimeSlot == slot.time
      ensures bookings == old(bookings) && selectedDate == old(selectedDate) && schedule == old(schedule)
      ensures loading == old(loading)
    {
      if !slot.isBooked {
        selectedTimeSlot := slot.time;
        isModalOpen := true;
      }
    }

    /** `handleBookingCreated`: refuses a duplicate, then (for a recurring
        booking with a weekday) a recurring conflict, leaving the store and
        the form as they were; otherwise stores the booking with the clock's
        time and a new id, closes the form and clears the chosen slot. */
    method HandleBookingCreated(d: BookingDraft, today: string, now: Instant, freshId: string)
      returns (a: Verdict)
      requires Valid() && freshId !in Ids(store.bookings)
      modifies this, store
      ensures Valid()
      ensures a == Decide(old(store.bookings), d, today)
      ensures a.Admit? ==> store.bookings == old(store.bookings) + [Persist(d, freshId, now)]
      ensures a.Admit? ==> !isModalOpen && selectedTimeSlot == []
      ensures !a.Admit? ==> store.bookings == old(store.bookings)
      ensures !a.Admit? ==> isModalOpen == old(isModalOpen) && selectedTimeSlot == old(selectedTimeSlot)
      ensures bookings == old(bookings) && selectedDate == old(selectedDate) && schedule == old(schedule)
      ensures loading == old(loading)
    {
      var existing := GetByClientAndTime(store.bookings, d.clientId, d.date, d.time);
      if |existing| > 0 {
        return Duplicate(existing);
      }
      if d.isRecurring && d.recurringDay.Some? {
        var found := CheckRecurringConflicts(store.bookings, d.clientId, d.recurringDay.value, d.time, d.date, today);
        if found.None? {
          return Unavailable;
        }
        if |found.value| > 0 {
          return Conflicts(found.value);
        }
      }
      var id := store.Add(d, now, freshId);
      isModalOpen := false;
      selectedTimeSlot := [];
      a := Admit;
    }

    /** `handleDeleteBooking`: removes the booking with that id from the
        store; the page's snapshot catches up on the next delivery. */
    method HandleDeleteBooking(id: string)
      requires Valid()
      modifies store
      ensures Valid()
      ensures store.bookings == WithoutId(old(store.bookings), id)
      ensures id !in Ids(store.bookings)
      ensures |store.bookings| == if id in Ids(old(store.bookings)) then |old(store.bookings)| - 1 else |old(store.bookings)|
    {
      store.Delete(id);
    }
  }
}
