/** The record shapes shared by the application (types/index.ts). */
module Types {
  import opened Common

  datatype CallType = Onboarding | FollowUp | Consultation | Assessment

  datatype BookingStatus = Scheduled | Completed | Cancelled | NoShow

  datatype ClientStatus = Active | Inactive | Prospect

  /** A JavaScript `Date`: milliseconds since 1970-01-01T00:00:00Z. */
  type Instant = int

  datatype Client = Client(
    id: string,
    name: string,
    phone: string,
    email: Option<string>,
    coachId: string,
    status: ClientStatus,
    notes: Option<string>,
    createdAt: Instant)

  /** A booking as the booking form builds it, before the store gives it an
      id and a creation time (`Omit<Booking, 'id' | 'createdAt'>`). */
  datatype BookingDraft = BookingDraft(
    coachId: string,
    clientId: string,
    clientName: string,
    clientPhone: string,
    date: string,
    time: string,
    callType: CallType,
    isRecurring: bool,
    recurringDay: Option<JsNumber>,
    status: BookingStatus,
    duration: int,
    notes: Option<string>)

  /** A stored booking. `date` is an ISO `YYYY-MM-DD` string and `time` an
      `HH:MM` string; `recurringDay` is a weekday number, Sunday = 0, or the
      NaN that `getDay()` gives for an unreadable date. */
  datatype Booking = Booking(
    id: string,
    coachId: string,
    clientId: string,
    clientName: string,
    clientPhone: string,
    date: string,
    time: string,
    callType: CallType,
    isRecurring: bool,
    recurringDay: Option<JsNumber>,
    status: BookingStatus,
    duration: int,
    notes: Option<string>,
    createdAt: Instant)

  /** The draft part of a stored booking. */
  function DraftOf(b: Booking): BookingDraft
  {
    BookingDraft(b.coachId, b.clientId, b.clientName, b.clientPhone, b.date, b.time,
                 b.callType, b.isRecurring, b.recurringDay, b.status, b.duration, b.notes)
  }

  /** A draft with the id and creation time the store assigns: the stored
      booking has exactly that id and time and the draft's other fields. */
  function Persist(d: BookingDraft, id: string, createdAt: Instant): (b: Booking)
    ensures b.id == id && b.createdAt == createdAt
    ensures DraftOf(b) == d
  {
    Booking(id, d.coachId, d.clientId, d.clientName, d.clientPhone, d.date, d.time,
            d.callType, d.isRecurring, d.recurringDay, d.status, d.duration, d.notes, createdAt)
  }

  /** One position of the day grid; `booking` is present iff the slot is taken
      (as `populateTimeSlots` builds it). */
  datatype TimeSlot = TimeSlot(time: string, isBooked: bool, booking: Option<Booking>)

  datatype DaySchedule = DaySchedule(date: string, timeSlots: seq<TimeSlot>)

  /** The client summary both client modules compute. */
  datatype ClientStats = ClientStats(
    total: nat, active: nat, inactive: nat, prospects: nat,
    activePercentage: Percentage, conversionRate: Percentage)

  // ---------------------------------------------------------------------------
  // Counting by status (`list.filter(x => x.status === s).length`)
  // ---------------------------------------------------------------------------

  function BookingStatusCount(s: seq<Booking>, st: BookingStatus): nat
  {
    |Filter(s, (b: Booking) => b.status == st)|
  }

  function ClientStatusCount(s: seq<Client>, st: ClientStatus): nat
  {
    |Filter(s, (c: Client) => c.status == st)|
  }

  /** Every booking has exactly one of the four statuses, so the four counts
      add up to the number of bookings. */
  lemma {:induction false} BookingStatusPartition(s: seq<Booking>)
    ensures BookingStatusCount(s, Scheduled) + BookingStatusCount(s, Completed)
          + BookingStatusCount(s, Cancelled) + BookingStatusCount(s, NoShow) == |s|
  {
    if s != [] {
      BookingStatusPartition(s[1..]);
    }
  }

  /** Every client has exactly one of the three statuses, so the three counts
      add up to the number of clients. */
  lemma {:induction false} ClientStatusPartition(s: seq<Client>)
    ensures ClientStatusCount(s, Active) + ClientStatusCount(s, Inactive)
          + ClientStatusCount(s, Prospect) == |s|
  {
    if s != [] {
      ClientStatusPartition(s[1..]);
    }
  }
}
