/** The booking form (components/BookingModal.tsx): the client search, the
    form's state, and the booking it submits. */
module BookingModal {
  import opened Common
  import opened Types
  import opened Dates
  import opened CalendarUtils

  // ---------------------------------------------------------------------------
  // Client search
  // ---------------------------------------------------------------------------

  /** The form's search test: the lower-cased name contains the lower-cased
      term, or the phone number contains the term exactly as typed. */
  predicate TermMatches(c: Client, term: string)
  {
    Contains(Lower(c.name), Lower(term)) || Contains(c.phone, term)
  }

  /** The list the form shows: every client for an empty term, otherwise the
      clients the term matches, in list order. */
  function ModalSearch(clients: seq<Client>, term: string): (r: seq<Client>)
    ensures term == [] ==> r == clients
    ensures forall c :: c in r <==> c in clients && (term == [] || TermMatches(c, term))
    ensures |r| <= |clients|
  {
    if term == [] then clients
    else Filter(clients, (c: Client) => Contains(Lower(c.name), Lower(term)) || Contains(c.phone, term))
  }

  /** Typing more characters only narrows the list. */
  lemma ModalSearchNarrows(clients: seq<Client>, term: string, more: string)
    ensures forall c :: c in ModalSearch(clients, term + more) ==> c in ModalSearch(clients, term)
  {
    forall c | c in ModalSearch(clients, term + more)
      ensures c in ModalSearch(clients, term)
    {
      if term != [] {
        assert term + more != [];
        LowerConcat(term, more);
        if Contains(Lower(c.name), Lower(term + more)) {
          ContainsPrefix(Lower(c.name), Lower(term), Lower(more));
        } else {
          ContainsPrefix(c.phone, term, more);
        }
      }
    }
  }

  /** A name matches whatever the letter case of the term, but the phone
      number is matched verbatim only. */
  lemma ModalSearchNameIgnoresCase(clients: seq<Client>, term: string, c: Client)
    requires c in clients && term != [] && Contains(Lower(c.name), Lower(term))
    ensures c in ModalSearch(clients, Lower(term))
  {
    LowerIdempotent(term);
    assert |Lower(term)| == |term|;
  }

  // ---------------------------------------------------------------------------
  // The submitted booking
  // ---------------------------------------------------------------------------

  /** The two call types the form offers. */
  predicate Selectable(t: CallType)
  {
    t == Onboarding || t == FollowUp
  }

  /** `bookingData`: the selected client's coach, id, name and phone, the
      selected date and time, the call type; a follow-up is weekly on the
      `getDay()` of the selected date, and only a follow-up has a weekday;
      always scheduled, for 60 minutes. */
  function BuildBooking(client: Client, date: string, time: string, callType: CallType): (d: BookingDraft)
    requires Selectable(callType)
    ensures d.coachId == client.coachId && d.clientId == client.id
    ensures d.clientName == client.name && d.clientPhone == client.phone
    ensures d.date == date && d.time == time && d.callType == callType
    ensures d.isRecurring <==> callType == FollowUp
    ensures d.recurringDay.Some? <==> callType == FollowUp
    ensures callType == FollowUp ==> d.recurringDay == Some(GetDay(date))
    ensures d.status == Scheduled && d.duration == 60 && d.notes.None?
  {
    BookingDraft(client.coachId, client.id, client.name, client.phone, date, time, callType,
                 callType == FollowUp, if callType == FollowUp then Some(GetDay(date)) else None,
                 Scheduled, 60, None)
  }

  /** A follow-up booked on a readable date occupies that date and exactly
      the dates that share its weekday. */
  lemma FollowUpOccupiesItsWeekday(client: Client, date: string, time: string, id: string,
                                   createdAt: Instant, target: string)
    requires GetDay(date).Num?
    ensures IsBookingOnDate(Persist(BuildBooking(client, date, time, FollowUp), id, createdAt), target)
        <==> GetDay(target) == GetDay(date)
    ensures IsBookingOnDate(Persist(BuildBooking(client, date, time, FollowUp), id, createdAt), date)
  {
    var b := Persist(BuildBooking(client, date, time, FollowUp), id, createdAt);
    assert b.isRecurring && b.recurringDay == Some(GetDay(date));
  }

  /** A follow-up booked on an unreadable date carries NaN as its weekday
      and so occupies no date at all, not even its own. */
  lemma FollowUpOnUnreadableDateOccupiesNothing(client: Client, date: string, time: string, id: string,
                                                createdAt: Instant, target: string)
    requires GetDay(date).NaN?
    ensures !IsBookingOnDate(Persist(BuildBooking(client, date, time, FollowUp), id, createdAt), target)
  {
    var b := Persist(BuildBooking(client, date, time, FollowUp), id, createdAt);
    assert b.isRecurring && b.recurringDay == Some(NaN);
  }

  /** A follow-up keeps occupying its slot week after week. */
  lemma FollowUpRecursWeekly(client: Client, date: string, time: string, id: string,
                             createdAt: Instant, weeks: int)
    requires GetDay(date).Num?
    requires AddDays(date, 7 * weeks).Some?
    ensures IsBookingOnDate(Persist(BuildBooking(client, date, time, FollowUp), id, createdAt),
                            AddDays(date, 7 * weeks).value)
  {
    FollowUpOccupiesItsWeekday(client, date, time, id, createdAt, date);
    RecurringRepeatsWeekly(Persist(BuildBooking(client, date, time, FollowUp), id, createdAt), date, weeks);
  }

  /** An onboarding call occupies its own date and no other. */
  lemma OnboardingOccupiesItsDate(client: Client, date: string, time: string, id: string,
                                  createdAt: Instant, target: string)
    ensures IsBookingOnDate(Persist(BuildBooking(client, date, time, Onboarding), id, createdAt), target)
        <==> target == date
  {
    OneOffOccupiesOnlyItsDate(Persist(BuildBooking(client, date, time, Onboarding), id, createdAt), target);
  }

  // ---------------------------------------------------------------------------
  // The form's state
  // ---------------------------------------------------------------------------

  /** The open form for one date and time. `clients` is the built-in client
      list the form searches. */
  class Modal {
    const clients: seq<Client>
    const selectedDate: string
    const selectedTime: string
    var selectedClient: Option<Client>
    var callType: CallType
    var searchTerm: string
    var filteredClients: seq<Client>

    /** The shown list always answers the current term, the call type is one
        the form offers, and only listed clients can be picked. */
    predicate Valid()
      reads this
    {
      filteredClients == ModalSearch(clients, searchTerm) &&
      Selectable(callType) &&
      (selectedClient.Some? ==> selectedClient.value in clients)
    }

    /** A fresh form: no client, an onboarding call, an empty search showing
        every client. */
    constructor (clients: seq<Client>, selectedDate: string, selectedTime: string)
      ensures Valid()
      ensures this.clients == clients && this.selectedDate == selectedDate && this.selectedTime == selectedTime
      ensures selectedClient.None? && callType == Onboarding && searchTerm == []
      ensures filteredClients == clients
    {
      this.clients := clients;
      this.selectedDate := selectedDate;
      this.selectedTime := selectedTime;
      selectedClient := None;
      callType := Onboarding;
      searchTerm := [];
      filteredClients := clients;
    }

    /** Typing in the search box; the effect recomputes the list. */
    method SetSearchTerm(term: string)
      requires Valid()
      modifies this
      ensures Valid()
      ensures searchTerm == term && filteredClients == ModalSearch(clients, term)
      ensures selectedClient == old(selectedClient) && callType == old(callType)
    {
      searchTerm := term;
      filteredClients := ModalSearch(clients, term);
    }

    /** Clicking a listed client. */
    method SelectClient(c: Client)
      requires Valid() && c in filteredClients
      modifies this
      ensures Valid()
      ensures selectedClient == Some(c)
      ensures searchTerm == old(searchTerm) && filteredClients == old(filteredClients)
      ensures callType == old(callType)
    {
      selectedClient := Some(c);
    }

    /** Clicking one of the two call-type buttons. */
    method SetCallType(t: CallType)
      requires Valid() && Selectable(t)
      modifies this
      ensures Valid()
      ensures callType == t
      ensures selectedClient == old(selectedClient) && searchTerm == old(searchTerm)
      ensures filteredClients == old(filteredClients)
    {
      callType := t;
    }

    /** `handleSubmit`: nothing without a selected client; otherwise the
        booking built from the client, the date, the time and the call type. */
    method HandleSubmit() returns (draft: Option<BookingDraft>)
      requires Valid()
      ensures draft.None? <==> selectedClient.None?
      ensures draft.Some? ==> draft.value == BuildBooking(selectedClient.value, selectedDate, selectedTime, callType)
    {
      if selectedClient.None? {
        return None;
      }
      draft := Some(BuildBooking(selectedClient.value, selectedDate, selectedTime, callType));
    }
  }
}
