/** The in-memory part of the Firestore service layer (lib/firestore.ts):
    the document conversion, the filters, sort and slice applied to query
    results, the statistics, and the bookings collection as a store that is
    appended to and deleted from. Each `where` clause of a query is one more
    filter over the collection, in collection order. */
module Firestore {
  import opened Common
  import opened Types
  import opened Dates

  // ---------------------------------------------------------------------------
  // Document conversion
  // ---------------------------------------------------------------------------

  /** A stored field value. `Stamp` is a Firestore `Timestamp`; `Moment` is a
      JavaScript `Date`, as milliseconds since the epoch. */
  datatype FieldValue =
    | Text(text: string)
    | Number(number: int)
    | Flag(flag: bool)
    | Null
    | Stamp(seconds: int, nanoseconds: nat)
    | Moment(millis: int)

  /** A fetched document: `data` is absent when the document does not exist. */
  datatype DocumentSnapshot = DocumentSnapshot(id: string, data: Option<map<string, FieldValue>>)

  /** `timestamp.toDate()`: the instant in whole milliseconds, the sub-millisecond
      part cut off toward zero as `new Date(ms)` does. */
  function TimestampMillis(seconds: int, nanoseconds: nat): (ms: int)
    ensures seconds >= 0 ==> ms == seconds * 1000 + nanoseconds / 1000000
    ensures var t := seconds * 1000000000 + nanoseconds;
      if t >= 0 then ms * 1000000 <= t < (ms + 1) * 1000000
      else (ms - 1) * 1000000 < t <= ms * 1000000
  {
    var nanos := seconds * 1000000000 + nanoseconds;
    assert nanos == (seconds * 1000) * 1000000 + nanoseconds;
    if nanos >= 0 then nanos / 1000000 else -((-nanos) / 1000000)
  }

  /** `convertTimestamp` applied where a field holds a `Timestamp`. */
  function ConvertValue(v: FieldValue): (r: FieldValue)
    ensures !r.Stamp?
    ensures !v.Stamp? ==> r == v
    ensures v.Stamp? ==> r == Moment(TimestampMillis(v.seconds, v.nanoseconds))
  {
    if v.Stamp? then Moment(TimestampMillis(v.seconds, v.nanoseconds)) else v
  }

  function ConvertFields(data: map<string, FieldValue>): (r: map<string, FieldValue>)
    ensures r.Keys == data.Keys
    ensures forall k :: k in r ==> !r[k].Stamp?
  {
    map k | k in data :: ConvertValue(data[k])
  }

  /** `convertDocument(doc)`: null for a missing document; otherwise the
      converted fields with `id` set to the document id — unless the data
      has its own `id` field, which the spread puts over the document id. */
  function ConvertDocument(doc: DocumentSnapshot): (r: Option<map<string, FieldValue>>)
    ensures r.None? <==> doc.data.None?
    ensures r.Some? ==> r.value.Keys == doc.data.value.Keys + {"id"}
    ensures r.Some? ==> forall k :: k in doc.data.value && !doc.data.value[k].Stamp? ==>
      r.value[k] == doc.data.value[k]
    ensures r.Some? ==> forall k :: k in doc.data.value && doc.data.value[k].Stamp? ==>
      r.value[k] == Moment(TimestampMillis(doc.data.value[k].seconds, doc.data.value[k].nanoseconds))
    ensures r.Some? && "id" !in doc.data.value ==> r.value["id"] == Text(doc.id)
    ensures r.Some? ==> forall k :: k in r.value ==> !r.value[k].Stamp?
  {
    match doc.data
    case None => None
    case Some(data) => Some(map["id" := Text(doc.id)] + ConvertFields(data))
  }

  /** Converting an already converted document changes nothing: no
      `Timestamp` survives the first conversion, and `id` is kept. */
  lemma ConvertDocumentIdempotent(doc: DocumentSnapshot)
    requires doc.data.Some?
    ensures ConvertDocument(DocumentSnapshot(doc.id, ConvertDocument(doc))) == ConvertDocument(doc)
  {
    var once := ConvertDocument(doc).value;
    var twice := ConvertDocument(DocumentSnapshot(doc.id, Some(once))).value;
    assert twice.Keys == once.Keys;
    forall k | k in once
      ensures twice[k] == once[k]
    {
    }
    assert twice == once;
  }

  /** A data field named `id` wins over the document id. */
  lemma ConvertDocumentDataIdWins(doc: DocumentSnapshot)
    requires doc.data.Some? && "id" in doc.data.value
    ensures ConvertDocument(doc).value["id"] == ConvertValue(doc.data.value["id"])
  {
  }

  // ---------------------------------------------------------------------------
  // bookingService.getByClientAndTime
  // ---------------------------------------------------------------------------

  predicate AtClientDateTime(b: Booking, clientId: string, date: string, time: string)
  {
    b.clientId == clientId && b.date == date && b.time == time
  }

  /** The query on `clientId` followed by the in-memory filter on date and
      time: exactly the stored bookings of that client at that date and time. */
  function GetByClientAndTime(store: seq<Booking>, clientId: string, date: string, time: string): (r: seq<Booking>)
    ensures forall b :: b in r <==> b in store && AtClientDateTime(b, clientId, date, time)
  {
    Filter(Filter(store, (b: Booking) => b.clientId == clientId),
           (b: Booking) => b.date == date && b.time == time)
  }

  /** The result keeps collection order: it is the single filter of the
      collection by all three fields. */
  lemma GetByClientAndTimeInOrder(store: seq<Booking>, clientId: string, date: string, time: string)
    ensures GetByClientAndTime(store, clientId, date, time)
         == Filter(store, (b: Booking) => AtClientDateTime(b, clientId, date, time))
  {
    FilterFilter(store, (b: Booking) => b.clientId == clientId,
                 (b: Booking) => b.date == date && b.time == time,
                 (b: Booking) => AtClientDateTime(b, clientId, date, time));
  }

  // ---------------------------------------------------------------------------
  // bookingService.checkRecurringConflicts
  // ---------------------------------------------------------------------------

  /** How far ahead of today the recurring-conflict window reaches. */
  const HorizonDays: int := 84

  /** The text of the window's last date: today plus 84 days, whatever the
      start, as `toISOString` writes it. Past year 9999 that is the expanded
      form `+YYYYYY-MM-DD`, which `ParseIsoDate` does not read.
      There is none only when `today` is not a readable date. */
  function HorizonEnd(today: string): (r: Option<string>)
    ensures r.Some? <==> ParseIsoDate(today).Some?
    ensures AddDays(today, HorizonDays).Some? ==> r == AddDays(today, HorizonDays)
    ensures r.Some? && AddDays(today, HorizonDays).None? ==> r.value != [] && r.value[0] == '+'
  {
    match ParseIsoDate(today)
    case None => None
    case Some(c) =>
      ShiftForwardYears(c, HorizonDays);
      Some(IsoDateText(ShiftDays(c, HorizonDays)))
  }

  predicate RecurringConflict(b: Booking, clientId: string, recurringDay: JsNumber, time: string,
                              startDate: string, endDate: string)
  {
    b.clientId == clientId && b.isRecurring && b.recurringDay.Some? && StrictEq(b.recurringDay.value, recurringDay) &&
    b.time == time && StrLe(startDate, b.date) && StrLe(b.date, endDate)
  }

  /** `checkRecurringConflicts(clientId, recurringDay, time, startDate)` with
      the clock's date as `today`. The window's end is `today + 84` days; the
      result is absent only when that date is outside the modelled calendar
      (or `today` is not an ISO date). */
  function CheckRecurringConflicts(store: seq<Booking>, clientId: string, recurringDay: JsNumber,
                                   time: string, startDate: string, today: string): (r: Option<seq<Booking>>)
    ensures r.None? <==> HorizonEnd(today).None?
    ensures r.Some? ==> forall b :: b in r.value <==>
      b in store && RecurringConflict(b, clientId, recurringDay, time, startDate, HorizonEnd(today).value)
  {
    match HorizonEnd(today)
    case None => None
    case Some(endDate) =>
      Some(Filter(Filter(store, (b: Booking) => b.clientId == clientId && b.isRecurring),
                  (b: Booking) => b.recurringDay.Some? && StrictEq(b.recurringDay.value, recurringDay) && b.time == time &&
                                  StrLe(startDate, b.date) && StrLe(b.date, endDate)))
  }

  /** A start date after the horizon end leaves an empty window. */
  lemma StartAfterHorizonFindsNothing(store: seq<Booking>, clientId: string, recurringDay: JsNumber,
                                      time: string, startDate: string, today: string)
    requires HorizonEnd(today).Some? && StrLt(HorizonEnd(today).value, startDate)
    ensures forall b :: b !in CheckRecurringConflicts(store, clientId, recurringDay, time, startDate, today).value
  {
    var endDate := HorizonEnd(today).value;
    var r := CheckRecurringConflicts(store, clientId, recurringDay, time, startDate, today).value;
    if r != [] {
      var b := r[0];
      assert b in r;
      assert RecurringConflict(b, clientId, recurringDay, time, startDate, endDate);
      StrLeTrans(startDate, b.date, endDate);
      StrLeAntisym(startDate, endDate);
      assert false;
    }
  }

  /** Once today plus 84 days is past year 9999 the window's end starts with
      `+`, which sorts before every digit: no booking dated on or after a
      start date that begins with a digit is ever reported. */
  lemma ExpandedEndFindsNothing(store: seq<Booking>, clientId: string, recurringDay: JsNumber,
                                time: string, startDate: string, today: string)
    requires ParseIsoDate(today).Some? && AddDays(today, HorizonDays).None?
    requires startDate != [] && IsDigit(startDate[0])
    ensures forall b :: b in store ==> !RecurringConflict(b, clientId, recurringDay, time, startDate, HorizonEnd(today).value)
    ensures forall b :: b !in CheckRecurringConflicts(store, clientId, recurringDay, time, startDate, today).value
  {
    var endDate := HorizonEnd(today).value;
    forall b | b in store
      ensures !RecurringConflict(b, clientId, recurringDay, time, startDate, endDate)
    {
      if StrLe(startDate, b.date) {
        StrLeFirst(startDate, b.date);
        StrLeFirst(b.date, endDate);
      }
    }
  }

  /** A NaN weekday equals no stored weekday, so nothing conflicts with it. */
  lemma NaNDayFindsNothing(store: seq<Booking>, clientId: string, time: string,
                           startDate: string, today: string)
    requires HorizonEnd(today).Some?
    ensures forall b :: b !in CheckRecurringConflicts(store, clientId, NaN, time, startDate, today).value
  {
  }

  /** A recurring booking whose own date is before the start date is never
      reported, even when it falls on the same weekday and time. */
  lemma EarlierAnchorNotReported(store: seq<Booking>, clientId: string, recurringDay: JsNumber,
                                 time: string, startDate: string, today: string, b: Booking)
    requires HorizonEnd(today).Some?
    requires StrLt(b.date, startDate)
    ensures b !in CheckRecurringConflicts(store, clientId, recurringDay, time, startDate, today).value
  {
    if b in CheckRecurringConflicts(store, clientId, recurringDay, time, startDate, today).value {
      StrLeAntisym(b.date, startDate);
      assert false;
    }
  }

  // ---------------------------------------------------------------------------
  // bookingService.getUpcomingPaginated
  // ---------------------------------------------------------------------------

  /** The query's two `where` clauses. */
  predicate IsUpcoming(b: Booking, today: string)
  {
    StrLe(today, b.date) && b.status == Scheduled
  }

  /** The comparator: by date, then by time. */
  predicate DateTimeLe(a: Booking, b: Booking)
  {
    StrLt(a.date, b.date) || (a.date == b.date && StrLe(a.time, b.time))
  }

  lemma DateTimeLeTotal(a: Booking, b: Booking)
    ensures DateTimeLe(a, b) || DateTimeLe(b, a)
  {
    StrLeTotal(a.date, b.date);
    StrLeTotal(a.time, b.time);
  }

  lemma DateTimeLeTrans(a: Booking, b: Booking, c: Booking)
    requires DateTimeLe(a, b) && DateTimeLe(b, c)
    ensures DateTimeLe(a, c)
  {
    if a.date != b.date {
      // a is on an earlier day than b, and c is not earlier than b
      StrLeRefl(b.date);
      StrLeTrans(a.date, b.date, c.date);
      if a.date == c.date {
        StrLeAntisym(a.date, b.date);
      }
    } else if b.date == c.date {
      StrLeTrans(a.time, b.time, c.time);
    }
  }

  predicate SortedByDateTime(s: seq<Booking>)
  {
    forall i, j :: 0 <= i < j < |s| ==> DateTimeLe(s[i], s[j])
  }

  /** Places `x` after every element that is not later than it. */
  function InsertByDateTime(s: seq<Booking>, x: Booking): (r: seq<Booking>)
    ensures multiset(r) == multiset(s) + multiset{x}
  {
    if s == [] || DateTimeLe(s[|s| - 1], x) then s + [x]
    else
      assert s == s[..|s| - 1] + [s[|s| - 1]];
      InsertByDateTime(s[..|s| - 1], x) + [s[|s| - 1]]
  }

  /** Inserting into a sorted list keeps it sorted. */
  lemma {:induction false} InsertKeepsSorted(s: seq<Booking>, x: Booking)
    requires SortedByDateTime(s)
    ensures SortedByDateTime(InsertByDateTime(s, x))
  {
    if s == [] || DateTimeLe(s[|s| - 1], x) {
      forall i | 0 <= i < |s| - 1
        ensures DateTimeLe(s[i], x)
      {
        DateTimeLeTrans(s[i], s[|s| - 1], x);
      }
    } else {
      var last := s[|s| - 1];
      var init := s[..|s| - 1];
      assert s == init + [last];
      var r' := InsertByDateTime(init, x);
      InsertKeepsSorted(init, x);
      DateTimeLeTotal(last, x);
      forall i | 0 <= i < |r'|
        ensures DateTimeLe(r'[i], last)
      {
        var e := r'[i];
        assert e in multiset(r');
        if e != x {
          assert e in multiset(init);
          var k :| 0 <= k < |init| && init[k] == e;
          assert s[k] == e;
        }
      }
    }
  }

  /** `Array.prototype.sort` with the date-then-time comparator, as an
      insertion sort. */
  function SortByDateTime(s: seq<Booking>): (r: seq<Booking>)
    ensures SortedByDateTime(r)
    ensures multiset(r) == multiset(s)
  {
    if s == [] then []
    else
      assert s == s[..|s| - 1] + [s[|s| - 1]];
      InsertKeepsSorted(SortByDateTime(s[..|s| - 1]), s[|s| - 1]);
      InsertByDateTime(SortByDateTime(s[..|s| - 1]), s[|s| - 1])
  }

  /** The end index `slice(0, end)` uses: a negative end counts back from the
      length, and the end is clamped to `0..length`. */
  function SliceEnd(length: nat, end: int): (k: nat)
    ensures k <= length
    ensures 0 <= end ==> k == if end < length then end else length
    ensures end < 0 ==> k == if length + end > 0 then length + end else 0
  {
    if end < 0 then (if length + end > 0 then length + end else 0)
    else if end < length then end else length
  }

  /** The page size when the caller gives none. */
  const DefaultPageSize: int := 10

  /** The qualifying bookings, sorted: the list a page is cut from. */
  function UpcomingSorted(store: seq<Booking>, today: string): (r: seq<Booking>)
    ensures SortedByDateTime(r)
    ensures multiset(r) == multiset(Filter(store, (b: Booking) => IsUpcoming(b, today)))
    ensures forall b :: b in r <==> b in store && IsUpcoming(b, today)
  {
    var q := Filter(store, (b: Booking) => IsUpcoming(b, today));
    var r := SortByDateTime(q);
    SameMembers(r, q);
    r
  }

  /** Sequences with the same multiset have the same members. */
  lemma SameMembers(r: seq<Booking>, q: seq<Booking>)
    requires multiset(r) == multiset(q)
    ensures forall b :: b in r <==> b in q
  {
    forall b
      ensures b in r <==> b in q
    {
      assert b in r <==> b in multiset(r);
      assert b in q <==> b in multiset(q);
    }
  }

  /** `getUpcomingPaginated(limit)`: the first `limit` upcoming scheduled
      bookings by date and time. */
  function GetUpcomingPaginated(store: seq<Booking>, today: string, limit: int): (r: seq<Booking>)
    ensures |r| == SliceEnd(|UpcomingSorted(store, today)|, limit)
    ensures r == UpcomingSorted(store, today)[..|r|]
    ensures 0 <= limit ==> |r| <= limit
    ensures forall b :: b in r ==> b in store && IsUpcoming(b, today)
    ensures SortedByDateTime(r)
  {
    var sorted := UpcomingSorted(store, today);
    sorted[..SliceEnd(|sorted|, limit)]
  }

  /** The page holds the earliest bookings: every upcoming booking left off
      the page is no earlier than every booking on it. */
  lemma PageHoldsEarliest(store: seq<Booking>, today: string, limit: int, i: nat, j: nat)
    requires i < |GetUpcomingPaginated(store, today, limit)| <= j < |UpcomingSorted(store, today)|
    ensures DateTimeLe(GetUpcomingPaginated(store, today, limit)[i], UpcomingSorted(store, today)[j])
  {
  }

  /** A limit at least the number of upcoming bookings returns all of them. */
  lemma LargeLimitReturnsAll(store: seq<Booking>, today: string, limit: int)
    requires limit >= |Filter(store, (b: Booking) => IsUpcoming(b, today))|
    ensures multiset(GetUpcomingPaginated(store, today, limit))
         == multiset(Filter(store, (b: Booking) => IsUpcoming(b, today)))
  {
    var q := Filter(store, (b: Booking) => IsUpcoming(b, today));
    var sorted := UpcomingSorted(store, today);
    assert multiset(sorted) == multiset(q);
    assert |sorted| == |multiset(sorted)| == |multiset(q)| == |q|;
    assert SliceEnd(|sorted|, limit) == |sorted|;
    assert GetUpcomingPaginated(store, today, limit) == sorted[..|sorted|] == sorted;
  }

  // ---------------------------------------------------------------------------
  // Statistics
  // ---------------------------------------------------------------------------

  datatype BookingStats = BookingStats(
    total: nat, completed: nat, upcoming: nat, cancelled: nat, completionRate: Percentage)

  /** `bookingService.getStats()`: no-show bookings are counted in the total
      only; the completion rate is 0 on an empty collection. */
  function GetBookingStats(store: seq<Booking>): (r: BookingStats)
    ensures r.total == |store|
    ensures r.completed == BookingStatusCount(store, Completed)
    ensures r.upcoming == BookingStatusCount(store, Scheduled)
    ensures r.cancelled == BookingStatusCount(store, Cancelled)
    ensures r.completed + r.upcoming + r.cancelled + BookingStatusCount(store, NoShow) == r.total
    ensures r.completionRate.Zero? <==> r.total == 0
    ensures r.completionRate.RoundedRatio? ==>
      r.completionRate.num == r.completed && r.completionRate.den == r.total
  {
    BookingStatusPartition(store);
    var total := |store|;
    var completed := BookingStatusCount(store, Completed);
    BookingStats(total, completed, BookingStatusCount(store, Scheduled), BookingStatusCount(store, Cancelled),
                 if total > 0 then RoundedRatio(completed, total) else Zero)
  }

  /** The three reported counts never exceed the total, and a rate that is
      computed is a ratio in `0..1`. */
  lemma BookingStatsBounds(store: seq<Booking>)
    ensures GetBookingStats(store).completed + GetBookingStats(store).upcoming
          + GetBookingStats(store).cancelled <= GetBookingStats(store).total
    ensures GetBookingStats(store).completionRate.RoundedRatio? ==>
      0 < GetBookingStats(store).completionRate.den
      && GetBookingStats(store).completionRate.num <= GetBookingStats(store).completionRate.den
  {
  }

  /** `clientService.getStats()`: each rate is guarded against a zero
      denominator. */
  function GetClientServiceStats(clients: seq<Client>): (r: ClientStats)
    ensures r.total == |clients|
    ensures r.active == ClientStatusCount(clients, Active)
    ensures r.inactive == ClientStatusCount(clients, Inactive)
    ensures r.prospects == ClientStatusCount(clients, Prospect)
    ensures r.active + r.inactive + r.prospects == r.total
    ensures r.activePercentage.Zero? <==> r.total == 0
    ensures r.conversionRate.Zero? <==> r.active + r.prospects == 0
    ensures r.activePercentage.RoundedRatio? ==>
      r.activePercentage == RoundedRatio(r.active, r.total)
    ensures r.conversionRate.RoundedRatio? ==>
      r.conversionRate == RoundedRatio(r.active, r.active + r.prospects)
  {
    ClientStatusPartition(clients);
    var total := |clients|;
    var active := ClientStatusCount(clients, Active);
    var prospects := ClientStatusCount(clients, Prospect);
    ClientStats(total, active, ClientStatusCount(clients, Inactive), prospects,
      if total > 0 then RoundedRatio(active, total) else Zero,
      if active + prospects > 0 then RoundedRatio(active, active + prospects) else Zero)
  }

  /** Neither guarded rate divides by zero, and each is a ratio in `0..1`. */
  lemma ClientServiceStatsNoNaN(clients: seq<Client>)
    ensures var r := GetClientServiceStats(clients);
      (r.activePercentage.RoundedRatio? ==>
         0 < r.activePercentage.den && r.activePercentage.num <= r.activePercentage.den) &&
      (r.conversionRate.RoundedRatio? ==>
         0 < r.conversionRate.den && r.conversionRate.num <= r.conversionRate.den)
  {
  }

  // ---------------------------------------------------------------------------
  // The bookings collection
  // ---------------------------------------------------------------------------

  function Ids(s: seq<Booking>): set<string>
  {
    set b | b in s :: b.id
  }

  predicate DistinctIds(s: seq<Booking>)
  {
    forall i, j :: 0 <= i < j < |s| ==> s[i].id != s[j].id
  }

  /** The collection after `deleteDoc` of `id`. */
  function WithoutId(s: seq<Booking>, id: string): (r: seq<Booking>)
    ensures forall b :: b in r <==> b in s && b.id != id
    ensures id !in Ids(r)
  {
    Filter(s, (b: Booking) => b.id != id)
  }

  lemma IdsCons(s: seq<Booking>)
    requires s != []
    ensures Ids(s) == {s[0].id} + Ids(s[1..])
  {
    assert forall b :: b in s <==> b == s[0] || b in s[1..];
  }

  /** The first booking's id appears nowhere else. */
  lemma DistinctIdsCons(s: seq<Booking>)
    requires s != [] && DistinctIds(s)
    ensures DistinctIds(s[1..])
    ensures s[0].id !in Ids(s[1..])
  {
  }

  /** With distinct ids, deleting an id removes exactly one booking when the
      id is stored and none otherwise. */
  lemma {:induction false} WithoutIdCount(s: seq<Booking>, id: string)
    requires DistinctIds(s)
    ensures DistinctIds(WithoutId(s, id))
    ensures |WithoutId(s, id)| == if id in Ids(s) then |s| - 1 else |s|
  {
    if s != [] {
      WithoutIdCount(s[1..], id);
      IdsCons(s);
      DistinctIdsCons(s);
      var rest := WithoutId(s[1..], id);
      if s[0].id != id {
        assert WithoutId(s, id) == [s[0]] + rest;
        forall b | b in rest
          ensures b.id != s[0].id
        {
          assert b.id in Ids(s[1..]);
        }
      }
    }
  }

  /** The bookings collection. Firestore gives every added document a fresh
      id; the caller passes that id in. */
  class BookingStore {
    var bookings: seq<Booking>

    predicate Valid()
      reads this
    {
      DistinctIds(bookings)
    }

    constructor (initial: seq<Booking>)
      requires DistinctIds(initial)
      ensures Valid() && bookings == initial
    {
      bookings := initial;
    }

    /** `bookingService.add(booking)`: stores the draft under the new id with
        its creation time, and returns the id. */
    method Add(draft: BookingDraft, createdAt: Instant, freshId: string) returns (id: string)
      requires Valid() && freshId !in Ids(bookings)
      modifies this
      ensures Valid()
      ensures id == freshId
      ensures bookings == old(bookings) + [Persist(draft, freshId, createdAt)]
    {
      var b := Persist(draft, freshId, createdAt);
      assert forall i :: 0 <= i < |bookings| ==> bookings[i] in bookings;
      bookings := bookings + [b];
      id := freshId;
    }

    /** `bookingService.delete(id)`: removes the booking with that id, if any. */
    method Delete(id: string)
      requires Valid()
      modifies this
      ensures Valid()
      ensures bookings == WithoutId(old(bookings), id)
      ensures |bookings| == if id in Ids(old(bookings)) then |old(bookings)| - 1 else |old(bookings)|
    {
      WithoutIdCount(bookings, id);
      bookings := WithoutId(bookings, id);
    }
  }
}
