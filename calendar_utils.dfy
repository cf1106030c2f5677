/** The day schedule (utils/calendar.ts): the fixed grid of bookable times,
    the empty day built from it, the rule deciding whether a booking occupies
    a date, the merge of bookings into the day, and the 12-hour rendering of
    a time. */
module CalendarUtils {
  import opened Common
  import opened Types
  import opened Dates

  // ---------------------------------------------------------------------------
  // The slot grid
  // ---------------------------------------------------------------------------

  /** `${hour.toString().padStart(2, "0")}:${minute.toString().padStart(2, "0")}` */
  function ClockString(hour: nat, minute: nat): string
  {
    PadStart2(NatToString(hour)) + ":" + PadStart2(NatToString(minute))
  }

  /** The loop's guard: keep going while the time is at most 19:30. */
  predicate BeforeCutoff(hour: nat, minute: nat)
  {
    hour < 19 || (hour == 19 && minute <= 30)
  }

  /** One turn of the loop's clock: add 20 minutes, and on reaching the next
      hour reset the minutes to 0 (not to `minute - 60`). */
  function Tick(hour: nat, minute: nat): (nat, nat)
  {
    if minute + 20 >= 60 then (hour + 1, 0) else (hour, minute + 20)
  }

  /** The `(hour, minute)` the loop holds before its `i`-th push: 10:30,
      10:50, and from then on :00, :20 and :40 of each hour from 11. */
  function ClockAt(i: nat): (nat, nat)
  {
    if i == 0 then (10, 30)
    else if i == 1 then (10, 50)
    else (11 + (i - 2) / 3, 20 * ((i - 2) % 3))
  }

  lemma ClockStep(i: nat)
    ensures Tick(ClockAt(i).0, ClockAt(i).1) == ClockAt(i + 1)
  {
    if i >= 2 {
      var q, r := (i - 2) / 3, (i - 2) % 3;
      assert i - 2 == 3 * q + r;
      if r == 2 {
        assert (i - 1) / 3 == q + 1 && (i - 1) % 3 == 0;
      } else {
        assert (i - 1) / 3 == q && (i - 1) % 3 == r + 1;
      }
    }
  }

  lemma ClockGuard(i: nat)
    ensures BeforeCutoff(ClockAt(i).0, ClockAt(i).1) <==> i < SlotCount
  {
    if i >= 2 {
      var q, r := (i - 2) / 3, (i - 2) % 3;
      assert i - 2 == 3 * q + r;
    }
  }

  const SlotCount: nat := 28

  /** The loop's `i`-th reading, rendered. */
  function ClockReading(i: int): string
    requires 0 <= i
  {
    ClockString(ClockAt(i).0, ClockAt(i).1)
  }

  /** The times `generateTimeSlots` produces, in order. */
  function SlotGrid(): (g: seq<string>)
    ensures |g| == SlotCount
  {
    seq(SlotCount, ClockReading)
  }

  lemma SlotGridAt(i: nat)
    requires i < SlotCount
    ensures SlotGrid()[i] == ClockString(ClockAt(i).0, ClockAt(i).1)
  {
  }

  /** `generateTimeSlots()`: the loop steps a clock from 10:30 and pushes its
      reading while the reading is at most 19:30. */
  method GenerateTimeSlots() returns (slots: seq<string>)
    ensures slots == SlotGrid()
  {
    slots := [];
    var hour: nat := 10;
    var minute: nat := 30;
    while BeforeCutoff(hour, minute)
      invariant |slots| <= SlotCount
      invariant (hour, minute) == ClockAt(|slots|)
      invariant slots == seq(|slots|, ClockReading)
      decreases SlotCount - |slots|
    {
      ClockGuard(|slots|);
      ClockStep(|slots|);
      var timeString := ClockString(hour, minute);
      SeqSnoc(|slots|, ClockReading);
      slots := slots + [timeString];
      minute := minute + 20;
      if minute >= 60 {
        minute := 0;
        hour := hour + 1;
      }
    }
    ClockGuard(|slots|);
  }

  /** A five-character `HH:MM` string of digits. */
  predicate IsClockString(t: string)
  {
    |t| == 5 && t[2] == ':' && AllDigits(t[..2]) && AllDigits(t[3..])
  }

  /** Minutes since midnight of an `HH:MM` string. */
  function MinutesOfDay(t: string): nat
    requires IsClockString(t)
  {
    60 * ParseNat(t[..2]) + ParseNat(t[3..])
  }

  lemma ClockStringReads(hour: nat, minute: nat)
    requires hour < 100 && minute < 100
    ensures IsClockString(ClockString(hour, minute))
    ensures MinutesOfDay(ClockString(hour, minute)) == 60 * hour + minute
  {
    TwoDigits(hour);
    TwoDigits(minute);
    var t := ClockString(hour, minute);
    assert t[..2] == PadStart2(NatToString(hour));
    assert t[3..] == PadStart2(NatToString(minute));
  }

  /** The `i`-th grid entry is a zero-padded `HH:MM` reading as the loop's
      clock at step `i`. */
  lemma SlotAt(i: nat)
    requires i < SlotCount
    ensures IsClockString(SlotGrid()[i])
    ensures MinutesOfDay(SlotGrid()[i]) == ClockMinutes(i)
  {
    SlotGridAt(i);
    ClockStringReads(ClockAt(i).0, ClockAt(i).1);
  }

  /** Every grid entry is a zero-padded `HH:MM`. */
  lemma SlotGridShape()
    ensures forall i :: 0 <= i < SlotCount ==> IsClockString(SlotGrid()[i])
  {
    forall i | 0 <= i < SlotCount
      ensures IsClockString(SlotGrid()[i])
    {
      SlotAt(i);
    }
  }

  /** Minutes since midnight of the loop's clock at step `i`. */
  function ClockMinutes(i: nat): nat
  {
    60 * ClockAt(i).0 + ClockAt(i).1
  }

  lemma ClockMinutesStep(i: nat)
    ensures ClockMinutes(i + 1) - ClockMinutes(i) == if i == 1 then 10 else 20
  {
    ClockStep(i);
  }

  /** The grid starts at 10:30 and ends at 19:20; consecutive slots are 20
      minutes apart except 10:50 to 11:00, which are 10 minutes apart. */
  lemma SlotGridGaps()
    ensures forall i :: 0 <= i < SlotCount ==> IsClockString(SlotGrid()[i])
    ensures MinutesOfDay(SlotGrid()[0]) == 10 * 60 + 30
    ensures MinutesOfDay(SlotGrid()[SlotCount - 1]) == 19 * 60 + 20
    ensures forall i :: 0 <= i < SlotCount - 1 ==>
      MinutesOfDay(SlotGrid()[i + 1]) - MinutesOfDay(SlotGrid()[i]) == if i == 1 then 10 else 20
  {
    SlotGridShape();
    SlotAt(0);
    SlotAt(SlotCount - 1);
    forall i | 0 <= i < SlotCount - 1
      ensures MinutesOfDay(SlotGrid()[i + 1]) - MinutesOfDay(SlotGrid()[i]) == if i == 1 then 10 else 20
    {
      SlotAt(i);
      SlotAt(i + 1);
      ClockMinutesStep(i);
    }
  }

  lemma {:induction false} ClockMinutesIncreasing(i: nat, j: nat)
    requires i < j
    ensures ClockMinutes(i) < ClockMinutes(j)
    decreases j - i
  {
    ClockMinutesStep(j - 1);
    if i < j - 1 {
      ClockMinutesIncreasing(i, j - 1);
    }
  }

  /** The grid is strictly increasing in time, so no time appears twice. */
  lemma SlotGridIncreasing()
    ensures forall i :: 0 <= i < SlotCount ==> IsClockString(SlotGrid()[i])
    ensures forall i, j :: 0 <= i < j < SlotCount ==>
      MinutesOfDay(SlotGrid()[i]) < MinutesOfDay(SlotGrid()[j])
    ensures forall i, j :: 0 <= i < j < SlotCount ==> SlotGrid()[i] != SlotGrid()[j]
  {
    SlotGridShape();
    forall i, j | 0 <= i < j < SlotCount
      ensures MinutesOfDay(SlotGrid()[i]) < MinutesOfDay(SlotGrid()[j])
    {
      SlotAt(i);
      SlotAt(j);
      ClockMinutesIncreasing(i, j);
    }
  }

  /** Every slot is before 19:30, so the loop's last admissible reading,
      19:30 itself, never appears. */
  lemma SlotGridBeforeCutoff()
    ensures forall i :: 0 <= i < SlotCount ==> IsClockString(SlotGrid()[i])
    ensures forall i :: 0 <= i < SlotCount ==> MinutesOfDay(SlotGrid()[i]) < 19 * 60 + 30
    ensures "19:30" !in SlotGrid()
  {
    SlotGridShape();
    SlotAt(SlotCount - 1);
    forall i | 0 <= i < SlotCount
      ensures MinutesOfDay(SlotGrid()[i]) < 19 * 60 + 30
    {
      SlotAt(i);
      if i < SlotCount - 1 {
        ClockMinutesIncreasing(i, SlotCount - 1);
      }
    }
    CutoffReads();
  }

  lemma CutoffReads()
    ensures IsClockString("19:30") && MinutesOfDay("19:30") == 19 * 60 + 30
  {
    var t := "19:30";
    assert t[..2] == "19" && t[3..] == "30";
    assert ParseNat("1") == 1 && ParseNat("19") == 19;
    assert ParseNat("3") == 3 && ParseNat("30") == 30;
  }

  /** A clock reading below 100:100 renders as its two tens-and-units digit
      pairs around a colon. */
  lemma ClockStringDigits(hour: nat, minute: nat)
    requires hour < 100 && minute < 100
    ensures ClockString(hour, minute) ==
      [DigitChar(hour / 10), DigitChar(hour % 10), ':', DigitChar(minute / 10), DigitChar(minute % 10)]
  {
    PadDigits(hour);
    PadDigits(minute);
  }

  lemma PadDigits(n: nat)
    requires n < 100
    ensures PadStart2(NatToString(n)) == [DigitChar(n / 10), DigitChar(n % 10)]
  {
    if n >= 10 {
      assert NatToString(n / 10) == [DigitChar(n / 10)];
    }
  }

  lemma SlotText(i: nat, hour: nat, minute: nat)
    requires i < SlotCount && ClockAt(i) == (hour, minute) && hour < 100 && minute < 100
    ensures SlotGrid()[i] ==
      [DigitChar(hour / 10), DigitChar(hour % 10), ':', DigitChar(minute / 10), DigitChar(minute % 10)]
  {
    SlotGridAt(i);
    ClockStringDigits(hour, minute);
  }

  /** The grid's first entries and its last, as strings: the one 10-minute
      gap sits between 10:50 and 11:00, and the day ends at 19:20. */
  lemma SlotGridEnds()
    ensures SlotGrid()[0] == "10:30"
    ensures SlotGrid()[1] == "10:50"
    ensures SlotGrid()[2] == "11:00"
    ensures SlotGrid()[SlotCount - 1] == "19:20"
  {
    SlotText(0, 10, 30);
    SlotText(1, 10, 50);
    SlotText(2, 11, 0);
    SlotText(SlotCount - 1, 19, 20);
    assert DigitChar(0) == '0' && DigitChar(1) == '1' && DigitChar(2) == '2';
    assert DigitChar(3) == '3' && DigitChar(5) == '5' && DigitChar(9) == '9';
  }



  // ---------------------------------------------------------------------------
  // The empty day and the booking matcher
  // ---------------------------------------------------------------------------

  /** `createDaySchedule(date)`: one free slot per grid time, in grid order. */
  function CreateDaySchedule(date: string): (r: DaySchedule)
    ensures r.date == date && |r.timeSlots| == SlotCount
    ensures forall i :: 0 <= i < SlotCount ==>
      r.timeSlots[i].time == SlotGrid()[i] && !r.timeSlots[i].isBooked && r.timeSlots[i].booking.None?
  {
    DaySchedule(date, seq(SlotCount, i requires 0 <= i < SlotCount => TimeSlot(SlotGrid()[i], false, None)))
  }

  /** `isBookingOnDate(booking, targetDate)`: a recurring booking that has a
      weekday occupies exactly the dates whose `getDay()` equals it, whatever
      its own date; every other booking occupies exactly its own date. */
  function IsBookingOnDate(b: Booking, targetDate: string): (r: bool)
    ensures b.isRecurring && b.recurringDay.Some? ==>
      (r <==> ParseIsoDate(targetDate).Some? &&
              b.recurringDay.value == Num(Weekday(ParseIsoDate(targetDate).value)))
    ensures !(b.isRecurring && b.recurringDay.Some?) ==> (r <==> targetDate == b.date)
  {
    if b.isRecurring && b.recurringDay.Some? then StrictEq(GetDay(targetDate), b.recurringDay.value)
    else b.date == targetDate
  }

  /** A booking occupying a date recurs: it occupies the same weekday one or
      more weeks later or earlier. */
  lemma RecurringRepeatsWeekly(b: Booking, date: string, weeks: int)
    requires b.isRecurring && b.recurringDay.Some?
    requires AddDays(date, 7 * weeks).Some?
    ensures IsBookingOnDate(b, AddDays(date, 7 * weeks).value) <==> IsBookingOnDate(b, date)
  {
    GetDayAddWeeks(date, weeks);
  }

  /** A one-off booking, or a recurring one with no weekday, occupies its own
      date and no other. */
  lemma OneOffOccupiesOnlyItsDate(b: Booking, date: string)
    requires !b.isRecurring || b.recurringDay.None?
    ensures IsBookingOnDate(b, date) <==> date == b.date
  {
  }

  /** A weekly booking whose weekday is NaN or a number outside 0..6
      occupies nothing, and its own date is no exception. */
  lemma RecurringOutOfRangeNever(b: Booking, date: string)
    requires b.isRecurring && b.recurringDay.Some?
    requires !(b.recurringDay.value.Num? && 0 <= b.recurringDay.value.value < 7)
    ensures !IsBookingOnDate(b, date)
  {
  }

  predicate Occupies(b: Booking, date: string, time: string)
  {
    IsBookingOnDate(b, date) && b.time == time
  }

  /** Index of the first booking occupying `date` at `time`, or -1. */
  function FirstOccupantIndex(bookings: seq<Booking>, date: string, time: string): (k: int)
    ensures -1 <= k < |bookings|
    ensures k >= 0 ==> Occupies(bookings[k], date, time)
    ensures k >= 0 ==> forall j :: 0 <= j < k ==> !Occupies(bookings[j], date, time)
    ensures k < 0 ==> forall j :: 0 <= j < |bookings| ==> !Occupies(bookings[j], date, time)
  {
    if bookings == [] then -1
    else if Occupies(bookings[0], date, time) then 0
    else
      var k := FirstOccupantIndex(bookings[1..], date, time);
      if k < 0 then -1 else k + 1
  }

  /** `bookings.find(b => isBookingOnDate(b, date) && b.time === time)`: a
      booking is found exactly when one occupies the slot, and it is the
      first such in list order. */
  function FindOccupant(bookings: seq<Booking>, date: string, time: string): (r: Option<Booking>)
    ensures r.Some? <==> Booked(bookings, date, time)
    ensures r.Some? ==> IsFirstOccupant(bookings, date, time, r.value)
  {
    var k := FirstOccupantIndex(bookings, date, time);
    if k < 0 then None else Some(bookings[k])
  }

  /** Some booking occupies `date` at `time`. */
  predicate Booked(bookings: seq<Booking>, date: string, time: string)
  {
    exists j :: 0 <= j < |bookings| && Occupies(bookings[j], date, time)
  }

  /** `b` is the first booking, in list order, that occupies `date` at `time`. */
  predicate IsFirstOccupant(bookings: seq<Booking>, date: string, time: string, b: Booking)
  {
    exists j :: 0 <= j < |bookings| && bookings[j] == b && Occupies(b, date, time) &&
      forall l :: 0 <= l < j ==> !Occupies(bookings[l], date, time)
  }

  /** `populateTimeSlots(schedule, bookings)`: the date, the number of slots
      and each slot's time stay; a slot is booked exactly when some booking
      occupies the schedule's date at that time, and then carries the first
      such booking. */
  function PopulateTimeSlots(schedule: DaySchedule, bookings: seq<Booking>): (r: DaySchedule)
    ensures r.date == schedule.date
    ensures |r.timeSlots| == |schedule.timeSlots|
    ensures forall i :: 0 <= i < |r.timeSlots| ==>
      r.timeSlots[i].time == schedule.timeSlots[i].time &&
      (r.timeSlots[i].isBooked <==> Booked(bookings, schedule.date, schedule.timeSlots[i].time)) &&
      (r.timeSlots[i].booking.Some? <==> r.timeSlots[i].isBooked) &&
      (r.timeSlots[i].booking.Some? ==>
        IsFirstOccupant(bookings, schedule.date, schedule.timeSlots[i].time, r.timeSlots[i].booking.value))
  {
    var slots := schedule.timeSlots;
    var updated := seq(|slots|, i requires 0 <= i < |slots| =>
      var found := FindOccupant(bookings, schedule.date, slots[i].time);
      slots[i].(isBooked := found.Some?, booking := found));
    assert forall i :: 0 <= i < |slots| ==>
      updated[i] == slots[i].(isBooked := FindOccupant(bookings, schedule.date, slots[i].time).Some?,
                              booking := FindOccupant(bookings, schedule.date, slots[i].time));
    schedule.(timeSlots := updated)
  }

  /** With no bookings every slot is free. */
  lemma PopulateNoBookings(schedule: DaySchedule)
    ensures forall i :: 0 <= i < |PopulateTimeSlots(schedule, []).timeSlots| ==>
      !PopulateTimeSlots(schedule, []).timeSlots[i].isBooked
  {
  }

  /** Populating reads only each slot's time, so doing it twice with the same
      bookings gives the same day as doing it once. */
  lemma PopulateIdempotent(schedule: DaySchedule, bookings: seq<Booking>)
    ensures PopulateTimeSlots(PopulateTimeSlots(schedule, bookings), bookings)
         == PopulateTimeSlots(schedule, bookings)
  {
    var once := PopulateTimeSlots(schedule, bookings);
    var twice := PopulateTimeSlots(once, bookings);
    assert |twice.timeSlots| == |once.timeSlots|;
    forall i | 0 <= i < |once.timeSlots|
      ensures twice.timeSlots[i] == once.timeSlots[i]
    {
      assert once.timeSlots[i].time == schedule.timeSlots[i].time;
    }
  }

  /** The day shown for `date`: one slot per grid time, in grid order, each
      booked exactly when a booking occupies the date at that time, and then
      carrying the first such booking. */
  function ScheduleFor(date: string, bookings: seq<Booking>): (r: DaySchedule)
    ensures r.date == date && |r.timeSlots| == SlotCount
    ensures forall i :: 0 <= i < SlotCount ==>
      r.timeSlots[i].time == SlotGrid()[i] &&
      (r.timeSlots[i].isBooked <==> Booked(bookings, date, SlotGrid()[i])) &&
      (r.timeSlots[i].booking.Some? <==> r.timeSlots[i].isBooked) &&
      (r.timeSlots[i].booking.Some? ==> IsFirstOccupant(bookings, date, SlotGrid()[i], r.timeSlots[i].booking.value))
  {
    PopulateTimeSlots(CreateDaySchedule(date), bookings)
  }

  /** A single one-off booking marks its own slot on its own date and nothing
      else; on any other date it marks nothing. */
  lemma SingleOneOffBooking(b: Booking, date: string, i: nat)
    requires !b.isRecurring
    requires i < SlotCount
    ensures ScheduleFor(date, [b]).timeSlots[i].isBooked <==> date == b.date && SlotGrid()[i] == b.time
  {
    var day := ScheduleFor(date, [b]);
    assert day.timeSlots[i].isBooked <==> Booked([b], date, SlotGrid()[i]);
    if Booked([b], date, SlotGrid()[i]) {
      assert Occupies([b][0], date, SlotGrid()[i]);
    }
  }

  /** A single weekly booking marks its slot on every date of its weekday and
      nothing on any other date. */
  lemma SingleWeeklyBooking(b: Booking, date: string, i: nat)
    requires b.isRecurring && b.recurringDay.Some?
    requires i < SlotCount
    ensures ScheduleFor(date, [b]).timeSlots[i].isBooked <==>
      GetDay(date).Num? && b.recurringDay == Some(GetDay(date)) && SlotGrid()[i] == b.time
  {
    var day := ScheduleFor(date, [b]);
    assert day.timeSlots[i].isBooked <==> Booked([b], date, SlotGrid()[i]);
    if Booked([b], date, SlotGrid()[i]) {
      assert Occupies([b][0], date, SlotGrid()[i]);
    }
  }

  // ---------------------------------------------------------------------------
  // 12-hour display
  // ---------------------------------------------------------------------------

  /** The hour written before the colon in a 12-hour rendering. */
  function TwelveHour(hour: nat): (h: nat)
    ensures 1 <= h <= 12 && h % 12 == hour % 12
  {
    if hour % 12 == 0 then 12 else hour % 12
  }

  /** `formatTimeDisplay(time)`: `h:MM AM` or `h:MM PM`; `h` is the hour on a
      12-hour clock (12 for hours 0 and 12) printed without a leading zero, the minutes are copied, and the
      suffix is PM exactly from hour 12 on. */
  function FormatTimeDisplay(time: string): (r: string)
    requires IsClockString(time)
    ensures |r| >= 7 && r[|r| - 6..] == time[2..] + " " + (if ParseNat(time[..2]) >= 12 then "PM" else "AM")
    ensures AllDigits(r[..|r| - 6]) && 1 <= ParseNat(r[..|r| - 6]) <= 12
    ensures ParseNat(r[..|r| - 6]) % 12 == ParseNat(time[..2]) % 12
    ensures r[..|r| - 6] == NatToString(TwelveHour(ParseNat(time[..2])))
    ensures r[0] != '0'
  {
    var hour := ParseNat(time[..2]);
    var ampm := if hour >= 12 then "PM" else "AM";
    var h := NatToString(TwelveHour(hour));
    var tail := [':'] + time[3..] + " " + ampm;
    assert |tail| == 6;
    var r := h + tail;
    assert r[..|r| - 6] == h && r[|r| - 6..] == tail;
    assert time[2..] == [':'] + time[3..];
    r
  }

  /** On a 24-hour day the rendering loses nothing: two different times are
      never shown alike. */
  lemma FormatTimeDisplayInjective(a: string, b: string)
    requires IsClockString(a) && IsClockString(b)
    requires ParseNat(a[..2]) < 24 && ParseNat(b[..2]) < 24
    requires FormatTimeDisplay(a) == FormatTimeDisplay(b)
    ensures a == b
  {
    var ha, hb := ParseNat(a[..2]), ParseNat(b[..2]);
    DisplaySuffix(a, b);
    SameHalfSameHour(ha, hb);
    Digits2Parse(a[..2]);
    Digits2Parse(b[..2]);
    assert a[..2] == b[..2];
    assert a == a[..2] + a[2..] && b == b[..2] + b[2..];
  }

  /** Equal renderings agree on the minutes, on AM or PM, and on the hour
      modulo 12. */
  lemma DisplaySuffix(a: string, b: string)
    requires IsClockString(a) && IsClockString(b)
    requires FormatTimeDisplay(a) == FormatTimeDisplay(b)
    ensures a[2..] == b[2..]
    ensures ParseNat(a[..2]) >= 12 <==> ParseNat(b[..2]) >= 12
    ensures ParseNat(a[..2]) % 12 == ParseNat(b[..2]) % 12
  {
    var r := FormatTimeDisplay(a);
    var pa := if ParseNat(a[..2]) >= 12 then "PM" else "AM";
    var pb := if ParseNat(b[..2]) >= 12 then "PM" else "AM";
    var sa := a[2..] + " " + pa;
    var sb := b[2..] + " " + pb;
    assert sa == r[|r| - 6..] == sb;
    assert a[2..] == sa[..3] && b[2..] == sb[..3];
    assert pa == sa[4..] && pb == sb[4..];
  }

  lemma SameHalfSameHour(ha: nat, hb: nat)
    requires ha < 24 && hb < 24
    requires ha >= 12 <==> hb >= 12
    requires ha % 12 == hb % 12
    ensures ha == hb
  {
  }

  /** An afternoon hour wraps to 1..11. */
  lemma DisplayAfternoon()
    ensures FormatTimeDisplay("13:20") == "1:20 PM"
  {
    var t := "13:20";
    assert t[..2] == "13" && t[3..] == "20";
    assert ParseNat("13") == 13;
    assert NatToString(1) == "1";
  }

  /** Noon shows as 12 and is PM. */
  lemma DisplayNoon()
    ensures FormatTimeDisplay("12:00") == "12:00 PM"
  {
    var t := "12:00";
    assert t[..2] == "12" && t[3..] == "00";
    assert ParseNat("1") == 1 && ParseNat("12") == 12;
    assert TwelveHour(12) == 12;
    assert NatToString(1) == "1" && NatToString(12) == "12";
  }

  /** A morning hour is kept. */
  lemma DisplayMorning()
    ensures FormatTimeDisplay("10:30") == "10:30 AM"
  {
    var t := "10:30";
    assert t[..2] == "10" && t[3..] == "30";
    assert ParseNat("1") == 1 && ParseNat("10") == 10;
    assert TwelveHour(10) == 10;
    assert NatToString(1) == "1" && NatToString(10) == "10";
  }

  /** The midnight hour shows as 12, and the minutes keep their leading zero. */
  lemma DisplayMidnight()
    ensures FormatTimeDisplay("00:40") == "12:40 AM"
  {
    var t := "00:40";
    assert t[..2] == "00" && t[3..] == "40";
    assert ParseNat("00") == 0;
    assert NatToString(12) == "12";
  }
}
