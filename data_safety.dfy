/** The data-integrity panel (components/DataSafetyFeatures.tsx): the
    duplicate report and the recurring-calls figure. */
module DataSafety {
  import opened Common
  import opened Types

  /** What makes two bookings duplicates of each other. */
  datatype SlotKey = SlotKey(clientId: string, date: string, time: string)

  function KeyOf(b: Booking): SlotKey
  {
    SlotKey(b.clientId, b.date, b.time)
  }

  /** `bookings.findIndex(b => key matches)`, scanning from index `from`:
      the first index holding the key, or -1. */
  function FindIndexFrom(bs: seq<Booking>, k: SlotKey, from: nat): (r: int)
    requires from <= |bs|
    ensures r == -1 || from <= r < |bs|
    ensures r == -1 <==> forall j :: from <= j < |bs| ==> KeyOf(bs[j]) != k
    ensures r != -1 ==> KeyOf(bs[r]) == k && forall j :: from <= j < r ==> KeyOf(bs[j]) != k
    decreases |bs| - from
  {
    if from == |bs| then -1
    else if KeyOf(bs[from]) == k then from
    else FindIndexFrom(bs, k, from + 1)
  }

  function FindIndexOfKey(bs: seq<Booking>, k: SlotKey): int
  {
    FindIndexFrom(bs, k, 0)
  }

  /** Some earlier booking has the same client, date and time. */
  predicate HasEarlierTwin(bs: seq<Booking>, i: nat)
    requires i < |bs|
  {
    exists j :: 0 <= j < i && KeyOf(bs[j]) == KeyOf(bs[i])
  }

  /** The filter's test, `findIndex(...) !== index`, holds exactly when an
      earlier booking has the same key: the booking itself always matches,
      so the first match is at or before it. */
  lemma ReportedIffEarlierTwin(bs: seq<Booking>, i: nat)
    requires i < |bs|
    ensures FindIndexOfKey(bs, KeyOf(bs[i])) != i <==> HasEarlierTwin(bs, i)
  {
    var f := FindIndexOfKey(bs, KeyOf(bs[i]));
    if f != i {
      assert 0 <= f < i;
    }
  }

  /** The filter over indices `from..` of the bookings. */
  function DuplicatesFrom(bs: seq<Booking>, from: nat): (r: seq<Booking>)
    requires from <= |bs|
    ensures |r| <= |bs| - from
    ensures forall b :: b in r <==> exists k :: from <= k < |bs| && HasEarlierTwin(bs, k) && bs[k] == b
    decreases |bs| - from
  {
    if from == |bs| then []
    else
      ReportedIffEarlierTwin(bs, from);
      (if FindIndexOfKey(bs, KeyOf(bs[from])) != from then [bs[from]] else []) + DuplicatesFrom(bs, from + 1)
  }

  /** `checkDuplicates()`: every booking that has an earlier booking with the
      same client, date and time; the first of each group is not reported. */
  function CheckDuplicates(bs: seq<Booking>): (r: seq<Booking>)
    ensures |r| <= |bs|
    ensures forall b :: b in r <==> exists k :: 0 <= k < |bs| && HasEarlierTwin(bs, k) && bs[k] == b
  {
    DuplicatesFrom(bs, 0)
  }

  // ---------------------------------------------------------------------------
  // Properties of the report
  // ---------------------------------------------------------------------------

  function Keys(bs: seq<Booking>): set<SlotKey>
  {
    set b | b in bs :: KeyOf(b)
  }

  predicate DistinctKeys(bs: seq<Booking>)
  {
    forall i, j :: 0 <= i < j < |bs| ==> KeyOf(bs[i]) != KeyOf(bs[j])
  }

  lemma TwinInPrefix(bs: seq<Booking>, x: Booking, i: nat)
    requires i < |bs|
    ensures HasEarlierTwin(bs + [x], i) == HasEarlierTwin(bs, i)
  {
    assert forall j :: 0 <= j <= i ==> (bs + [x])[j] == bs[j];
  }

  lemma TwinOfLast(bs: seq<Booking>, x: Booking)
    ensures HasEarlierTwin(bs + [x], |bs|) <==> KeyOf(x) in Keys(bs)
  {
    var ext := bs + [x];
    assert ext[|bs|] == x;
    if KeyOf(x) in Keys(bs) {
      var b :| b in bs && KeyOf(b) == KeyOf(x);
      var j :| 0 <= j < |bs| && bs[j] == b;
      assert ext[j] == b;
    }
    if HasEarlierTwin(ext, |bs|) {
      var j :| 0 <= j < |bs| && KeyOf(ext[j]) == KeyOf(x);
      assert ext[j] == bs[j];
      assert bs[j] in bs;
    }
  }

  /** Whether index `i` is reported, as a one-element or empty sequence. */
  function ReportAt(bs: seq<Booking>, i: nat): seq<Booking>
    requires i < |bs|
  {
    if FindIndexOfKey(bs, KeyOf(bs[i])) != i then [bs[i]] else []
  }

  lemma DuplicatesFromStep(bs: seq<Booking>, from: nat)
    requires from < |bs|
    ensures DuplicatesFrom(bs, from) == ReportAt(bs, from) + DuplicatesFrom(bs, from + 1)
  {
  }

  lemma {:induction false} DuplicatesFromSnoc(bs: seq<Booking>, x: Booking, from: nat)
    requires from <= |bs|
    ensures DuplicatesFrom(bs + [x], from)
         == DuplicatesFrom(bs, from) + (if KeyOf(x) in Keys(bs) then [x] else [])
    decreases |bs| - from
  {
    var ext := bs + [x];
    DuplicatesFromStep(ext, from);
    ReportedIffEarlierTwin(ext, from);
    if from == |bs| {
      TwinOfLast(bs, x);
      assert ext[from] == x;
      assert DuplicatesFrom(ext, from + 1) == [];
    } else {
      DuplicatesFromSnoc(bs, x, from + 1);
      DuplicatesFromStep(bs, from);
      ReportedIffEarlierTwin(bs, from);
      TwinInPrefix(bs, x, from);
      assert ext[from] == bs[from];
      assert ReportAt(ext, from) == ReportAt(bs, from);
    }
  }

  /** Appending a booking reports it exactly when its key was already
      present; the earlier report is kept as it was. */
  lemma CheckDuplicatesSnoc(bs: seq<Booking>, x: Booking)
    ensures CheckDuplicates(bs + [x]) == CheckDuplicates(bs) + (if KeyOf(x) in Keys(bs) then [x] else [])
  {
    DuplicatesFromSnoc(bs, x, 0);
  }

  lemma KeysSnoc(bs: seq<Booking>, x: Booking)
    ensures Keys(bs + [x]) == Keys(bs) + {KeyOf(x)}
  {
    assert forall b :: b in bs + [x] <==> b in bs || b == x;
  }

  /** One report per booking beyond the first of its group: the report's
      length is the number of bookings less the number of distinct keys. */
  lemma {:induction false} CheckDuplicatesCount(bs: seq<Booking>)
    ensures |CheckDuplicates(bs)| == |bs| - |Keys(bs)|
  {
    if bs == [] {
      assert Keys(bs) == {};
    } else {
      var init, x := bs[..|bs| - 1], bs[|bs| - 1];
      assert bs == init + [x];
      CheckDuplicatesCount(init);
      CheckDuplicatesSnoc(init, x);
      KeysSnoc(init, x);
    }
  }

  /** "No duplicates detected" exactly when no two bookings share a key. */
  lemma CheckDuplicatesEmptyIff(bs: seq<Booking>)
    ensures CheckDuplicates(bs) == [] <==> DistinctKeys(bs)
  {
    if CheckDuplicates(bs) == [] {
      forall j | 0 <= j < |bs|
        ensures HasEarlierTwin(bs, j) ==> bs[j] in CheckDuplicates(bs)
      {
      }
      forall i, j | 0 <= i < j < |bs|
        ensures KeyOf(bs[i]) != KeyOf(bs[j])
      {
        assert !HasEarlierTwin(bs, j);
      }
    } else {
      var b := CheckDuplicates(bs)[0];
      assert b in CheckDuplicates(bs);
    }
  }

  /** Two bookings of the same client, date and time give one report, of
      the second. */
  lemma PairReportsSecond(a: Booking, b: Booking)
    requires KeyOf(a) == KeyOf(b)
    ensures CheckDuplicates([a, b]) == [b]
  {
    CheckDuplicatesSnoc([a], b);
    CheckDuplicatesSnoc([], a);
    assert [a] == [] + [a];
    assert [a, b] == [a] + [b];
    assert a in [a];
  }

  /** `a` occurs in `b` in order, not necessarily contiguously. */
  predicate IsSubsequence(a: seq<Booking>, b: seq<Booking>)
  {
    a == [] || (b != [] && ((a[0] == b[0] && IsSubsequence(a[1..], b[1..])) || IsSubsequence(a, b[1..])))
  }

  lemma {:induction false} DuplicatesFromSubsequence(bs: seq<Booking>, from: nat)
    requires from <= |bs|
    ensures IsSubsequence(DuplicatesFrom(bs, from), bs[from..])
    decreases |bs| - from
  {
    if from < |bs| {
      DuplicatesFromSubsequence(bs, from + 1);
      assert bs[from..][1..] == bs[from + 1..];
      var r := DuplicatesFrom(bs, from);
      if r != DuplicatesFrom(bs, from + 1) {
        assert r == [bs[from]] + DuplicatesFrom(bs, from + 1);
        assert r[1..] == DuplicatesFrom(bs, from + 1);
      }
    }
  }

  /** The report lists bookings in their original order. */
  lemma CheckDuplicatesInOrder(bs: seq<Booking>)
    ensures IsSubsequence(CheckDuplicates(bs), bs)
  {
    DuplicatesFromSubsequence(bs, 0);
    assert bs[0..] == bs;
  }

  // ---------------------------------------------------------------------------
  // The recurring-calls figure
  // ---------------------------------------------------------------------------

  /** `bookings.filter(b => b.isRecurring).length`. */
  function RecurringCount(bs: seq<Booking>): (n: nat)
    ensures n <= |bs|
  {
    |Filter(bs, (b: Booking) => b.isRecurring)|
  }

  /** The figure grows by one exactly with each recurring booking. */
  lemma RecurringCountSnoc(bs: seq<Booking>, x: Booking)
    ensures RecurringCount(bs + [x]) == RecurringCount(bs) + (if x.isRecurring then 1 else 0)
  {
    FilterSnoc(bs, x, (b: Booking) => b.isRecurring);
  }

  /** The figure is zero exactly when no booking is recurring. */
  lemma RecurringCountZeroIff(bs: seq<Booking>)
    ensures RecurringCount(bs) == 0 <==> forall i :: 0 <= i < |bs| ==> !bs[i].isRecurring
  {
    var f := Filter(bs, (b: Booking) => b.isRecurring);
    if f != [] {
      assert f[0] in f;
    }
    if exists i :: 0 <= i < |bs| && bs[i].isRecurring {
      var i :| 0 <= i < |bs| && bs[i].isRecurring;
      assert bs[i] in f;
    }
  }
}
