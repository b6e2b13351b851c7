/**
 * Stored attendance records and the read side of the attendance controller:
 * UTC day arithmetic, the four timestamp windows the queries use, the
 * queries themselves and the attendance-summary arithmetic.
 *
 * Instants are milliseconds since the epoch. A calendar day is represented by
 * its day number (the UTC `YYYY-MM-DD` text of an instant is a one-to-one
 * rendering of that number).
 */
module Attendance {
  import opened Common
  import opened Users

  const DayMs: int := 86_400_000

  datatype Point = Point(lat: real, lng: real)

  datatype Record = Record(
    user: UserId,
    timestamp: int,
    date: int,            // the stored `date` field, a UTC calendar day
    location: Point,
    locationName: string,
    purpose: string,
    feedback: JsValue,
    image: string)

  /** A date query parameter after `new Date(param)`. */
  datatype DateParam = Missing | Unparsable | Parsed(ms: int)

  /** The UTC calendar day that contains instant `t`. */
  function DayOf(t: int): int
  {
    t / DayMs
  }

  /** `setUTCHours(0, 0, 0, 0)`. */
  function StartOfDay(t: int): (r: int)
    ensures r <= t < r + DayMs
    ensures DayOf(r) == DayOf(t)
  {
    DayOf(t) * DayMs
  }

  /** `setUTCHours(23, 59, 59, 999)`. */
  function EndOfDay(t: int): (r: int)
    ensures r - DayMs < t <= r
    ensures DayOf(r) == DayOf(t)
  {
    StartOfDay(t) + DayMs - 1
  }

  /** A timestamp range; `closed` says whether the upper bound itself is included (`$lte` rather than `$lt`). */
  datatype Window = Window(lo: int, hi: int, closed: bool)

  predicate InWindow(t: int, w: Window)
  {
    w.lo <= t && (if w.closed then t <= w.hi else t < w.hi)
  }

  /** Instants of day `k` are exactly those in [k * DayMs, k * DayMs + DayMs). */
  lemma DayBounds(t: int, k: int)
    ensures DayOf(t) == k <==> k * DayMs <= t < k * DayMs + DayMs
  {
  }

  /** getAttendanceByDate: [midnight, midnight + 24 h). */
  function ByDateWindow(d: int): (w: Window)
    ensures forall t :: InWindow(t, w) <==> DayOf(t) == DayOf(d)
  {
    var w := Window(StartOfDay(d), StartOfDay(d) + DayMs, false);
    assert forall t :: InWindow(t, w) <==> DayOf(t) == DayOf(d) by {
      forall t ensures InWindow(t, w) <==> DayOf(t) == DayOf(d) { DayBounds(t, DayOf(d)); }
    }
    w
  }

  /** getAttendanceWithDistances: [midnight, 23:59:59.999) — the last millisecond of the day is left out. */
  function WithDistancesWindow(d: int): (w: Window)
    ensures forall t :: InWindow(t, w) <==> DayOf(t) == DayOf(d) && t != EndOfDay(d)
  {
    var w := Window(StartOfDay(d), EndOfDay(d), false);
    assert forall t :: InWindow(t, w) <==> DayOf(t) == DayOf(d) && t != EndOfDay(d) by {
      forall t ensures InWindow(t, w) <==> DayOf(t) == DayOf(d) && t != EndOfDay(d) { DayBounds(t, DayOf(d)); }
    }
    w
  }

  /** getFilteredAttendance: [start-day midnight, end-day 23:59:59.999), the end day defaulting to the start day. */
  function FilteredWindow(s: int, e: int): (w: Window)
    ensures forall t :: InWindow(t, w) <==> DayOf(s) <= DayOf(t) <= DayOf(e) && t != EndOfDay(e)
  {
    var w := Window(StartOfDay(s), EndOfDay(e), false);
    assert forall t :: InWindow(t, w) <==> DayOf(s) <= DayOf(t) <= DayOf(e) && t != EndOfDay(e) by {
      forall t ensures InWindow(t, w) <==> DayOf(s) <= DayOf(t) <= DayOf(e) && t != EndOfDay(e) {
        DayBounds(t, DayOf(t)); DayBounds(s, DayOf(s)); DayBounds(e, DayOf(e));
      }
    }
    w
  }

  /** getAttendanceSummary: the closed range [start-day 00:00:00.000, end-day 23:59:59.999]. */
  function SummaryWindow(s: int, e: int): (w: Window)
    ensures forall t :: InWindow(t, w) <==> DayOf(s) <= DayOf(t) <= DayOf(e)
  {
    var w := Window(StartOfDay(s), EndOfDay(e), true);
    assert forall t :: InWindow(t, w) <==> DayOf(s) <= DayOf(t) <= DayOf(e) by {
      forall t ensures InWindow(t, w) <==> DayOf(s) <= DayOf(t) <= DayOf(e) {
        DayBounds(t, DayOf(t)); DayBounds(s, DayOf(s)); DayBounds(e, DayOf(e));
      }
    }
    w
  }

  /** `Attendance.find({ user: { $in: users }, timestamp: <window> })`, in stored order. */
  function Query(records: seq<Record>, users: set<UserId>, w: Window): (r: seq<Record>)
    ensures |r| <= |records|
    ensures forall x :: x in r <==> x in records && x.user in users && InWindow(x.timestamp, w)
  {
    if records == [] then []
    else
      var rest := Query(records[1..], users, w);
      assert forall x :: x in records <==> x == records[0] || x in records[1..];
      if records[0].user in users && InWindow(records[0].timestamp, w) then [records[0]] + rest else rest
  }

  /** The query keeps the records in stored order: it distributes over concatenation. */
  lemma {:induction false} QueryAppend(a: seq<Record>, b: seq<Record>, users: set<UserId>, w: Window)
    ensures Query(a + b, users, w) == Query(a, users, w) + Query(b, users, w)
  {
    if a != [] {
      assert (a + b)[1..] == a[1..] + b;
      QueryAppend(a[1..], b, users, w);
    } else {
      assert a + b == b;
    }
  }

  /** The three whole-day queries answer 500 "Server error" when a date does not parse (the store refuses an invalid Date). */
  function AttendanceByDate(records: seq<Record>, user: UserId, date: DateParam): (r: Response<seq<Record>>)
    ensures !date.Parsed? ==> r == Failure(500, "Server error")
    ensures date.Parsed? ==> r.Success? && r.status == 200
    ensures r.Success? ==> forall x :: x in r.body <==>
              x in records && x.user == user && DayOf(x.timestamp) == DayOf(date.ms)
  {
    if !date.Parsed? then Failure(500, "Server error")
    else Success(200, Query(records, {user}, ByDateWindow(date.ms)))
  }

  /**
   * getFilteredAttendance: records of every user whose state equals `state`, from the start
   * day through the end day (the start day when `endDate` is missing or empty).
   */
  function FilteredAttendance(records: seq<Record>, users: seq<User>, state: string,
                              startDate: DateParam, endDate: DateParam): (r: Response<seq<Record>>)
    ensures (!startDate.Parsed? || endDate.Unparsable?) ==> r == Failure(500, "Server error")
    ensures startDate.Parsed? && !endDate.Unparsable? ==> r.Success? && r.status == 200
    ensures r.Success? ==>
              var last := if endDate.Parsed? then endDate.ms else startDate.ms;
              forall x :: x in r.body <==>
                x in records && (exists u :: u in users && u.id == x.user && u.state == Some(state))
                && DayOf(startDate.ms) <= DayOf(x.timestamp) <= DayOf(last) && x.timestamp != EndOfDay(last)
  {
    if !startDate.Parsed? || endDate.Unparsable? then Failure(500, "Server error")
    else
      var inState := set u | u in users && u.state == Some(state) :: u.id;
      var last := if endDate.Parsed? then endDate.ms else startDate.ms;
      Success(200, Query(records, inState, FilteredWindow(startDate.ms, last)))
  }

  // ---------------------------------------------------------------------------------------------
  // Attendance summary

  datatype Summary = Summary(holidays: nat, present: nat, absent: nat, futureHolidays: nat, workDays: int)

  /** The distinct stored `date` values of some records. */
  function DistinctDates(rs: seq<Record>): set<int>
  {
    set i | 0 <= i < |rs| :: rs[i].date
  }

  /** `holiday > currentDate && holiday <= end`; a holiday that did not parse (an invalid Date) compares false. */
  predicate IsFuture(h: Option<int>, now: int, end: int)
  {
    h.Some? && now < h.value <= end
  }

  /** The positions of the future holidays in the parsed list. */
  function FutureIndices(hs: seq<Option<int>>, now: int, end: int): set<int>
  {
    set i | 0 <= i < |hs| && IsFuture(hs[i], now, end)
  }

  /** `holidayArray.filter(...).length`, counted from the front. */
  function CountFuture(hs: seq<Option<int>>, now: int, end: int): (n: nat)
    ensures n <= |hs|
  {
    if hs == [] then 0
    else CountFuture(hs[..|hs| - 1], now, end) + (if IsFuture(hs[|hs| - 1], now, end) then 1 else 0)
  }

  /** The count is the number of positions holding a parsed holiday after now and no later than the end. */
  lemma {:induction false} CountFutureMeaning(hs: seq<Option<int>>, now: int, end: int)
    ensures CountFuture(hs, now, end) == |FutureIndices(hs, now, end)|
  {
    if hs != [] {
      var k := |hs| - 1;
      var prefix := hs[..k];
      CountFutureMeaning(prefix, now, end);
      var prior := FutureIndices(prefix, now, end);
      assert k !in prior;
      assert forall i :: 0 <= i < k ==> prefix[i] == hs[i];
      if IsFuture(hs[k], now, end) {
        assert FutureIndices(hs, now, end) == prior + {k};
      } else {
        assert FutureIndices(hs, now, end) == prior;
      }
    }
  }

  /** `holidays.split(',').map(date => new Date(date))`. */
  function ParsedHolidays(holidays: string, parseDate: string -> Option<int>): (hs: seq<Option<int>>)
    ensures |hs| == Occurrences(holidays, ',') + 1
    ensures forall i :: 0 <= i < |hs| ==> hs[i] == parseDate(Split(holidays, ',')[i])
  {
    var pieces := Split(holidays, ',');
    seq(|pieces|, i requires 0 <= i < |pieces| => parseDate(pieces[i]))
  }

  /** `Math.floor((end - start) / day) + 1` over the normalised range bounds. */
  function TotalDays(s: int, e: int): (n: int)
    ensures n == DayOf(e) - DayOf(s) + 1
  {
    var diff := EndOfDay(e) - StartOfDay(s);
    assert diff == (DayOf(e) - DayOf(s)) * DayMs + DayMs - 1;
    DayBounds(diff, DayOf(e) - DayOf(s));
    diff / DayMs + 1
  }

  /**
   * getAttendanceSummary. `holidays` is the comma-separated query parameter, each piece read by
   * `parseDate` (`new Date(piece)`); `now` is the current instant and `daysLeft` the whole days
   * from now to the end of the current month.
   */
  function AttendanceSummary(records: seq<Record>, user: UserId, startDate: DateParam, endDate: DateParam,
                             holidays: Option<string>, parseDate: string -> Option<int>,
                             now: int, daysLeft: int): (r: Response<Summary>)
    ensures r.Success? <==> startDate.Parsed? && endDate.Parsed? && holidays.Some?
    ensures r.Failure? ==> r == Failure(500, "Server error")
    ensures r.Success? ==>
              && r.status == 200
              && r.body.holidays == Occurrences(holidays.value, ',') + 1
              && r.body.workDays == DayOf(endDate.ms) - DayOf(startDate.ms) + 1 - r.body.holidays
              && r.body.futureHolidays <= r.body.holidays
              && r.body.futureHolidays == |FutureIndices(ParsedHolidays(holidays.value, parseDate), now, EndOfDay(endDate.ms))|
              && r.body.absent >= 0
              && r.body.absent == Max0(r.body.workDays - r.body.present - daysLeft + r.body.futureHolidays)
              && r.body.present == |DistinctDates(Query(records, {user}, SummaryWindow(startDate.ms, endDate.ms)))|
  {
    if !startDate.Parsed? || !endDate.Parsed? || holidays.None? then Failure(500, "Server error")
    else
      var end := EndOfDay(endDate.ms);
      var pieces := Split(holidays.value, ',');
      var future := CountFuture(ParsedHolidays(holidays.value, parseDate), now, end);
      CountFutureMeaning(ParsedHolidays(holidays.value, parseDate), now, end);
      var present := |DistinctDates(Query(records, {user}, SummaryWindow(startDate.ms, endDate.ms)))|;
      var workDays := TotalDays(startDate.ms, endDate.ms) - |pieces|;
      Success(200, Summary(|pieces|, present, Max0(workDays - present - daysLeft + future), future, workDays))
  }

  function Max0(x: int): nat
  {
    if x < 0 then 0 else x
  }

  /** A record's stored day is the UTC day of its timestamp. */
  predicate DatedByTimestamp(r: Record)
  {
    r.date == DayOf(r.timestamp)
  }

  /** There are never more distinct dates than records. */
  lemma {:induction false} DistinctDatesAtMostRecords(rs: seq<Record>)
    ensures |DistinctDates(rs)| <= |rs|
  {
    if rs != [] {
      var tail := rs[1..];
      DistinctDatesAtMostRecords(tail);
      assert DistinctDates(rs) == {rs[0].date} + DistinctDates(tail) by {
        forall d ensures d in DistinctDates(rs) <==> d == rs[0].date || d in DistinctDates(tail) {
          if d in DistinctDates(rs) {
            var i :| 0 <= i < |rs| && rs[i].date == d;
            if i > 0 { assert tail[i - 1].date == d; }
          }
          if d in DistinctDates(tail) {
            var i :| 0 <= i < |tail| && tail[i].date == d;
            assert rs[i + 1].date == d;
          }
        }
      }
    }
  }

  /** The calendar days lo..hi. */
  function DaysBetween(lo: int, hi: int): (r: set<int>)
    ensures forall d :: d in r <==> lo <= d <= hi
    ensures |r| == if lo <= hi then hi - lo + 1 else 0
    decreases hi - lo
  {
    if lo > hi then {}
    else
      var rest := DaysBetween(lo + 1, hi);
      assert lo !in rest;
      {lo} + rest
  }

  /**
   * When every stored record is dated by its own timestamp, the summary's present days are
   * bounded by the days in the requested range and by the records found in it.
   */
  lemma PresentDaysBounded(records: seq<Record>, user: UserId, s: int, e: int)
    requires forall r :: r in records ==> DatedByTimestamp(r)
    requires DayOf(s) <= DayOf(e)
    ensures var q := Query(records, {user}, SummaryWindow(s, e));
            |DistinctDates(q)| <= TotalDays(s, e) && |DistinctDates(q)| <= |q|
  {
    var q := Query(records, {user}, SummaryWindow(s, e));
    DistinctDatesAtMostRecords(q);
    assert DistinctDates(q) <= DaysBetween(DayOf(s), DayOf(e)) by {
      forall d | d in DistinctDates(q) ensures DayOf(s) <= d <= DayOf(e) {
        var i :| 0 <= i < |q| && q[i].date == d;
        assert q[i] in q;
      }
    }
    SubsetCard(DistinctDates(q), DaysBetween(DayOf(s), DayOf(e)));
  }

  lemma SubsetCard(a: set<int>, b: set<int>)
    requires a <= b
    ensures |a| <= |b|
  {
    assert b == a + (b - a);
  }
}
