/**
 * What the dashboard and the order list compute from the snapshot: the
 * signed-in technician's earnings over the last 1, 7 and 30 days
 * (`financialStats`, App.tsx:238-267), the list of orders shown
 * (`filteredSchedules`, App.tsx:269-274) and the two counters an
 * administrator or attendant sees (App.tsx:364, 368).
 *
 * "Today" is a `CalendarDate` passed in, and a JavaScript `Date` at local
 * midnight is its day number, so the window "on or after today's midnight
 * minus d - 1 days" is "day number at least DayNumber(today) - (d - 1)".
 * The commission rate is a parameter: its constant lives in a file that is
 * not part of this model.
 */
module Finance {
  import opened Base
  import opened Domain
  import opened Calendar
  import opened Transitions
  import opened Lifecycle

  /**
   * `{ total, commission }` of one period. The commission is `total` times
   * the rate applied, so the record keeps the rate and derives the
   * commission from it.
   */
  datatype PeriodStats = PeriodStats(total: real, rate: real)
  {
    function Commission(): real
    {
      total * rate
    }
  }

  datatype FinancialStats = FinancialStats(today: PeriodStats, week: PeriodStats, month: PeriodStats)

  /** `COMMISSION_RATE || 0.07`: a zero rate falls back to 7%. */
  function EffectiveRate(rate: real): real
  {
    if rate == 0.0 then 0.07 else rate
  }

  // ---------------------------------------------------------------------
  // Which orders are counted

  /** An order of the signed-in user, concluded (App.tsx:239). */
  predicate IsMineConcluded(me: Option<User>, x: Schedule)
  {
    me.Some? && x.technicianId == me.value.id && x.status == CONCLUDED
  }

  function Mine(me: Option<User>): Schedule -> bool
  {
    (x: Schedule) => IsMineConcluded(me, x)
  }

  /**
   * The day number `new Date(Number(y), Number(m) - 1, Number(d))` gives for
   * the stored completion date, `None` when it is absent or empty
   * (`if (!s.completionDate) return false`) or when a part of it is not a
   * number. The range limit of a JavaScript `Date` is not modelled.
   */
  function CompletionDay(x: Schedule): Option<int>
  {
    if x.completionDate.None? || x.completionDate.value == "" then None
    else
      match ParseDayMonthYear(x.completionDate.value)
      case None => None
      case Some(c) => Some(DayNumber(c))
  }

  /**
   * `compDate >= threshold`, where `day` reads the date of an order; an
   * invalid date compares false. The application reads with `CompletionDay`;
   * the window lemmas below hold for any reader.
   */
  predicate InWindow(day: Schedule -> Option<int>, threshold: int, x: Schedule)
  {
    day(x).Some? && day(x).value >= threshold
  }

  function Within(day: Schedule -> Option<int>, threshold: int): Schedule -> bool
  {
    (x: Schedule) => InWindow(day, threshold, x)
  }

  /** The first day a window of `days` days ending today includes; `None` is no date filter. */
  function Threshold(todayNumber: int, days: Option<int>): Option<int>
  {
    if days.None? then None else Some(todayNumber - (days.value - 1))
  }

  /** The orders `calculateForPeriod(days)` sums (App.tsx:239, 245-256), dates read by `day`. */
  function Counted(s: AppState, day: Schedule -> Option<int>, todayNumber: int, days: Option<int>): seq<Schedule>
  {
    var mySchedules := Filter(s.schedules, Mine(s.currentUser));
    if days.None? then mySchedules
    else Filter(mySchedules, Within(day, todayNumber - (days.value - 1)))
  }

  /** Counted in a window: the user's, concluded, and dated inside the window. */
  predicate CountsIn(day: Schedule -> Option<int>, me: Option<User>, threshold: Option<int>, x: Schedule)
  {
    IsMineConcluded(me, x) && (threshold.None? || InWindow(day, threshold.value, x))
  }

  function CountsFor(day: Schedule -> Option<int>, me: Option<User>, threshold: Option<int>): Schedule -> bool
  {
    (x: Schedule) => CountsIn(day, me, threshold, x)
  }

  /** The two filters of `calculateForPeriod` are one filter by `CountsIn`. */
  lemma CountedIsOneFilter(s: AppState, day: Schedule -> Option<int>, todayNumber: int, days: Option<int>)
    ensures Counted(s, day, todayNumber, days) ==
      Filter(s.schedules, CountsFor(day, s.currentUser, Threshold(todayNumber, days)))
  {
    var me, th := s.currentUser, Threshold(todayNumber, days);
    var mine := Filter(s.schedules, Mine(me));
    if days.None? {
      FilterCongruent(s.schedules, Mine(me), CountsFor(day, me, th));
    } else {
      FilterCongruent(mine, Within(day, th.value), CountsFor(day, me, th));
      FilterNested(s.schedules, CountsFor(day, me, th), Mine(me));
    }
  }

  /**
   * An order is counted in a window exactly when it is an order of the
   * signed-in user, CONCLUDED, and (for a window of `d` days) has a valid
   * completion date on or after today minus `d - 1` days.
   */
  lemma CountedExactly(s: AppState, day: Schedule -> Option<int>, todayNumber: int, days: Option<int>, x: Schedule)
    ensures x in Counted(s, day, todayNumber, days) <==>
      x in s.schedules && s.currentUser.Some? && x.technicianId == s.currentUser.value.id &&
      x.status == CONCLUDED &&
      (days.Some? ==> day(x).Some? && day(x).value >= todayNumber - (days.value - 1))
  {
    CountedIsOneFilter(s, day, todayNumber, days);
    FilterMembers(s.schedules, CountsFor(day, s.currentUser, Threshold(todayNumber, days)));
    var r := Counted(s, day, todayNumber, days);
    if x in r {
      var k :| 0 <= k < |r| && r[k] == x;
    }
    if x in s.schedules {
      var j :| 0 <= j < |s.schedules| && s.schedules[j] == x;
    }
  }

  // ---------------------------------------------------------------------
  // Sums

  /** `curr.finalValue || 0`. */
  function Value(x: Schedule): real
  {
    if x.finalValue.Some? then x.finalValue.value else 0.0
  }

  /** `reduce((acc, curr) => acc + (curr.finalValue || 0), 0)`. */
  function Total(xs: seq<Schedule>): real
  {
    if |xs| == 0 then 0.0 else Value(xs[0]) + Total(xs[1..])
  }

  lemma {:induction false} TotalAppend(xs: seq<Schedule>, ys: seq<Schedule>)
    ensures Total(xs + ys) == Total(xs) + Total(ys)
  {
    if |xs| == 0 {
      assert xs + ys == ys;
    } else {
      assert (xs + ys)[1..] == xs[1..] + ys;
      TotalAppend(xs[1..], ys);
    }
  }

  predicate NonNegativeValues(xs: seq<Schedule>)
  {
    forall j :: 0 <= j < |xs| ==> Value(xs[j]) >= 0.0
  }

  /** Leaving orders out never raises the sum while no value is negative. */
  lemma {:induction false} FilterTotalAtMost(xs: seq<Schedule>, p: Schedule -> bool)
    requires NonNegativeValues(xs)
    ensures Total(Filter(xs, p)) <= Total(xs)
  {
    if |xs| > 0 {
      FilterTotalAtMost(xs[1..], p);
      var rest := Filter(xs[1..], p);
      if p(xs[0]) {
        assert Filter(xs, p) == [xs[0]] + rest;
        assert ([xs[0]] + rest)[1..] == rest;
      } else {
        assert Filter(xs, p) == rest;
      }
    }
  }

  lemma FilterSingle(x: Schedule, p: Schedule -> bool)
    ensures Filter([x], p) == if p(x) then [x] else []
  {
    assert [x][1..] == [];
  }

  /**
   * Turning one order that was not counted into one that is raises the sum
   * by exactly that order's value.
   */
  lemma FilterTotalOneMore(xs: seq<Schedule>, ys: seq<Schedule>, i: int, p: Schedule -> bool)
    requires |xs| == |ys| && 0 <= i < |xs|
    requires forall j :: 0 <= j < |xs| && j != i ==> ys[j] == xs[j]
    requires !p(xs[i]) && p(ys[i])
    ensures Total(Filter(ys, p)) == Total(Filter(xs, p)) + Value(ys[i])
  {
    var front, back := xs[..i], xs[i + 1..];
    assert xs == front + [xs[i]] + back;
    assert ys == front + [ys[i]] + back by {
      assert ys[..i] == front && ys[i + 1..] == back;
      assert ys == ys[..i] + [ys[i]] + ys[i + 1..];
    }
    var a, b := Filter(front, p), Filter(back, p);
    assert Filter(xs, p) == a + b by {
      FilterAppend(front + [xs[i]], back, p);
      FilterAppend(front, [xs[i]], p);
      FilterSingle(xs[i], p);
      assert a + [] == a;
    }
    assert Filter(ys, p) == (a + [ys[i]]) + b by {
      FilterAppend(front + [ys[i]], back, p);
      FilterAppend(front, [ys[i]], p);
      FilterSingle(ys[i], p);
    }
    TotalAppend(a, b);
    TotalAppend(a + [ys[i]], b);
    TotalAppend(a, [ys[i]]);
    assert Total([ys[i]]) == Value(ys[i]) by {
      assert [ys[i]][1..] == [];
    }
  }

  // ---------------------------------------------------------------------
  // calculateForPeriod and financialStats

  /** `calculateForPeriod(days)` (App.tsx:241-261). */
  function CalculateForPeriod(s: AppState, today: CalendarDate, rate: real, days: Option<int>): (p: PeriodStats)
    ensures p.rate == EffectiveRate(rate)
  {
    PeriodStats(Total(Counted(s, CompletionDay, DayNumber(today), days)), EffectiveRate(rate))
  }

  /** `financialStats` (App.tsx:238-267). */
  function FinancialStatsOf(s: AppState, today: CalendarDate, rate: real): FinancialStats
  {
    FinancialStats(
      CalculateForPeriod(s, today, rate, Some(1)),
      CalculateForPeriod(s, today, rate, Some(7)),
      CalculateForPeriod(s, today, rate, Some(30)))
  }

  /**
   * A shorter window is the longer one filtered by its own bound: whatever
   * is counted today is counted in the last 7 days, and whatever is counted
   * in the last 7 days is counted in the last 30.
   */
  lemma WindowsNest(s: AppState, day: Schedule -> Option<int>, todayNumber: int, d1: int, d2: int)
    requires 1 <= d1 <= d2
    ensures Counted(s, day, todayNumber, Some(d1)) ==
      Filter(Counted(s, day, todayNumber, Some(d2)), Within(day, todayNumber - (d1 - 1)))
  {
    var mine := Filter(s.schedules, Mine(s.currentUser));
    FilterNested(mine, Within(day, todayNumber - (d1 - 1)), Within(day, todayNumber - (d2 - 1)));
  }

  /** Everything counted in a window is among the orders. */
  lemma CountedValuesNonNegative(s: AppState, day: Schedule -> Option<int>, todayNumber: int, days: Option<int>)
    requires NonNegativeValues(s.schedules)
    ensures NonNegativeValues(Counted(s, day, todayNumber, days))
  {
    var r := Counted(s, day, todayNumber, days);
    CountedIsOneFilter(s, day, todayNumber, days);
    FilterMembers(s.schedules, CountsFor(day, s.currentUser, Threshold(todayNumber, days)));
    forall k | 0 <= k < |r| ensures Value(r[k]) >= 0.0 {
      var j :| 0 <= j < |s.schedules| && s.schedules[j] == r[k];
    }
  }

  /** While no value is negative, a window's total is at most the next longer window's. */
  lemma WindowTotalsOrdered(s: AppState, day: Schedule -> Option<int>, todayNumber: int, d1: int, d2: int)
    requires NonNegativeValues(s.schedules) && 1 <= d1 <= d2
    ensures Total(Counted(s, day, todayNumber, Some(d1))) <= Total(Counted(s, day, todayNumber, Some(d2)))
  {
    CountedValuesNonNegative(s, day, todayNumber, Some(d2));
    WindowsNest(s, day, todayNumber, d1, d2);
    FilterTotalAtMost(Counted(s, day, todayNumber, Some(d2)), Within(day, todayNumber - (d1 - 1)));
  }

  /** While no value is negative, today's total <= the week's <= the month's. */
  lemma TotalsOrdered(s: AppState, today: CalendarDate, rate: real)
    requires NonNegativeValues(s.schedules)
    ensures var f := FinancialStatsOf(s, today, rate);
      f.today.total <= f.week.total <= f.month.total
  {
    var t := DayNumber(today);
    WindowTotalsOrdered(s, CompletionDay, t, 1, 7);
    WindowTotalsOrdered(s, CompletionDay, t, 7, 30);
  }

  /** With no negative value and a nonnegative rate the commissions are ordered the same way. */
  lemma CommissionsOrdered(s: AppState, today: CalendarDate, rate: real)
    requires NonNegativeValues(s.schedules) && EffectiveRate(rate) >= 0.0
    ensures var f := FinancialStatsOf(s, today, rate);
      f.today.Commission() <= f.week.Commission() <= f.month.Commission()
  {
    TotalsOrdered(s, today, rate);
    var f := FinancialStatsOf(s, today, rate);
    CommissionMonotone(f.today, f.week);
    CommissionMonotone(f.week, f.month);
  }

  lemma CommissionMonotone(p: PeriodStats, q: PeriodStats)
    requires p.total <= q.total && p.rate == q.rate && p.rate >= 0.0
    ensures p.Commission() <= q.Commission()
  {
    ScaleMonotone(p.total, q.total, p.rate);
  }

  lemma ScaleMonotone(a: real, b: real, r: real)
    requires a <= b && r >= 0.0
    ensures a * r <= b * r
  {
  }

  /** Nobody signed in: every window is empty and every figure zero. */
  lemma SignedOutEarnsNothing(s: AppState, today: CalendarDate, rate: real)
    requires s.currentUser.None?
    ensures FinancialStatsOf(s, today, rate) ==
      var r := EffectiveRate(rate);
      FinancialStats(PeriodStats(0.0, r), PeriodStats(0.0, r), PeriodStats(0.0, r))
  {
    FilterNone(s.schedules, Mine(s.currentUser));
    var t := DayNumber(today);
    assert Counted(s, CompletionDay, t, Some(1)) == [];
    assert Counted(s, CompletionDay, t, Some(7)) == [];
    assert Counted(s, CompletionDay, t, Some(30)) == [];
  }

  /**
   * Replacing one order that a window did not count by one it counts, and
   * nothing else, raises the window's total by that order's value.
   */
  lemma CountedOneMore(s: AppState, t: AppState, i: int, day: Schedule -> Option<int>, todayNumber: int, days: Option<int>)
    requires t.currentUser == s.currentUser && |t.schedules| == |s.schedules| && 0 <= i < |s.schedules|
    requires forall j :: 0 <= j < |s.schedules| && j != i ==> t.schedules[j] == s.schedules[j]
    requires !CountsIn(day, s.currentUser, Threshold(todayNumber, days), s.schedules[i])
    requires CountsIn(day, s.currentUser, Threshold(todayNumber, days), t.schedules[i])
    ensures Total(Counted(t, day, todayNumber, days)) == Total(Counted(s, day, todayNumber, days)) + Value(t.schedules[i])
  {
    CountedIsOneFilter(s, day, todayNumber, days);
    CountedIsOneFilter(t, day, todayNumber, days);
    FilterTotalOneMore(s.schedules, t.schedules, i, CountsFor(day, s.currentUser, Threshold(todayNumber, days)));
  }

  /**
   * Concluding one of the technician's own orders that was not concluded yet
   * raises the total of every window ending on the conclusion day (and of
   * the unfiltered list) by exactly the value entered.
   */
  lemma ConcludeCountsInEveryWindow(s: AppState, id: string, workDone: string, amount: real,
                                    today: CalendarDate, rate: real, days: Option<int>)
    requires UniqueScheduleIds(s.schedules) && ValidDate(today)
    requires days.None? || days.value >= 1
    requires s.currentUser.Some?
    requires exists i :: (0 <= i < |s.schedules| && s.schedules[i].id == id &&
      s.schedules[i].technicianId == s.currentUser.value.id && s.schedules[i].status != CONCLUDED)
    ensures var t := Conclude(s, Some(id), workDone, Some(amount), today).value;
      CalculateForPeriod(t, today, rate, days).total == CalculateForPeriod(s, today, rate, days).total + amount
  {
    var i :| 0 <= i < |s.schedules| && s.schedules[i].id == id &&
      s.schedules[i].technicianId == s.currentUser.value.id && s.schedules[i].status != CONCLUDED;
    var t := Conclude(s, Some(id), workDone, Some(amount), today).value;
    forall j | 0 <= j < |s.schedules| && j != i ensures t.schedules[j] == s.schedules[j] {
      if j < i {
        assert s.schedules[j].id != s.schedules[i].id;
      } else {
        assert s.schedules[i].id != s.schedules[j].id;
      }
    }
    var y := t.schedules[i];
    assert y == Concluding(workDone, amount, today)(s.schedules[i]);
    var n := DayNumber(today);
    assert CompletionDay(y) == Some(n) by {
      ParseFormatRoundTrip(today);
    }
    CountedOneMore(s, t, i, CompletionDay, n, days);
  }

  /** Appending an order a window does not count leaves the window as it was. */
  lemma CountedIgnoresAppended(s: AppState, o: Schedule, day: Schedule -> Option<int>, todayNumber: int, days: Option<int>)
    requires o.status != CONCLUDED
    ensures Counted(s.(schedules := s.schedules + [o]), day, todayNumber, days) == Counted(s, day, todayNumber, days)
  {
    var t := s.(schedules := s.schedules + [o]);
    var p := CountsFor(day, s.currentUser, Threshold(todayNumber, days));
    CountedIsOneFilter(s, day, todayNumber, days);
    CountedIsOneFilter(t, day, todayNumber, days);
    FilterAppend(s.schedules, [o], p);
    FilterSingle(o, p);
    assert Filter(s.schedules, p) + [] == Filter(s.schedules, p);
  }

  /** A new order starts PENDING, so creating one changes no earnings figure. */
  lemma CreateOrderKeepsEarnings(s: AppState, form: ScheduleForm, freshId: string, today: CalendarDate, rate: real)
    ensures FinancialStatsOf(CreateOrder(s, form, freshId), today, rate) == FinancialStatsOf(s, today, rate)
  {
    var o := NewOrder(s, form, freshId);
    var n := DayNumber(today);
    assert CreateOrder(s, form, freshId) == s.(schedules := s.schedules + [o]);
    CountedIgnoresAppended(s, o, CompletionDay, n, Some(1));
    CountedIgnoresAppended(s, o, CompletionDay, n, Some(7));
    CountedIgnoresAppended(s, o, CompletionDay, n, Some(30));
  }

  /** Worked example: a technician's three concluded orders on 14/10/2026 at rate 0.07. */
  lemma EarningsExample()
    ensures var tech := User("t1", "Tecnico", "t@click.com", None, Some("1"), TECHNICIAN, None, 0, 0);
      var today := CalendarDate(14, 10, 2026);
      var s := Seed().(currentUser := Some(tech), schedules := [
        ConcludedOn("a", "t1", 100.0, CalendarDate(14, 10, 2026)),
        ConcludedOn("b", "t1", 200.0, CalendarDate(9, 10, 2026)),
        ConcludedOn("c", "t1", 300.0, CalendarDate(24, 9, 2026)),
        ConcludedOn("d", "t2", 400.0, CalendarDate(14, 10, 2026))]);
      FinancialStatsOf(s, today, 0.0) ==
        FinancialStats(PeriodStats(100.0, 0.07), PeriodStats(300.0, 0.07), PeriodStats(600.0, 0.07)) &&
      FinancialStatsOf(s, today, 0.0).today.Commission() == 7.0 &&
      FinancialStatsOf(s, today, 0.0).week.Commission() == 21.0 &&
      FinancialStatsOf(s, today, 0.0).month.Commission() == 42.0
  {
    var tech := User("t1", "Tecnico", "t@click.com", None, Some("1"), TECHNICIAN, None, 0, 0);
    var today := CalendarDate(14, 10, 2026);
    var a := ConcludedOn("a", "t1", 100.0, CalendarDate(14, 10, 2026));
    var b := ConcludedOn("b", "t1", 200.0, CalendarDate(9, 10, 2026));
    var c := ConcludedOn("c", "t1", 300.0, CalendarDate(24, 9, 2026));
    var d := ConcludedOn("d", "t2", 400.0, CalendarDate(14, 10, 2026));
    var s := Seed().(currentUser := Some(tech), schedules := [a, b, c, d]);
    var n := DayNumber(today);
    DayNumberParts(CalendarDate(14, 10, 2026));
    DayNumberParts(CalendarDate(9, 10, 2026));
    DayNumberParts(CalendarDate(24, 9, 2026));
    assert DayNumber(CalendarDate(9, 10, 2026)) == n - 5;
    assert DayNumber(CalendarDate(24, 9, 2026)) == n - 20;
    ReadBackCompletionDay(a, CalendarDate(14, 10, 2026));
    ReadBackCompletionDay(b, CalendarDate(9, 10, 2026));
    ReadBackCompletionDay(c, CalendarDate(24, 9, 2026));
    ExampleWindows(s, a, b, c, d, CompletionDay, n);
  }

  /** A completion date the application wrote is read back as its own day number. */
  lemma ReadBackCompletionDay(x: Schedule, d: CalendarDate)
    requires x.completionDate == Some(FormatDate(d)) && d.day < 100 && d.month < 100
    ensures CompletionDay(x) == Some(DayNumber(d))
  {
    ParseFormatRoundTrip(d);
  }

  /** The window arithmetic of the example, for any reader that dates the orders as given. */
  lemma ExampleWindows(s: AppState, a: Schedule, b: Schedule, c: Schedule, d: Schedule,
                       day: Schedule -> Option<int>, n: int)
    requires s.currentUser.Some? && s.schedules == [a, b, c, d]
    requires a.status == b.status == c.status == d.status == CONCLUDED
    requires a.technicianId == b.technicianId == c.technicianId == s.currentUser.value.id != d.technicianId
    requires a.finalValue == Some(100.0) && b.finalValue == Some(200.0) && c.finalValue == Some(300.0)
    requires day(a) == Some(n) && day(b) == Some(n - 5) && day(c) == Some(n - 20)
    ensures Total(Counted(s, day, n, Some(1))) == 100.0
    ensures Total(Counted(s, day, n, Some(7))) == 300.0
    ensures Total(Counted(s, day, n, Some(30))) == 600.0
  {
    ExampleOwnOrders(s.currentUser, a, b, c, d);
    assert Total(Counted(s, day, n, Some(1))) == 100.0 by {
      TotalOfThree(a, b, c, Within(day, n));
    }
    assert Total(Counted(s, day, n, Some(7))) == 300.0 by {
      TotalOfThree(a, b, c, Within(day, n - 6));
    }
    assert Total(Counted(s, day, n, Some(30))) == 600.0 by {
      TotalOfThree(a, b, c, Within(day, n - 29));
    }
  }

  /** The example's own concluded orders: all but the other technician's. */
  lemma ExampleOwnOrders(me: Option<User>, a: Schedule, b: Schedule, c: Schedule, d: Schedule)
    requires me.Some? && a.status == b.status == c.status == d.status == CONCLUDED
    requires a.technicianId == b.technicianId == c.technicianId == me.value.id != d.technicianId
    ensures Filter([a, b, c, d], Mine(me)) == [a, b, c]
  {
    FilterSingle(d, Mine(me));
    FilterStep(c, [d], Mine(me));
    FilterStep(b, [c, d], Mine(me));
    FilterStep(a, [b, c, d], Mine(me));
  }

  /** The sum a filter keeps out of three orders. */
  lemma TotalOfThree(a: Schedule, b: Schedule, c: Schedule, p: Schedule -> bool)
    ensures Total(Filter([a, b, c], p)) ==
      (if p(a) then Value(a) else 0.0) + (if p(b) then Value(b) else 0.0) + (if p(c) then Value(c) else 0.0)
  {
    FilterSingle(c, p);
    FilterStep(b, [c], p);
    FilterStep(a, [b, c], p);
    var fa, fb, fc := (if p(a) then [a] else []), (if p(b) then [b] else []), (if p(c) then [c] else []);
    assert Filter([a, b, c], p) == fa + (fb + fc);
    TotalAppend(fa, fb + fc);
    TotalAppend(fb, fc);
    TotalSingle(a);
    TotalSingle(b);
    TotalSingle(c);
  }

  lemma FilterStep(x: Schedule, rest: seq<Schedule>, p: Schedule -> bool)
    ensures Filter([x] + rest, p) == (if p(x) then [x] else []) + Filter(rest, p)
  {
    assert ([x] + rest)[1..] == rest;
  }

  lemma TotalSingle(x: Schedule)
    ensures Total([x]) == Value(x)
  {
    assert [x][1..] == [];
  }

  /** A concluded order of technician `tech` with a value, completed on `day`. */
  function ConcludedOn(id: string, tech: string, value: real, day: CalendarDate): (x: Schedule)
    ensures x.status == CONCLUDED && x.technicianId == tech && x.finalValue == Some(value)
    ensures x.completionDate == Some(FormatDate(day))
  {
    Schedule(id, "Cliente", "", "Rua", None, "", "", tech, None, "", "", CONCLUDED,
             Some("ok"), Some(value), Some(FormatDate(day)), Some([]))
  }

  // ---------------------------------------------------------------------
  // The order list and the counters

  /** The status buttons above the list: "Todos" or one status. */
  datatype StatusFilter = All | Only(status: ScheduleStatus)

  function AssignedTo(id: string): Schedule -> bool
  {
    (x: Schedule) => x.technicianId == id
  }

  function HasStatus(status: ScheduleStatus): Schedule -> bool
  {
    (x: Schedule) => x.status == status
  }

  /** `filteredSchedules` (App.tsx:269-274). */
  function FilteredSchedules(s: AppState, filter: StatusFilter): seq<Schedule>
  {
    var list := s.schedules;
    var own := if SignedInAs(s, TECHNICIAN) then Filter(list, AssignedTo(s.currentUser.value.id)) else list;
    var shown := if SignedInAs(s, ADMIN) && filter.Only? then Filter(own, HasStatus(filter.status)) else own;
    Reverse(shown)
  }

  /** What the list shows: a technician only their own orders, an administrator only the chosen status. */
  predicate Shown(s: AppState, filter: StatusFilter, x: Schedule)
  {
    (SignedInAs(s, TECHNICIAN) ==> x.technicianId == s.currentUser.value.id) &&
    (SignedInAs(s, ADMIN) && filter.Only? ==> x.status == filter.status)
  }

  lemma ReverseMembers<T>(xs: seq<T>, x: T)
    ensures x in Reverse(xs) <==> x in xs
  {
    var r := Reverse(xs);
    if x in r {
      var k :| 0 <= k < |r| && r[k] == x;
      assert xs[|xs| - 1 - k] == x;
    }
    if x in xs {
      var j :| 0 <= j < |xs| && xs[j] == x;
      assert r[|xs| - 1 - j] == x;
    }
  }

  /** An order is listed exactly when it is in the snapshot and passes the role's filter. */
  lemma FilteredSchedulesMembers(s: AppState, filter: StatusFilter, x: Schedule)
    ensures x in FilteredSchedules(s, filter) <==> x in s.schedules && Shown(s, filter, x)
  {
    var own := if SignedInAs(s, TECHNICIAN) then Filter(s.schedules, AssignedTo(s.currentUser.value.id)) else s.schedules;
    var shown := if SignedInAs(s, ADMIN) && filter.Only? then Filter(own, HasStatus(filter.status)) else own;
    ReverseMembers(shown, x);
    if SignedInAs(s, TECHNICIAN) {
      FilterMembers(s.schedules, AssignedTo(s.currentUser.value.id));
    }
    if SignedInAs(s, ADMIN) && filter.Only? {
      FilterMembers(own, HasStatus(filter.status));
    }
    if x in shown {
      var k :| 0 <= k < |shown| && shown[k] == x;
      if SignedInAs(s, ADMIN) && filter.Only? {
        assert x in own;
      }
      if x in own {
        var m :| 0 <= m < |own| && own[m] == x;
      }
    }
    if x in s.schedules && Shown(s, filter, x) {
      var j :| 0 <= j < |s.schedules| && s.schedules[j] == x;
      assert x in own;
      var m :| 0 <= m < |own| && own[m] == x;
    }
  }

  /** Without a role filter (an attendant, or an administrator on "Todos") the list is newest first. */
  lemma UnfilteredListNewestFirst(s: AppState, filter: StatusFilter)
    requires !SignedInAs(s, TECHNICIAN) && !(SignedInAs(s, ADMIN) && filter.Only?)
    ensures var r := FilteredSchedules(s, filter);
      |r| == |s.schedules| && forall k :: 0 <= k < |r| ==> r[k] == s.schedules[|s.schedules| - 1 - k]
  {
  }

  /** A new order heads the list of whoever may see all orders. */
  lemma NewOrderListedFirst(s: AppState, form: ScheduleForm, freshId: string)
    requires !SignedInAs(s, TECHNICIAN)
    ensures FilteredSchedules(CreateOrder(s, form, freshId), All)[0] == NewOrder(s, form, freshId)
  {
    UnfilteredListNewestFirst(CreateOrder(s, form, freshId), All);
  }

  function IsTechnician(): User -> bool
  {
    (u: User) => u.role == TECHNICIAN
  }

  /** "Técnicos Ativos": how many accounts have the technician role (App.tsx:368). */
  function TechnicianCount(users: seq<User>): (n: nat)
    ensures n <= |users|
  {
    |Filter(users, IsTechnician())|
  }

  /** The two counters shown to everyone but technicians (App.tsx:364, 368). */
  datatype Dashboard = Dashboard(orders: nat, technicians: nat)

  function DashboardOf(s: AppState): Dashboard
  {
    Dashboard(|s.schedules|, TechnicianCount(s.users))
  }

  /** A new order adds one to the order counter and leaves the technician counter alone. */
  lemma CreateOrderCounted(s: AppState, form: ScheduleForm, freshId: string)
    ensures DashboardOf(CreateOrder(s, form, freshId)) ==
      Dashboard(DashboardOf(s).orders + 1, DashboardOf(s).technicians)
  {
  }

  /** Adding a member adds one to the technician counter exactly when the new member is a technician. */
  lemma AddMemberCounted(s: AppState, form: AuthForm, freshId: string)
    requires AddMember(s, form, freshId).Ok?
    ensures TechnicianCount(AddMember(s, form, freshId).value.users) ==
      TechnicianCount(s.users) + (if form.role == TECHNICIAN then 1 else 0)
  {
    var u := NewMember(form, freshId);
    FilterAppend(s.users, [u], IsTechnician());
    assert [u][1..] == [];
  }
}
