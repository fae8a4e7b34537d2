/**
 * The wealth curve simulator: month by month from January of the start
 * year to December of 2060, the applicable events are added to the
 * balance and the balance is then compounded at the monthly rate; the
 * December balance of every year is emitted, rounded to cents.
 *
 * The start year (read from the clock) and the effective monthly rate
 * (the twelfth root of 1 + annual rate, minus 1) are parameters.
 */
module SimulationService {
  import opened Wrappers
  import opened Numeric
  import opened Entities

  /** The last projected year, fixed in the source. */
  const EndYear: int := 2060

  datatype ProjectionPoint = ProjectionPoint(year: int, projectedValue: real)

  /**
   * `endYear - startYear + 1` as an array length: one point per year from
   * the start year through 2060, and none when the start is after 2060.
   */
  function YearCount(startYear: int): (n: nat)
    ensures n > 0 <==> startYear <= EndYear
    ensures n > 0 ==> startYear + n - 1 == EndYear
  {
    if startYear <= EndYear then EndYear - startYear + 1 else 0
  }

  /** `isSameMonth`: same calendar year and month, that is, the same month number. */
  predicate IsSameMonth(a: Date, b: Date): (same: bool)
    ensures ValidDate(a) && ValidDate(b) ==>
      (same <==> MonthNumber(a.year, a.month) == MonthNumber(b.year, b.month))
  {
    a.year == b.year && a.month == b.month
  }

  /**
   * `shouldApply`: whether an event adds its value in the given month. An
   * event applies only when it has a start date, and never in a month
   * before the month of its start.
   */
  predicate Applies(e: Event, year: int, month: int): (applies: bool)
    ensures applies ==> e.startDate.Some?
    ensures applies && 0 <= month < 12 && ValidDate(e.startDate.value) ==>
      MonthNumber(e.startDate.value.year, e.startDate.value.month) <= MonthNumber(year, month)
  {
    match e.startDate
    case None => false
    case Some(start) =>
      var current := FirstOfMonth(year, month);
      match e.frequency
      case Once => IsSameMonth(current, start)
      case Monthly => DateLeq(start, current)
      case Annual => current.month == start.month && DateLeq(start, current)
  }

  /** What the events add in one month, summed in list order. */
  function Contribution(events: seq<Event>, year: int, month: int): real
    decreases |events|
  {
    if |events| == 0 then 0.0
    else
      var last := events[|events| - 1];
      Contribution(events[..|events| - 1], year, month) + (if Applies(last, year, month) then last.value else 0.0)
  }

  /** One month: the applicable events are added, then the balance is compounded. */
  function MonthStep(balance: real, events: seq<Event>, monthlyRate: real, year: int, month: int): real {
    (balance + Contribution(events, year, month)) * (1.0 + monthlyRate)
  }

  /** The balance after the first `months` months of `year`, starting from `balance`. */
  function BalanceThroughMonth(balance: real, events: seq<Event>, monthlyRate: real, year: int, months: nat): real {
    if months == 0 then balance
    else MonthStep(BalanceThroughMonth(balance, events, monthlyRate, year, months - 1), events, monthlyRate, year, months - 1)
  }

  /** The unrounded balance at the end of December of the `years`-th projected year. */
  function BalanceAfterYears(initialValue: real, events: seq<Event>, monthlyRate: real, startYear: int, years: nat): real {
    if years == 0 then initialValue
    else BalanceThroughMonth(BalanceAfterYears(initialValue, events, monthlyRate, startYear, years - 1), events, monthlyRate, startYear + years - 1, 12)
  }

  /** `simulateWealthCurve` with the monthly rate and the start year given. */
  method SimulateWealthCurve(initialValue: real, events: seq<Event>, monthlyRate: real, startYear: int)
    returns (curve: seq<ProjectionPoint>)
    ensures |curve| == YearCount(startYear)
    ensures forall i :: 0 <= i < |curve| ==> curve[i].year == startYear + i
    ensures |curve| > 0 ==> curve[|curve| - 1].year == EndYear
    ensures forall i :: 0 <= i < |curve| ==>
      curve[i].projectedValue == Round2(BalanceAfterYears(initialValue, events, monthlyRate, startYear, i + 1))
  {
    var totalYears := YearCount(startYear);
    var currentValue := initialValue;
    curve := [];
    var yearIndex := 0;
    while yearIndex < totalYears
      invariant 0 <= yearIndex <= totalYears
      invariant |curve| == yearIndex
      invariant currentValue == BalanceAfterYears(initialValue, events, monthlyRate, startYear, yearIndex)
      invariant forall i :: 0 <= i < yearIndex ==> curve[i].year == startYear + i
      invariant forall i :: 0 <= i < yearIndex ==>
        curve[i].projectedValue == Round2(BalanceAfterYears(initialValue, events, monthlyRate, startYear, i + 1))
    {
      var year := startYear + yearIndex;
      currentValue := SimulateYear(currentValue, events, monthlyRate, year);
      curve := curve + [ProjectionPoint(year, Round2(currentValue))];
      yearIndex := yearIndex + 1;
    }
  }

  /** The reduction over the twelve months of one year. */
  method SimulateYear(balance: real, events: seq<Event>, monthlyRate: real, year: int) returns (valueAcc: real)
    ensures valueAcc == BalanceThroughMonth(balance, events, monthlyRate, year, 12)
  {
    valueAcc := balance;
    var month := 0;
    while month < 12
      invariant 0 <= month <= 12
      invariant valueAcc == BalanceThroughMonth(balance, events, monthlyRate, year, month)
    {
      valueAcc := ApplyEvents(valueAcc, events, year, month);
      valueAcc := valueAcc * (1.0 + monthlyRate);
      month := month + 1;
    }
  }

  /** The `events.forEach` of one month: adds the value of every applicable event. */
  method ApplyEvents(balance: real, events: seq<Event>, year: int, month: int) returns (valueAcc: real)
    ensures valueAcc == balance + Contribution(events, year, month)
  {
    valueAcc := balance;
    var j := 0;
    while j < |events|
      invariant 0 <= j <= |events|
      invariant valueAcc == balance + Contribution(events[..j], year, month)
    {
      assert events[..j + 1][..j] == events[..j];
      if Applies(events[j], year, month) {
        valueAcc := valueAcc + events[j].value;
      }
      j := j + 1;
    }
    assert events[..|events|] == events;
  }

  // ---------------------------------------------------------------------
  // Event applicability

  /** A ONCE event applies exactly in the year and month of its start date. */
  lemma OnceAppliesOnlyInStartMonth(e: Event, year: int, month: int)
    requires e.frequency == Once && e.startDate.Some?
    ensures Applies(e, year, month) <==> year == e.startDate.value.year && month == e.startDate.value.month
  {
  }

  /** Hence a ONCE event applies in at most one month of the horizon. */
  lemma OnceAppliesAtMostOnce(e: Event, y1: int, m1: int, y2: int, m2: int)
    requires e.frequency == Once
    requires Applies(e, y1, m1) && Applies(e, y2, m2)
    ensures y1 == y2 && m1 == m2
  {
  }

  /** Months numbered consecutively across years. */
  function MonthNumber(year: int, month: int): int {
    year * 12 + month
  }

  /**
   * The first month in which a MONTHLY event with this start applies: the
   * start month when the start is midnight on the 1st, the next one otherwise.
   */
  function FirstMonthlyMonth(start: Date): int {
    MonthNumber(start.year, start.month) + (if start.day == 1 && start.time == 0 then 0 else 1)
  }

  /** A MONTHLY event applies exactly from its first month on. */
  lemma MonthlyAppliesFromFirstMonth(e: Event, year: int, month: int)
    requires e.frequency == Monthly && e.startDate.Some? && ValidDate(e.startDate.value)
    requires 0 <= month < 12
    ensures Applies(e, year, month) <==> MonthNumber(year, month) >= FirstMonthlyMonth(e.startDate.value)
  {
  }

  /** Once a MONTHLY event applies, it applies in every later month. */
  lemma MonthlyPersists(e: Event, y1: int, m1: int, y2: int, m2: int)
    requires e.frequency == Monthly
    requires 0 <= m1 < 12 && 0 <= m2 < 12
    requires MonthNumber(y1, m1) <= MonthNumber(y2, m2)
    requires Applies(e, y1, m1)
    ensures Applies(e, y2, m2)
  {
  }

  /**
   * An ANNUAL event applies only in its start month, and in that month of
   * every year after its start year; in the start year itself only when it
   * starts at midnight on the 1st.
   */
  lemma AnnualAppliesInStartMonth(e: Event, year: int, month: int)
    requires e.frequency == Annual && e.startDate.Some? && ValidDate(e.startDate.value)
    ensures Applies(e, year, month) <==>
      var start := e.startDate.value;
      month == start.month && (year > start.year || (year == start.year && start.day == 1 && start.time == 0))
  {
  }

  /** An event without a start date never applies. */
  lemma UndatedNeverApplies(e: Event, year: int, month: int)
    requires e.startDate.None?
    ensures !Applies(e, year, month)
  {
  }

  // ---------------------------------------------------------------------
  // Contributions

  /** The contributions of two event lists add up. */
  lemma {:induction false} ContributionAppend(a: seq<Event>, b: seq<Event>, year: int, month: int)
    ensures Contribution(a + b, year, month) == Contribution(a, year, month) + Contribution(b, year, month)
    decreases |b|
  {
    if |b| == 0 {
      assert a + b == a;
    } else {
      var last := b[|b| - 1];
      assert (a + b)[..|a + b| - 1] == a + b[..|b| - 1];
      ContributionAppend(a, b[..|b| - 1], year, month);
    }
  }

  /** A single event contributes its value exactly in the months it applies. */
  lemma ContributionOfOne(e: Event, year: int, month: int)
    ensures Contribution([e], year, month) == if Applies(e, year, month) then e.value else 0.0
  {
    assert [e][..0] == [];
  }

  /** Removing an event without a start date changes no month's contribution. */
  lemma UndatedEventContributesNothing(a: seq<Event>, e: Event, b: seq<Event>, year: int, month: int)
    requires e.startDate.None?
    ensures Contribution(a + [e] + b, year, month) == Contribution(a + b, year, month)
  {
    ContributionAppend(a + [e], b, year, month);
    ContributionAppend(a, [e], year, month);
    ContributionAppend(a, b, year, month);
    ContributionOfOne(e, year, month);
  }

  /** Event lists that contribute the same in every month give the same balances. */
  lemma {:induction false} SameContributionSameBalance(initialValue: real, a: seq<Event>, b: seq<Event>, monthlyRate: real, startYear: int, years: nat)
    requires forall y, m :: Contribution(a, y, m) == Contribution(b, y, m)
    ensures BalanceAfterYears(initialValue, a, monthlyRate, startYear, years) == BalanceAfterYears(initialValue, b, monthlyRate, startYear, years)
  {
    if years > 0 {
      SameContributionSameBalance(initialValue, a, b, monthlyRate, startYear, years - 1);
      var v := BalanceAfterYears(initialValue, a, monthlyRate, startYear, years - 1);
      SameContributionSameYear(v, a, b, monthlyRate, startYear + years - 1, 12);
    }
  }

  lemma {:induction false} SameContributionSameYear(balance: real, a: seq<Event>, b: seq<Event>, monthlyRate: real, year: int, months: nat)
    requires forall y, m :: Contribution(a, y, m) == Contribution(b, y, m)
    ensures BalanceThroughMonth(balance, a, monthlyRate, year, months) == BalanceThroughMonth(balance, b, monthlyRate, year, months)
  {
    if months > 0 {
      SameContributionSameYear(balance, a, b, monthlyRate, year, months - 1);
      var prev := BalanceThroughMonth(balance, a, monthlyRate, year, months - 1);
      assert Contribution(a, year, months - 1) == Contribution(b, year, months - 1);
      assert MonthStep(prev, a, monthlyRate, year, months - 1) == MonthStep(prev, b, monthlyRate, year, months - 1);
    }
  }

  /** An event without a start date never changes the projected balances. */
  lemma UndatedEventIgnored(initialValue: real, a: seq<Event>, e: Event, b: seq<Event>, monthlyRate: real, startYear: int, years: nat)
    requires e.startDate.None?
    ensures BalanceAfterYears(initialValue, a + [e] + b, monthlyRate, startYear, years) == BalanceAfterYears(initialValue, a + b, monthlyRate, startYear, years)
  {
    forall y, m ensures Contribution(a + [e] + b, y, m) == Contribution(a + b, y, m) {
      UndatedEventContributesNothing(a, e, b, y, m);
    }
    SameContributionSameBalance(initialValue, a + [e] + b, a + b, monthlyRate, startYear, years);
  }

  // ---------------------------------------------------------------------
  // Rate zero: the balance is the initial value plus what the events added

  /** What the events add in the first `months` months of `year`. */
  function YearContribution(events: seq<Event>, year: int, months: nat): real {
    if months == 0 then 0.0 else YearContribution(events, year, months - 1) + Contribution(events, year, months - 1)
  }

  /** Without interest, a year's months only add the contributions. */
  lemma {:induction false} FlatYear(balance: real, events: seq<Event>, year: int, months: nat)
    ensures BalanceThroughMonth(balance, events, 0.0, year, months) == balance + YearContribution(events, year, months)
  {
    if months > 0 {
      FlatYear(balance, events, year, months - 1);
    }
  }

  /** With rate 0 and no events, every projected balance is the initial value. */
  lemma {:induction false} NoRateNoEventsKeepsInitial(initialValue: real, startYear: int, years: nat)
    ensures BalanceAfterYears(initialValue, [], 0.0, startYear, years) == initialValue
  {
    if years > 0 {
      NoRateNoEventsKeepsInitial(initialValue, startYear, years - 1);
      FlatYear(initialValue, [], startYear + years - 1, 12);
      NoEventsNoContribution(startYear + years - 1, 12);
    }
  }

  lemma {:induction false} NoEventsNoContribution(year: int, months: nat)
    ensures YearContribution([], year, months) == 0.0
  {
    if months > 0 {
      NoEventsNoContribution(year, months - 1);
    }
  }

  /** Within a year, a ONCE event adds its value once if its month has passed. */
  lemma {:induction false} OnceYearContribution(e: Event, year: int, months: nat)
    requires e.frequency == Once && e.startDate.Some?
    requires 0 <= e.startDate.value.month && months <= 12
    ensures YearContribution([e], year, months) ==
      if year == e.startDate.value.year && e.startDate.value.month < months then e.value else 0.0
  {
    if months > 0 {
      OnceYearContribution(e, year, months - 1);
      ContributionOfOne(e, year, months - 1);
    }
  }

  /**
   * With rate 0, a single ONCE event raises the balance by its value from
   * the end of its start year on, and not before.
   */
  lemma {:induction false} OnceEventAddsOnce(initialValue: real, e: Event, startYear: int, years: nat)
    requires e.frequency == Once && e.startDate.Some? && 0 <= e.startDate.value.month < 12
    ensures BalanceAfterYears(initialValue, [e], 0.0, startYear, years) ==
      initialValue + if startYear <= e.startDate.value.year < startYear + years then e.value else 0.0
  {
    if years > 0 {
      OnceEventAddsOnce(initialValue, e, startYear, years - 1);
      var v := BalanceAfterYears(initialValue, [e], 0.0, startYear, years - 1);
      FlatYear(v, [e], startYear + years - 1, 12);
      OnceYearContribution(e, startYear + years - 1, 12);
    }
  }

  /** A ONCE event in January of the start year: every point is the initial value plus the event. */
  lemma OnceInFirstJanuary(initialValue: real, e: Event, startYear: int, years: nat)
    requires e.frequency == Once && e.startDate.Some?
    requires e.startDate.value.year == startYear && e.startDate.value.month == 0
    requires years >= 1
    ensures BalanceAfterYears(initialValue, [e], 0.0, startYear, years) == initialValue + e.value
  {
    OnceEventAddsOnce(initialValue, e, startYear, years);
  }

  /** Within a year, an ANNUAL event adds its value once its month has passed, from its start on. */
  lemma {:induction false} AnnualYearContribution(e: Event, year: int, months: nat)
    requires e.frequency == Annual && e.startDate.Some? && ValidDate(e.startDate.value)
    requires months <= 12
    ensures YearContribution([e], year, months) ==
      if e.startDate.value.month < months && DateLeq(e.startDate.value, FirstOfMonth(year, e.startDate.value.month))
      then e.value else 0.0
  {
    if months > 0 {
      AnnualYearContribution(e, year, months - 1);
      ContributionOfOne(e, year, months - 1);
    }
  }

  /**
   * With rate 0, an ANNUAL event starting at midnight on the 1st of a month
   * of the start year adds its value exactly once per projected year.
   */
  lemma {:induction false} AnnualEventAddsOncePerYear(initialValue: real, e: Event, startYear: int, years: nat)
    requires e.frequency == Annual && e.startDate.Some? && ValidDate(e.startDate.value)
    requires e.startDate.value == FirstOfMonth(startYear, e.startDate.value.month)
    ensures BalanceAfterYears(initialValue, [e], 0.0, startYear, years) == initialValue + years as real * e.value
  {
    if years > 0 {
      AnnualEventAddsOncePerYear(initialValue, e, startYear, years - 1);
      var year := startYear + years - 1;
      var v := BalanceAfterYears(initialValue, [e], 0.0, startYear, years - 1);
      FlatYear(v, [e], year, 12);
      AnnualYearContribution(e, year, 12);
      assert DateLeq(e.startDate.value, FirstOfMonth(year, e.startDate.value.month));
      assert YearContribution([e], year, 12) == e.value;
      assert (years - 1) as real * e.value + e.value == years as real * e.value;
    }
  }

  /** Within a year, a MONTHLY event that started by New Year adds its value every month. */
  lemma {:induction false} MonthlyYearContribution(e: Event, year: int, months: nat)
    requires e.frequency == Monthly && e.startDate.Some?
    requires DateLeq(e.startDate.value, FirstOfMonth(year, 0))
    ensures YearContribution([e], year, months) == months as real * e.value
  {
    if months > 0 {
      MonthlyYearContribution(e, year, months - 1);
      ContributionOfOne(e, year, months - 1);
      assert Applies(e, year, months - 1);
      assert (months - 1) as real * e.value + e.value == months as real * e.value;
    }
  }

  /**
   * With rate 0, a MONTHLY event starting on January 1st of the start year
   * adds twelve times its value per projected year.
   */
  lemma {:induction false} MonthlyEventAddsTwelvePerYear(initialValue: real, e: Event, startYear: int, years: nat)
    requires e.frequency == Monthly && e.startDate == Some(FirstOfMonth(startYear, 0))
    ensures BalanceAfterYears(initialValue, [e], 0.0, startYear, years) == initialValue + 12.0 * years as real * e.value
  {
    if years > 0 {
      MonthlyEventAddsTwelvePerYear(initialValue, e, startYear, years - 1);
      var v := BalanceAfterYears(initialValue, [e], 0.0, startYear, years - 1);
      FlatYear(v, [e], startYear + years - 1, 12);
      MonthlyYearContribution(e, startYear + years - 1, 12);
    }
  }

  // ---------------------------------------------------------------------
  // Positive rate: growth without events

  lemma {:induction false} GrowthWithinYear(balance: real, monthlyRate: real, year: int, months: nat)
    requires balance > 0.0 && monthlyRate > 0.0 && months >= 1
    ensures BalanceThroughMonth(balance, [], monthlyRate, year, months) > balance
  {
    var prev := BalanceThroughMonth(balance, [], monthlyRate, year, months - 1);
    if months > 1 {
      GrowthWithinYear(balance, monthlyRate, year, months - 1);
    }
    assert prev >= balance > 0.0;
    assert prev * monthlyRate > 0.0;
    assert prev * (1.0 + monthlyRate) == prev + prev * monthlyRate;
  }

  /**
   * With a positive rate, a positive initial value and no events, every
   * year's balance exceeds the previous one, the first exceeding the
   * initial value.
   */
  lemma {:induction false} GrowthEveryYear(initialValue: real, monthlyRate: real, startYear: int, years: nat)
    requires initialValue > 0.0 && monthlyRate > 0.0
    ensures BalanceAfterYears(initialValue, [], monthlyRate, startYear, years) > 0.0
    ensures BalanceAfterYears(initialValue, [], monthlyRate, startYear, years + 1) > BalanceAfterYears(initialValue, [], monthlyRate, startYear, years)
  {
    if years > 0 {
      GrowthEveryYear(initialValue, monthlyRate, startYear, years - 1);
    }
    var v := BalanceAfterYears(initialValue, [], monthlyRate, startYear, years);
    GrowthWithinYear(v, monthlyRate, startYear + years, 12);
  }
}
