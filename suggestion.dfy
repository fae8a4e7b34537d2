/**
 * The suggestion generator: for every goal of a client, the gap between
 * the goal's target and what the client holds (wallets plus insurance
 * coverage), and the whole monthly amount that closes it over a horizon
 * once the recurring events' flat monthly impact is counted.
 */
module SuggestionService {
  import opened Wrappers
  import opened Numeric
  import opened Entities
  import InsuranceService

  /** The horizon used when the caller names none. */
  const DefaultMonths: real := 24.0

  /**
   * The message of a suggestion, as a tag carrying what the text
   * interpolates.
   *  - NoGoalsFound: "Nenhuma meta encontrada para este cliente."
   *  - GoalAchieved(t): the goal of type t "já foi atingida".
   *  - InvestMonthly(t, amount, months): "invista R$ amount/mês por months meses" for goal type t.
   */
  datatype Message =
    | NoGoalsFound
    | GoalAchieved(goalType: string)
    | InvestMonthly(goalType: string, amount: int, months: real)

  datatype Suggestion = Suggestion(
    goalId: int,
    goalType: string,
    target: real,
    current: real,
    monthlySuggestion: Option<int>,
    message: Message)

  /** The single entry returned for a client without goals. */
  const NoGoalsSentinel: Suggestion := Suggestion(0, "", 0.0, 0.0, None, NoGoalsFound)

  /** `currentValue`: the sum of the wallets' `totalValue`, folded in list order. */
  function WalletTotal(wallets: seq<Wallet>): (total: real)
    ensures (forall i :: 0 <= i < |wallets| ==> wallets[i].totalValue >= 0.0) ==> total >= 0.0
    ensures |wallets| == 1 ==> total == wallets[0].totalValue
    decreases |wallets|
  {
    if |wallets| == 0 then 0.0
    else WalletTotal(wallets[..|wallets| - 1]) + wallets[|wallets| - 1].totalValue
  }

  /** The wallet total of two lists joined is the sum of their totals: the fold's order does not matter. */
  lemma {:induction false} WalletTotalAppend(a: seq<Wallet>, b: seq<Wallet>)
    ensures WalletTotal(a + b) == WalletTotal(a) + WalletTotal(b)
    decreases |b|
  {
    if |b| > 0 {
      assert (a + b)[..|a + b| - 1] == a + b[..|b| - 1];
      WalletTotalAppend(a, b[..|b| - 1]);
    } else {
      assert a + b == a;
    }
  }

  /** `totalCurrent`: wallets plus insurance coverage. */
  function TotalCurrent(wallets: seq<Wallet>, insurances: seq<Insurance>): (current: real)
    ensures (forall i :: 0 <= i < |wallets| ==> wallets[i].totalValue >= 0.0) && InsuranceService.PositiveCoverage(insurances)
      ==> current >= WalletTotal(wallets) >= 0.0
    ensures |insurances| == 0 ==> current == WalletTotal(wallets)
  {
    WalletTotal(wallets) + InsuranceService.TotalCoverage(insurances)
  }

  /** What one event adds per month in the flat estimate. */
  function MonthlyEquivalent(e: Event): real {
    match e.frequency
    case Monthly => e.value
    case Annual => e.value / 12.0
    case Once => 0.0
  }

  /**
   * `monthlyImpact`: the flat monthly estimate of the events, folded in list
   * order. ONCE events add nothing, and non-negative values give a
   * non-negative impact.
   */
  function MonthlyImpact(events: seq<Event>): (impact: real)
    ensures (forall i :: 0 <= i < |events| ==> events[i].frequency == Once) ==> impact == 0.0
    ensures (forall i :: 0 <= i < |events| ==> events[i].value >= 0.0) ==> impact >= 0.0
    decreases |events|
  {
    if |events| == 0 then 0.0
    else MonthlyImpact(events[..|events| - 1]) + MonthlyEquivalent(events[|events| - 1])
  }

  /** Reference sum of the values of the events with the given frequency. */
  function ValueOf(events: seq<Event>, f: Frequency): real
    decreases |events|
  {
    if |events| == 0 then 0.0
    else ValueOf(events[..|events| - 1], f) + (if events[|events| - 1].frequency == f then events[|events| - 1].value else 0.0)
  }

  /** The impact is the MONTHLY values in full plus a twelfth of the ANNUAL values; ONCE events count for nothing. */
  lemma {:induction false} MonthlyImpactSplits(events: seq<Event>)
    ensures MonthlyImpact(events) == ValueOf(events, Monthly) + ValueOf(events, Annual) / 12.0
    decreases |events|
  {
    if |events| > 0 {
      MonthlyImpactSplits(events[..|events| - 1]);
    }
  }

  /** Two event lists that differ only in dates, identifiers and labels have the same impact. */
  lemma {:induction false} MonthlyImpactIgnoresDates(a: seq<Event>, b: seq<Event>)
    requires |a| == |b|
    requires forall i :: 0 <= i < |a| ==> a[i].frequency == b[i].frequency && a[i].value == b[i].value
    ensures MonthlyImpact(a) == MonthlyImpact(b)
    decreases |a|
  {
    if |a| > 0 {
      MonthlyImpactIgnoresDates(a[..|a| - 1], b[..|b| - 1]);
    }
  }

  /**
   * The least whole monthly amount `m` that, paid for `months` months on
   * top of the events' impact, covers the gap: `m * months >= gap - impact * months`.
   */
  predicate IsLeastCoveringAmount(m: int, gap: real, monthlyImpact: real, months: real) {
    m as real * months >= gap - monthlyImpact * months &&
    (m - 1) as real * months < gap - monthlyImpact * months
  }

  /** `Math.ceil((gap - monthlyImpact * months) / months)`. */
  function MonthlyAmount(gap: real, monthlyImpact: real, months: real): (m: int)
    requires months > 0.0
    ensures IsLeastCoveringAmount(m, gap, monthlyImpact, months)
  {
    var need := gap - monthlyImpact * months;
    var q := need / months;
    var m := Ceil(q);
    assert q * months == need;
    ScaleBelow(q, m as real, months);
    assert (m - 1) as real < q;
    ScaleBelow((m - 1) as real, q, months);
    assert (m - 1) as real * months < need;
    m
  }

  lemma Unscale(a: real, b: real, c: real)
    requires c > 0.0
    ensures a * c < b * c ==> a < b
  {
    if a >= b {
      ScaleBelow(b, a, c);
    }
  }

  lemma ScaleBelow(a: real, b: real, c: real)
    requires c > 0.0
    ensures a <= b ==> a * c <= b * c
    ensures a < b ==> a * c < b * c
  {
  }

  /** The suggestion for one goal. */
  function SuggestFor(goal: Goal, totalCurrent: real, monthlyImpact: real, months: real): (s: Suggestion)
    requires months > 0.0
    ensures s.goalId == goal.id && s.goalType == goal.goalType
    ensures s.target == goal.targetValue && s.current == totalCurrent
    ensures s.monthlySuggestion.None? <==> goal.targetValue - totalCurrent <= 0.0
    ensures s.monthlySuggestion.None? ==> s.message == GoalAchieved(goal.goalType)
    ensures s.monthlySuggestion.Some? ==>
      s.message == InvestMonthly(goal.goalType, s.monthlySuggestion.value, months) &&
      IsLeastCoveringAmount(s.monthlySuggestion.value, goal.targetValue - totalCurrent, monthlyImpact, months)
  {
    var gap := goal.targetValue - totalCurrent;
    if gap <= 0.0 then
      Suggestion(goal.id, goal.goalType, goal.targetValue, totalCurrent, None, GoalAchieved(goal.goalType))
    else
      var m := MonthlyAmount(gap, monthlyImpact, months);
      Suggestion(goal.id, goal.goalType, goal.targetValue, totalCurrent, Some(m), InvestMonthly(goal.goalType, m, months))
  }

  /** `generateClientSuggestions` over the client's already-read records. */
  function GenerateClientSuggestions(goals: seq<Goal>, wallets: seq<Wallet>, insurances: seq<Insurance>, events: seq<Event>, months: real := DefaultMonths): (r: seq<Suggestion>)
    requires months > 0.0
    ensures |goals| == 0 ==> r == [NoGoalsSentinel]
    ensures |goals| > 0 ==> |r| == |goals|
    ensures |goals| > 0 ==> forall i :: 0 <= i < |goals| ==>
      var gap := goals[i].targetValue - TotalCurrent(wallets, insurances);
      && r[i].goalId == goals[i].id && r[i].goalType == goals[i].goalType
      && r[i].target == goals[i].targetValue && r[i].current == TotalCurrent(wallets, insurances)
      && (gap <= 0.0 ==> r[i].monthlySuggestion == None && r[i].message == GoalAchieved(goals[i].goalType))
      && (gap > 0.0 ==>
            && r[i].monthlySuggestion.Some?
            && IsLeastCoveringAmount(r[i].monthlySuggestion.value, gap, MonthlyImpact(events), months)
            && r[i].message == InvestMonthly(goals[i].goalType, r[i].monthlySuggestion.value, months))
  {
    if |goals| == 0 then [NoGoalsSentinel]
    else
      var totalCurrent := TotalCurrent(wallets, insurances);
      var monthlyImpact := MonthlyImpact(events);
      seq(|goals|, i requires 0 <= i < |goals| => SuggestFor(goals[i], totalCurrent, monthlyImpact, months))
  }

  /** The least covering amount is unique: the suggestion is exactly the ceiling, never less. */
  lemma LeastCoveringAmountIsUnique(m1: int, m2: int, gap: real, monthlyImpact: real, months: real)
    requires months > 0.0
    requires IsLeastCoveringAmount(m1, gap, monthlyImpact, months)
    requires IsLeastCoveringAmount(m2, gap, monthlyImpact, months)
    ensures m1 == m2
  {
    var need := gap - monthlyImpact * months;
    assert (m1 - 1) as real * months < need <= m2 as real * months;
    Unscale((m1 - 1) as real, m2 as real, months);
    assert m1 <= m2;
    assert (m2 - 1) as real * months < need <= m1 as real * months;
    Unscale((m2 - 1) as real, m1 as real, months);
    assert m2 <= m1;
  }

  /** Every whole amount that covers the gap is at least the suggested one: it never under-recommends. */
  lemma NeverUnderRecommends(gap: real, monthlyImpact: real, months: real, k: int)
    requires months > 0.0
    requires k as real * months >= gap - monthlyImpact * months
    ensures k >= MonthlyAmount(gap, monthlyImpact, months)
  {
    var m := MonthlyAmount(gap, monthlyImpact, months);
    assert (m - 1) as real * months < gap - monthlyImpact * months <= k as real * months;
    Unscale((m - 1) as real, k as real, months);
  }

  /**
   * The amount is not clamped: when the events' impact alone covers the
   * gap, an amount of zero or less is still suggested.
   */
  lemma ImpactCoveringGapSuggestsNothingPositive(goal: Goal, totalCurrent: real, monthlyImpact: real, months: real)
    requires months > 0.0
    requires goal.targetValue - totalCurrent > 0.0
    requires monthlyImpact * months >= goal.targetValue - totalCurrent
    ensures var s := SuggestFor(goal, totalCurrent, monthlyImpact, months);
      s.monthlySuggestion.Some? && s.monthlySuggestion.value <= 0 && s.message.InvestMonthly?
  {
    var s := SuggestFor(goal, totalCurrent, monthlyImpact, months);
    var m := s.monthlySuggestion.value;
    if m > 0 {
      ScaleBelow(0.0, (m - 1) as real, months);
    }
  }

  /** A wallet of 1200 already covers a goal of 1000. */
  lemma AchievedGoalExample()
    ensures GenerateClientSuggestions(
        [Goal(1, "Aposentadoria", 1000.0, Date(2030, 0, 1, 0))],
        [Wallet(1, "TEST", 100.0, 1200.0)], [], [], DefaultMonths)
      == [Suggestion(1, "Aposentadoria", 1000.0, 1200.0, None, GoalAchieved("Aposentadoria"))]
  {
    var w := [Wallet(1, "TEST", 100.0, 1200.0)];
    assert w[..0] == [];
  }

  /**
   * Goal 5000, wallet 1000, LIFE coverage 500 and a MONTHLY event of 100
   * over 12 months: ceil((3500 - 1200) / 12) = 192.
   */
  lemma MonthlyEventExample()
    ensures GenerateClientSuggestions(
        [Goal(1, "Aposentadoria", 5000.0, Date(2030, 0, 1, 0))],
        [Wallet(1, "TEST", 100.0, 1000.0)],
        [Insurance(1, "LIFE", 500.0)],
        [Event(1, "Investimento", 100.0, Monthly, Some(Date(2026, 0, 1, 0)))],
        12.0)[0].monthlySuggestion == Some(192)
  {
    var w := [Wallet(1, "TEST", 100.0, 1000.0)];
    var ins := [Insurance(1, "LIFE", 500.0)];
    var ev := [Event(1, "Investimento", 100.0, Monthly, Some(Date(2026, 0, 1, 0)))];
    assert w[..0] == [] && ins[..0] == [] && ev[..0] == [];
    assert TotalCurrent(w, ins) == 1500.0;
    assert MonthlyImpact(ev) == 100.0;
    LeastCoveringAmountIsUnique(MonthlyAmount(3500.0, 100.0, 12.0), 192, 3500.0, 100.0, 12.0);
  }

  /**
   * Goal 5000, wallet 1000 and an ANNUAL event of 1200 over 12 months:
   * the event counts 100 a month, so ceil((4000 - 1200) / 12) = 234.
   */
  lemma AnnualEventExample()
    ensures GenerateClientSuggestions(
        [Goal(1, "Meta Anual", 5000.0, Date(2030, 0, 1, 0))],
        [Wallet(1, "TEST", 100.0, 1000.0)],
        [],
        [Event(1, "Bônus", 1200.0, Annual, Some(Date(2026, 0, 1, 0)))],
        12.0)[0].monthlySuggestion == Some(234)
  {
    var w := [Wallet(1, "TEST", 100.0, 1000.0)];
    var ev := [Event(1, "Bônus", 1200.0, Annual, Some(Date(2026, 0, 1, 0)))];
    assert w[..0] == [] && ev[..0] == [];
    assert TotalCurrent(w, []) == 1000.0;
    assert MonthlyImpact(ev) == 100.0;
    LeastCoveringAmountIsUnique(MonthlyAmount(4000.0, 100.0, 12.0), 234, 4000.0, 100.0, 12.0);
  }
}
