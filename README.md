# Financial-planning projection engine, modelled in Dafny

This project models the computing core of a financial-planning backend.
The core is four services. Each works on a client's records (wallets,
goals, scheduled cash-flow events, insurance policies) after they have
been read from the store:

- **Wealth curve simulator** (`SimulationService`). It walks every month
  from January of the start year to December of 2060. Each month it adds
  the values of the events that apply in that month, then compounds the
  balance at the monthly rate. It emits the December balance of every
  year, rounded to cents. The model is imperative, like the source: a year
  loop, a month loop and an event loop. Each loop is proved against the
  specification functions `Applies`, `Contribution`, `MonthStep`,
  `BalanceThroughMonth` and `BalanceAfterYears`.
- **Suggestion generator** (`SuggestionService`). It sums the wallets and
  the insurance coverage. It turns the events into a flat monthly impact.
  For every goal it reports either "already achieved" or the least whole
  monthly amount that closes the gap over the horizon.
- **Alignment scorer** (`AlignmentService`). It divides the sum of the goal
  targets by the first wallet's total value. It reports the ratio as a
  percentage and classifies it into four tiers, "verde", "amarelo-claro",
  "amarelo-escuro" and "vermelho".
- **Insurance distribution** (`InsuranceService`). It computes the total
  coverage, the LIFE part and the remainder (disability), and both parts as
  percentages of the total.

Supporting modules:

- `Entities` holds the records. Dates are `(year, month, day, time)`
  tuples, compared lexicographically. The month counts from 0, as in
  `Date.getMonth`.
- `Numeric` holds `Math.ceil`, rounding to cents, and a `Quotient` type
  for the result of a division. A JavaScript division by zero does not
  fail; it yields Infinity, -Infinity or NaN. `Quotient` keeps those
  results, so the model covers the source's unguarded divisions instead of
  forbidding them.

Money is an exact `real`. Three behaviours of the code are worth noting:

- A client without goals gets a sentinel suggestion with goalId 0, type "",
  target 0 and current 0 (src/services/suggestionService.ts:19-29).
- The alignment divides by the first wallet's `totalValue`, not by the sum
  of all wallets (src/services/alignmentService.ts:4, 10).
- A first wallet worth 0 is not guarded. Positive targets then divide to
  Infinity, which lands in the "verde" tier (`EmptyWalletIsVerde`,
  src/services/alignmentService.ts:10-16).

## Model

| member | source | states |
|---|---|---|
| SimulationService.SimulateWealthCurve | src/services/simulationService.ts:3-49 | The curve has one point per year, `max(0, 2060 - startYear + 1)` points. Point i has year `startYear + i`, so the last point is 2060. Its value is the unrounded balance after i + 1 years, rounded to cents. The balance carried from year to year is never rounded. |
| SimulationService.SimulateYear | src/services/simulationService.ts:18-42 | The twelve-month reduction returns the balance after all twelve months of the year: each month, events are added first, then the balance is compounded. |
| SimulationService.ApplyEvents | src/services/simulationService.ts:22-37 | The `forEach` over the events adds to the balance exactly the summed values of the events that apply in that month. |
| SimulationService.YearCount | src/services/simulationService.ts:9-15 | `totalYears` as an array length is `max(0, 2060 - startYear + 1)`. It is positive exactly when the start year is at most 2060, and then the last counted year is 2060. |
| SimulationService.IsSameMonth | src/services/simulationService.ts:51-53 | Two dates are in the same month when their years and months are equal. For valid dates that is exactly when their month numbers (year * 12 + month) are equal. |
| SimulationService.Applies | src/services/simulationService.ts:23-32 | `shouldApply`: an undated event never applies. A ONCE event applies in the month of its start. A MONTHLY event applies when the month's 1st is at or after its start. An ANNUAL event applies in its start month when that month's 1st is at or after its start. The contract states that an applying event has a start date and never applies in a month before its start month. |
| SimulationService.OnceAppliesOnlyInStartMonth | src/services/simulationService.ts:26-28 | A ONCE event applies in a month if and only if that month's year and month equal its start date's. |
| SimulationService.OnceAppliesAtMostOnce | src/services/simulationService.ts:51-53 | Through the same-month test, a ONCE event applies in at most one month. |
| SimulationService.MonthlyAppliesFromFirstMonth | src/services/simulationService.ts:20-29 | A MONTHLY event applies in a month if and only if that month is at or after its first month. The first month is the start month when the start is midnight on the 1st, and the following month otherwise. |
| SimulationService.MonthlyPersists | src/services/simulationService.ts:29 | Once a MONTHLY event applies, it applies in every later month. |
| SimulationService.AnnualAppliesInStartMonth | src/services/simulationService.ts:30-32 | An ANNUAL event applies if and only if the month is its start month and the year is after its start year. It also applies in the start year itself when it starts at midnight on the 1st. So it applies at most once a year and never before its start. |
| SimulationService.UndatedNeverApplies | src/services/simulationService.ts:23 | An event without a start date applies in no month. |
| SimulationService.ContributionAppend | src/services/simulationService.ts:22-37 | The month's contribution of two concatenated event lists is the sum of their contributions, so several applicable events add their values. |
| SimulationService.ContributionOfOne | src/services/simulationService.ts:34-36 | A single event contributes its value in the months where it applies and 0 elsewhere. |
| SimulationService.UndatedEventContributesNothing | src/services/simulationService.ts:23 | Removing an undated event from anywhere in the list leaves every month's contribution unchanged. |
| SimulationService.SameContributionSameBalance | src/services/simulationService.ts:13-42 | Two event lists that contribute the same in every month yield the same balance after every number of years. |
| SimulationService.UndatedEventIgnored | src/services/simulationService.ts:22-24 | An undated event never changes any projected balance. |
| SimulationService.FlatYear | src/services/simulationService.ts:39 | At monthly rate 0, a year's balance is the starting balance plus the contributions of its months. |
| SimulationService.NoRateNoEventsKeepsInitial | src/services/simulationService.ts:13-47 | At monthly rate 0 with no events, every year's balance equals the initial value. |
| SimulationService.OnceYearContribution | src/services/simulationService.ts:26-28 | Within a year, a ONCE event contributes its value once if its month is among the months walked, and only in its start year. |
| SimulationService.OnceEventAddsOnce | src/services/simulationService.ts:18-47 | At rate 0, a single ONCE event raises every balance from the end of its start year on by exactly its value. Before that it changes nothing. |
| SimulationService.OnceInFirstJanuary | src/tests/simulationService.test.ts:19-36 | At rate 0, with a ONCE event in January of the start year, every point's balance is the initial value plus the event's value. |
| SimulationService.AnnualYearContribution | src/services/simulationService.ts:30-32 | Within a year, an ANNUAL event contributes its value exactly once, in its month, when that month's 1st is not before its start. |
| SimulationService.AnnualEventAddsOncePerYear | src/tests/simulationService.test.ts:56-73 | At rate 0, an ANNUAL event that starts on the 1st of a month of the start year adds its value exactly once per projected year. |
| SimulationService.MonthlyYearContribution | src/services/simulationService.ts:29 | Within a year, a MONTHLY event that started by January 1st contributes its value in every month. |
| SimulationService.MonthlyEventAddsTwelvePerYear | src/tests/simulationService.test.ts:38-54 | At rate 0, a MONTHLY event that starts on January 1st of the start year adds twelve times its value per projected year. |
| SimulationService.GrowthWithinYear | src/services/simulationService.ts:39 | With a positive rate and a positive balance and no events, compounding over at least one month strictly increases the balance. |
| SimulationService.GrowthEveryYear | src/tests/simulationService.test.ts:7-16 | With a positive rate, a positive initial value and no events, every year's balance is positive and strictly exceeds the previous one. The first exceeds the initial value. |
| Numeric.Ceil | src/services/suggestionService.ts:66-68 | `Math.ceil` returns the least integer not below its argument. |
| Numeric.Round2 | src/services/simulationService.ts:46 | `Number(x.toFixed(2))` is a whole number of cents. For x >= 0 it lies in (x - 0.005, x + 0.005], and for x < 0 in [x - 0.005, x + 0.005). These windows pin the result exactly: a half-cent tie rounds away from zero, and the sign of x is kept. |
| Numeric.Divide | src/services/alignmentService.ts:10 | A division is finite exactly when the divisor is not 0, and then it times the divisor gives back the numerator. By 0 it gives Infinity for a positive numerator and NaN for 0. |
| Numeric.RoundsTiesAwayFromZero | src/services/simulationService.ts:46 | `toFixed(2)` rounds 0.125 to 0.13 and -0.125 to -0.13. |
| Numeric.Percent | src/services/alignmentService.ts:19 | A finite ratio times 100 becomes the unique whole number of cents in the same half-open window as `Round2`. A non-finite ratio stays as it is. |
| InsuranceService.TotalCoverage | src/services/insuranceService.ts:19-22 | `total` is the sum of the coverages in list order. With positive coverages it is non-negative, and positive for a non-empty list. |
| InsuranceService.LifeEntries | src/services/insuranceService.ts:24-25 | The filter keeps only entries of kind "LIFE", all taken from the list. It keeps every LIFE entry exactly as many times as it occurs in the list. |
| InsuranceService.CoverageSplits | src/services/insuranceService.ts:19-28 | The total coverage is the LIFE entries' coverage plus the coverage of every other entry. |
| InsuranceService.CoverageNonNegative | src/services/insuranceService.ts:19-22 | With positive coverages, the sums are non-negative. A non-empty list has a positive total. |
| InsuranceService.GetInsuranceDistribution | src/services/insuranceService.ts:16-37 | total is the sum of all coverages. life + disability = total. disability is the coverage of every non-LIFE entry. Each percentage is its part divided by the total, as a percentage rounded to cents. |
| InsuranceService.DistributionBounds | src/services/insuranceService.ts:19-28 | With positive coverages, 0 <= life <= total and 0 <= disability <= total. |
| InsuranceService.PercentagesComplement | src/services/insuranceService.ts:34-35 | When the total is not 0, both ratios are finite and the unrounded percentages add up to exactly 100. |
| InsuranceService.EmptyDistribution | src/services/insuranceService.ts:19-35 | An empty list gives total, life and disability 0, and both percentages NaN (0 / 0). |
| InsuranceService.LifeAndDisabilityExample | src/tests/insuranceService.test.ts:72-98 | LIFE 100000 plus DISABILITY 50000 gives total 150000, life 100000, disability 50000, and percentages 66.67 and 33.33. |
| SuggestionService.WalletTotal | src/services/suggestionService.ts:34 | `currentValue` is the sum of the wallets' `totalValue`. It is non-negative when every wallet is, and a single wallet gives its own value. |
| SuggestionService.WalletTotalAppend | src/services/suggestionService.ts:34 | The total of two joined wallet lists is the sum of their totals, so the order of the fold does not matter. |
| SuggestionService.TotalCurrent | src/services/suggestionService.ts:39-51 | `totalCurrent` is the wallet total plus the insurance coverage. With non-negative wallets and positive coverages it is at least the wallet total. Without insurances it equals the wallet total. |
| SuggestionService.MonthlyImpact | src/services/suggestionService.ts:45-49 | `monthlyImpact` adds a MONTHLY event's value, a twelfth of an ANNUAL event's value, and nothing for a ONCE event. A list of ONCE events alone gives 0, and non-negative values give a non-negative impact. |
| SuggestionService.MonthlyImpactSplits | src/services/suggestionService.ts:45-49 | The monthly impact is the MONTHLY values in full plus a twelfth of the ANNUAL values. ONCE events count for nothing. |
| SuggestionService.MonthlyImpactIgnoresDates | src/services/suggestionService.ts:45-49 | Event lists that agree on frequencies and values have the same impact, whatever their dates. |
| SuggestionService.MonthlyAmount | src/services/suggestionService.ts:66-68 | The rounded-up figure m satisfies `m * months >= gap - impact * months`. `m - 1` does not. |
| SuggestionService.LeastCoveringAmountIsUnique | src/services/suggestionService.ts:66-68 | Only one integer is the least covering amount, so the ceiling is fully determined by that property. |
| SuggestionService.NeverUnderRecommends | src/services/suggestionService.ts:66-68 | Any whole amount that covers the gap over the horizon is at least the suggested one. |
| SuggestionService.SuggestFor | src/services/suggestionService.ts:53-78 | The suggestion copies goalId, type and target from the goal and current from the total. There is no monthly figure, and the "achieved" message, exactly when gap <= 0. Otherwise the figure is the least covering amount and the "invest" message carries it and the horizon. |
| SuggestionService.GenerateClientSuggestions | src/services/suggestionService.ts:13-81 | The horizon defaults to 24 months. No goals gives exactly the sentinel entry (goalId 0, type "", target 0, current 0, no figure, "no goals" message). Otherwise there is one suggestion per goal, in goal order. Each has current = wallets plus coverage, the achieved/invest split on the gap, and the least covering amount. |
| SuggestionService.ImpactCoveringGapSuggestsNothingPositive | src/services/suggestionService.ts:66-77 | The figure is not clamped. When impact times months covers a positive gap, the figure is <= 0 and is still reported with the "invest" message. |
| SuggestionService.AchievedGoalExample | src/tests/suggestionService.test.ts:39-65 | Goal 1000 against a wallet of 1200 gives the "achieved" message and no figure. |
| SuggestionService.MonthlyEventExample | src/tests/suggestionService.test.ts:67-110 | Goal 5000, wallet 1000, coverage 500 and a MONTHLY event of 100 over 12 months gives 192. |
| SuggestionService.AnnualEventExample | src/tests/suggestionService.test.ts:112-152 | Goal 5000, wallet 1000 and an ANNUAL event of 1200 over 12 months gives ceil((4000 - 1200) / 12) = 234. |
| AlignmentService.TotalTarget | src/services/alignmentService.ts:9 | `totalTarget` is the sum of the goals' targets. It is non-negative when every target is, and a single goal gives its own target. |
| AlignmentService.Classify | src/services/alignmentService.ts:12-16 | The tier is "verde" if and only if the ratio exceeds 0.9. It is "amarelo-claro" if it exceeds 0.7 but not 0.9, "amarelo-escuro" if it exceeds 0.5 but not 0.7, and "vermelho" otherwise. A NaN ratio exceeds nothing. |
| AlignmentService.CalculateAlignment | src/services/alignmentService.ts:3-22 | The result is null if and only if there is no wallet or no goal. Otherwise the tier is decided on the unrounded ratio Σ targets ÷ first wallet's totalValue, and the alignment is that ratio as a percentage rounded to cents. |
| AlignmentService.OnlyFirstWalletCounts | src/services/alignmentService.ts:4 | Wallets after the first never change the result. |
| AlignmentService.BoundariesAreExclusive | src/services/alignmentService.ts:13-16 | A ratio of exactly 0.9 is "amarelo-claro", exactly 0.7 is "amarelo-escuro", and exactly 0.5 is "vermelho". |
| AlignmentService.ClassifyMonotone | src/services/alignmentService.ts:13-16 | A larger ratio never yields a lower tier. |
| AlignmentService.PositiveRatio | src/services/alignmentService.ts:9-10 | With positive targets and a positive first wallet, the ratio is finite and positive. |
| AlignmentService.EmptyWalletIsVerde | src/services/alignmentService.ts:10-16 | With a first wallet worth 0 and positive targets, the alignment is Infinity and the tier is "verde". |
| AlignmentService.TierExamples | src/tests/alignmentService.test.ts:52-108 | Against a wallet of 1000, targets 950, 800, 600 and 400 give 95 "verde", 80 "amarelo-claro", 60 "amarelo-escuro" and 40 "vermelho". The tiers report exactly these labels. |
| AlignmentService.ClassifiesUnroundedRatio | src/services/alignmentService.ts:10-19 | 90001 against 100000 reports 90.00 but is "verde". Exactly 90000 is "amarelo-claro". |

## Left out

- Annual-to-monthly rate conversion: `Math.pow(1 + rate, 1 / 12) - 1` is floating-point only. The simulator takes the effective monthly rate as a parameter, so the default annual rate of 0.04 is not modelled either.
- Clock: the start year read from `new Date().getFullYear()` is a parameter.
- Time zones: local-time `Date` construction is not modelled. Dates are given as local (year, month, day, milliseconds) tuples.
- Floating point: money is an exact `real`. Rounding to cents is exact half-away-from-zero rounding of the real value. Binary representation errors, signed zero and the exponent form `toFixed` uses from 1e21 up are not modelled.
- Store reads: the Prisma reads inside the services are not modelled. Each service takes the records it would have read as sequences.
- CRUD services: `createInsurance`, `getInsurances` and the other create/list services are not modelled, because their behaviour is that of the store library.
- Other parts of the application: the CSV import with its progress streams, the controllers, routes, authentication and the request schemas are not part of this model. Schema bounds (positive coverages, targets and values, a positive horizon) appear only as preconditions of lemmas, and as the `months > 0` precondition the suggestion's division needs.
- InsuranceService.LifeEntries: the contract states which entries are kept and how often, but not that they keep their list order. The body keeps the order; callers only ever sum the result.
- Message texts: messages are tags carrying the goal type, the figure and the horizon. The formatted Portuguese text is not produced.
