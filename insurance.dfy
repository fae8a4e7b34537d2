/**
 * The insurance distribution of a client: total coverage, the part under
 * LIFE policies, the rest counted as disability, and both parts as
 * percentages of the total.
 */
module InsuranceService {
  import opened Numeric
  import opened Entities

  /** The stored kind that counts as life coverage. */
  const LifeKind: string := "LIFE"

  datatype Distribution = Distribution(
    total: real,
    life: real,
    disability: real,
    lifePercent: Quotient,
    disabilityPercent: Quotient)

  /** `total`: the sum of `coverageValue`, folded in list order. */
  function TotalCoverage(insurances: seq<Insurance>): (total: real)
    ensures PositiveCoverage(insurances) ==> total >= 0.0
    ensures PositiveCoverage(insurances) && |insurances| > 0 ==> total > 0.0
    decreases |insurances|
  {
    if |insurances| == 0 then 0.0
    else TotalCoverage(insurances[..|insurances| - 1]) + insurances[|insurances| - 1].coverageValue
  }

  /** The LIFE entries, in list order. */
  function LifeEntries(insurances: seq<Insurance>): (r: seq<Insurance>)
    ensures |r| <= |insurances|
    ensures forall i :: 0 <= i < |r| ==> r[i].kind == LifeKind && r[i] in insurances
    ensures forall x :: multiset(r)[x] == if x.kind == LifeKind then multiset(insurances)[x] else 0
    decreases |insurances|
  {
    if |insurances| == 0 then []
    else
      var init := insurances[..|insurances| - 1];
      var last := insurances[|insurances| - 1];
      assert insurances == init + [last];
      LifeEntries(init) + (if last.kind == LifeKind then [last] else [])
  }

  /** Reference sum of the coverage of every entry that is not LIFE. */
  function NonLifeCoverage(insurances: seq<Insurance>): real
    decreases |insurances|
  {
    if |insurances| == 0 then 0.0
    else
      var last := insurances[|insurances| - 1];
      NonLifeCoverage(insurances[..|insurances| - 1]) + (if last.kind != LifeKind then last.coverageValue else 0.0)
  }

  /** True when every policy has a positive coverage, as the input schema demands. */
  predicate PositiveCoverage(insurances: seq<Insurance>) {
    forall i :: 0 <= i < |insurances| ==> insurances[i].coverageValue > 0.0
  }

  /** The total splits into the LIFE entries and the rest. */
  lemma {:induction false} CoverageSplits(insurances: seq<Insurance>)
    ensures TotalCoverage(insurances) == TotalCoverage(LifeEntries(insurances)) + NonLifeCoverage(insurances)
    decreases |insurances|
  {
    if |insurances| > 0 {
      var init := insurances[..|insurances| - 1];
      var last := insurances[|insurances| - 1];
      CoverageSplits(init);
      if last.kind == LifeKind {
        AppendOne(LifeEntries(init), last);
      } else {
        assert LifeEntries(insurances) == LifeEntries(init) + [];
        assert LifeEntries(init) + [] == LifeEntries(init);
      }
    }
  }

  lemma AppendOne(s: seq<Insurance>, x: Insurance)
    ensures TotalCoverage(s + [x]) == TotalCoverage(s) + x.coverageValue
  {
    assert (s + [x])[..|s|] == s;
  }

  /** With positive coverages, the sums are non-negative, and positive for a non-empty list. */
  lemma {:induction false} CoverageNonNegative(insurances: seq<Insurance>)
    requires PositiveCoverage(insurances)
    ensures TotalCoverage(insurances) >= 0.0 && NonLifeCoverage(insurances) >= 0.0
    ensures |insurances| > 0 ==> TotalCoverage(insurances) > 0.0
    decreases |insurances|
  {
    if |insurances| > 0 {
      CoverageNonNegative(insurances[..|insurances| - 1]);
    }
  }

  /** The LIFE entries of a list with positive coverages have positive coverages. */
  lemma LifeEntriesPositive(insurances: seq<Insurance>)
    requires PositiveCoverage(insurances)
    ensures PositiveCoverage(LifeEntries(insurances))
  {
    var life := LifeEntries(insurances);
    forall i | 0 <= i < |life| ensures life[i].coverageValue > 0.0 {
      var k :| 0 <= k < |insurances| && insurances[k] == life[i];
    }
  }

  /** `getInsuranceDistribution` over the client's policies. */
  function GetInsuranceDistribution(insurances: seq<Insurance>): (d: Distribution)
    ensures d.total == TotalCoverage(insurances)
    ensures d.life + d.disability == d.total
    ensures d.disability == NonLifeCoverage(insurances)
    ensures d.lifePercent == Percent(Divide(d.life, d.total))
    ensures d.disabilityPercent == Percent(Divide(d.disability, d.total))
  {
    var total := TotalCoverage(insurances);
    var life := TotalCoverage(LifeEntries(insurances));
    var disability := total - life;
    CoverageSplits(insurances);
    Distribution(total, life, disability, Percent(Divide(life, total)), Percent(Divide(disability, total)))
  }

  /** With positive coverages: 0 <= life <= total and 0 <= disability <= total. */
  lemma DistributionBounds(insurances: seq<Insurance>)
    requires PositiveCoverage(insurances)
    ensures var d := GetInsuranceDistribution(insurances);
      0.0 <= d.life <= d.total && 0.0 <= d.disability <= d.total
  {
    CoverageNonNegative(insurances);
    LifeEntriesPositive(insurances);
    CoverageNonNegative(LifeEntries(insurances));
  }

  /** When the total is not zero, the unrounded percentages add up to 100. */
  lemma PercentagesComplement(insurances: seq<Insurance>)
    requires TotalCoverage(insurances) != 0.0
    ensures var d := GetInsuranceDistribution(insurances);
      Divide(d.life, d.total).Finite? && Divide(d.disability, d.total).Finite? &&
      Divide(d.life, d.total).value * 100.0 + Divide(d.disability, d.total).value * 100.0 == 100.0
  {
    var d := GetInsuranceDistribution(insurances);
    SharesOfWhole(d.life, d.disability, d.total);
  }

  lemma SharesOfWhole(a: real, b: real, t: real)
    requires t != 0.0 && a + b == t
    ensures (a / t) * 100.0 + (b / t) * 100.0 == 100.0
  {
    assert a / t + b / t == (a + b) / t;
  }

  /** An empty list gives zero sums and percentages that are NaN (0 / 0). */
  lemma EmptyDistribution()
    ensures GetInsuranceDistribution([]) == Distribution(0.0, 0.0, 0.0, NotANumber, NotANumber)
  {
  }

  /** A LIFE policy of 100000 and a DISABILITY policy of 50000. */
  lemma LifeAndDisabilityExample()
    ensures GetInsuranceDistribution([Insurance(1, "LIFE", 100000.0), Insurance(2, "DISABILITY", 50000.0)])
      == Distribution(150000.0, 100000.0, 50000.0, Finite(66.67), Finite(33.33))
  {
    var s := [Insurance(1, "LIFE", 100000.0), Insurance(2, "DISABILITY", 50000.0)];
    assert s[..1] == [s[0]] && s[..1][..0] == [];
    assert "DISABILITY" != LifeKind;
    assert LifeEntries(s) == [s[0]];
    assert [s[0]][..0] == [];
    assert NearestCent(100000.0 / 150000.0 * 100.0) == 6667;
    assert NearestCent(50000.0 / 150000.0 * 100.0) == 3333;
  }
}
