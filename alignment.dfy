/**
 * The alignment scorer: the sum of a client's goal targets over the total
 * value of the client's first wallet, reported as a percentage and
 * classified into four tiers.
 */
module AlignmentService {
  import opened Wrappers
  import opened Numeric
  import opened Entities

  datatype Category = Verde | AmareloClaro | AmareloEscuro | Vermelho {

    /** The label the service reports. */
    function Label(): string {
      match this
      case Verde => "verde"
      case AmareloClaro => "amarelo-claro"
      case AmareloEscuro => "amarelo-escuro"
      case Vermelho => "vermelho"
    }

    /** The tier's rank, from "vermelho" (0) to "verde" (3). */
    function Rank(): nat {
      match this
      case Verde => 3
      case AmareloClaro => 2
      case AmareloEscuro => 1
      case Vermelho => 0
    }
  }

  datatype AlignmentResult = AlignmentResult(alignment: Quotient, category: Category)

  /** `totalTarget`: the sum of the goals' `targetValue`, folded in list order. */
  function TotalTarget(goals: seq<Goal>): (total: real)
    ensures (forall i :: 0 <= i < |goals| ==> goals[i].targetValue >= 0.0) ==> total >= 0.0
    ensures |goals| == 1 ==> total == goals[0].targetValue
    decreases |goals|
  {
    if |goals| == 0 then 0.0
    else TotalTarget(goals[..|goals| - 1]) + goals[|goals| - 1].targetValue
  }

  /** The if/else chain on the ratio: the first threshold it exceeds decides. */
  function Classify(ratio: Quotient): (c: Category)
    ensures c == Verde <==> Exceeds(ratio, 0.9)
    ensures c == AmareloClaro <==> Exceeds(ratio, 0.7) && !Exceeds(ratio, 0.9)
    ensures c == AmareloEscuro <==> Exceeds(ratio, 0.5) && !Exceeds(ratio, 0.7)
    ensures c == Vermelho <==> !Exceeds(ratio, 0.5)
  {
    if Exceeds(ratio, 0.9) then Verde
    else if Exceeds(ratio, 0.7) then AmareloClaro
    else if Exceeds(ratio, 0.5) then AmareloEscuro
    else Vermelho
  }

  /**
   * `calculateAlignment` over the client's wallets in store order (the
   * first one is what `findFirst` returns) and goals.
   */
  function CalculateAlignment(wallets: seq<Wallet>, goals: seq<Goal>): (r: Option<AlignmentResult>)
    ensures r.None? <==> |wallets| == 0 || |goals| == 0
    ensures r.Some? ==>
      var ratio := Divide(TotalTarget(goals), wallets[0].totalValue);
      r.value.category == Classify(ratio) && r.value.alignment == Percent(ratio)
  {
    if |wallets| == 0 || |goals| == 0 then None
    else
      var ratio := Divide(TotalTarget(goals), wallets[0].totalValue);
      Some(AlignmentResult(Percent(ratio), Classify(ratio)))
  }

  /** Only the first wallet is read: the others never change the result. */
  lemma OnlyFirstWalletCounts(wallets: seq<Wallet>, others: seq<Wallet>, goals: seq<Goal>)
    requires |wallets| > 0
    ensures CalculateAlignment(wallets, goals) == CalculateAlignment([wallets[0]] + others, goals)
  {
  }

  /** The thresholds are exclusive: exactly 0.9 is "amarelo-claro", exactly 0.7 "amarelo-escuro", exactly 0.5 "vermelho". */
  lemma BoundariesAreExclusive()
    ensures Classify(Finite(0.9)) == AmareloClaro
    ensures Classify(Finite(0.7)) == AmareloEscuro
    ensures Classify(Finite(0.5)) == Vermelho
  {
  }

  /** A larger ratio never yields a lower tier. */
  lemma ClassifyMonotone(a: real, b: real)
    requires a <= b
    ensures Classify(Finite(a)).Rank() <= Classify(Finite(b)).Rank()
    ensures Classify(Finite(b)).Rank() <= Classify(PosInfinity).Rank()
  {
  }

  /** With positive targets and a positive first wallet, the ratio is finite and positive. */
  lemma {:induction false} PositiveRatio(wallets: seq<Wallet>, goals: seq<Goal>)
    requires |wallets| > 0 && wallets[0].totalValue > 0.0 && |goals| > 0
    requires forall i :: 0 <= i < |goals| ==> goals[i].targetValue > 0.0
    ensures var q := Divide(TotalTarget(goals), wallets[0].totalValue);
      q.Finite? && q.value > 0.0
  {
    TargetsPositive(goals);
  }

  lemma {:induction false} TargetsPositive(goals: seq<Goal>)
    requires |goals| > 0
    requires forall i :: 0 <= i < |goals| ==> goals[i].targetValue > 0.0
    ensures TotalTarget(goals) > 0.0
    decreases |goals|
  {
    if |goals| > 1 {
      TargetsPositive(goals[..|goals| - 1]);
    }
  }

  /**
   * A first wallet worth 0 is not guarded: positive targets divide to
   * Infinity, which exceeds every threshold, so the result is a
   * non-finite alignment in the "verde" tier.
   */
  lemma EmptyWalletIsVerde(wallets: seq<Wallet>, goals: seq<Goal>)
    requires |wallets| > 0 && wallets[0].totalValue == 0.0 && |goals| > 0
    requires forall i :: 0 <= i < |goals| ==> goals[i].targetValue > 0.0
    ensures CalculateAlignment(wallets, goals) == Some(AlignmentResult(PosInfinity, Verde))
  {
    TargetsPositive(goals);
  }

  /** A wallet of 1000 against a single goal. */
  function OneGoalAlignment(target: real): Option<AlignmentResult> {
    CalculateAlignment([Wallet(1, "renda-fixa", 100.0, 1000.0)], [Goal(1, "investimento", target, Date(2030, 0, 1, 0))])
  }

  /** Targets 950, 800, 600 and 400 against a wallet of 1000. */
  lemma TierExamples()
    ensures OneGoalAlignment(950.0) == Some(AlignmentResult(Finite(95.0), Verde))
    ensures OneGoalAlignment(800.0) == Some(AlignmentResult(Finite(80.0), AmareloClaro))
    ensures OneGoalAlignment(600.0) == Some(AlignmentResult(Finite(60.0), AmareloEscuro))
    ensures OneGoalAlignment(400.0) == Some(AlignmentResult(Finite(40.0), Vermelho))
    ensures OneGoalAlignment(950.0).value.category.Label() == "verde"
    ensures OneGoalAlignment(800.0).value.category.Label() == "amarelo-claro"
    ensures OneGoalAlignment(600.0).value.category.Label() == "amarelo-escuro"
    ensures OneGoalAlignment(400.0).value.category.Label() == "vermelho"
  {
    forall t | t in {950.0, 800.0, 600.0, 400.0}
      ensures TotalTarget([Goal(1, "investimento", t, Date(2030, 0, 1, 0))]) == t
    {
      assert [Goal(1, "investimento", t, Date(2030, 0, 1, 0))][..0] == [];
    }
    assert NearestCent(95.0) == 9500 && NearestCent(80.0) == 8000;
    assert NearestCent(60.0) == 6000 && NearestCent(40.0) == 4000;
  }

  /**
   * The tier is decided on the unrounded ratio: 90001 against 100000
   * reports 90.00 but is "verde", while exactly 90.00 is "amarelo-claro".
   */
  lemma ClassifiesUnroundedRatio()
    ensures Percent(Divide(90001.0, 100000.0)) == Finite(90.0)
    ensures Classify(Divide(90001.0, 100000.0)) == Verde
    ensures Classify(Divide(90000.0, 100000.0)) == AmareloClaro
  {
    assert NearestCent(90.001) == 9000;
  }
}
